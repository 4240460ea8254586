/**
 * The Input variants: the hash cell every input shares (AbstractInput), the in-memory
 * input (ByteArrayInput) and the reference input (ResourceInput).
 */
module InputImpl {
  import opened Wrappers
  import opened JavaIo

  /**
   * ByteArrayInput: fully read content, the input's name and the digest algorithm's name,
   * all fixed at construction. `content` may be null, as the all-arguments constructor allows.
   */
  datatype ByteArrayInput = ByteArrayInput(content: Option<seq<byte>>, name: string, digestAlgorithm: string) {

    /** getLength(): the number of content bytes, 0 for null content. */
    function GetLength(): (n: nat)
      ensures content.Some? ==> n == |content.value|
      ensures content.None? ==> n == 0
    {
      if content.Some? then |content.value| else 0
    }

    /**
     * openStream(): a fresh ByteArrayInputStream that replays the content from its first
     * byte, never fails and whose close() has no effect; null content makes the
     * ByteArrayInputStream constructor throw NullPointerException.
     */
    method OpenStream() returns (r: Result<Stream, Exception>)
      ensures r.Err? <==> content.None?
      ensures r.Err? ==> r.error == NullPointer
      ensures r.Ok? ==>
        fresh(r.value) && r.value.Valid() && !r.value.closed &&
        r.value.Remaining() == content.value && |r.value.Remaining()| == GetLength() &&
        !r.value.WillFail() && !r.value.closeFails
    {
      if content.None? {
        return Err(NullPointer);
      }
      var s := new Stream(Source(content.value, None, false));
      return Ok(s);
    }
  }

  /**
   * ResourceInput, seen only from the factory: a locator, a name and the algorithm name it
   * was given (possibly null), with no bytes read.
   */
  datatype ResourceInput = ResourceInput(url: Url, name: string, digestAlgorithm: Option<string>)

  /** Which kind of input an Input is, with its immutable fields. */
  datatype Payload = InMemory(bytes: ByteArrayInput) | Reference(resource: ResourceInput)

  /**
   * An Input: its immutable payload and AbstractInput's nullable hashCode field, the only
   * state that changes after construction.
   */
  class Input {
    const payload: Payload
    var hashCode: Option<seq<byte>>

    /** A freshly constructed input has no hash. */
    constructor (payload: Payload)
      ensures this.payload == payload && hashCode == None
      ensures !IsHashcodeComputed()
    {
      this.payload := payload;
      hashCode := None;
    }

    /** getHashCode(): the hash, or IllegalStateException while none has been set. */
    function GetHashCode(): (r: Result<seq<byte>, Exception>)
      reads this
      ensures r.Ok? <==> hashCode.Some?
      ensures r.Ok? ==> hashCode == Some(r.value)
      ensures r.Err? ==> r.error == IllegalState
    {
      if hashCode.None? then Err(IllegalState) else Ok(hashCode.value)
    }

    /**
     * isHashcodeComputed(): a query that depends on the hash field alone, holding exactly
     * when getHashCode() would return instead of throwing.
     */
    predicate IsHashcodeComputed()
      reads this
      ensures IsHashcodeComputed() <==> GetHashCode().Ok?
    {
      hashCode.Some?
    }

    /**
     * setHashCode(digest): assigns the field whatever it held before, so a second call
     * replaces the first value and a null digest makes the hash "not computed" again.
     * Nothing but the hash changes.
     */
    method SetHashCode(digest: Option<seq<byte>>)
      modifies this`hashCode
      ensures hashCode == digest
      ensures digest.Some? ==> GetHashCode() == Ok(digest.value) && IsHashcodeComputed()
      ensures digest.None? ==> GetHashCode() == Err(IllegalState) && !IsHashcodeComputed()
    {
      hashCode := digest;
    }
  }
}
