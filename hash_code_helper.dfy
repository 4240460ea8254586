/**
 * HashCodeHelper: resolving digest algorithms, and the deferred digest that a
 * DigestingInputStream computes while someone else reads the stream and publishes to its
 * target input when the stream is closed.
 */
module HashCodeHelper {
  import opened Wrappers
  import opened JavaIo
  import opened JavaSecurity
  import opened InputImpl

  /**
   * createDigest: a fresh accumulator for a name the platform supports; for any other name
   * the NoSuchAlgorithmException becomes an IllegalArgumentException.
   */
  function CreateDigest(p: Provider, algorithm: string): (r: Result<MessageDigest, Exception>)
    ensures r.Ok? <==> algorithm in p.supported
    ensures r.Ok? ==> r.value.provider == p && r.value.algorithm == algorithm && r.value.pending == []
    ensures r.Err? ==> r.error == IllegalArgument
  {
    if algorithm in p.supported then Ok(MessageDigest(p, algorithm, [])) else Err(IllegalArgument)
  }

  /** What happens through a DigestingInputStream: a read that passes bytes, or a close that publishes. */
  datatype Event = Passed(bytes: seq<byte>) | Published

  /** Every byte that has passed through the wrapper, in order. */
  function Delivered(log: seq<Event>): seq<byte>
  {
    if log == [] then []
    else Delivered(log[..|log| - 1]) + (match log[|log| - 1] case Passed(b) => b case Published => [])
  }

  /**
   * The bytes the accumulator holds: those passed since the last publication (digest()
   * resets the accumulator).
   */
  function Pending(log: seq<Event>): seq<byte>
  {
    if log == [] then []
    else match log[|log| - 1]
      case Passed(b) => Pending(log[..|log| - 1]) + b
      case Published => []
  }

  /** The bytes each publication digested, one entry per successful close, in order. */
  function Segments(log: seq<Event>): seq<seq<byte>>
  {
    if log == [] then []
    else match log[|log| - 1]
      case Passed(_) => Segments(log[..|log| - 1])
      case Published => Segments(log[..|log| - 1]) + [Pending(log[..|log| - 1])]
  }

  function Flatten(segments: seq<seq<byte>>): seq<byte>
  {
    if segments == [] then [] else Flatten(segments[..|segments| - 1]) + segments[|segments| - 1]
  }

  /** A read that passes `b` adds `b` to what was delivered and what is pending. */
  lemma LogPassed(log: seq<Event>, b: seq<byte>)
    ensures Delivered(log + [Passed(b)]) == Delivered(log) + b
    ensures Pending(log + [Passed(b)]) == Pending(log) + b
    ensures Segments(log + [Passed(b)]) == Segments(log)
  {
  }

  /** A publication digests what was pending and leaves nothing pending. */
  lemma LogPublished(log: seq<Event>)
    ensures Delivered(log + [Published]) == Delivered(log)
    ensures Pending(log + [Published]) == []
    ensures Segments(log + [Published]) == Segments(log) + [Pending(log)]
  {
  }

  /**
   * The publications partition what was read: every byte passed through the wrapper was
   * digested by exactly one publication, in order, or is still pending.
   */
  lemma {:induction false} Coverage(log: seq<Event>)
    ensures Flatten(Segments(log)) + Pending(log) == Delivered(log)
  {
    if log != [] {
      var init := log[..|log| - 1];
      Coverage(init);
      match log[|log| - 1]
      case Passed(b) =>
        calc {
          Flatten(Segments(log)) + Pending(log);
          Flatten(Segments(init)) + (Pending(init) + b);
          (Flatten(Segments(init)) + Pending(init)) + b;
          Delivered(log);
        }
      case Published =>
        var segs := Segments(init) + [Pending(init)];
        assert segs[..|segs| - 1] == Segments(init);
        assert Flatten(Segments(log)) == Flatten(Segments(init)) + Pending(init);
    }
  }

  /**
   * Closing twice publishes twice: the second publication digests only what was read
   * between the two closes, so with nothing read in between it is the digest of no bytes.
   */
  lemma {:induction false} SecondClose(log: seq<Event>, between: seq<byte>)
    ensures Segments(log + [Published, Passed(between), Published]) == Segments(log) + [Pending(log), between]
    ensures Segments(log + [Published, Published]) == Segments(log) + [Pending(log), []]
  {
    var once := log + [Published];
    assert once[..|log|] == log;
    assert Segments(once) == Segments(log) + [Pending(log)];
    assert Pending(once) == [];
    var twice := once + [Published];
    assert twice == log + [Published, Published];
    assert twice[..|once|] == once;
    assert Segments(twice) == Segments(once) + [Pending(once)];
    var passed := once + [Passed(between)];
    assert passed[..|once|] == once;
    assert Segments(passed) == Segments(once);
    assert Pending(passed) == Pending(once) + between == between;
    var thrice := passed + [Published];
    assert thrice == log + [Published, Passed(between), Published];
    assert thrice[..|passed|] == passed;
    assert Segments(thrice) == Segments(passed) + [Pending(passed)];
  }

  /**
   * DigestingInputStream: passes reads of `inner` through unchanged while feeding every
   * byte read to `digest`; close() closes `inner` and then gives `reference` the digest.
   */
  class DigestingInputStream {
    const inner: Stream
    const reference: Input
    const provider: Provider
    const algorithm: string
    var digest: MessageDigest
    /** Where `inner` stood when it was wrapped. */
    ghost const start: nat
    ghost var log: seq<Event>

    ghost predicate Valid()
      reads this, inner
    {
      && inner.Valid()
      && start <= inner.pos
      && Delivered(log) == inner.data[start..inner.pos]
      && digest.provider == provider && digest.algorithm == algorithm && digest.pending == Pending(log)
    }

    constructor (input: Input, stream: Stream, digest: MessageDigest)
      requires stream.Valid() && digest.pending == []
      ensures Valid() && log == [] && start == stream.pos
      ensures inner == stream && reference == input && this.digest == digest
      ensures provider == digest.provider && algorithm == digest.algorithm
    {
      inner, reference, this.digest := stream, input, digest;
      provider, algorithm := digest.provider, digest.algorithm;
      start := stream.pos;
      log := [];
    }

    /**
     * read(byte[] b): the inner stream's answer unchanged; the bytes it delivered are fed to
     * the digest, the rest of `b` keeps its contents, and an end of stream or an exception
     * leaves `b` as it was. The target input is not touched.
     */
    method Read(b: array<byte>) returns (r: Result<int, Exception>)
      requires Valid()
      modifies this`digest, this`log, inner`pos, b
      ensures Valid()
      ensures r.Err? <==> b.Length > 0 && inner.fault == Some(old(inner.pos))
      ensures r.Err? ==> r.error == IOException
      ensures r == Ok(EOF) <==> b.Length > 0 && old(inner.pos) == |inner.data| && inner.fault != Some(old(inner.pos))
      ensures r.Ok? && r.value != EOF ==> 0 <= r.value <= b.Length && (b.Length > 0 ==> r.value > 0)
      ensures r.Ok? && r.value != EOF ==> inner.pos == old(inner.pos) + r.value
      ensures r.Ok? && r.value != EOF ==> b[..r.value] == inner.data[old(inner.pos)..inner.pos]
      ensures r.Ok? && r.value != EOF ==> b[r.value..] == old(b[r.value..])
      ensures r.Ok? && r.value != EOF ==> log == old(log) + [Passed(b[..r.value])]
      ensures old(inner.pos) <= inner.pos
      ensures digest.pending == old(digest.pending) + inner.data[old(inner.pos)..inner.pos]
      ensures (r.Err? || r == Ok(EOF)) ==>
        inner.pos == old(inner.pos) && log == old(log) && digest == old(digest) && b[..] == old(b[..])
    {
      ghost var pos0 := inner.pos;
      r := inner.Read(b);
      if r.Ok? && r.value != EOF {
        var bytes := b[..r.value];
        LogPassed(log, bytes);
        digest := digest.Update(bytes);
        log := log + [Passed(bytes)];
        SliceJoin(inner.data, start, pos0, inner.pos);
      }
    }

    /**
     * close(): closes the inner stream first; if that throws, nothing is published and the
     * accumulator keeps its bytes. Otherwise the target receives the digest of the bytes
     * read since the last publication, and the accumulator starts again from nothing. No
     * guard stops a second close from publishing again.
     */
    method Close() returns (o: Outcome<Exception>)
      requires Valid()
      modifies inner`closed, this`digest, this`log, reference`hashCode
      ensures Valid()
      ensures o.Fail? <==> inner.closeFails
      ensures o.Fail? ==>
        o.error == IOException && reference.hashCode == old(reference.hashCode) &&
        log == old(log) && digest == old(digest) && inner.closed == old(inner.closed)
      ensures o.Pass? ==>
        inner.closed && reference.hashCode == Some(provider.hash(algorithm, old(digest.pending))) &&
        log == old(log) + [Published] && digest.pending == []
    {
      o := inner.Close();
      if o.Fail? {
        return;
      }
      var hash := digest.Digest();
      digest := digest.Reset();
      LogPublished(log);
      log := log + [Published];
      reference.SetHashCode(Some(hash));
    }
  }

  /**
   * wrap: resolves the algorithm before anything is read, so an unknown name fails at once;
   * otherwise a wrapper over `stream` publishing to `input`, with nothing read yet.
   */
  method Wrap(p: Provider, input: Input, stream: Stream, digestAlgorithm: string)
    returns (r: Result<DigestingInputStream, Exception>)
    requires stream.Valid()
    ensures r.Err? <==> digestAlgorithm !in p.supported
    ensures r.Err? ==> r.error == IllegalArgument
    ensures r.Ok? ==>
      fresh(r.value) && r.value.Valid() && r.value.log == [] &&
      r.value.inner == stream && r.value.reference == input && r.value.start == stream.pos &&
      r.value.provider == p && r.value.algorithm == digestAlgorithm
  {
    var digest := CreateDigest(p, digestAlgorithm);
    if digest.Err? {
      return Err(digest.error);
    }
    var w := new DigestingInputStream(input, stream, digest.value);
    return Ok(w);
  }
}
