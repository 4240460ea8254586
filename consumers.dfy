/** Consumers of inputs, as the validator's tests drive them. */
module Consumers {
  import opened Wrappers
  import opened JavaIo
  import opened JavaSecurity
  import opened InputImpl
  import opened Api
  import opened HashCodeHelper

  /**
   * Reads a wrapped stream with 4096-byte reads until end of stream or the first read that
   * throws, passing through everything read.
   */
  method ReadToEnd(w: DigestingInputStream) returns (o: Outcome<Exception>)
    requires w.Valid()
    modifies w`digest, w`log, w.inner`pos
    ensures w.Valid()
    ensures o.Pass? <==> !w.inner.WillFail()
    ensures o.Fail? ==> o.error == IOException && w.inner.pos == w.inner.fault.value
    ensures o.Pass? ==> w.inner.pos == |w.inner.data|
    ensures old(w.inner.pos) <= w.inner.pos
    ensures w.digest.pending == old(w.digest.pending) + w.inner.data[old(w.inner.pos)..w.inner.pos]
  {
    var buffer := new byte[4096];
    ghost var pos0 := w.inner.pos;
    ghost var pending0 := w.digest.pending;
    while true
      invariant w.Valid()
      invariant pos0 <= w.inner.pos
      invariant w.digest.pending == pending0 + w.inner.data[pos0..w.inner.pos]
      decreases |w.inner.data| - w.inner.pos
    {
      ghost var before, pendingBefore := w.inner.pos, w.digest.pending;
      var n := w.Read(buffer);
      if n.Err? {
        return Fail(n.error);
      }
      if n.value == EOF {
        return Pass;
      }
      calc {
        w.digest.pending;
        pendingBefore + w.inner.data[before..w.inner.pos];
        pending0 + w.inner.data[pos0..before] + w.inner.data[before..w.inner.pos];
        { SliceJoin(w.inner.data, pos0, before, w.inner.pos); }
        pending0 + w.inner.data[pos0..w.inner.pos];
      }
    }
  }

  /**
   * A consumer that reads a wrapped stream to its end and then closes it, turning an
   * IOException into IllegalStateException. On success the target's hash is the digest of
   * everything the accumulator held plus the rest of the stream. A read that throws still
   * closes the wrapper, which then publishes the digest of the prefix read.
   */
  method Drain(w: DigestingInputStream) returns (o: Outcome<Exception>)
    requires w.Valid()
    modifies w`digest, w`log, w.inner`pos, w.inner`closed, w.reference`hashCode
    ensures w.Valid()
    ensures o.Pass? <==> !w.inner.WillFail() && !w.inner.closeFails
    ensures o.Fail? ==> o.error == IllegalState
    ensures w.inner.pos == if w.inner.WillFail() then w.inner.fault.value else |w.inner.data|
    ensures !w.inner.closeFails ==> w.inner.closed && w.digest.pending == []
    ensures w.inner.closeFails ==>
      w.reference.hashCode == old(w.reference.hashCode) && w.inner.closed == old(w.inner.closed)
    ensures o.Pass? ==>
      w.reference.hashCode == Some(w.provider.hash(w.algorithm, old(w.digest.pending) + old(w.inner.Remaining())))
    ensures !w.inner.closeFails && w.inner.WillFail() ==>
      w.reference.hashCode ==
      Some(w.provider.hash(w.algorithm, old(w.digest.pending) + w.inner.data[old(w.inner.pos)..w.inner.fault.value]))
  {
    var r := ReadToEnd(w);
    assert r.Pass? ==> w.inner.data[old(w.inner.pos)..w.inner.pos] == old(w.inner.Remaining());
    var c := w.Close();
    if r.Fail? || c.Fail? {
      return Fail(IllegalState);
    }
    return Pass;
  }

  /**
   * The two consumption strategies agree: the hash the eager path sets on an in-memory
   * input equals what a digesting wrapper publishes to a second input when the first
   * input's own stream is drained through it. Reading the same bytes twice therefore gives
   * equal hashes.
   */
  method EagerMatchesDeferred(p: Provider, bytes: seq<byte>, name: string) returns (eager: Input, deferred: Input)
    requires DEFAULT_ALGORITHM in p.supported && IsNotBlank(Some(name))
    ensures eager.hashCode == Some(p.hash(DEFAULT_ALGORITHM, bytes))
    ensures deferred.hashCode == eager.hashCode
    ensures deferred.payload == eager.payload
  {
    var read := ReadBytesDefault(p, Some(bytes), Some(name));
    eager := read.value;
    var stream := eager.payload.bytes.OpenStream();
    deferred := new Input(eager.payload);
    var wrapped := Wrap(p, deferred, stream.value, DEFAULT_ALGORITHM);
    var drained := Drain(wrapped.value);
    assert [] + bytes == bytes;
  }
}
