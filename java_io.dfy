/**
 * The I/O the input core is given: byte sources read through java.io.InputStream, and
 * the file system and URLs they are opened from. Every source is abstract: what it would
 * deliver, where (if anywhere) a read throws, and whether closing it throws.
 */
module JavaIo {
  import opened Wrappers

  type byte = bv8

  /** What InputStream.read(byte[]) returns at end of stream. */
  const EOF: int := -1

  /**
   * A byte source: the bytes it delivers, the offset at which a read throws IOException
   * (if any) and whether close() throws IOException.
   */
  datatype Source = Source(data: seq<byte>, fault: Option<nat>, closeFails: bool) {

    /** A read throws before the end of the stream is reported. */
    predicate Faulty() {
      fault.Some? && fault.value <= |data|
    }
  }

  /**
   * An open InputStream over a Source. `pos` counts the bytes delivered; the size of each
   * chunk a read delivers is not determined (any count from 1 up to the buffer size).
   * Reads do not consult `closed`: whether a closed stream still yields bytes depends on
   * the concrete stream (a ByteArrayInputStream does).
   */
  class Stream {
    const data: seq<byte>
    const fault: Option<nat>
    const closeFails: bool
    var pos: nat
    var closed: bool

    ghost predicate Valid()
      reads this
    {
      pos <= |data| && (fault.Some? ==> pos <= fault.value)
    }

    constructor (src: Source)
      ensures Valid() && pos == 0 && !closed
      ensures data == src.data && fault == src.fault && closeFails == src.closeFails
    {
      data, fault, closeFails := src.data, src.fault, src.closeFails;
      pos, closed := 0, false;
    }

    /** The bytes still to be delivered. */
    function Remaining(): seq<byte>
      reads this
      requires Valid()
    {
      data[pos..]
    }

    /** Some later read throws before the end of the stream is reported. */
    predicate WillFail()
      reads this
    {
      Source(data, fault, closeFails).Faulty()
    }

    /** InputStream.read(byte[] b). */
    method Read(b: array<byte>) returns (r: Result<int, Exception>)
      requires Valid()
      modifies this`pos, b
      ensures Valid()
      ensures r.Err? <==> b.Length > 0 && fault == Some(old(pos))
      ensures r.Err? ==> r.error == IOException
      ensures r == Ok(EOF) <==> b.Length > 0 && old(pos) == |data| && fault != Some(old(pos))
      ensures r.Ok? && r.value != EOF ==> 0 <= r.value <= b.Length && (b.Length > 0 ==> r.value > 0)
      ensures r.Ok? && r.value != EOF ==> pos == old(pos) + r.value
      ensures r.Ok? && r.value != EOF ==> b[..r.value] == data[old(pos)..pos]
      ensures r.Ok? && r.value != EOF ==> b[r.value..] == old(b[r.value..])
      ensures (r.Err? || r == Ok(EOF)) ==> pos == old(pos) && b[..] == old(b[..])
    {
      if b.Length == 0 {
        return Ok(0);
      }
      if fault == Some(pos) {
        return Err(IOException);
      }
      if pos == |data| {
        return Ok(EOF);
      }
      var limit := if fault.Some? && fault.value < |data| then fault.value else |data|;
      var most := if b.Length < limit - pos then b.Length else limit - pos;
      var n :| 1 <= n <= most;
      forall i | 0 <= i < n {
        b[i] := data[pos + i];
      }
      pos := pos + n;
      return Ok(n);
    }

    /** InputStream.close(). */
    method Close() returns (o: Outcome<Exception>)
      modifies this`closed
      ensures o.Fail? <==> closeFails
      ensures o.Fail? ==> o.error == IOException && closed == old(closed)
      ensures o.Pass? ==> closed
    {
      if closeFails {
        return Fail(IOException);
      }
      closed := true;
      return Pass;
    }
  }

  /** Adjacent slices of a sequence join into one. */
  lemma SliceJoin<T>(s: seq<T>, i: nat, j: nat, k: nat)
    requires i <= j <= k <= |s|
    ensures s[i..j] + s[j..k] == s[i..k]
  {
  }

  /** java.net.URL; `file` is what URL.getFile() returns. */
  datatype Url = Url(protocol: string, host: string, file: string)

  /** java.nio.file.Path; `text` is what Path.toString() returns. */
  datatype Path = Path(text: string)

  /** java.io.File. */
  datatype File = File(pathname: string)

  /**
   * What can be opened: the files Files.newInputStream opens, the URLs URL.openStream opens,
   * and the result of file.toURI().toURL() (None where it throws MalformedURLException).
   */
  datatype Environment = Environment(
    files: map<Path, Source>,
    urls: map<Url, Source>,
    fileToUrl: File -> Option<Url>)

  /** Opens a stream over the source stored under `key`; throws IOException when there is none. */
  method Open<K>(sources: map<K, Source>, key: K) returns (r: Result<Stream, Exception>)
    ensures r.Err? <==> key !in sources
    ensures r.Err? ==> r.error == IOException
    ensures r.Ok? ==>
      fresh(r.value) && r.value.Valid() && r.value.pos == 0 && !r.value.closed &&
      r.value.data == sources[key].data && r.value.fault == sources[key].fault &&
      r.value.closeFails == sources[key].closeFails
  {
    if key !in sources {
      return Err(IOException);
    }
    var s := new Stream(sources[key]);
    return Ok(s);
  }
}
