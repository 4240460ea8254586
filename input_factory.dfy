/**
 * InputFactory: turns a path, file, URL, byte array or byte stream into an Input. Byte
 * arrays, streams and paths are read eagerly, digesting every byte on the way, and yield an
 * in-memory input whose hash is set; URLs and files yield a reference input with no hash.
 */
module Api {
  import opened Wrappers
  import opened JavaIo
  import opened JavaSecurity
  import opened InputImpl
  import HashCodeHelper

  const DEFAULT_ALGORITHM: string := "SHA-256"
  const DEFAULT_BUFFER_SIZE: nat := 4096

  /** StringUtils.isNotEmpty: not null and at least one character. */
  predicate IsNotEmpty(s: Option<string>) {
    s.Some? && |s.value| > 0
  }

  /**
   * Character.isWhitespace as Java 8 (Unicode 6.2) defines it, chosen as the platform the
   * model follows; U+180E is still a space separator there.
   */
  predicate IsWhitespace(c: char) {
    || c == ' ' || c == '\t' || c == '\n' || c == '\U{000B}' || c == '\U{000C}' || c == '\r'
    || ('\U{001C}' <= c <= '\U{001F}')
    || c == '\U{1680}' || c == '\U{180E}'
    || ('\U{2000}' <= c <= '\U{2006}') || ('\U{2008}' <= c <= '\U{200A}')
    || c == '\U{2028}' || c == '\U{2029}' || c == '\U{205F}' || c == '\U{3000}'
  }

  /** StringUtils.isNotBlank: not null and some character is not whitespace. */
  predicate IsNotBlank(s: Option<string>) {
    s.Some? && exists i :: 0 <= i < |s.value| && !IsWhitespace(s.value[i])
  }

  /** The algorithm a factory uses: the given name, or SHA-256 when it is null or empty. */
  function ChooseAlgorithm(specified: Option<string>): (algorithm: string)
    ensures IsNotEmpty(specified) ==> algorithm == specified.value
    ensures !IsNotEmpty(specified) ==> algorithm == DEFAULT_ALGORITHM
    ensures |algorithm| > 0
  {
    if IsNotEmpty(specified) then specified.value else DEFAULT_ALGORITHM
  }

  /** checkNull: IllegalArgumentException for a null source, nothing otherwise. */
  function CheckNull<T>(input: Option<T>): (o: Outcome<Exception>)
    ensures o.Fail? <==> input.None?
    ensures o.Fail? ==> o.error == IllegalArgument
  {
    if input.None? then Fail(IllegalArgument) else Pass
  }

  /** A factory: the algorithm name it resolved at construction. */
  datatype InputFactory = InputFactory(algorithm: string) {

    /**
     * readStream: rejects a null or blank name before touching the stream; otherwise reads
     * the stream to its end in chunks of at most 4096 bytes, copying every chunk into the
     * output buffer and feeding it to the digest, and returns an in-memory input holding
     * exactly the bytes read, named `name`, whose hash is already the digest of those
     * bytes. A read that throws (a null stream throws on the first buffered read) or a
     * close that throws becomes IllegalArgumentException and no input is returned.
     */
    method ReadStream(provider: Provider, inputStream: Stream?, name: Option<string>)
      returns (r: Result<Input, Exception>)
      requires inputStream != null ==> inputStream.Valid()
      modifies inputStream
      ensures inputStream != null ==> inputStream.Valid()
      ensures r.Err? ==> r.error == IllegalArgument
      ensures r.Ok? <==>
        && IsNotBlank(name) && algorithm in provider.supported && inputStream != null
        && !inputStream.WillFail() && !inputStream.closeFails
      ensures inputStream != null && (!IsNotBlank(name) || algorithm !in provider.supported) ==>
        unchanged(inputStream)
      ensures inputStream != null && IsNotBlank(name) && algorithm in provider.supported && !inputStream.closeFails ==>
        inputStream.closed
      ensures inputStream != null && IsNotBlank(name) && algorithm in provider.supported ==>
        inputStream.pos == if inputStream.WillFail() then inputStream.fault.value else |inputStream.data|
      ensures r.Ok? ==>
        && inputStream != null && name.Some?
        && fresh(r.value)
        && r.value.payload == InMemory(ByteArrayInput(Some(old(inputStream.Remaining())), name.value, algorithm))
        && r.value.hashCode == Some(provider.hash(algorithm, old(inputStream.Remaining())))
    {
      if !IsNotBlank(name) {
        return Err(IllegalArgument);
      }
      var created := HashCodeHelper.CreateDigest(provider, algorithm);
      if created.Err? {
        return Err(created.error);
      }
      var digest := created.value;
      if inputStream == null {
        // new BufferedInputStream(null) throws IOException("Stream closed") on the first read
        return Err(IllegalArgument);
      }
      var buffer := new byte[DEFAULT_BUFFER_SIZE];
      var out: seq<byte> := [];
      ghost var start := inputStream.pos;
      while true
        invariant inputStream.Valid()
        invariant start <= inputStream.pos
        invariant out == inputStream.data[start..inputStream.pos]
        invariant digest == MessageDigest(provider, algorithm, out)
        invariant inputStream.closed == old(inputStream.closed)
        decreases |inputStream.data| - inputStream.pos
      {
        ghost var before := inputStream.pos;
        var n := inputStream.Read(buffer);
        if n.Err? {
          var _ := inputStream.Close();
          return Err(IllegalArgument);
        }
        if n.value == EOF {
          break;
        }
        digest := digest.Update(buffer[..n.value]);
        out := out + buffer[..n.value];
        SliceJoin(inputStream.data, start, before, inputStream.pos);
      }
      assert out == old(inputStream.Remaining());
      var hash := digest.Digest();
      digest := digest.Reset();
      var input := new Input(InMemory(ByteArrayInput(Some(out), name.value, digest.algorithm)));
      input.SetHashCode(Some(hash));
      var closed := inputStream.Close();
      if closed.Fail? {
        return Err(IllegalArgument);
      }
      return Ok(input);
    }
  }

  /**
   * new InputFactory(specifiedAlgorithm): takes the given name, or SHA-256 when it is null
   * or empty, and fails with IllegalArgumentException at once when the platform does not
   * support it.
   */
  function NewInputFactory(p: Provider, specifiedAlgorithm: Option<string>): (r: Result<InputFactory, Exception>)
    ensures r.Ok? <==> ChooseAlgorithm(specifiedAlgorithm) in p.supported
    ensures r.Ok? ==> r.value.algorithm == ChooseAlgorithm(specifiedAlgorithm)
    ensures r.Err? ==> r.error == IllegalArgument
  {
    var algorithm := ChooseAlgorithm(specifiedAlgorithm);
    var check := HashCodeHelper.CreateDigest(p, algorithm);
    if check.Err? then Err(check.error) else Ok(InputFactory(algorithm))
  }

  /** new InputFactory(): the factory for SHA-256. */
  function NewDefaultInputFactory(p: Provider): (r: Result<InputFactory, Exception>)
    ensures r.Ok? <==> DEFAULT_ALGORITHM in p.supported
    ensures r.Ok? ==> r.value.algorithm == DEFAULT_ALGORITHM
  {
    NewInputFactory(p, None)
  }

  /**
   * read(InputStream, name, digestAlgorithm): builds the factory first, so an unsupported
   * algorithm fails before the name is checked and before the stream is touched; then
   * readStream.
   */
  method ReadStream(p: Provider, inputStream: Stream?, name: Option<string>, digestAlgorithm: Option<string>)
    returns (r: Result<Input, Exception>)
    requires inputStream != null ==> inputStream.Valid()
    modifies inputStream
    ensures inputStream != null ==> inputStream.Valid()
    ensures r.Err? ==> r.error == IllegalArgument
    ensures inputStream != null && (!IsNotBlank(name) || ChooseAlgorithm(digestAlgorithm) !in p.supported) ==>
      unchanged(inputStream)
    ensures inputStream != null && IsNotBlank(name) && ChooseAlgorithm(digestAlgorithm) in p.supported && !inputStream.closeFails ==>
      inputStream.closed
    ensures inputStream != null && IsNotBlank(name) && ChooseAlgorithm(digestAlgorithm) in p.supported ==>
      inputStream.pos == if inputStream.WillFail() then inputStream.fault.value else |inputStream.data|
    ensures r.Ok? <==>
      && ChooseAlgorithm(digestAlgorithm) in p.supported && IsNotBlank(name) && inputStream != null
      && !inputStream.WillFail() && !inputStream.closeFails
    ensures r.Ok? ==>
      && inputStream != null && name.Some?
      && fresh(r.value)
      && r.value.payload ==
         InMemory(ByteArrayInput(Some(old(inputStream.Remaining())), name.value, ChooseAlgorithm(digestAlgorithm)))
      && r.value.hashCode == Some(p.hash(ChooseAlgorithm(digestAlgorithm), old(inputStream.Remaining())))
  {
    var factory := NewInputFactory(p, digestAlgorithm);
    if factory.Err? {
      return Err(factory.error);
    }
    r := factory.value.ReadStream(p, inputStream, name);
  }

  /** read(InputStream, name): readStream with SHA-256. */
  method ReadStreamDefault(p: Provider, inputStream: Stream?, name: Option<string>)
    returns (r: Result<Input, Exception>)
    requires inputStream != null ==> inputStream.Valid()
    modifies inputStream
    ensures inputStream != null ==> inputStream.Valid()
    ensures r.Err? ==> r.error == IllegalArgument
    ensures inputStream != null && (!IsNotBlank(name) || DEFAULT_ALGORITHM !in p.supported) ==>
      unchanged(inputStream)
    ensures inputStream != null && IsNotBlank(name) && DEFAULT_ALGORITHM in p.supported && !inputStream.closeFails ==>
      inputStream.closed
    ensures inputStream != null && IsNotBlank(name) && DEFAULT_ALGORITHM in p.supported ==>
      inputStream.pos == if inputStream.WillFail() then inputStream.fault.value else |inputStream.data|
    ensures r.Ok? <==>
      && DEFAULT_ALGORITHM in p.supported && IsNotBlank(name) && inputStream != null
      && !inputStream.WillFail() && !inputStream.closeFails
    ensures r.Ok? ==>
      && inputStream != null && name.Some?
      && fresh(r.value)
      && r.value.payload == InMemory(ByteArrayInput(Some(old(inputStream.Remaining())), name.value, DEFAULT_ALGORITHM))
      && r.value.hashCode == Some(p.hash(DEFAULT_ALGORITHM, old(inputStream.Remaining())))
  {
    r := ReadStream(p, inputStream, name, Some(DEFAULT_ALGORITHM));
  }

  /**
   * read(byte[], name, digestAlgorithm): a null array is rejected before the algorithm is
   * resolved; otherwise the bytes are read through a ByteArrayInputStream, which never
   * fails, so the result is an in-memory input holding exactly `input`.
   */
  method ReadBytes(p: Provider, input: Option<seq<byte>>, name: Option<string>, digestAlgorithm: Option<string>)
    returns (r: Result<Input, Exception>)
    ensures r.Err? ==> r.error == IllegalArgument
    ensures r.Ok? <==> input.Some? && ChooseAlgorithm(digestAlgorithm) in p.supported && IsNotBlank(name)
    ensures r.Ok? ==>
      && input.Some? && name.Some?
      && fresh(r.value)
      && r.value.payload == InMemory(ByteArrayInput(input, name.value, ChooseAlgorithm(digestAlgorithm)))
      && r.value.hashCode == Some(p.hash(ChooseAlgorithm(digestAlgorithm), input.value))
  {
    var check := CheckNull(input);
    if check.Fail? {
      return Err(check.error);
    }
    var stream := new Stream(Source(input.value, None, false));
    r := ReadStream(p, stream, name, digestAlgorithm);
  }

  /** read(byte[], name): the null check, then read(byte[], name, SHA-256). */
  method ReadBytesDefault(p: Provider, input: Option<seq<byte>>, name: Option<string>)
    returns (r: Result<Input, Exception>)
    ensures r.Err? ==> r.error == IllegalArgument
    ensures r.Ok? <==> input.Some? && DEFAULT_ALGORITHM in p.supported && IsNotBlank(name)
    ensures r.Ok? ==>
      && input.Some? && name.Some?
      && fresh(r.value)
      && r.value.payload == InMemory(ByteArrayInput(input, name.value, DEFAULT_ALGORITHM))
      && r.value.hashCode == Some(p.hash(DEFAULT_ALGORITHM, input.value))
  {
    var check := CheckNull(input);
    if check.Fail? {
      return Err(check.error);
    }
    r := ReadBytes(p, input, name, Some(DEFAULT_ALGORITHM));
  }

  /**
   * read(URL, digestAlgorithm): checks that the URL can be opened (and the probe stream
   * closed) and returns a reference input built from the URL, URL.getFile() and the
   * algorithm name exactly as given, with no hash. The algorithm is not resolved here.
   */
  method ReadUrl(env: Environment, url: Option<Url>, digestAlgorithm: Option<string>)
    returns (r: Result<Input, Exception>)
    ensures r.Err? ==> r.error == IllegalArgument
    ensures r.Ok? <==> url.Some? && url.value in env.urls && !env.urls[url.value].closeFails
    ensures r.Ok? ==>
      && url.Some?
      && fresh(r.value)
      && r.value.payload == Reference(ResourceInput(url.value, url.value.file, digestAlgorithm))
      && r.value.hashCode == None
  {
    var check := CheckNull(url);
    if check.Fail? {
      return Err(check.error);
    }
    var probe := Open(env.urls, url.value);
    if probe.Err? {
      return Err(IllegalArgument);
    }
    var input := new Input(Reference(ResourceInput(url.value, url.value.file, digestAlgorithm)));
    var closed := probe.value.Close();
    if closed.Fail? {
      return Err(IllegalArgument);
    }
    return Ok(input);
  }

  /** read(URL): read(URL, SHA-256). */
  method ReadUrlDefault(env: Environment, url: Option<Url>) returns (r: Result<Input, Exception>)
    ensures r.Err? ==> r.error == IllegalArgument
    ensures r.Ok? <==> url.Some? && url.value in env.urls && !env.urls[url.value].closeFails
    ensures r.Ok? ==>
      && url.Some?
      && fresh(r.value)
      && r.value.payload == Reference(ResourceInput(url.value, url.value.file, Some(DEFAULT_ALGORITHM)))
      && r.value.hashCode == None
  {
    r := ReadUrl(env, url, Some(DEFAULT_ALGORITHM));
  }

  /**
   * read(File, digestAlgorithm): converts the file to a URL (a MalformedURLException
   * becomes IllegalArgumentException) and reads that URL.
   */
  method ReadFile(env: Environment, file: Option<File>, digestAlgorithm: Option<string>)
    returns (r: Result<Input, Exception>)
    ensures r.Err? ==> r.error == IllegalArgument
    ensures r.Ok? <==>
      && file.Some? && env.fileToUrl(file.value).Some?
      && var url := env.fileToUrl(file.value).value;
         url in env.urls && !env.urls[url].closeFails
    ensures r.Ok? ==>
      && file.Some? && env.fileToUrl(file.value).Some?
      && var url := env.fileToUrl(file.value).value;
         && fresh(r.value)
         && r.value.payload == Reference(ResourceInput(url, url.file, digestAlgorithm))
         && r.value.hashCode == None
  {
    var check := CheckNull(file);
    if check.Fail? {
      return Err(check.error);
    }
    var url := env.fileToUrl(file.value);
    if url.None? {
      return Err(IllegalArgument);
    }
    r := ReadUrl(env, url, digestAlgorithm);
  }

  /** read(File): read(File, SHA-256). */
  method ReadFileDefault(env: Environment, file: Option<File>) returns (r: Result<Input, Exception>)
    ensures r.Err? ==> r.error == IllegalArgument
    ensures r.Ok? <==>
      && file.Some? && env.fileToUrl(file.value).Some?
      && var url := env.fileToUrl(file.value).value;
         url in env.urls && !env.urls[url].closeFails
    ensures r.Ok? ==>
      && file.Some? && env.fileToUrl(file.value).Some?
      && var url := env.fileToUrl(file.value).value;
         && fresh(r.value)
         && r.value.payload == Reference(ResourceInput(url, url.file, Some(DEFAULT_ALGORITHM)))
         && r.value.hashCode == None
  {
    r := ReadFile(env, file, Some(DEFAULT_ALGORITHM));
  }

  /**
   * read(Path, digestAlgorithm): opens the file (failing with IllegalArgumentException if it
   * cannot be opened) before the algorithm is resolved, then reads the stream eagerly under
   * the name path.toString() and closes it again.
   */
  method ReadPath(env: Environment, p: Provider, path: Option<Path>, digestAlgorithm: Option<string>)
    returns (r: Result<Input, Exception>)
    ensures r.Err? ==> r.error == IllegalArgument
    ensures r.Ok? <==>
      && path.Some? && path.value in env.files
      && ChooseAlgorithm(digestAlgorithm) in p.supported && IsNotBlank(Some(path.value.text))
      && !env.files[path.value].Faulty() && !env.files[path.value].closeFails
    ensures r.Ok? ==>
      && path.Some? && path.value in env.files
      && fresh(r.value)
      && r.value.payload ==
         InMemory(ByteArrayInput(Some(env.files[path.value].data), path.value.text, ChooseAlgorithm(digestAlgorithm)))
      && r.value.hashCode == Some(p.hash(ChooseAlgorithm(digestAlgorithm), env.files[path.value].data))
  {
    var check := CheckNull(path);
    if check.Fail? {
      return Err(check.error);
    }
    var stream := Open(env.files, path.value);
    if stream.Err? {
      return Err(IllegalArgument);
    }
    r := ReadStream(p, stream.value, Some(path.value.text), digestAlgorithm);
    var closed := stream.value.Close();
    if closed.Fail? && r.Ok? {
      r := Err(IllegalArgument);
    }
  }

  /** read(Path): read(Path, SHA-256). */
  method ReadPathDefault(env: Environment, p: Provider, path: Option<Path>) returns (r: Result<Input, Exception>)
    ensures r.Err? ==> r.error == IllegalArgument
    ensures r.Ok? <==>
      && path.Some? && path.value in env.files
      && DEFAULT_ALGORITHM in p.supported && IsNotBlank(Some(path.value.text))
      && !env.files[path.value].Faulty() && !env.files[path.value].closeFails
    ensures r.Ok? ==>
      && path.Some? && path.value in env.files
      && fresh(r.value)
      && r.value.payload == InMemory(ByteArrayInput(Some(env.files[path.value].data), path.value.text, DEFAULT_ALGORITHM))
      && r.value.hashCode == Some(p.hash(DEFAULT_ALGORITHM, env.files[path.value].data))
  {
    r := ReadPath(env, p, path, Some(DEFAULT_ALGORITHM));
  }
}
