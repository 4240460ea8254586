# Input ingestion of the KoSIT validator, in Dafny

This project models how the KoSIT validator turns a document source into an `Input` and
tracks that input's content hash:

- `InputFactory` reads byte arrays, byte streams and file-system paths eagerly. A single
  chunked loop copies every byte into an output buffer and feeds the same bytes to a
  `MessageDigest`. The result is an in-memory input (`ByteArrayInput`) whose hash is already
  set. URLs and `File`s take the reference path instead: the factory only checks that the
  resource can be opened and returns a `ResourceInput` without a hash.
- `AbstractInput` holds the nullable hash field that both input kinds share.
  `getHashCode` throws `IllegalStateException` while the field is unset,
  `isHashcodeComputed` queries it and `setHashCode` overwrites it.
- `HashCodeHelper` resolves algorithm names. Its `DigestingInputStream` passes reads
  through unchanged while digesting them, and on `close()` it closes the inner stream and
  then publishes the digest to its target input.
- `ByteArrayInput` holds content, name and algorithm name in final fields. The fields are
  final but the content array is shared with callers (see "## Left out").

## How the model is built

- `wrappers.dfy`: `Option` stands for a Java reference that may be null. `Result` and
  `Outcome` stand for calls that may throw. `Exception` lists the exception classes
  involved.
- `java_io.dfy`: the abstract I/O. A `Source` is what a stream would deliver, the offset at
  which a read throws `IOException` (if any), and whether `close()` throws. `Stream` is an
  open `InputStream` over a source. The chunk size each read delivers is left open: any
  count from 1 up to the buffer length. `Environment` says which paths and URLs can be
  opened, and what `file.toURI().toURL()` gives.
- `java_security.dfy`: the digest algorithms are abstract. A `Provider` is a set of
  supported names plus an uninterpreted function `hash(algorithm, bytes)`. A
  `MessageDigest` is a value holding its algorithm and the bytes fed since the last
  `digest()`.
- `input_impl.dfy`: `AbstractInput` becomes the class `Input`. It holds an immutable
  `payload`, which is either `InMemory(ByteArrayInput)` or `Reference(ResourceInput)` and so
  plays the role of the subclass, plus the mutable `hashCode` field. The subclass is thus a
  field of the class `Input` (composition) rather than a subtype, which keeps the shared
  hash field in one place and the two payload kinds a closed choice. `content`, `name` and
  `digestAlgorithm` are fields of a datatype, which makes them immutable by construction.
- `hash_code_helper.dfy`: `CreateDigest`, `Wrap` and the class `DigestingInputStream`.
  The class has a ghost event log. The functions `Delivered`, `Pending` and `Segments`
  describe the log: everything read, what the accumulator holds, and the bytes each
  publication digested.
- `input_factory.dfy`: module `Api` holds the factory, which is a datatype because its only
  field is final. It also holds every `read` overload. Java overloads become distinct names:
  `ReadPath`, `ReadPathDefault`, `ReadUrl`, and so on.
- `consumers.dfy`: clients written the way the validator's tests use the core. They drain a
  wrapped stream, and they show that the eager and the deferred hash agree.

The network and the file system become the `Environment` and `Source`
parameters. The platform's digest providers become the `Provider` parameter.

Where one might expect a write-once hash or a single publication, the model follows the code:

- `DigestingInputStream.close()` has no "already published" guard. Every successful close
  publishes again, and `digest()` has reset the accumulator, so a second close publishes the
  digest of whatever was read in between. `SecondClose` states this.
- The hash field is not write-once. `setHashCode` overwrites it, and `setHashCode(null)`
  makes the input "not computed" again.
- The URL and `File` paths never resolve the algorithm name. An unknown name, or null, is
  stored unchecked in the `ResourceInput`. Only the byte-array, stream and path paths build
  an `InputFactory`.
- `read(Path, algorithm)` opens the file before the algorithm is resolved. An unknown
  algorithm still fails with `IllegalArgumentException`, but only after the file was opened.
- A drain whose read throws still closes the wrapper inside try-with-resources, and that
  close publishes the digest of the prefix read. `Consumers.Drain` states this case.

## Model

| member | source | states |
|---|---|---|
| `Api.ChooseAlgorithm` | src/main/java/de/kosit/validationtool/api/InputFactory.java:72-73 | The algorithm is the given name when that name is non-null and non-empty, and "SHA-256" otherwise; it is never empty. |
| `Api.NewInputFactory` | src/main/java/de/kosit/validationtool/api/InputFactory.java:72-76 | Construction succeeds exactly when the chosen name is supported, and the factory then carries only that name (the platform is passed to each read); otherwise it fails with IllegalArgumentException. |
| `Api.NewDefaultInputFactory` | src/main/java/de/kosit/validationtool/api/InputFactory.java:68-70 | The no-argument factory uses SHA-256 and exists exactly when SHA-256 is supported. |
| `Api.CheckNull` | src/main/java/de/kosit/validationtool/api/InputFactory.java:188-192 | Fails, with IllegalArgumentException, exactly for a null source. |
| `Api.InputFactory.ReadStream` | src/main/java/de/kosit/validationtool/api/InputFactory.java:217-244 | A blank name or an unsupported algorithm fails before the stream is touched. Otherwise the result is an input exactly when the stream is non-null, no read throws and close does not throw. That input is fresh, holds exactly the bytes that remained in the stream, in order, with the given name and the factory's algorithm, and already has its hash set to the digest of those bytes. Every failure is IllegalArgumentException. Once reading has started, the stream is closed on every exit path whose close can succeed. The loop invariant is: output buffer = bytes consumed = bytes fed to the digest. Once reading has started, the stream is left at its end after a full read, or at the fault when a read throws. |
| `Api.ReadStream` | src/main/java/de/kosit/validationtool/api/InputFactory.java:213-215 | An algorithm that cannot be resolved fails before the name check, and a blank name fails before any read; either way the stream is untouched. Otherwise the result is as for readStream, with the defaulted algorithm: an input exactly when the stream is non-null and no read or close throws, holding the remaining bytes and their digest, and the stream is closed whenever its close can succeed. Every failure is IllegalArgumentException. Once reading has started, the stream is left at its end after a full read, or at the fault when a read throws. |
| `Api.ReadStreamDefault` | src/main/java/de/kosit/validationtool/api/InputFactory.java:201-203 | As read(stream, name, alg) with SHA-256: an unsupported SHA-256 or a blank name fails with the stream untouched; otherwise the result holds the remaining bytes and their SHA-256 digest, and the stream is closed whenever its close can succeed. Once reading has started, the stream is left at its end after a full read, or at the fault when a read throws. |
| `Api.ReadBytes` | src/main/java/de/kosit/validationtool/api/InputFactory.java:183-186 | A null array fails. Otherwise it succeeds exactly when the algorithm is supported and the name is not blank. The input then holds exactly the array's bytes and its hash is their digest. |
| `Api.ReadBytesDefault` | src/main/java/de/kosit/validationtool/api/InputFactory.java:170-173 | As read(bytes, name, alg) with SHA-256; a null array is rejected first. |
| `Api.ReadUrl` | src/main/java/de/kosit/validationtool/api/InputFactory.java:136-143 | A null URL, a URL that cannot be opened, or a probe that fails to close gives IllegalArgumentException. Otherwise the result is a fresh reference input built from the URL, url.getFile() and the algorithm name as given, with no hash. |
| `Api.ReadUrlDefault` | src/main/java/de/kosit/validationtool/api/InputFactory.java:124-126 | As read(url, alg) with SHA-256 recorded in the input. |
| `Api.ReadFile` | src/main/java/de/kosit/validationtool/api/InputFactory.java:153-161 | A null file or a file that cannot be converted to a URL fails with IllegalArgumentException; otherwise the result is exactly that of reading the file's URL. |
| `Api.ReadFileDefault` | src/main/java/de/kosit/validationtool/api/InputFactory.java:113-115 | As read(file, alg) with SHA-256. |
| `Api.ReadPath` | src/main/java/de/kosit/validationtool/api/InputFactory.java:97-104 | A null path, an unopenable file, an unsupported algorithm, a blank path text, a faulty read or a failing close gives IllegalArgumentException. Otherwise the result is an in-memory input named path.toString() that holds the file's bytes and their digest. |
| `Api.ReadPathDefault` | src/main/java/de/kosit/validationtool/api/InputFactory.java:85-87 | As read(path, alg) with SHA-256. |
| `InputImpl.Input.constructor` | src/main/java/de/kosit/validationtool/impl/input/AbstractInput.java:15 | A freshly built input has no hash, so isHashcodeComputed() is false. |
| `InputImpl.Input.GetHashCode` | src/main/java/de/kosit/validationtool/impl/input/AbstractInput.java:18-23 | Returns the stored hash exactly when the field is set, and IllegalStateException otherwise. |
| `InputImpl.Input.IsHashcodeComputed` | src/main/java/de/kosit/validationtool/impl/input/AbstractInput.java:26-28 | True exactly when getHashCode() would return rather than throw. It reads only the field and changes nothing. |
| `InputImpl.Input.SetHashCode` | src/main/java/de/kosit/validationtool/impl/input/AbstractInput.java:31-33 | The field becomes the argument whatever it held before. With a digest, getHashCode() returns it; with null, the input is "not computed" again. Only the hash field may change. |
| `InputImpl.ByteArrayInput.GetLength` | src/main/java/de/kosit/validationtool/impl/input/ByteArrayInput.java:25-27 | The number of content bytes, or 0 for null content. |
| `InputImpl.ByteArrayInput.OpenStream` | src/main/java/de/kosit/validationtool/impl/input/ByteArrayInput.java:30-32 | Each call returns a fresh stream that delivers exactly the content from its first byte (GetLength() bytes), never fails and closes without error; null content throws NullPointerException. |
| `HashCodeHelper.CreateDigest` | src/main/java/de/kosit/validationtool/impl/input/HashCodeHelper.java:45-54 | Returns an empty accumulator for that algorithm exactly when the name is supported, and IllegalArgumentException otherwise. |
| `HashCodeHelper.Wrap` | src/main/java/de/kosit/validationtool/impl/input/HashCodeHelper.java:56-58 | Resolves the algorithm when wrap is called, so an unknown name fails before any byte is read. Otherwise it returns a fresh wrapper over the stream that publishes to the input and has read nothing. |
| `HashCodeHelper.DigestingInputStream.constructor` | src/main/java/de/kosit/validationtool/impl/input/HashCodeHelper.java:27-31 | The wrapper binds the inner stream, the target and an empty accumulator, and starts with nothing read. |
| `HashCodeHelper.DigestingInputStream.Read` | src/main/java/de/kosit/validationtool/impl/input/HashCodeHelper.java:21-31 | Returns exactly the inner stream's answer: the same bytes, the same end of stream, the same IOException. The part of the caller's buffer past the bytes delivered keeps its contents, and at end of stream or on an IOException the whole buffer is unchanged. Every byte delivered is fed to the accumulator and logged. The target's hash is not in its frame, so it is untouched. |
| `HashCodeHelper.DigestingInputStream.Close` | src/main/java/de/kosit/validationtool/impl/input/HashCodeHelper.java:33-37 | Closes the inner stream first. If that throws, the target and the accumulator are unchanged. Otherwise the target's hash becomes the digest of the bytes read since the last publication, and the accumulator is reset. |
| `HashCodeHelper.Coverage` | src/main/java/de/kosit/validationtool/impl/input/HashCodeHelper.java:33-37 | The segments digested by successive publications, followed by the pending bytes, are exactly the bytes read through the wrapper, in order: no byte is digested twice or skipped. |
| `HashCodeHelper.SecondClose` | src/main/java/de/kosit/validationtool/impl/input/HashCodeHelper.java:33-37 | A second close publishes again, and it digests only what was read after the first close: the empty sequence if nothing was read. |
| `Consumers.ReadToEnd` | src/test/java/de/kosit/validationtool/api/InputFactoryTest.java:87-92 | Reading a wrapped stream with 4096-byte reads either reaches end of stream or stops exactly at the fault. All the bytes read are appended to the accumulator. |
| `Consumers.Drain` | src/test/java/de/kosit/validationtool/api/InputFactoryTest.java:86-99 | A drain succeeds exactly when no read and no close throws. The target's hash is then the digest of the whole remaining stream. When a read throws but the close does not, the target gets the digest of the prefix read before the fault. When the close throws, whatever the reads did, the target's hash stays as it was and the stream stays as closed or open as it was. Any failure, of a read or of the close, surfaces as IllegalStateException. Reading stops at the end of the stream or at the fault. A close that succeeds leaves the stream closed and the accumulator empty. |
| `Consumers.EagerMatchesDeferred` | src/test/java/de/kosit/validationtool/api/InputFactoryTest.java:76-84 | The hash that the eager path sets on an in-memory input equals the hash that draining that input's own stream through a digesting wrapper publishes. |

## Left out

- The digest algorithms themselves are not modelled (SHA-256, MD5, provider lookup). They are the uninterpreted `Provider.hash`, so properties such as "32 bytes long" or "different content gives a different hash" cannot be stated.
- Real I/O is abstract: `Files.newInputStream`, `url.openStream`, `file.toURI().toURL()`. The buffering layer `BufferedInputStream` is transparent to the bytes and does not appear.
- ResourceInput.java is not part of this model beyond the locator, name and algorithm the factory gives it; its `openStream` is left out.
- `HasHashCode` and the `Input` interface are not declared separately. Only `Input` objects ever implement them in the modelled code, so `DigestingInputStream` targets the class `Input` directly.
- Byte arrays are values, so aliasing is not modelled. In the code `getHashCode()` returns the stored array and `setHashCode` keeps the caller's array (AbstractInput.java:22, 32), and the generated getter exposes `ByteArrayInput`'s `content` array (ByteArrayInput.java:15, 19). A caller can therefore change the hash, or the bytes `openStream` replays behind a stored hash, after the fact; the model's inputs cannot change that way.
- `Api.InputFactory.ReadStream`: integers are unbounded, so the model accepts a source of any length. In the code a stream of more than about 2^31-1 bytes makes `ByteArrayOutputStream.write` throw `OutOfMemoryError` (InputFactory.java:229), which the `IOException` handler (line 238) does not turn into an IllegalArgumentException; the model returns an input instead. The same holds for `Api.ReadStream`, `Api.ReadStreamDefault`, `Api.ReadPath` and `Api.ReadPathDefault`.
- `Api.IsNotBlank`: whitespace follows `Character.isWhitespace` of Java 8. From Java 9 on, U+180E is no longer whitespace, so a name made only of U+180E characters is blank in the model but not on a newer JDK.
- Exception messages and causes are not modelled. Only the exception class is.
- Logging and the hex printing of the hash are diagnostics only.
- `DigestingInputStream` models only `read(byte[])`. The single-byte `read()`, `read(b, off, len)`, `skip` and `mark`/`reset` that it inherits from `FilterInputStream` are left out.
- `HashCodeHelper.Wrap`: a null stream, a null target `input` or a null algorithm name is not modelled; the parameters are non-null types. What `MessageDigest.getInstance(null)` throws depends on the JDK. `wrap` accepts a null stream and a null target (the `DigestInputStream` and `FilterInputStream` constructors take null), and the NullPointerException then comes later: a null stream at the first read or at `close()`, a null target in `close()` after the inner stream has been closed.
- `DigestingInputStream` and `Stream`: the model does not say what reading a closed stream does, because that depends on the concrete stream.
- Thread-safety and publication ordering are out of scope, because no modelled code is concurrent.
