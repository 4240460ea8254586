/** The part of java.security the input core relies on: the digest providers and MessageDigest. */
module JavaSecurity {
  import opened JavaIo

  /**
   * The platform's digest providers: the algorithm names MessageDigest.getInstance accepts,
   * and the digest each algorithm computes over a byte sequence. The digest functions
   * themselves are left abstract.
   */
  datatype Provider = Provider(supported: set<string>, hash: (string, seq<byte>) -> seq<byte>)

  /**
   * A MessageDigest accumulator: the algorithm it was obtained for and the bytes fed to it
   * since it was created or last finished.
   */
  datatype MessageDigest = MessageDigest(provider: Provider, algorithm: string, pending: seq<byte>) {

    /** MessageDigest.update: feeds bytes to the accumulator. */
    function Update(bytes: seq<byte>): MessageDigest {
      this.(pending := pending + bytes)
    }

    /** The value MessageDigest.digest() returns: the digest of every byte fed since the last reset. */
    function Digest(): seq<byte> {
      provider.hash(algorithm, pending)
    }

    /** The accumulator after MessageDigest.digest(), which resets it. */
    function Reset(): MessageDigest {
      this.(pending := [])
    }
  }
}
