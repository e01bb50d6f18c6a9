/** The parameter set of the shipped signer: SPHINCS+-SHA2-128f-simple. */
module SphincsInstance {
  import opened Bytes
  import opened SphincsParams

  ghost predicate Sha2_128f(s: Scheme) {
    && s.n == 16 && s.w == 16 && s.digitsPerByte == 2 && s.checksumDigits == 3
    && s.height == 3 && s.d == 22 && s.forsTrees == 33 && s.forsHeight == 6
  }

  /** The shipped parameters meet every requirement of the general results, for hash functions of the right
      output lengths; a signature is 17088 bytes. */
  lemma Sha2_128fIsValid(s: Scheme)
    requires Sha2_128f(s)
    requires forall p, a, x :: |s.thash(p, a, x)| == 16
    requires forall p, k, a :: |s.prf(p, k, a)| == 16
    requires forall k, o, m :: |s.messageRandom(k, o, m)| == 16
    requires forall r, p, m :: |s.messageDigest(r, p, m).mhash| == 25
    ensures s.Valid() && s.EncodesMessages()
    ensures s.SigBytes() == 17088
  {
  }

  /** Such hash functions exist, so none of the general results is empty. */
  lemma Sha2_128fExists() returns (s: Scheme)
    ensures s.Valid() && s.EncodesMessages()
  {
    var block, digest: seq<byte> := seq(16, _ => 0), seq(25, _ => 0);
    s := Scheme(16, 16, 2, 3, 3, 22, 33, 6,
                (_, _, _) => block, (_, _, _) => block, (_, _, _) => block, (_, _, _) => Digest(digest, 0, 0));
    Sha2_128fIsValid(s);
  }
}
