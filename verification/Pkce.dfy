/** Proof Key for Code Exchange, S256 only (section 4.6 of RFC 7636). */
module Pkce {
  import opened Base64Url

  const S256 := "S256"

  /** SHA-256, uninterpreted. */
  type Sha256 = string -> seq<byte>

  function Challenge(sha: Sha256, verifier: string): string {
    Encode(sha(verifier))
  }

  predicate VerifyPKCE(sha: Sha256, challenge: string, challengeMethod: string, verifier: string) {
    challengeMethod == S256 && challenge != "" && verifier != "" && Challenge(sha, verifier) == challenge
  }

  /** A verifier is accepted for another verifier's challenge only on a hash collision. */
  lemma PkceBinds(sha: Sha256, made: string, presented: string)
    requires VerifyPKCE(sha, Challenge(sha, made), S256, presented)
    ensures sha(presented) == sha(made) && presented != ""
  {
    EncodeInjective(sha(presented), sha(made));
  }
}
