/** PKCE (RFC 7636), S256 only: the server's checks and the client's generator. */
module Pkce {
  import opened Wrappers
  import opened Bytes
  import Base64

  const DIGEST_LEN := 32
  const CHALLENGE_LEN := 43

  function ZeroDigest(): (d: Text)
    ensures |d| == DIGEST_LEN
  {
    seq(DIGEST_LEN, i => '\0')
  }

  type Digest = d: Text | |d| == DIGEST_LEN witness ZeroDigest()

  /** SHA-256: any function from texts to 32 bytes. */
  const Sha256: Text -> Digest

  function S256Challenge(verifier: Text): Text {
    Base64.Encode(Base64.UrlSafe, Sha256(verifier))
  }

  predicate IsValidVerifier(verifier: Text) {
    43 <= |verifier| <= 128 &&
    forall b | b in verifier :: IsAlphanumeric(b) || b == '-' || b == '.' || b == '_' || b == '~'
  }

  predicate IsValidChallenge(challenge: Text) {
    |challenge| == CHALLENGE_LEN &&
    forall b | b in challenge :: IsAlphanumeric(b) || b == '-' || b == '_'
  }

  predicate VerifyS256(verifier: Text, challenge: Text) {
    IsValidVerifier(verifier) && S256Challenge(verifier) == challenge
  }

  datatype Pkce = Pkce(verifier: Text, challenge: Text)

  /** `random_token`: 32 random bytes as text. */
  function RandomToken(bytes: Digest): Text {
    Base64.Encode(Base64.UrlSafe, bytes)
  }

  /** `generate`, from the random bytes it draws. */
  function Generate(bytes: Digest): Pkce {
    Pkce(RandomToken(bytes), S256Challenge(RandomToken(bytes)))
  }

  lemma RandomTokenShape(bytes: Digest)
    ensures IsValidVerifier(RandomToken(bytes)) && IsValidChallenge(RandomToken(bytes))
    ensures RandomToken(bytes) != []
  {
    Base64.EncodeShape(Base64.UrlSafe, bytes);
  }

  /** Whatever bytes the client draws, its verifier and challenge pass the server's checks. */
  lemma GeneratedPairIsAccepted(bytes: Digest)
    ensures var p := Generate(bytes);
            && IsValidVerifier(p.verifier)
            && IsValidChallenge(p.challenge)
            && VerifyS256(p.verifier, p.challenge)
  {
    RandomTokenShape(bytes);
    RandomTokenShape(Sha256(RandomToken(bytes)));
  }

  /** The characters of a verifier (section 4.1). */
  predicate Unreserved(b: byte) {
    'a' <= b <= 'z' || 'A' <= b <= 'Z' || '0' <= b <= '9' || b == '-' || b == '.' || b == '_' || b == '~'
  }

  /** The exact challenges a verifier answers, if it is one: the canonical ones that decode to its
      digest. */
  lemma VerifyExact(verifier: Text, challenge: Text)
    ensures VerifyS256(verifier, challenge) <==>
            && 43 <= |verifier| <= 128 && (forall b | b in verifier :: Unreserved(b))
            && Base64.DecodeLenient(Base64.UrlSafe, challenge) == Some(Sha256(verifier))
            && Base64.IsCanonical(Base64.UrlSafe, challenge)
  {
    Base64.DecodeExact(Base64.UrlSafe, challenge, Sha256(verifier));
  }

  /** A challenge is well-formed exactly when it decodes to 32 bytes, once bits beyond the last byte
      are ignored. */
  lemma ValidChallengeExact(challenge: Text)
    ensures IsValidChallenge(challenge) <==>
            var bytes := Base64.DecodeLenient(Base64.UrlSafe, challenge); bytes.Some? && |bytes.value| == 32
  {
    assert IsValidChallenge(challenge) ==> Base64.AllInAlphabet(Base64.UrlSafe, challenge);
    if Base64.AllInAlphabet(Base64.UrlSafe, challenge) {
      Base64.OctetsLength(Base64.IndicesOf(Base64.UrlSafe, challenge));
    }
  }

  /** A challenge that `/authorize` accepts can be answerable only if it is canonical. */
  lemma AnswerableChallengeIsCanonical(verifier: Text, challenge: Text)
    requires VerifyS256(verifier, challenge)
    ensures IsValidChallenge(challenge) && Base64.IsCanonical(Base64.UrlSafe, challenge)
  {
    VerifyExact(verifier, challenge);
    RandomTokenShape(Sha256(verifier));
  }

  /** `is_valid_challenge` lets through challenges that no verifier answers: 42 times `A` and
      then `B` sets bits beyond the 32nd byte. */
  lemma ValidChallengeWithoutVerifier(verifier: Text)
    ensures var challenge := seq(42, i => 'A') + "B";
            IsValidChallenge(challenge) && !VerifyS256(verifier, challenge)
  {
    var challenge := seq(42, i => 'A') + "B";
    assert Base64.AllInAlphabet(Base64.UrlSafe, challenge);
    var s := Base64.IndicesOf(Base64.UrlSafe, challenge);
    assert challenge[42] == 'B';
    assert s[42] % 4 == 1 && |s| % 4 == 3;
    if VerifyS256(verifier, challenge) {
      AnswerableChallengeIsCanonical(verifier, challenge);
    }
  }
}
