/**
 * bcrypt, SHA-256 and the JWT codec, taken as parameters. No property of
 * them is used beyond the laws collected in `Lawful`.
 */
module Crypto {
  import opened Wrappers
  import opened Schema

  const AccessType: string := "access"
  const RefreshType: string := "refresh"

  /**
   * A token payload: `sub`, `username`, `role`, `tokenType`, the random
   * `tokenId`, and the issue and expiry times in seconds.
   */
  datatype Claims = Claims(
    sub: int,
    username: string,
    role: Role,
    tokenType: string,
    tokenId: nat,
    iat: int,
    exp: int)

  /** bcrypt reads at most 72 bytes of its input and ignores the rest. */
  const BcryptInputLimit: nat := 72

  /** The part of `s` that bcrypt reads. */
  function BcryptInput(s: string): (r: string)
    ensures |r| <= BcryptInputLimit && r <= s
    ensures |s| <= BcryptInputLimit ==> r == s
    ensures |s| > BcryptInputLimit ==> |r| == BcryptInputLimit
  {
    if |s| <= BcryptInputLimit then s else s[..BcryptInputLimit]
  }

  /**
   * Two payloads that agree on `sub`, `username` and `role`. The service
   * writes these three keys first (apps/server/src/modules/auth/auth.service.ts:124-128),
   * and the 72 first characters of an HS256 token are the fixed 36-character
   * header, a ".", and 35 characters encoding the payload's first 27 bytes,
   * which always lie inside `{"sub":…,"username":"…","role":"`.
   */
  predicate SameSubject(c1: Claims, c2: Claims) {
    c1.sub == c2.sub && c1.username == c2.username && c1.role == c2.role
  }

  /**
   * `hash(s, salt)` is bcrypt's hash of `s` under a random salt and
   * `compare(s, h)` is bcrypt's comparison (a comparison that throws is
   * `false`); `sign` signs a payload and `decode` checks a token's signature
   * and structure, yielding its payload; `digest` is SHA-256.
   */
  datatype Kit = Kit(
    hash: (string, nat) -> string,
    compare: (string, string) -> bool,
    sign: Claims -> string,
    decode: string -> Option<Claims>,
    digest: string -> string)

  /** The laws of the two primitives. */
  ghost predicate Lawful(k: Kit) {
    // a string matches a hash exactly when bcrypt reads the same input from both
    && (forall s, t, salt :: k.compare(t, k.hash(s, salt)) <==> BcryptInput(t) == BcryptInput(s))
    // a bcrypt hash is never the empty string
    && (forall s, salt :: k.hash(s, salt) != "")
    // a signed payload decodes to itself
    && (forall c :: k.decode(k.sign(c)) == Some(c))
    // tokens of one subject share the characters bcrypt reads
    && (forall c1, c2 | SameSubject(c1, c2) :: BcryptInput(k.sign(c1)) == BcryptInput(k.sign(c2)))
    // SHA-256 collisions are idealised away, and a digest is never empty
    && (forall s, t :: k.digest(s) == k.digest(t) ==> s == t)
    && (forall s :: k.digest(s) != "")
  }

  /**
   * `jwtService.verifyAsync`: the signature and structure must check
   * and the current time must be before the expiry.
   */
  function Verify(k: Kit, token: string, now: int): (r: Option<Claims>)
    ensures r.Some? <==> k.decode(token).Some? && now < k.decode(token).value.exp
    ensures r.Some? ==> r == k.decode(token)
  {
    match k.decode(token)
    case None => None
    case Some(c) => if now < c.exp then Some(c) else None
  }

  /** Tokens signed from different payloads are different strings. */
  lemma SignInjective(k: Kit, c1: Claims, c2: Claims)
    requires Lawful(k)
    requires c1 != c2
    ensures k.sign(c1) != k.sign(c2)
  {
    assert k.decode(k.sign(c1)) == Some(c1);
    assert k.decode(k.sign(c2)) == Some(c2);
  }

  /**
   * bcrypt cannot tell two tokens of one subject apart: a hash of either is
   * matched by the other.
   */
  lemma SameSubjectTokensCollide(k: Kit, c1: Claims, c2: Claims, salt: nat)
    requires Lawful(k)
    requires SameSubject(c1, c2)
    ensures k.compare(k.sign(c1), k.hash(k.sign(c2), salt))
  {
  }
}
