/** The password hasher (bcrypt) and the token codec (JWT), reduced to the
    two laws the authentication service relies on. Both are ordinary values
    holding total functions, so every operation of the model is
    parameterised by them, and each law is a precondition of exactly the
    lemmas that need it. */
module Crypto {
  import opened Wrappers

  /** `PasswordHasher`: `hash(value)` and `compare(value, digest)`. */
  datatype Hasher = Hasher(hash: string -> string, compare: (string, string) -> bool)

  /** `compare` accepts the digest `hash` produced for the same value. */
  ghost predicate Sound(h: Hasher) {
    forall v :: h.compare(v, h.hash(v))
  }

  /** The hasher the service's unit tests use: the digest of `v` is
      `"hashed:" + v`, and `compare` checks exactly that. */
  function PrefixHasher(): Hasher {
    Hasher(v => "hashed:" + v, (v, digest) => digest == "hashed:" + v)
  }

  /** The test hasher is a sound hasher, and it rejects every digest other
      than the one it would produce. */
  lemma PrefixHasherSound(v: string, digest: string)
    ensures Sound(PrefixHasher())
    ensures PrefixHasher().compare(v, digest) <==> digest == PrefixHasher().hash(v)
  {
  }

  /** `JwtService.signAsync(claims, {secret, expiresIn})` and
      `verifyAsync(token, {secret})` for one claims type `C`. */
  datatype Codec<!C> = Codec(sign: (C, string, int) -> string, verify: (string, string) -> Option<C>)

  /** A token verified with the secret it was signed with yields its claims. */
  ghost predicate RoundTrips<C(!new)>(c: Codec<C>) {
    forall claims, secret, lifetime :: c.verify(c.sign(claims, secret, lifetime), secret) == Some(claims)
  }
}
