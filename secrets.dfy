/** Salted password hashing. The stored hash of a password is the digest of
    the password followed by its salt, with no separator and no stretching.
    The digest itself (SHA-256 of the UTF-8 bytes, Base64-encoded) is a
    parameter: every property here holds for any function that, like that
    encoding, always yields 44 characters. */
module Secrets {

  /** Base64 of a 32-byte digest is 43 characters and one '=' of padding. */
  const DigestLength: nat := 44

  function AllZeroDigest(input: string): string {
    "AAAAAAAAAAAAAAAAAAAAAAAAAAAAAAAAAAAAAAAAAAA="
  }

  type Digest = f: string -> string | forall s :: |f(s)| == DigestLength witness AllZeroDigest

  /** A collision: two different inputs with the same digest. A 44-character
      digest of unboundedly long inputs has collisions, so the properties below
      that depend on the digest name the collision they would need. */
  ghost predicate Collide(digest: Digest, a: string, b: string) {
    a != b && digest(a) == digest(b)
  }

  datatype Hashed = Hash(value: string) | ArgumentError(message: string)

  /** HashPassword: an argument error for an empty password or an empty salt
      (the password is checked first); otherwise the digest of password + salt. */
  function HashPassword(digest: Digest, password: string, salt: string): (r: Hashed)
    ensures r.ArgumentError? <==> password == [] || salt == []
    ensures password == [] ==> r == ArgumentError("Пароль не может быть пустым")
    ensures password != [] && salt == [] ==> r == ArgumentError("Соль не может быть пустой")
    ensures r.Hash? ==> |r.value| == DigestLength
  {
    if password == [] then ArgumentError("Пароль не может быть пустым")
    else if salt == [] then ArgumentError("Соль не может быть пустой")
    else Hash(digest(password + salt))
  }

  /** VerifyPassword: false, without an error, when any argument is empty;
      otherwise whether the recomputed hash equals the stored one. */
  function VerifyPassword(digest: Digest, password: string, salt: string, storedHash: string): (ok: bool)
    ensures password == [] || salt == [] || storedHash == [] ==> !ok
    ensures ok <==> password != [] && salt != [] && HashPassword(digest, password, salt) == Hash(storedHash)
  {
    if password == [] || salt == [] || storedHash == [] then false
    else
      match HashPassword(digest, password, salt)
      case Hash(computed) => computed == storedHash
      case ArgumentError(_) => false
  }

  /** The hash depends on the concatenation password + salt alone. */
  lemma HashOfConcatenation(digest: Digest, p1: string, s1: string, p2: string, s2: string)
    requires p1 != [] && s1 != [] && p2 != [] && s2 != []
    requires p1 + s1 == p2 + s2
    ensures HashPassword(digest, p1, s1) == HashPassword(digest, p2, s2)
  {
  }

  /** A password verifies against the hash computed from it and its salt. */
  lemma VerifyOwnHash(digest: Digest, password: string, salt: string)
    requires password != [] && salt != []
    ensures HashPassword(digest, password, salt).Hash?
    ensures VerifyPassword(digest, password, salt, HashPassword(digest, password, salt).value)
  {
  }

  /** Two strings followed by the same salt are equal only if they are equal. */
  lemma SaltCancels(a: string, b: string, salt: string)
    requires a + salt == b + salt
    ensures a == b
  {
    assert |a| == |b|;
    assert a == (a + salt)[..|a|];
    assert b == (b + salt)[..|b|];
  }

  /** Another password verifies against the hash of a password and salt only
      through a collision of the digest on the two salted inputs. */
  lemma {:induction false} OtherPasswordIsCollision(digest: Digest, password: string, other: string, salt: string)
    requires other != password
    requires VerifyPassword(digest, other, salt, digest(password + salt))
    ensures Collide(digest, other + salt, password + salt)
  {
    if other + salt == password + salt {
      SaltCancels(other, password, salt);
    }
  }
}
