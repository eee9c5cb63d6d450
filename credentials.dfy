/** The credential manager: bcrypt, seen only through the two calls the
    service makes of it (`bcrypt.hash` at registration, `bcrypt.compare` at
    login). Its internals (salting, the cost factor, the digest) are not
    modelled; what the directory relies on is stated by `Sound`. */
module Credentials {

  /** The random salt bcrypt draws for each call of `hash`. */
  type Salt = nat

  /** A salted one-way hash and the comparison that goes with it. */
  datatype Hasher = Hasher(hash: (string, Salt) -> string, compare: (string, string) -> bool)

  /** What the service relies on from bcrypt: a digest is never empty, and a
      password compares true against every digest made from it. */
  ghost predicate Sound(h: Hasher) {
    forall password, salt :: h.hash(password, salt) != "" && h.compare(password, h.hash(password, salt))
  }

  /** `bcrypt.hash(password, 10)`: the digest stored in place of the password. */
  function Hash(h: Hasher, password: string, salt: Salt): (digest: string)
    requires Sound(h)
    ensures digest != ""
    ensures Verify(h, password, digest)
  {
    h.hash(password, salt)
  }

  /** `bcrypt.compare(password, digest)`: a mismatch is a plain `false`.
      Beyond `Sound`, nothing is known of it: in particular, a wrong password
      is not promised to compare false. */
  predicate Verify(h: Hasher, password: string, digest: string): (ok: bool)
    ensures Sound(h) && (exists salt :: digest == h.hash(password, salt)) ==> ok
  {
    h.compare(password, digest)
  }
}
