/** The bcrypt password context (passlib), shared by db/crud.py and auth/jwt_gen.py, as an
    uninterpreted pair of functions. Hashing is salted: the random salt is a parameter. */
module Passwords {

  datatype Hasher = Hasher(hash: (string, string) -> string, verify: (string, string) -> bool)

  /** What the model assumes of bcrypt: a password verifies against any hash made from it, and
      a hash is never the plaintext itself. */
  ghost predicate Correct(h: Hasher) {
    && (forall salt, password :: h.verify(password, h.hash(salt, password)))
    && (forall salt, password :: h.hash(salt, password) != password)
  }

  /** `get_password_hash` (auth/jwt_gen.py) and `pwd_context.hash` (db/crud.py). */
  function GetPasswordHash(h: Hasher, salt: string, password: string): (hashed: string)
    requires Correct(h)
    ensures hashed != password
    ensures h.verify(password, hashed)
  {
    h.hash(salt, password)
  }

  /** `verify_password` (auth/jwt_gen.py) and `pwd_context.verify` (db/crud.py). */
  function VerifyPassword(h: Hasher, password: string, hashed: string): (ok: bool)
    requires Correct(h)
    ensures (exists salt :: hashed == h.hash(salt, password)) ==> ok
  {
    h.verify(password, hashed)
  }
}
