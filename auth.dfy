/**
  The credential hasher (src/user/auth.rs) at its interface only. Argon2 with a
  random salt is a foreign library, so each service call is handed the two
  operations as a `Hasher` value; what they are assumed to satisfy is stated
  here as predicates that properties take as explicit hypotheses.
 */
module Auth {
  import opened Common

  /** `argon2::password_hash::Error`: its contents are never inspected. */
  datatype HashError = HashError

  datatype Hasher = Hasher(
    hash: string -> Result<string, HashError>,
    verify: (string, string) -> Result<bool, HashError>)

  /** `verify_password(password, hash)` returned `Ok(true)`; both a verification error and
      `Ok(false)` count as a rejection wherever the service layer calls it. */
  predicate Accepts(h: Hasher, password: string, hash: string) {
    h.verify(password, hash) == Ok(true)
  }

  /** Assumption: hashing never hits a library fault. */
  ghost predicate NeverFails(h: Hasher) {
    forall p :: h.hash(p).Ok?
  }

  /** Assumption: a hash produced for a password verifies against that password. */
  ghost predicate VerifiesOwnHash(h: Hasher) {
    forall p, hv :: h.hash(p) == Ok(hv) ==> h.verify(p, hv) == Ok(true)
  }

  /** Assumption: a hash produced for one password does not verify another. */
  ghost predicate RejectsOtherPasswords(h: Hasher) {
    forall p, q, hv :: h.hash(p) == Ok(hv) && q != p ==> h.verify(q, hv) != Ok(true)
  }
}
