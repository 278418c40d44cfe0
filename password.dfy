/**
 * `HashPassword` and `CheckPasswordHash` of the security package. Their
 * implementation is not part of this model; they are an abstract salted
 * one-way hash and its check. The salt that the real hash draws at random
 * is a parameter.
 */
module Password {
  import opened Wrappers

  datatype Hasher = Hasher(
    hashPassword: (string, nat) -> Result<string, string>,
    checkPasswordHash: (string, string) -> bool)
  {
    /** What the model assumes of the hash: a password matches its own hash,
        no other password matches it, and two salts give two encodings. */
    ghost predicate Sound()
    {
      && (forall p, salt :: hashPassword(p, salt).Ok? ==> checkPasswordHash(p, hashPassword(p, salt).value))
      && (forall p, q, salt :: hashPassword(p, salt).Ok? && checkPasswordHash(q, hashPassword(p, salt).value) ==> q == p)
      && (forall p, salt1, salt2 ::
            salt1 != salt2 && hashPassword(p, salt1).Ok? && hashPassword(p, salt2).Ok? ==>
            hashPassword(p, salt1).value != hashPassword(p, salt2).value)
    }
  }
}
