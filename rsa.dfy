/**
 * `RSADecrypter` of internal/infra/security/rsa.go. The private key is
 * seen only through RSAES-OAEP decryption with SHA-256 and an empty label
 * (section 7.1.2 of RFC 8017), an abstract partial function. Go strings
 * are byte strings, so the ciphertext is the request's text taken as
 * bytes: nothing base64-decodes it.
 */
module Rsa {
  import opened Wrappers

  /** The private key, as the decryption it performs: the plaintext, or the
      library's error. */
  datatype Decrypter = Decrypter(decryptOaep: string -> Result<string, string>)

  const DecryptionFailedPrefix: string := "decryption failed: "

  /** `RSADecrypter.Decrypt`: the recovered plaintext, or the library's
      error behind the prefix "decryption failed: ". */
  function Decrypt(d: Decrypter, ciphertext: string): (r: Result<string, string>)
  {
    match d.decryptOaep(ciphertext)
    case Ok(plain) => Ok(plain)
    case Err(e) => Err(DecryptionFailedPrefix + e)
  }

  /** `encrypt(m, seed)` is the raw OAEP ciphertext bytes for `m` under the
      public key (section 7.1.1 of RFC 8017; `seed` is OAEP's random seed),
      as a caller passes them to `Decrypt`, and the private key undoes it.
      Text that is not such a ciphertext, the base64 form included, need not
      decrypt. */
  ghost predicate PairedWith(d: Decrypter, encrypt: (string, nat) -> string)
  {
    forall m, seed :: d.decryptOaep(encrypt(m, seed)) == Ok(m)
  }

  /** Whatever seed the client drew, decryption gives back its message. */
  lemma DecryptRoundTrip(d: Decrypter, encrypt: (string, nat) -> string, m: string, seed: nat)
    requires PairedWith(d, encrypt)
    ensures Decrypt(d, encrypt(m, seed)) == Ok(m)
  {
  }
}
