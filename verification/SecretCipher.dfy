/** Secrets at rest: the nonce-prefix framing around an AEAD, and the encoding of a
    key pair (internal/host/secret_cipher.go and the JSON of internal/host/service.go). */
module SecretCipher {
  import opened Identifiers

  newtype byte = b: int | 0 <= b < 256

  type Bytes = seq<byte>

  /** The AEAD and the JSON codec, as the functions that the code calls. */
  datatype Crypto = Crypto(
    nonceSize: nat,
    seal: (Bytes, string) -> Bytes,
    open: (Bytes, Bytes) -> Option<string>,
    encode: (string, string) -> string,
    decode: string -> Option<(string, string)>
  )

  /** The laws of the libraries: what is sealed opens under the same nonce, and what
      is marshalled unmarshals. */
  ghost predicate Lawful(c: Crypto) {
    && (forall nonce, plain :: c.open(nonce, c.seal(nonce, plain)) == Some(plain))
    && (forall a, b :: c.decode(c.encode(a, b)) == Some((a, b)))
  }

  /** `Encrypt` with the nonce that was drawn. */
  function Encrypt(c: Crypto, nonce: Bytes, plain: string): Bytes {
    nonce + c.seal(nonce, plain)
  }

  /** `Decrypt`; None is either of its errors. */
  function Decrypt(c: Crypto, payload: Bytes): Option<string> {
    if |payload| < c.nonceSize then None
    else c.open(payload[..c.nonceSize], payload[c.nonceSize..])
  }

  /** The framing is undone exactly: a payload made with a nonce of the right size
      decrypts to what was encrypted, and a payload shorter than a nonce to nothing. */
  lemma DecryptUndoesEncrypt(c: Crypto, nonce: Bytes, plain: string)
    requires Lawful(c) && |nonce| == c.nonceSize
    ensures Decrypt(c, Encrypt(c, nonce, plain)) == Some(plain)
  {
    var payload := Encrypt(c, nonce, plain);
    assert payload[..c.nonceSize] == nonce;
    assert payload[c.nonceSize..] == c.seal(nonce, plain);
  }

  lemma KeyPairRoundTrip(c: Crypto, nonce: Bytes, publicKey: string, privateKey: string)
    requires Lawful(c) && |nonce| == c.nonceSize
    ensures var plain := Decrypt(c, Encrypt(c, nonce, c.encode(publicKey, privateKey)));
            plain.Some? && c.decode(plain.value) == Some((publicKey, privateKey))
  {
    DecryptUndoesEncrypt(c, nonce, c.encode(publicKey, privateKey));
  }

  /** `Encrypt` as it appends nonce and ciphertext to a buffer; None when no nonce
      could be drawn. */
  method EncryptBuffered(c: Crypto, nonce: Option<Bytes>, plain: string) returns (payload: Option<Bytes>)
    ensures payload == if nonce.None? then None else Some(Encrypt(c, nonce.value, plain))
  {
    if nonce.None? {
      return None;
    }
    var encrypted := c.seal(nonce.value, plain);
    var result: Bytes := [];
    result := result + nonce.value;
    result := result + encrypted;
    assert [] + nonce.value == nonce.value;
    payload := Some(result);
  }
}
