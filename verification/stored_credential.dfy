/** How the Basic-auth service stores a password: AES-256-CBC under a server key with a
    fresh 16-byte iv, written as `hex(iv) + hex(ciphertext)` in one string attribute. */
module StoredCredential {
  import opened Wrappers
  import opened Hex

  const IvLength: nat := 16
  /** Width of the iv prefix in the stored string; the reader slices at this offset. */
  const IvHexLength: nat := 32

  /** AES-256-CBC under the configured key, opaque. `encrypt(iv, plaintext)` gives the
      ciphertext bytes or throws (a bad key); `decrypt(iv, ciphertext)` gives the UTF-8
      plaintext or throws (a bad iv length, bad padding). */
  datatype Cipher = Cipher(
    encrypt: (seq<byte>, string) -> Option<seq<byte>>,
    decrypt: (seq<byte>, seq<byte>) -> Option<string>)

  /** The one property of the cipher the model relies on: decrypting with the iv used to
      encrypt gives the plaintext back. */
  ghost predicate Inverts(c: Cipher) {
    forall iv, p | |iv| == IvLength && c.encrypt(iv, p).Some? :: c.decrypt(iv, c.encrypt(iv, p).value) == Some(p)
  }

  /** `encryptedPassword.iv + encryptedPassword.encryptedData`: both parts as hex text. */
  function Pack(iv: seq<byte>, ciphertext: seq<byte>): (stored: string)
    ensures |stored| == 2 * (|iv| + |ciphertext|)
    ensures stored[..2 * |iv|] == Encode(iv) && stored[2 * |iv|..] == Encode(ciphertext)
    ensures |iv| == IvLength ==> stored[..IvHexLength] == Encode(iv)
  {
    Encode(iv) + Encode(ciphertext)
  }

  /** The two halves the reader cuts the stored string into. */
  datatype Parts = Parts(ivHex: string, dataHex: string)

  /** `storedPassword.slice(0, 32)` and `storedPassword.slice(32)`; a shorter string gives
      all of itself as iv and nothing as data, as `slice` does. */
  function Unpack(stored: string): (p: Parts)
    ensures p.ivHex + p.dataHex == stored
    ensures |p.ivHex| == if |stored| < IvHexLength then |stored| else IvHexLength
  {
    if |stored| < IvHexLength then Parts(stored, "")
    else Parts(stored[..IvHexLength], stored[IvHexLength..])
  }

  /** The reader's `decrypt`: both halves go through `Buffer.from(_, "hex")` first. The hex
      layer is transparent: halves written by `buf.toString("hex")` reach the cipher as the
      bytes they were written from. */
  function Decrypt(c: Cipher, p: Parts): (r: Option<string>)
    ensures forall iv, ciphertext | p == Parts(Encode(iv), Encode(ciphertext)) :: r == c.decrypt(iv, ciphertext)
  {
    assert forall iv, ciphertext | p == Parts(Encode(iv), Encode(ciphertext)) ::
      Decode(p.ivHex) == iv && Decode(p.dataHex) == ciphertext by {
      forall iv, ciphertext | p == Parts(Encode(iv), Encode(ciphertext))
        ensures Decode(p.ivHex) == iv && Decode(p.dataHex) == ciphertext
      {
        DecodeEncode(iv);
        DecodeEncode(ciphertext);
      }
    }
    c.decrypt(Decode(p.ivHex), Decode(p.dataHex))
  }

  /** Slicing at 32 characters undoes packing whenever the iv is 16 bytes. */
  lemma {:induction false} UnpackPack(iv: seq<byte>, ciphertext: seq<byte>)
    requires |iv| == IvLength
    ensures Unpack(Pack(iv, ciphertext)) == Parts(Encode(iv), Encode(ciphertext))
  {
    var stored := Pack(iv, ciphertext);
    assert stored[IvHexLength..] == Encode(ciphertext);
  }

  /** A stored credential decrypts to the password it was made from. */
  lemma {:induction false} DecryptPacked(c: Cipher, iv: seq<byte>, password: string, ciphertext: seq<byte>)
    requires Inverts(c)
    requires |iv| == IvLength
    requires c.encrypt(iv, password) == Some(ciphertext)
    ensures Decrypt(c, Unpack(Pack(iv, ciphertext))) == Some(password)
  {
    UnpackPack(iv, ciphertext);
  }
}
