/** Verification and decryption of one encrypted record: `Collection.__getitem__`
    in utils.py and `get_item` in sync.py after the record has been fetched.
    HMAC-SHA256 (RFC 2104), AES-256-CBC (section 6.2 of NIST SP 800-38A) and
    base64 (section 4 of RFC 4648) are library code; they are parameters here,
    and `Sound` states the only facts about them the proofs use. */
module Codec {
  import opened Common
  import Hex

  /** The library functions the record format relies on. */
  datatype Primitives = Primitives(
    hmacSha256: (Bytes, Bytes) -> Bytes,               // key, message -> digest
    aesCbcDecrypt: (Bytes, Bytes, Bytes) -> Option<Bytes>, // key, IV, ciphertext; None when AES raises
    aesCbcEncrypt: (Bytes, Bytes, Bytes) -> Bytes,      // key, IV, block-aligned plaintext
    b64decode: string -> Option<Bytes>,                 // None when binascii raises
    b64encode: Bytes -> string)

  /** Decryption inverts encryption for a 32-byte key, a 16-byte IV and a
      block-aligned plaintext; base64 decoding inverts encoding, whose output
      is ASCII. */
  ghost predicate Sound(p: Primitives)
  {
    && (forall b :: IsAscii(p.b64encode(b)))
    && (forall b :: p.b64decode(p.b64encode(b)) == Some(b))
    && (forall k, iv, m :: |k| == 32 && |iv| == 16 && |m| % 16 == 0 ==>
          p.aesCbcDecrypt(k, iv, p.aesCbcEncrypt(k, iv, m)) == Some(m))
  }

  /** The decoded payload of a stored object: `ciphertext`, `IV`, `hmac`. */
  datatype EncryptedRecord = EncryptedRecord(ciphertext: string, iv: string, hmac: string)

  /** The lower-case hex HMAC-SHA256, keyed with the hmac key, of the ASCII
      bytes of the base64 ciphertext (not of the decoded ciphertext). */
  function Tag(p: Primitives, hmacKey: Bytes, ciphertextB64: string): (t: string)
    requires IsAscii(ciphertextB64)
    ensures |t| == 2 * |p.hmacSha256(hmacKey, AsciiBytes(ciphertextB64))|
    ensures Hex.FromHex(t) == Some(p.hmacSha256(hmacKey, AsciiBytes(ciphertextB64)))
  {
    Hex.FromHexToHex(p.hmacSha256(hmacKey, AsciiBytes(ciphertextB64)));
    Hex.ToHex(p.hmacSha256(hmacKey, AsciiBytes(ciphertextB64)))
  }

  /** `contents[:-contents[-1]]`: with `n` the last byte, the first `len - n`
      bytes when `1 <= n <= len`, nothing when `n == 0` (Python's `-0` is
      `0`) or `n > len`, IndexError on an empty buffer. */
  function StripPadding(contents: Bytes): (r: Result<Bytes>)
    ensures contents == [] <==> r == Err(IndexError)
    ensures r.Ok? ==> r.value <= contents
    ensures contents != [] && 1 <= contents[|contents| - 1] <= |contents| ==>
              r == Ok(contents[..|contents| - contents[|contents| - 1]])
    ensures contents != [] && (contents[|contents| - 1] == 0 || contents[|contents| - 1] > |contents|) ==>
              r == Ok([])
  {
    if contents == [] then Err(IndexError)
    else Ok(SliceTo(contents, -(contents[|contents| - 1] as int)))
  }

  /** PKCS#7 padding to 16-byte blocks (section 6.3 of RFC 5652): `n` copies of
      the byte `n`, with `1 <= n <= 16`. */
  function Pad(m: Bytes): (r: Bytes)
    ensures |r| % 16 == 0 && |m| < |r| <= |m| + 16
    ensures r[..|m|] == m
    ensures forall i :: |m| <= i < |r| ==> r[i] == |r| - |m|
  {
    var n := 16 - |m| % 16;
    m + seq(n, _ => n as Byte)
  }

  lemma StripPaddingPad(m: Bytes)
    ensures StripPadding(Pad(m)) == Ok(m)
  {
    var r := Pad(m);
    assert r[|r| - 1] == |r| - |m|;
  }

  /** The body of `__getitem__` from `record['ciphertext'].encode('ascii')`
      on, with the key pair already looked up. Steps run in the source's
      order: ASCII encoding, unpacking the pair, the HMAC check, then base64
      decoding, AES and the padding strip. */
  function Decrypt(p: Primitives, pair: seq<Bytes>, rec: EncryptedRecord): (r: Result<Bytes>)
    ensures r == Err(EncodeError) <==> !IsAscii(rec.ciphertext)
    ensures r == Err(UnpackError) <==> IsAscii(rec.ciphertext) && |pair| != 2
    ensures r == Err(IntegrityError) <==>
              IsAscii(rec.ciphertext) && |pair| == 2 && rec.hmac != Tag(p, pair[1], rec.ciphertext)
    ensures r.Ok? ==> |pair| == 2 && IsAscii(rec.ciphertext) && rec.hmac == Tag(p, pair[1], rec.ciphertext)
  {
    if !IsAscii(rec.ciphertext) then Err(EncodeError)
    else if |pair| != 2 then Err(UnpackError)
    else
      var encryptionKey, hmacKey := pair[0], pair[1];
      if rec.hmac != Tag(p, hmacKey, rec.ciphertext) then Err(IntegrityError)
      else match (p.b64decode(rec.ciphertext), p.b64decode(rec.iv))
        case (Some(ciphertext), Some(iv)) =>
          (match p.aesCbcDecrypt(encryptionKey, iv, ciphertext)
           case Some(contents) =>
             (match StripPadding(contents)
              case Ok(m) => Ok(m)
              case Err(_) => Err(IndexError))
           case None => Err(CipherError))
        case _ => Err(DecodeError)
  }

  /** What a sync client stores for plaintext `m` under a key pair and IV. */
  function Encrypt(p: Primitives, encryptionKey: Bytes, hmacKey: Bytes, iv: Bytes, m: Bytes): (rec: EncryptedRecord)
    requires Sound(p)
    ensures IsAscii(rec.ciphertext)
    ensures rec.hmac == Tag(p, hmacKey, rec.ciphertext)
  {
    var c := p.b64encode(p.aesCbcEncrypt(encryptionKey, iv, Pad(m)));
    EncryptedRecord(c, p.b64encode(iv), Tag(p, hmacKey, c))
  }

  /** Round trip: a record encrypted with a pair decrypts, with that pair, to
      the original plaintext. */
  lemma DecryptEncrypt(p: Primitives, encryptionKey: Bytes, hmacKey: Bytes, iv: Bytes, m: Bytes)
    requires Sound(p) && |encryptionKey| == 32 && |iv| == 16
    ensures Decrypt(p, [encryptionKey, hmacKey], Encrypt(p, encryptionKey, hmacKey, iv, m)) == Ok(m)
  {
    var padded := Pad(m);
    var ct := p.aesCbcEncrypt(encryptionKey, iv, padded);
    assert p.b64decode(p.b64encode(ct)) == Some(ct);
    assert p.b64decode(p.b64encode(iv)) == Some(iv);
    assert p.aesCbcDecrypt(encryptionKey, iv, ct) == Some(padded);
    StripPaddingPad(m);
  }

  /** Tampering: a record whose declared HMAC differs from the correct tag is
      refused, whatever its ciphertext. */
  lemma TamperedHmacRefused(p: Primitives, encryptionKey: Bytes, hmacKey: Bytes, iv: Bytes, m: Bytes, forged: string)
    requires Sound(p)
    requires forged != Encrypt(p, encryptionKey, hmacKey, iv, m).hmac
    ensures Decrypt(p, [encryptionKey, hmacKey], Encrypt(p, encryptionKey, hmacKey, iv, m).(hmac := forged)) == Err(IntegrityError)
  {
  }

  /** The check comes first: when the tag does not match, the result is the
      same whatever base64 and AES do, so neither is consulted. */
  lemma CheckBeforeDecrypt(p: Primitives, q: Primitives, pair: seq<Bytes>, rec: EncryptedRecord)
    requires q.hmacSha256 == p.hmacSha256
    requires Decrypt(p, pair, rec) == Err(IntegrityError)
    ensures Decrypt(q, pair, rec) == Err(IntegrityError)
  {
    assert Tag(q, pair[1], rec.ciphertext) == Tag(p, pair[1], rec.ciphertext);
  }
}
