/** Authenticated encryption as an abstract cipher with its laws (AES-GCM,
    sections 5 and 7 of NIST SP 800-38D), and the two formats SPARTA wraps around
    it: hex text with the nonce in front for log entries, and sealed blobs with a
    length-prefixed key description. */
module Encryption {
  import opened Wrappers

  type Byte = b: int | 0 <= b < 256

  type Bytes = seq<Byte>

  function Zeros(n: nat): (z: Bytes)
    ensures |z| == n
  {
    seq(n, i => 0)
  }

  const NONCE_SIZE: nat := 12
  const TAG_SIZE: nat := 16

  datatype Cipher = Cipher(
    seal: (Bytes, Bytes, Bytes, Bytes) -> Bytes,            // key, nonce, plaintext, additional data
    open: (Bytes, Bytes, Bytes, Bytes) -> Option<Bytes>)    // key, nonce, ciphertext, additional data
  {
    ghost predicate Correct() {
      forall key, nonce, p, aad | |nonce| == NONCE_SIZE ::
        && |seal(key, nonce, p, aad)| == |p| + TAG_SIZE
        && open(key, nonce, seal(key, nonce, p, aad), aad) == Some(p)
    }
  }

  // -------------------------------------------------------------------- hex

  const HEX: string := "0123456789abcdef"

  function HexEncode(bytes: Bytes): (s: string)
    ensures |s| == 2 * |bytes|
  {
    if bytes == [] then "" else [HEX[bytes[0] as int / 16], HEX[bytes[0] as int % 16]] + HexEncode(bytes[1..])
  }

  function HexDigit(c: char): Option<int> {
    if '0' <= c <= '9' then Some((c - '0') as int)
    else if 'a' <= c <= 'f' then Some((c - 'a') as int + 10)
    else if 'A' <= c <= 'F' then Some((c - 'A') as int + 10)
    else None
  }

  /** None on an odd length or a character that is no hex digit. */
  function HexDecode(s: string): Option<Bytes> {
    if s == "" then Some([])
    else if |s| == 1 then None
    else
      match (HexDigit(s[0]), HexDigit(s[1]), HexDecode(s[2..]))
      case (Some(hi), Some(lo), Some(rest)) => Some([HexByte(hi, lo)] + rest)
      case _ => None
  }

  function HexByte(hi: int, lo: int): Byte {
    if 0 <= hi < 16 && 0 <= lo < 16 then 16 * hi + lo else 0
  }

  lemma {:induction false} HexRoundTrip(bytes: Bytes)
    ensures HexDecode(HexEncode(bytes)) == Some(bytes)
  {
    if bytes != [] {
      HexRoundTrip(bytes[1..]);
      var s := HexEncode(bytes);
      assert s[2..] == HexEncode(bytes[1..]);
      var hi, lo := bytes[0] as int / 16, bytes[0] as int % 16;
      HexDigitRoundTrip(hi);
      HexDigitRoundTrip(lo);
      assert s[0] == HEX[hi] && s[1] == HEX[lo];
      assert HexByte(hi, lo) == bytes[0];
      assert [bytes[0]] + bytes[1..] == bytes;
    }
  }

  lemma HexDigitRoundTrip(n: int)
    requires 0 <= n < 16
    ensures HexDigit(HEX[n]) == Some(n)
  {
  }

  // -------------------------------------------------------- encrypted entries

  /** The key is derived from the seed and the entry's number (SHA3, then HKDF). */
  datatype Suite = Suite(cipher: Cipher, derive: (Bytes, int) -> Bytes)

  function EncryptAesGcm(c: Cipher, plaintext: Bytes, key: Bytes, nonce: Bytes): Bytes {
    nonce + c.seal(key, nonce, plaintext, [])
  }

  function DecryptAesGcm(c: Cipher, ciphertext: Bytes, key: Bytes): Option<Bytes> {
    if |ciphertext| < NONCE_SIZE then None
    else c.open(key, ciphertext[..NONCE_SIZE], ciphertext[NONCE_SIZE..], [])
  }

  function NewEncryptData(suite: Suite, seed: Bytes, id: int, body: Bytes, nonce: Bytes): string {
    HexEncode(EncryptAesGcm(suite.cipher, body, suite.derive(seed, id), nonce))
  }

  function NewDecryptData(suite: Suite, seed: Bytes, id: int, ciphertext: string): Option<Bytes> {
    match HexDecode(ciphertext)
    case None => None
    case Some(bytes) => DecryptAesGcm(suite.cipher, bytes, suite.derive(seed, id))
  }

  /** An entry decrypts to what was encrypted, under the same seed and number. */
  lemma EntryRoundTrip(suite: Suite, seed: Bytes, id: int, body: Bytes, nonce: Bytes)
    requires suite.cipher.Correct() && |nonce| == NONCE_SIZE
    ensures NewDecryptData(suite, seed, id, NewEncryptData(suite, seed, id, body, nonce)) == Some(body)
  {
    var sealed := EncryptAesGcm(suite.cipher, body, suite.derive(seed, id), nonce);
    HexRoundTrip(sealed);
    assert sealed[..NONCE_SIZE] == nonce;
    assert sealed[NONCE_SIZE..] == suite.cipher.seal(suite.derive(seed, id), nonce, body, []);
  }

  // ------------------------------------------------------------ sealed blobs

  const KEY_INFO_LENGTH_LENGTH: nat := 4

  const TWO32: int := 0x1_0000_0000

  /** The sealing hardware: it finds the key again from its description. */
  datatype Sealer = Sealer(cipher: Cipher, sealKey: Bytes -> Option<Bytes>)

  function PutUint32(n: nat): (r: Bytes)
    ensures |r| == KEY_INFO_LENGTH_LENGTH
  {
    [n % 256, n / 256 % 256, n / 65536 % 256, n / 16777216 % 256]
  }

  function Uint32(b: Bytes): (n: nat)
    requires |b| >= KEY_INFO_LENGTH_LENGTH
    ensures n < TWO32
  {
    (b[0] as int) + 256 * (b[1] as int) + 65536 * (b[2] as int) + 16777216 * (b[3] as int)
  }

  lemma Uint32RoundTrip(n: nat)
    requires n < TWO32
    ensures Uint32(PutUint32(n)) == n
  {
    assert n / 65536 == n / 256 / 256;
    assert n / 16777216 == n / 256 / 256 / 256;
  }

  function SealedEncrypt(c: Cipher, plaintext: Bytes, key: Bytes, aad: Bytes, nonce: Bytes): Bytes {
    nonce + c.seal(key, nonce, plaintext, aad)
  }

  datatype SealError = TooShort | InvalidKeyInfo | NoSealKey | NotAuthentic

  function SealedDecrypt(c: Cipher, ciphertext: Bytes, key: Bytes, aad: Bytes): Result<Bytes, SealError> {
    if |ciphertext| <= NONCE_SIZE then Err(TooShort)
    else
      match c.open(key, ciphertext[..NONCE_SIZE], ciphertext[NONCE_SIZE..], aad)
      case Some(p) => Ok(p)
      case None => Err(NotAuthentic)
  }

  /** The length field is the low 32 bits of the length. */
  function Seal(c: Cipher, plaintext: Bytes, key: Bytes, keyInfo: Bytes, aad: Bytes, nonce: Bytes): Bytes {
    PutUint32(|keyInfo| % TWO32) + keyInfo + SealedEncrypt(c, plaintext, key, aad, nonce)
  }

  /** Total on arbitrary bytes: each slice is within bounds. */
  function Unseal(s: Sealer, blob: Bytes, aad: Bytes): (r: Result<Bytes, SealError>)
    ensures r.Ok? ==> |blob| > KEY_INFO_LENGTH_LENGTH + NONCE_SIZE && 0 < Uint32(blob) < |blob| - KEY_INFO_LENGTH_LENGTH
  {
    if |blob| <= KEY_INFO_LENGTH_LENGTH then Err(TooShort)
    else
      var n := Uint32(blob);
      var rest := blob[KEY_INFO_LENGTH_LENGTH..];
      if !(0 < n < |rest|) then Err(InvalidKeyInfo)
      else
        match s.sealKey(rest[..n])
        case None => Err(NoSealKey)
        case Some(key) => SealedDecrypt(s.cipher, rest[n..], key, aad)
  }

  /** Unsealing gives back what was sealed, exactly when the key description is
      not empty. */
  lemma SealRoundTrip(s: Sealer, plaintext: Bytes, key: Bytes, keyInfo: Bytes, aad: Bytes, nonce: Bytes)
    requires s.cipher.Correct() && |nonce| == NONCE_SIZE
    requires |keyInfo| < TWO32 && s.sealKey(keyInfo) == Some(key)
    ensures Unseal(s, Seal(s.cipher, plaintext, key, keyInfo, aad, nonce), aad) == Ok(plaintext) <==> keyInfo != []
  {
    Uint32RoundTrip(|keyInfo|);
    HeadedRoundTrip(s, PutUint32(|keyInfo|), plaintext, key, keyInfo, aad, nonce);
    SealedText(s.cipher, plaintext, key, keyInfo, aad, nonce);
  }

  lemma SealedText(c: Cipher, plaintext: Bytes, key: Bytes, keyInfo: Bytes, aad: Bytes, nonce: Bytes)
    requires |keyInfo| < TWO32
    ensures Seal(c, plaintext, key, keyInfo, aad, nonce)
         == PutUint32(|keyInfo|) + keyInfo + SealedEncrypt(c, plaintext, key, aad, nonce)
  {
    assert |keyInfo| % TWO32 == |keyInfo|;
  }

  lemma HeadedRoundTrip(s: Sealer, head: Bytes, plaintext: Bytes, key: Bytes, keyInfo: Bytes, aad: Bytes, nonce: Bytes)
    requires s.cipher.Correct() && |nonce| == NONCE_SIZE
    requires |head| == KEY_INFO_LENGTH_LENGTH && Uint32(head) == |keyInfo| && s.sealKey(keyInfo) == Some(key)
    ensures var blob := head + keyInfo + SealedEncrypt(s.cipher, plaintext, key, aad, nonce);
            Unseal(s, blob, aad) == Ok(plaintext) <==> keyInfo != []
  {
    var body := SealedEncrypt(s.cipher, plaintext, key, aad, nonce);
    Parts(head, keyInfo, body);
    DecryptsOwn(s.cipher, plaintext, key, aad, nonce);
    UnsealsParts(s, head + keyInfo + body, keyInfo, body, key, aad);
  }

  lemma UnsealsParts(s: Sealer, blob: Bytes, keyInfo: Bytes, body: Bytes, key: Bytes, aad: Bytes)
    requires |blob| == KEY_INFO_LENGTH_LENGTH + |keyInfo| + |body| && body != []
    requires Uint32(blob) == |keyInfo| && s.sealKey(keyInfo) == Some(key)
    requires blob[KEY_INFO_LENGTH_LENGTH..][..|keyInfo|] == keyInfo
    requires blob[KEY_INFO_LENGTH_LENGTH..][|keyInfo|..] == body
    ensures Unseal(s, blob, aad)
         == if keyInfo == [] then Err(InvalidKeyInfo) else SealedDecrypt(s.cipher, body, key, aad)
  {
  }

  /** Taking apart what was written one after the other. */
  lemma Parts(head: Bytes, keyInfo: Bytes, body: Bytes)
    requires |head| == KEY_INFO_LENGTH_LENGTH
    ensures var blob := head + keyInfo + body;
            && Uint32(blob) == Uint32(head)
            && blob[KEY_INFO_LENGTH_LENGTH..][..|keyInfo|] == keyInfo
            && blob[KEY_INFO_LENGTH_LENGTH..][|keyInfo|..] == body
  {
    var blob := head + keyInfo + body;
    assert blob[..4] == head;
    assert blob[KEY_INFO_LENGTH_LENGTH..] == keyInfo + body;
  }

  lemma DecryptsOwn(c: Cipher, plaintext: Bytes, key: Bytes, aad: Bytes, nonce: Bytes)
    requires c.Correct() && |nonce| == NONCE_SIZE
    ensures var body := SealedEncrypt(c, plaintext, key, aad, nonce);
            body != [] && SealedDecrypt(c, body, key, aad) == Ok(plaintext)
  {
    var body := SealedEncrypt(c, plaintext, key, aad, nonce);
    assert body[..NONCE_SIZE] == nonce && body[NONCE_SIZE..] == c.seal(key, nonce, plaintext, aad);
  }
}
