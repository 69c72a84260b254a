/**
 The suite the program runs with, put together from the codecs, and the proof that it keeps the
 laws the key lifecycle relies on.
 */
module CryptoSuite {
  import opened Basics
  import opened KeyState
  import opened Aes
  import opened Padding
  import Base64
  import Hex

  // ---------------------------------------------------------------- wrappers of the tokenizer

  function ModeOf(t: Table): CipherMode {
    if t == Card then Ecb else Cbc
  }

  /** encode_base64 of an encrypted text; None when the cipher refuses the size. */
  function EncryptText(c: Cipher, k: Key, mode: CipherMode, p: Bytes): Option<string> {
    match Aes.Encrypt(c, k, mode, p)
    case None => None
    case Some(x) => Some(Base64.Encode(x))
  }

  function DecryptText(c: Cipher, k: Key, mode: CipherMode, s: string): Option<Bytes> {
    match Base64.Decode(s)
    case None => None
    case Some(x) => Aes.Decrypt(c, k, mode, x)
  }

  /** encode_data, with the random digits of a card number; None also for a draw of another size. */
  function EncodeData(t: Table, text: Text, pad: string): Option<Bytes> {
    if t == Vault then Some(Pkcs7Encode(Latin(text)))
    else if text != "" && |pad| != BcdPadding(text) then None
    else BcdEncode(text, pad)
  }

  /** decode_data; pkcs7_decode has no meaning for an empty text. */
  function DecodeData(t: Table, b: Bytes): Option<Text> {
    if t == Card then BcdDecode(b)
    else if b == [] then None
    else
      match Pkcs7Decode(b)
      case None => None
      case Some(p) => Some(Chars(p))
  }

  /** decode_part */
  function DecodePart(hex: string): Option<Key> {
    match Hex.Decode(hex)
    case None => None
    case Some(b) => if |b| == 32 then Some(b) else None
  }

  /** assemble_kek: the digest of the three parts combined. */
  function AssembleKek(sha: Bytes -> Digest, p1: string, p2: string, p3: string): Option<Key> {
    match (DecodePart(p1), DecodePart(p2), DecodePart(p3))
    case (Some(a), Some(b), Some(c)) => Some(sha(XorBytes(XorBytes(a, b), c)))
    case _ => None
  }

  function RealSuite(c: Cipher, sha: Bytes -> Digest): Suite {
    Suite(
      (p1, p2, p3) => AssembleKek(sha, p1, p2, p3),
      (k: Key, x: Bytes) => EncryptText(c, k, Ecb, x),
      (k: Key, s: string) => DecryptText(c, k, Ecb, s),
      EncodeData,
      DecodeData,
      (t: Table, k: Key, p: Bytes) => EncryptText(c, k, ModeOf(t), p),
      (t: Table, k: Key, s: string) => DecryptText(c, k, ModeOf(t), s),
      (k, x) => Base64.Encode(Hmac(sha, k, x)))
  }

  lemma DecryptsText(c: Cipher, k: Key, mode: CipherMode, p: Bytes)
    requires LawfulCipher(c) && EncryptText(c, k, mode, p).Some?
    ensures DecryptText(c, k, mode, EncryptText(c, k, mode, p).value) == Some(p)
  {
    Base64.DecodeEncode(Aes.Encrypt(c, k, mode, p).value);
    Aes.DecryptEncrypt(c, k, mode, p);
  }

  lemma DecodesData(t: Table, text: Text, pad: string)
    requires EncodeData(t, text, pad).Some?
    ensures DecodeData(t, EncodeData(t, text, pad).value) == Some(ReadsAs(t, text))
  {
    if t == Vault {
      var p := Latin(text);
      Pkcs7Inverse(Pkcs7Encode(p), p);
      CharsOfLatin(text);
    } else {
      BcdSize(text, pad);
      BcdRoundTrip(text, pad);
    }
  }

  lemma BcdSize(text: Text, pad: string)
    requires EncodeData(Card, text, pad).Some?
    ensures |EncodeData(Card, text, pad).value| == if text == "" then 0 else BLOCK
  {
    if text != "" {
      assert |BcdDigits(text, pad)| == BCD_DIGITS;
    }
  }

  /** Every codec of the program undoes its counterpart, whatever the cipher and the digest. */
  lemma RealSuiteIsLawful(c: Cipher, sha: Bytes -> Digest)
    requires LawfulCipher(c)
    ensures Lawful(RealSuite(c, sha))
  {
    var s := RealSuite(c, sha);
    forall k: Key, x: Bytes | s.seal(k, x).Some?
      ensures s.open(k, s.seal(k, x).value) == Some(x)
    {
      DecryptsText(c, k, Ecb, x);
    }
    forall t, x: Text, pad | s.encode(t, x, pad).Some?
      ensures s.decode(t, s.encode(t, x, pad).value) == Some(ReadsAs(t, x))
    {
      DecodesData(t, x, pad);
    }
    forall t, k: Key, b: Bytes | s.encrypt(t, k, b).Some?
      ensures s.decrypt(t, k, s.encrypt(t, k, b).value) == Some(b)
    {
      DecryptsText(c, k, ModeOf(t), b);
    }
    forall p1, p3
      ensures s.assemble(p1, "", p3) == None
    {
      assert DecodePart("") == None;
    }
  }

  // ---------------------------------------------------------------- the laws are not empty

  /** A cipher that only combines the block with the first half of the key. */
  function ToyCipher(): Cipher {
    Cipher((k, b) => XorBytes(b, k[..BLOCK]), (k, b) => XorBytes(b, k[..BLOCK]))
  }

  lemma ToyCipherIsLawful()
    ensures LawfulCipher(ToyCipher())
  {
    forall k: Key, b: Block
      ensures ToyCipher().dec(k, ToyCipher().enc(k, b)) == b
    {
      XorBytesUndo(b, k[..BLOCK]);
    }
  }

  // ---------------------------------------------------------------- end to end

  /** What tokenize stores for a text under a data key. */
  function Stored(c: Cipher, t: Table, dek: Key, text: Text, pad: string): Option<string> {
    match EncodeData(t, text, pad)
    case None => None
    case Some(block) => EncryptText(c, dek, ModeOf(t), block)
  }

  /** What detokenize makes of it. */
  function Recovered(c: Cipher, t: Table, dek: Key, crypted: string): Option<Text> {
    match DecryptText(c, dek, ModeOf(t), crypted)
    case None => None
    case Some(block) => DecodeData(t, block)
  }

  /** Card mode: every text of 1 to 32 digits is stored and comes back, for every padding and key. */
  lemma CardRoundTrip(c: Cipher, dek: Key, text: Text, pad: string)
    requires LawfulCipher(c)
    requires 1 <= |text| <= BCD_DIGITS && AllDigits(text)
    requires |pad| == BcdPadding(text) && Hex.AllHex(pad)
    ensures Stored(c, Card, dek, text, pad).Some?
    ensures Recovered(c, Card, dek, Stored(c, Card, dek, text, pad).value) == Some(text)
  {
    BcdEncodes(text, pad);
    DecodesData(Card, text, pad);
    DecryptsText(c, dek, Ecb, EncodeData(Card, text, pad).value);
  }

  /** Vault mode: every byte string, the empty one too. */
  lemma VaultRoundTrip(c: Cipher, dek: Key, text: Text, pad: string)
    requires LawfulCipher(c)
    ensures Stored(c, Vault, dek, text, pad).Some?
    ensures Recovered(c, Vault, dek, Stored(c, Vault, dek, text, pad).value) == Some(text)
  {
    DecodesData(Vault, text, pad);
    DecryptsText(c, dek, Cbc, EncodeData(Vault, text, pad).value);
  }

  /** A stored card number always fits its column of 25 characters, a vault text its 9500 exactly up to 7119 bytes. */
  lemma FitsColumnExactly(c: Cipher, t: Table, dek: Key, text: Text, pad: string)
    requires Stored(c, t, dek, text, pad).Some?
    ensures |Stored(c, t, dek, text, pad).value| <= (if t == Card then 25 else 9500) <==> t == Card || |text| <= 7119
  {
    var block := EncodeData(t, text, pad).value;
    var x := Aes.Encrypt(c, dek, ModeOf(t), block).value;
    Base64.EncodedLength(x);
    if t == Card {
      BcdSize(text, pad);
    } else {
      PaddedSize(|text|, |block|);
    }
  }

  lemma PaddedSize(n: nat, size: nat)
    requires size % BLOCK == 0 && n < size <= n + BLOCK
    ensures 4 * ((size + 2) / 3) <= 9500 <==> n <= 7119
  {
    assert n <= 7119 <==> size <= 7120;
  }

  /**
   Which texts card mode gives back unchanged: the code stores any text of hexadecimal digits,
   but reads back only the digits in front of the first letter.
   */
  lemma CardKeepsExactlyDigits(c: Cipher, dek: Key, text: Text, pad: string)
    requires LawfulCipher(c) && Stored(c, Card, dek, text, pad).Some?
    ensures Recovered(c, Card, dek, Stored(c, Card, dek, text, pad).value) == Some(text) <==> AllDigits(text)
  {
    DecodesData(Card, text, pad);
    DecryptsText(c, dek, Ecb, EncodeData(Card, text, pad).value);
  }

  /** It gives back the leading digits of any hexadecimal text it can hold. */
  lemma CardReadsPrefix(c: Cipher, dek: Key, text: Text, pad: string)
    requires LawfulCipher(c) && 1 <= |text| <= BCD_DIGITS && Hex.AllHex(text) && |pad| == BcdPadding(text) && Hex.AllHex(pad)
    ensures Stored(c, Card, dek, text, pad).Some?
    ensures Recovered(c, Card, dek, Stored(c, Card, dek, text, pad).value) == Some(DigitPrefix(text))
  {
    BcdEncodes(text, pad);
    DecodesData(Card, text, pad);
    DecryptsText(c, dek, Ecb, EncodeData(Card, text, pad).value);
  }

  /** One such text: "1A" is stored and comes back as "1". */
  lemma LetterIsLost(c: Cipher, dek: Key, pad: string)
    requires LawfulCipher(c) && |pad| == 29 && Hex.AllHex(pad)
    ensures var crypted := Stored(c, Card, dek, "1A", pad);
            crypted.Some? && Recovered(c, Card, dek, crypted.value) == Some("1")
  {
    var text: Text := "1A";
    assert text[1..] == "A" && DigitPrefix(text) == "1";
    CardReadsPrefix(c, dek, text, pad);
  }

  /** A vault text one byte too long is stored all the same, as 9516 characters. */
  lemma ColumnOverflows(c: Cipher, dek: Key, text: Text, pad: string)
    requires LawfulCipher(c) && |text| == 7120
    ensures var crypted := Stored(c, Vault, dek, text, pad);
            crypted.Some? && |crypted.value| == 9516 > 9500
  {
    VaultRoundTrip(c, dek, text, pad);
    var block := EncodeData(Vault, text, pad).value;
    Pkcs7Layout(Latin(text));
    SizeOfOverflow(|block|);
    Base64.EncodedLength(Aes.Encrypt(c, dek, Cbc, block).value);
  }

  lemma SizeOfOverflow(size: nat)
    requires size % BLOCK == 0 && 7120 < size <= 7136
    ensures (size + 2) / 3 * 4 == 9516
  {
  }

  /** The parts can be given in any order: only their combination is hashed. */
  lemma PartsCommute(sha: Bytes -> Digest, p1: string, p2: string, p3: string)
    ensures AssembleKek(sha, p1, p2, p3) == AssembleKek(sha, p2, p1, p3) == AssembleKek(sha, p3, p2, p1)
  {
    match (DecodePart(p1), DecodePart(p2), DecodePart(p3))
    case (Some(a), Some(b), Some(c)) =>
      XorBytesCommute(a, b);
      XorThreeReverse(a, b, c);
    case _ =>
  }

  lemma XorThreeReverse(a: Bytes, b: Bytes, c: Bytes)
    requires |a| == |b| == |c|
    ensures XorBytes(XorBytes(a, b), c) == XorBytes(XorBytes(c, b), a)
  {
    forall i | 0 <= i < |a|
      ensures XorByte(XorByte(a[i], b[i]), c[i]) == XorByte(XorByte(c[i], b[i]), a[i])
    {
      XorBitsReverse(8, a[i], b[i], c[i]);
    }
  }

  lemma {:induction false} XorBitsReverse(n: nat, a: nat, b: nat, c: nat)
    ensures XorBits(n, XorBits(n, a, b), c) == XorBits(n, XorBits(n, c, b), a)
  {
    if n > 0 {
      XorBitsReverse(n - 1, a / 2, b / 2, c / 2);
      var x, y := XorBits(n, a, b), XorBits(n, c, b);
      assert x / 2 == XorBits(n - 1, a / 2, b / 2) && y / 2 == XorBits(n - 1, c / 2, b / 2);
      assert x % 2 == XorBit(a, b) && y % 2 == XorBit(c, b);
    }
  }

  // ---------------------------------------------------------------- what is stored, by the cipher

  /** A card number is one block by itself. */
  lemma CardStored(c: Cipher, dek: Key, text: Text, pad: string)
    requires text != "" && Stored(c, Card, dek, text, pad).Some?
    ensures BcdEncode(text, pad).Some? && |BcdEncode(text, pad).value| == 16
    ensures Stored(c, Card, dek, text, pad) == Some(Base64.Encode(c.enc(dek, BcdEncode(text, pad).value)))
    ensures |Stored(c, Card, dek, text, pad).value| == 24
  {
    BcdSize(text, pad);
    Base64.EncodedLength(c.enc(dek, BcdEncode(text, pad).value));
    OneBlock(c, dek, BcdEncode(text, pad).value);
  }

  lemma OneBlock(c: Cipher, k: Key, b: Block)
    ensures EcbEncrypt(c, k, b) == c.enc(k, b)
  {
    assert b[..BLOCK] == b && b[BLOCK..] == [];
    assert c.enc(k, b) + [] == c.enc(k, b);
  }

  /** A vault text is padded and chained from zeros on: each block but the first is combined with the one before it. */
  lemma VaultStored(c: Cipher, dek: Key, text: Text, pad: string, j: nat) returns (x: Bytes)
    requires 16 * (j + 1) <= |Pkcs7Encode(Latin(text))|
    ensures Stored(c, Vault, dek, text, pad) == Some(Base64.Encode(x)) && |x| == |Pkcs7Encode(Latin(text))|
    ensures var p := Pkcs7Encode(Latin(text));
            BlockAt(x, j) == c.enc(dek, if j == 0 then BlockAt(p, 0) else XorBytes(BlockAt(x, j - 1), BlockAt(p, j)))
  {
    var p := Pkcs7Encode(Latin(text));
    x := Aes.Encrypt(c, dek, Cbc, p).value;
    FirstBlock(c, dek, Cbc, p);
    CbcEquations(c, dek, ZeroIv(), p, j);
  }

  /** A data key is two blocks, each encrypted by itself under the master key. */
  lemma KeySealed(c: Cipher, sha: Bytes -> Digest, kek: Key, dek: Key)
    ensures RealSuite(c, sha).seal(kek, dek) == Some(Base64.Encode(c.enc(kek, dek[..16]) + c.enc(kek, dek[16..])))
  {
    OneBlock(c, kek, dek[16..]);
    assert EcbEncrypt(c, kek, dek) == c.enc(kek, dek[..16]) + c.enc(kek, dek[16..]);
  }

  /** A master key is the digest of three parts of 64 hexadecimal digits, combined byte by byte; other parts are refused. */
  lemma AssemblesExactly(sha: Bytes -> Digest, p1: string, p2: string, p3: string) returns (x: Bytes)
    ensures AssembleKek(sha, p1, p2, p3)
         == if |p1| == |p2| == |p3| == 64 && Hex.AllHex(p1) && Hex.AllHex(p2) && Hex.AllHex(p3) then Some(sha(x)) else None
    ensures AssembleKek(sha, p1, p2, p3).Some? ==>
              && |x| == 32
              && forall i | 0 <= i < 32 :: x[i] == XorByte(XorByte(PartByte(p1, i), PartByte(p2, i)), PartByte(p3, i))
  {
    x := [];
    if AssembleKek(sha, p1, p2, p3).Some? {
      x := XorBytes(XorBytes(DecodePart(p1).value, DecodePart(p2).value), DecodePart(p3).value);
      PartBytes(p1);
      PartBytes(p2);
      PartBytes(p3);
    }
  }

  lemma PartBytes(p: string)
    requires DecodePart(p).Some?
    ensures |p| == 64 && Hex.AllHex(p) && forall i | 0 <= i < 32 :: DecodePart(p).value[i] == PartByte(p, i)
  {
    forall i | 0 <= i < 32
      ensures DecodePart(p).value[i] == PartByte(p, i)
    {
      Hex.DecodeAt(p, i);
    }
  }

  /** Byte i of a part. */
  function PartByte(p: string, i: nat): byte
    requires |p| == 64 && Hex.AllHex(p) && i < 32
  {
    Hex.HexValue(p[2 * i]) * 16 + Hex.HexValue(p[2 * i + 1])
  }

  /** A digest is that of HMAC-SHA256, as text. */
  lemma DigestIs(c: Cipher, sha: Bytes -> Digest, key: Bytes, text: Bytes) returns (inner: Bytes, outer: Bytes)
    ensures RealSuite(c, sha).mac(key, text) == Base64.Encode(sha(outer + sha(inner + text)))
    ensures |inner| == 64 && |outer| == 64
    ensures |key| == 32 ==> forall j | 0 <= j < 32 :: inner[j] == XorByte(key[j], 0x36) && outer[j] == XorByte(key[j], 0x5c)
    ensures |key| == 32 ==> forall j | 32 <= j < 64 :: inner[j] == 0x36 && outer[j] == 0x5c
  {
    inner, outer := HmacLayout(sha, key, text);
    ZeroCombined(0x36);
    ZeroCombined(0x5c);
  }

  lemma ZeroCombined(b: byte)
    ensures XorByte(0, b) == b
  {
    BitsOfByte();
    XorBitsZero(8, b);
  }
}
