/** How a plain text becomes whole cipher blocks: BCD for card numbers, PKCS#7 for the vault. */
module Padding {
  import opened Basics
  import opened KeyState
  import opened Hex
  import opened Aes

  const BCD_DIGITS := 32

  // ---------------------------------------------------------------- BCD

  /** The 32 characters bcd_encode packs: the text, an "f", random digits, all cut at 32. */
  function BcdDigits(text: string, pad: string): string {
    var x := text + "f" + pad;
    if |x| > BCD_DIGITS then x[..BCD_DIGITS] else x
  }

  /** The number of random digits bcd_encode draws. */
  function BcdPadding(text: string): nat {
    if |text| + 1 < BCD_DIGITS then BCD_DIGITS - |text| - 1 else 0
  }

  /** bcd_encode with the digits it drew; None when it throws. */
  function BcdEncode(text: string, pad: string): Option<Bytes> {
    if text == "" then Some([])
    else if |text| > BCD_DIGITS then None
    else Hex.Decode(BcdDigits(text, pad))
  }

  /** bcd_decode: the digits in front of the first letter; None when it throws. */
  function BcdDecode(block: Bytes): Option<Text> {
    if block == [] then Some("")
    else if |block| != BLOCK then None
    else Some(DigitPrefix(HexText(block)))
  }

  function HexText(b: Bytes): (s: Text)
    ensures s == Hex.Encode(b, true)
  {
    HexIsNarrow(Hex.Encode(b, true));
    Hex.Encode(b, true)
  }

  lemma HexIsNarrow(s: string)
    requires AllHex(s)
    ensures Narrow(s)
  {
  }

  /** The loop of bcd_decode. */
  method BcdDecodeLoop(input: Bytes) returns (r: Option<Text>)
    ensures r == BcdDecode(input)
  {
    if |input| == 0 {
      return Some("");
    }
    if |input| != BLOCK {
      return None;
    }
    var x := HexText(input);
    var i := 0;
    while i < |x|
      invariant 0 <= i <= |x|
      invariant AllDigits(x[..i])
    {
      if !('0' <= x[i] <= '9') {
        break;
      }
      i := i + 1;
    }
    DigitPrefixIs(x, i);
    return Some(x[..i]);
  }

  /** The longest digit prefix is the one that ends at a character that is no digit. */
  lemma {:induction false} DigitPrefixIs(s: Text, n: nat)
    requires n <= |s| && AllDigits(s[..n])
    requires n < |s| ==> !IsDigit(s[n])
    ensures DigitPrefix(s) == s[..n]
    decreases n
  {
    if n > 0 {
      assert s[..n][0] == s[0];
      var rest: Text := s[1..];
      assert rest[..n - 1] == s[..n][1..];
      DigitPrefixIs(rest, n - 1);
      assert s[..n] == [s[0]] + rest[..n - 1];
    }
  }

  lemma DigitPrefixOfLower(s: Text, l: Text)
    requires l == Lower(s)
    ensures DigitPrefix(l) == DigitPrefix(s)
  {
    var n := |DigitPrefix(s)|;
    assert DigitPrefix(s) == s[..n];
    forall i | 0 <= i < n
      ensures l[i] == s[i]
    {
      assert IsDigit(s[..n][i]);
    }
    assert l[..n] == s[..n];
    DigitPrefixIs(l, n);
  }

  /** A prefix followed by something that does not start with a digit. */
  lemma DigitPrefixStops(s: Text, full: Text)
    requires s <= full && (|full| > |s| ==> !IsDigit(full[|s|]))
    ensures DigitPrefix(full) == DigitPrefix(s)
  {
    var n := |DigitPrefix(s)|;
    assert DigitPrefix(s) == s[..n];
    assert full[..n] == s[..n];
    DigitPrefixIs(full, n);
  }

  /** bcd_encode never throws for 1 to 32 hexadecimal digits, and fills one block. */
  lemma BcdEncodes(text: string, pad: string)
    requires 1 <= |text| <= BCD_DIGITS && AllHex(text)
    requires |pad| == BcdPadding(text) && AllHex(pad)
    ensures BcdEncode(text, pad).Some? && |BcdEncode(text, pad).value| == BLOCK
  {
    var x := text + "f" + pad;
    assert AllHex(x);
    assert |BcdDigits(text, pad)| == BCD_DIGITS;
  }

  /** Whatever was encoded is read back as its longest digit prefix, for every padding. */
  lemma BcdRoundTrip(text: Text, pad: string)
    requires BcdEncode(text, pad).Some? && |BcdEncode(text, pad).value| in {0, BLOCK}
    ensures BcdDecode(BcdEncode(text, pad).value) == Some(DigitPrefix(text))
  {
    var block := BcdEncode(text, pad).value;
    if text == "" {
    } else {
      var x := BcdDigits(text, pad);
      BcdNotEmpty(text, pad);
      HexIsNarrow(x);
      assert text <= x;
      assert |x| > |text| ==> x[|text|] == 'f';
      DigitPrefixStops(text, x);
      Hex.EncodeDecode(x);
      DigitPrefixOfLower(x, HexText(block));
    }
  }

  lemma BcdNotEmpty(text: string, pad: string)
    requires text != "" && BcdEncode(text, pad).Some?
    ensures BcdEncode(text, pad).value != [] && AllHex(BcdDigits(text, pad)) && text <= BcdDigits(text, pad)
  {
    var x := text + "f" + pad;
    assert text <= x;
  }

  /** The block a card number is packed into is never the bytes of the number itself. */
  lemma BlockIsNotText(text: Text, pad: string)
    requires 1 <= |text| <= BCD_DIGITS && AllDigits(text)
    requires |pad| == BcdPadding(text) && AllHex(pad)
    ensures BcdEncode(text, pad).Some? && BcdEncode(text, pad).value != Latin(text)
  {
    BcdEncodes(text, pad);
    if |text| == BLOCK {
      var x, b := BcdDigits(text, pad), BcdEncode(text, pad).value;
      Hex.DecodeAt(x, 8);
      assert x[16] == 'f';
      assert b[8] / 16 == 15;
      assert IsDigit(text[8]);
    }
  }

  // ---------------------------------------------------------------- PKCS#7

  /** pkcs7_encode: 1 to 16 bytes, each of them their number. */
  function Pkcs7Encode(plain: Bytes): (b: Bytes)
    ensures Aligned(b) && b != [] && |plain| < |b| <= |plain| + BLOCK && plain <= b
  {
    var n := BLOCK - |plain| % BLOCK;
    plain + Repeat(n, n)
  }

  /** What pkcs7_decode accepts. */
  predicate Padded(b: Bytes) {
    && Aligned(b)
    && b != []
    && var d := b[|b| - 1];
       1 <= d <= BLOCK && d <= |b| && forall i :: |b| - d <= i < |b| ==> b[i] == d
  }

  /** pkcs7_decode; None when it throws. */
  function Pkcs7Decode(b: Bytes): Option<Bytes>
    requires b != []
  {
    if Padded(b) then Some(b[..|b| - b[|b| - 1]]) else None
  }

  /** The loop of pkcs7_decode, from the end of the text. */
  method Pkcs7DecodeLoop(input: Bytes) returns (r: Option<Bytes>)
    requires input != []
    ensures r == Pkcs7Decode(input)
  {
    if |input| % BLOCK != 0 {
      return None;
    }
    var d := input[|input| - 1];
    if !(1 <= d <= BLOCK) {
      return None;
    }
    var i := |input| - 2;
    while i >= |input| - d
      invariant |input| - d - 1 <= i <= |input| - 2
      invariant forall j :: i < j < |input| ==> input[j] == d
    {
      if input[i] != d {
        return None;
      }
      i := i - 1;
    }
    return Some(input[..|input| - d]);
  }

  /** Encoding and decoding are inverse between all texts and exactly the accepted ones. */
  lemma Pkcs7Inverse(b: Bytes, p: Bytes)
    requires b != []
    ensures Pkcs7Decode(b) == Some(p) <==> b == Pkcs7Encode(p)
  {
    if b == Pkcs7Encode(p) {
      var n := BLOCK - |p| % BLOCK;
      assert b[|b| - 1] == n;
      assert b[..|b| - n] == p;
    }
    if Pkcs7Decode(b) == Some(p) {
      var d := b[|b| - 1];
      LastPartial(|b|, d);
      assert b == p + Repeat(d, d);
    }
  }

  lemma LastPartial(size: nat, d: nat)
    requires size % BLOCK == 0 && 1 <= d <= BLOCK && d <= size
    ensures BLOCK - (size - d) % BLOCK == d
  {
  }

  // ---------------------------------------------------------------- byte by byte

  /** Half a byte, the high half of the first one being number 0. */
  function Nibble(b: Bytes, i: nat): nat
    requires i < 2 * |b|
  {
    if i % 2 == 0 then b[i / 2] / 16 else b[i / 2] % 16
  }

  /** A packed number: its digits from the first half byte on, then a 15, then the random digits. */
  lemma BcdLayout(text: string, pad: string, i: nat)
    requires 1 <= |text| <= 32 && AllHex(text) && |pad| == BcdPadding(text) && AllHex(pad) && i < 32
    ensures BcdEncode(text, pad).Some? && |BcdEncode(text, pad).value| == 16
    ensures |text| + 1 + |pad| == if |text| == 32 then 33 else 32
    ensures Nibble(BcdEncode(text, pad).value, i)
         == if i < |text| then HexValue(text[i]) else if i == |text| then 15 else HexValue(pad[i - |text| - 1])
  {
    BcdEncodes(text, pad);
    Hex.DecodeAt(BcdDigits(text, pad), i / 2);
  }

  /** What cannot be packed: more than 32 characters, or a character that is no hexadecimal digit. */
  lemma BcdRefusesExactly(text: string, pad: string)
    requires |pad| == BcdPadding(text) && AllHex(pad)
    ensures BcdEncode(text, pad) == None <==> |text| > 32 || !AllHex(text)
  {
    if 1 <= |text| <= 32 {
      var x := text + "f" + pad;
      assert AllHex(text) ==> AllHex(x);
      assert text <= BcdDigits(text, pad);
      if AllHex(BcdDigits(text, pad)) {
        assert forall i | 0 <= i < |text| :: text[i] == BcdDigits(text, pad)[i];
      }
    }
  }

  /** What section 10.3 of RFC 2315 says: 1 to 16 bytes up to a multiple of 16, each of them their number. */
  lemma Pkcs7Layout(p: Bytes)
    ensures var b := Pkcs7Encode(p);
            && |b| % 16 == 0 && 1 <= |b| - |p| <= 16 && b[..|p|] == p
            && forall i | |p| <= i < |b| :: b[i] == |b| - |p|
  {
  }

  /** Any block is read as the digits of its half bytes up to the first that is no digit; only a block or nothing at all is accepted. */
  lemma BcdReads(block: Bytes)
    ensures BcdDecode(block).Some? <==> |block| == 16 || |block| == 0
    ensures |block| == 16 ==>
              var d := BcdDecode(block).value;
              && |d| <= 32 && (forall i | 0 <= i < |d| :: Nibble(block, i) < 10 && IsDigit(d[i]) && DigitValue(d[i]) == Nibble(block, i))
              && (|d| < 32 ==> Nibble(block, |d|) >= 10)
  {
    if |block| == 16 {
      var text, d := HexText(block), BcdDecode(block).value;
      assert d <= text && |text| == 32;
      forall i | 0 <= i < 32
        ensures HexValue(text[i]) == Nibble(block, i) && (IsDigit(text[i]) <==> Nibble(block, i) < 10)
      {
        Hex.EncodeAt(block, true, i / 2);
      }
      forall i | 0 <= i < |d|
        ensures Nibble(block, i) < 10 && IsDigit(d[i]) && DigitValue(d[i]) == Nibble(block, i)
      {
        assert d[i] == text[i] && IsDigit(d[i]);
      }
    }
  }
}
