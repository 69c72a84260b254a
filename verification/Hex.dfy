/** Hexadecimal text, with spaces between the bytes or without (HEX_NOSPACES), and its two loops. */
module Hex {
  import opened Basics

  predicate IsHex(c: char) {
    IsDigit(c) || 'A' <= c <= 'F' || 'a' <= c <= 'f'
  }

  predicate AllHex(s: string) {
    forall i :: 0 <= i < |s| ==> IsHex(s[i])
  }

  function HexChar(d: nat, lower: bool): (c: char)
    requires d < 16
    ensures IsHex(c) && HexValue(c) == d
    ensures IsDigit(c) <==> d < 10
    ensures lower ==> c == LowerChar(c)
  {
    if d < 10 then '0' + d as char
    else if lower then 'a' + (d - 10) as char
    else 'A' + (d - 10) as char
  }

  function HexValue(c: char): (d: nat)
    requires IsHex(c)
    ensures d < 16
    ensures d < 10 <==> IsDigit(c)
  {
    if IsDigit(c) then c as int - '0' as int
    else if 'A' <= c <= 'F' then c as int - 'A' as int + 10
    else c as int - 'a' as int + 10
  }

  /** The digit in lower case. */
  function LowerChar(c: char): (l: char)
    ensures IsHex(c) ==> IsHex(l) && HexValue(l) == HexValue(c)
    ensures IsDigit(l) <==> IsDigit(c)
  {
    if 'A' <= c <= 'F' then 'a' + (c as int - 'A' as int) as char else c
  }

  function Lower(s: string): (l: string)
    ensures |l| == |s| && forall i :: 0 <= i < |s| ==> l[i] == LowerChar(s[i])
  {
    seq(|s|, i requires 0 <= i < |s| => LowerChar(s[i]))
  }

  /** The two digits of a byte. */
  function Digits(b: byte, lower: bool): (s: string)
    ensures |s| == 2 && IsHex(s[0]) && IsHex(s[1])
    ensures HexValue(s[0]) == b / 16 && HexValue(s[1]) == b % 16
  {
    [HexChar(b / 16, lower), HexChar(b % 16, lower)]
  }

  /** The byte of two digits. */
  function ByteOf(hi: char, lo: char): (b: byte)
    requires IsHex(hi) && IsHex(lo)
    ensures b / 16 == HexValue(hi) && b % 16 == HexValue(lo)
  {
    HexValue(hi) * 16 + HexValue(lo)
  }

  function Encode(b: Bytes, lower: bool): (s: string)
    ensures |s| == 2 * |b| && AllHex(s)
  {
    if b == [] then "" else Encode(b[..|b| - 1], lower) + Digits(b[|b| - 1], lower)
  }

  /** None for text of odd length or with a character that is no hexadecimal digit. */
  function Decode(s: string): (b: Option<Bytes>)
    ensures b.Some? <==> |s| % 2 == 0 && AllHex(s)
    ensures b.Some? ==> |b.value| == |s| / 2
    decreases |s|
  {
    if s == "" then Some([])
    else if |s| == 1 then None
    else
      var front := s[..|s| - 2];
      var hi, lo := s[|s| - 2], s[|s| - 1];
      assert AllHex(s) <==> AllHex(front) && IsHex(hi) && IsHex(lo) by {
        assert s == front + [hi, lo];
      }
      match Decode(front)
      case None => None
      case Some(b) => if IsHex(hi) && IsHex(lo) then Some(b + [ByteOf(hi, lo)]) else None
  }

  /** The digits of byte k. */
  lemma {:induction false} EncodeAt(b: Bytes, lower: bool, k: nat)
    requires k < |b|
    ensures Encode(b, lower)[2 * k] == Digits(b[k], lower)[0]
    ensures Encode(b, lower)[2 * k + 1] == Digits(b[k], lower)[1]
  {
    if k < |b| - 1 {
      EncodeAt(b[..|b| - 1], lower, k);
    }
  }

  lemma ByteOfDigits(b: byte, lower: bool)
    ensures ByteOf(Digits(b, lower)[0], Digits(b, lower)[1]) == b
  {
  }

  lemma DigitsOfByte(hi: char, lo: char)
    requires IsHex(hi) && IsHex(lo)
    ensures Digits(ByteOf(hi, lo), true) == [LowerChar(hi), LowerChar(lo)]
  {
    SameDigit(hi);
    SameDigit(lo);
  }

  lemma SameDigit(c: char)
    requires IsHex(c)
    ensures HexChar(HexValue(c), true) == LowerChar(c)
  {
  }

  lemma DecodeStep(front: string, hi: char, lo: char, b: Bytes)
    requires Decode(front) == Some(b) && IsHex(hi) && IsHex(lo)
    ensures Decode(front + [hi, lo]) == Some(b + [ByteOf(hi, lo)])
  {
    var s := front + [hi, lo];
    assert s[..|s| - 2] == front;
  }

  lemma DigitsAre(b: byte, lower: bool) returns (hi: char, lo: char)
    ensures Digits(b, lower) == [hi, lo] && IsHex(hi) && IsHex(lo) && ByteOf(hi, lo) == b
  {
    hi, lo := Digits(b, lower)[0], Digits(b, lower)[1];
    ByteOfDigits(b, lower);
  }

  lemma {:induction false} DecodeEncode(b: Bytes, lower: bool)
    ensures Decode(Encode(b, lower)) == Some(b)
    decreases |b|
  {
    if b != [] {
      var front, last := b[..|b| - 1], b[|b| - 1];
      DecodeEncode(front, lower);
      var hi, lo := DigitsAre(last, lower);
      DecodeStep(Encode(front, lower), hi, lo, front);
      assert b == front + [last];
    }
  }

  lemma LowerStep(front: string, hi: char, lo: char)
    ensures Lower(front + [hi, lo]) == Lower(front) + [LowerChar(hi), LowerChar(lo)]
  {
  }

  /** Decoding loses nothing but the case of the digits. */
  lemma {:induction false} EncodeDecode(s: string)
    requires Decode(s).Some?
    ensures Encode(Decode(s).value, true) == Lower(s)
    decreases |s|
  {
    if s != "" {
      var front, hi, lo := s[..|s| - 2], s[|s| - 2], s[|s| - 1];
      EncodeDecode(front);
      EncodeStep(Decode(front).value, ByteOf(hi, lo));
      DigitsOfByte(hi, lo);
      LowerStep(front, hi, lo);
      assert s == front + [hi, lo];
    }
  }

  /** Byte k of a decoded text comes from the digits 2k and 2k + 1. */
  lemma {:induction false} DecodeAt(s: string, k: nat)
    requires Decode(s).Some? && 2 * k < |s|
    ensures AllHex(s) && 2 * k + 1 < |s| && Decode(s).value[k] == ByteOf(s[2 * k], s[2 * k + 1])
    decreases |s|
  {
    var front := s[..|s| - 2];
    if 2 * k < |front| {
      DecodeAt(front, k);
    }
  }

  lemma EncodeStep(b: Bytes, last: byte)
    ensures Encode(b + [last], true) == Encode(b, true) + Digits(last, true)
  {
    assert (b + [last])[..|b|] == b;
  }

  // ---------------------------------------------------------------- with separators

  /** The bytes two digits each, a space between them. */
  function EncodeSpaced(b: Bytes, lower: bool): (s: string)
    ensures b != [] ==> |s| == 3 * |b| - 1
  {
    if b == [] then ""
    else if |b| == 1 then Digits(b[0], lower)
    else EncodeSpaced(b[..|b| - 1], lower) + " " + Digits(b[|b| - 1], lower)
  }

  /** What stands between two bytes; the check also lets a zero character through. */
  predicate IsSeparator(c: char) { c == ' ' || c == '\0' }

  /** Two digits, and again a separator and two digits. */
  predicate IsSpaced(s: string) {
    s == "" || (|s| % 3 == 2 && forall i :: 0 <= i < |s| ==> if i % 3 == 2 then IsSeparator(s[i]) else IsHex(s[i]))
  }

  function DecodeSpaced(s: string): (b: Option<Bytes>)
    ensures b.Some? <==> IsSpaced(s)
    ensures b.Some? ==> |b.value| == (|s| + 1) / 3
    decreases |s|
  {
    if s == "" then Some([])
    else if |s| % 3 != 2 then None
    else
      var hi, lo := s[|s| - 2], s[|s| - 1];
      if |s| == 2 then if IsHex(hi) && IsHex(lo) then Some([ByteOf(hi, lo)]) else None
      else
        var front := s[..|s| - 3];
        assert s == front + [s[|s| - 3], hi, lo] && |front| % 3 == 2;
        match DecodeSpaced(front)
        case None => None
        case Some(b) => if IsSeparator(s[|s| - 3]) && IsHex(hi) && IsHex(lo) then Some(b + [ByteOf(hi, lo)]) else None
  }

  lemma DecodeSpacedStep(front: string, sep: char, hi: char, lo: char, b: Bytes)
    requires front != "" && DecodeSpaced(front) == Some(b) && IsSeparator(sep) && IsHex(hi) && IsHex(lo)
    ensures DecodeSpaced(front + [sep, hi, lo]) == Some(b + [ByteOf(hi, lo)])
  {
    var s := front + [sep, hi, lo];
    assert s[..|s| - 3] == front;
  }

  lemma OnePair(hi: char, lo: char)
    requires IsHex(hi) && IsHex(lo)
    ensures DecodeSpaced([hi, lo]) == Some([ByteOf(hi, lo)])
  {
  }

  lemma LastSpaced(b: Bytes, lower: bool, hi: char, lo: char)
    requires |b| > 1 && Digits(b[|b| - 1], lower) == [hi, lo]
    ensures EncodeSpaced(b, lower) == EncodeSpaced(b[..|b| - 1], lower) + [' ', hi, lo]
    ensures EncodeSpaced(b[..|b| - 1], lower) != ""
  {
    assert " " + [hi, lo] == [' ', hi, lo];
  }

  lemma OneSpaced(b: byte, lower: bool)
    ensures DecodeSpaced(EncodeSpaced([b], lower)) == Some([b])
  {
    var hi, lo := DigitsAre(b, lower);
    OnePair(hi, lo);
  }

  lemma {:induction false} DecodeEncodeSpaced(b: Bytes, lower: bool)
    ensures DecodeSpaced(EncodeSpaced(b, lower)) == Some(b)
    decreases |b|
  {
    if |b| == 1 {
      assert b == [b[0]];
      OneSpaced(b[0], lower);
    } else if b != [] {
      var front, last := b[..|b| - 1], b[|b| - 1];
      DecodeEncodeSpaced(front, lower);
      var hi, lo := DigitsAre(last, lower);
      LastSpaced(b, lower, hi, lo);
      DecodeSpacedStep(EncodeSpaced(front, lower), ' ', hi, lo, front);
      assert b == front + [last];
    }
  }

  // ---------------------------------------------------------------- the loops

  function Encoded(b: Bytes, lower: bool, spaces: bool): string {
    if spaces then EncodeSpaced(b, lower) else Encode(b, lower)
  }

  function Decoded(s: string, spaces: bool): Option<Bytes> {
    if spaces then DecodeSpaced(s) else Decode(s)
  }

  /** Where byte k starts in the text. */
  function At(k: nat, spaces: bool): nat {
    if spaces then 3 * k else 2 * k
  }

  /** Where the text of the first k bytes ends. */
  function EndOf(k: nat, spaces: bool): nat {
    if k > 0 && spaces then At(k, spaces) - 1 else At(k, spaces)
  }

  /** The text of the first k bytes is written, and the rest still spaces. */
  predicate Written(text: string, input: Bytes, lower: bool, spaces: bool, k: nat) {
    && k <= |input| && |text| == EndOf(|input|, spaces) && EndOf(k, spaces) <= |text|
    && text[..EndOf(k, spaces)] == Encoded(input[..k], lower, spaces)
    && forall i | EndOf(k, spaces) <= i < |text| :: text[i] == ' '
  }

  lemma WrittenStep(text: string, input: Bytes, lower: bool, spaces: bool, k: nat, text': string)
    requires Written(text, input, lower, spaces, k) && k < |input| && |text'| == |text|
    requires text' == text[At(k, spaces) := HexChar(input[k] / 16, lower)][At(k, spaces) + 1 := HexChar(input[k] % 16, lower)]
    ensures Written(text', input, lower, spaces, k + 1)
  {
    var next, i := input[..k + 1], At(k, spaces);
    assert next[..k] == input[..k] && next[k] == input[k];
    assert text'[..EndOf(k, spaces)] == text[..EndOf(k, spaces)];
    assert text'[..i + 2] == text'[..i] + Digits(input[k], lower);
    assert spaces && k > 0 ==> text'[..i] == text'[..i - 1] + " ";
  }

  method WriteByte(result: array<char>, i: nat, b: byte, lower: bool)
    requires i + 2 <= result.Length
    modifies result
    ensures result[..] == old(result[..])[i := HexChar(b / 16, lower)][i + 1 := HexChar(b % 16, lower)]
  {
    result[i] := HexChar(b / 16, lower);
    result[i + 1] := HexChar(b % 16, lower);
  }

  /** string_to_hexstring */
  method StringToHexString(input: Bytes, lower: bool, spaces: bool) returns (text: string)
    ensures text == Encoded(input, lower, spaces)
  {
    if |input| == 0 {
      return "";
    }
    var length := if spaces then 3 * |input| - 1 else 2 * |input|;
    var result := new char[length](i => ' ');
    var i := 0;
    ghost var k := 0;
    while i < length
      invariant k <= |input| && i == At(k, spaces)
      invariant Written(result[..], input, lower, spaces, k)
    {
      ghost var before := result[..];
      WriteByte(result, i, input[if spaces then i / 3 else i / 2], lower);
      WrittenStep(before, input, lower, spaces, k, result[..]);
      i, k := if spaces then i + 3 else i + 2, k + 1;
    }
    assert input[..k] == input;
    text := result[..];
    assert text[..|text|] == text;
  }

  /** The start of the text up to the end of byte k. */
  predicate ReadTo(input: string, spaces: bool, bytes: Bytes, k: nat) {
    |bytes| == k && EndOf(k, spaces) <= |input| && Decoded(input[..EndOf(k, spaces)], spaces) == Some(bytes)
  }

  lemma PlainStep(input: string, bytes: Bytes, i: nat)
    requires i + 2 <= |input| && IsHex(input[i]) && IsHex(input[i + 1]) && Decode(input[..i]) == Some(bytes)
    ensures Decode(input[..i + 2]) == Some(bytes + [ByteOf(input[i], input[i + 1])])
  {
    assert input[..i + 2] == input[..i] + [input[i], input[i + 1]];
    DecodeStep(input[..i], input[i], input[i + 1], bytes);
  }

  lemma SpacedStep(input: string, bytes: Bytes, i: nat)
    requires 1 < i && i + 2 <= |input| && IsSeparator(input[i - 1]) && IsHex(input[i]) && IsHex(input[i + 1])
    requires DecodeSpaced(input[..i - 1]) == Some(bytes)
    ensures DecodeSpaced(input[..i + 2]) == Some(bytes + [ByteOf(input[i], input[i + 1])])
  {
    assert input[..i + 2] == input[..i - 1] + [input[i - 1], input[i], input[i + 1]];
    DecodeSpacedStep(input[..i - 1], input[i - 1], input[i], input[i + 1], bytes);
  }

  lemma FirstSpacedStep(input: string)
    requires 2 <= |input| && IsHex(input[0]) && IsHex(input[1])
    ensures DecodeSpaced(input[..2]) == Some([ByteOf(input[0], input[1])])
  {
    assert input[..2] == [input[0], input[1]];
    OnePair(input[0], input[1]);
  }

  /** Byte k follows what was read, unless its digits or the separator before it are wrong. */
  lemma ReadStep(input: string, spaces: bool, bytes: Bytes, k: nat)
    requires ReadTo(input, spaces, bytes, k) && At(k, spaces) + 2 <= |input|
    requires IsHex(input[At(k, spaces)]) && IsHex(input[At(k, spaces) + 1])
    requires spaces && k > 0 ==> IsSeparator(input[At(k, spaces) - 1])
    ensures ReadTo(input, spaces, bytes + [ByteOf(input[At(k, spaces)], input[At(k, spaces) + 1])], k + 1)
  {
    var i := At(k, spaces);
    assert EndOf(k + 1, spaces) == i + 2;
    if !spaces {
      PlainStep(input, bytes, i);
    } else if k == 0 {
      FirstSpacedStep(input);
      assert bytes + [ByteOf(input[i], input[i + 1])] == [ByteOf(input[i], input[i + 1])];
    } else {
      SpacedStep(input, bytes, i);
    }
  }

  lemma BadDigit(input: string, spaces: bool, k: nat)
    requires At(k, spaces) + 1 < |input| && !(IsHex(input[At(k, spaces)]) && IsHex(input[At(k, spaces) + 1]))
    ensures Decoded(input, spaces) == None
  {
    TripleRemainders(k);
  }

  lemma TripleRemainders(k: nat)
    ensures 3 * k % 3 == 0 && (3 * k + 1) % 3 == 1 && (3 * k + 2) % 3 == 2
  {
  }

  /** The byte at position i; None when a digit or the separator behind it is wrong. */
  method ReadByte(input: string, spaces: bool, i: nat, ghost k: nat) returns (b: Option<byte>)
    requires i == At(k, spaces) && i + 2 <= |input|
    ensures b == None ==> Decoded(input, spaces) == None
    ensures b.Some? ==> IsHex(input[i]) && IsHex(input[i + 1]) && b.value == ByteOf(input[i], input[i + 1])
    ensures b.Some? && spaces && i + 2 < |input| ==> IsSeparator(input[i + 2])
  {
    var hi, lo := input[i], input[i + 1];
    if !IsHex(hi) || !IsHex(lo) {
      BadDigit(input, spaces, k);
      return None;
    }
    if spaces && i + 2 < |input| && !IsSeparator(input[i + 2]) {
      TripleRemainders(k);
      BadSeparator(input, i + 2);
      return None;
    }
    return Some(HexValue(hi) * 16 + HexValue(lo));
  }

  lemma BadSeparator(input: string, i: nat)
    requires i < |input| && i % 3 == 2 && !IsSeparator(input[i])
    ensures Decoded(input, true) == None
  {
  }

  /** string_from_hexstring */
  method StringFromHexString(input: string, spaces: bool) returns (bytes: Option<Bytes>)
    ensures bytes == Decoded(input, spaces)
  {
    if |input| == 0 {
      return Some([]);
    }
    if (spaces && |input| % 3 != 2) || (!spaces && |input| % 2 != 0) {
      return None;
    }
    var length := if spaces then (|input| + 1) / 3 else |input| / 2;
    var result: Bytes := [];
    var i := 0;
    while |result| < length
      invariant |result| <= length && i == At(|result|, spaces) && ReadTo(input, spaces, result, |result|)
      invariant spaces && |result| > 0 && i < |input| ==> IsSeparator(input[i - 1])
    {
      var b := ReadByte(input, spaces, i, |result|);
      if b == None {
        return None;
      }
      ReadStep(input, spaces, result, |result|);
      result := result + [b.value];
      i := if spaces then i + 3 else i + 2;
    }
    assert input[..|input|] == input;
    bytes := Some(result);
  }

  // ---------------------------------------------------------------- the digits, spelled out

  const LOWER_DIGITS := "0123456789abcdef"
  const UPPER_DIGITS := "0123456789ABCDEF"

  /** The sixteen digits and their values. */
  lemma HexTable(d: nat, lower: bool)
    requires d < 16
    ensures HexChar(d, lower) == if lower then LOWER_DIGITS[d] else UPPER_DIGITS[d]
    ensures IsHex(LOWER_DIGITS[d]) && HexValue(LOWER_DIGITS[d]) == d
    ensures IsHex(UPPER_DIGITS[d]) && HexValue(UPPER_DIGITS[d]) == d
  {
  }

  /** The high half of byte k stands at 2k and its low half behind it, both as digits of the table. */
  lemma ByteAsText(b: Bytes, lower: bool, k: nat)
    requires k < |b|
    ensures var table, s := if lower then LOWER_DIGITS else UPPER_DIGITS, Encode(b, lower);
            s[2 * k] == table[b[k] / 16] && s[2 * k + 1] == table[b[k] % 16]
  {
    EncodeAt(b, lower, k);
    HexTable(b[k] / 16, lower);
    HexTable(b[k] % 16, lower);
  }

  /** In the spaced form it stands at 3k, with a space in front of every byte but the first. */
  lemma {:induction false} ByteAsSpacedText(b: Bytes, lower: bool, k: nat)
    requires k < |b|
    ensures var table, s := if lower then LOWER_DIGITS else UPPER_DIGITS, EncodeSpaced(b, lower);
            s[3 * k] == table[b[k] / 16] && s[3 * k + 1] == table[b[k] % 16] && (k > 0 ==> s[3 * k - 1] == ' ')
    decreases |b|
  {
    HexTable(b[k] / 16, lower);
    HexTable(b[k] % 16, lower);
    if k < |b| - 1 {
      ByteAsSpacedText(b[..|b| - 1], lower, k);
    }
  }

  /** Between two bytes only a space or a zero character is accepted. */
  lemma SeparatorsAre(a: byte, b: byte, c: char)
    ensures DecodeSpaced(Digits(a, true) + [c] + Digits(b, true)).Some? <==> c == ' ' || c as int == 0
  {
    var s := Digits(a, true) + [c] + Digits(b, true);
    assert |s| == 5 && s[2] == c && IsHex(s[0]) && IsHex(s[1]) && IsHex(s[3]) && IsHex(s[4]);
  }
}
