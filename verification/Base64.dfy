/** The base 64 encoding of section 4 of RFC 4648, and the checks made before decoding. */
module Base64 {
  import opened Basics

  predicate IsSymbol(c: char) {
    'A' <= c <= 'Z' || 'a' <= c <= 'z' || '0' <= c <= '9' || c == '+' || c == '/'
  }

  function Symbol(d: nat): (c: char)
    requires d < 64
    ensures IsSymbol(c) && SymbolValue(c) == d
  {
    if d < 26 then 'A' + d as char
    else if d < 52 then 'a' + (d - 26) as char
    else if d < 62 then '0' + (d - 52) as char
    else if d == 62 then '+'
    else '/'
  }

  function SymbolValue(c: char): (d: nat)
    requires IsSymbol(c)
    ensures d < 64
  {
    if 'A' <= c <= 'Z' then c as int - 'A' as int
    else if 'a' <= c <= 'z' then c as int - 'a' as int + 26
    else if '0' <= c <= '9' then c as int - '0' as int + 52
    else if c == '+' then 62
    else 63
  }

  function Group1(a: byte): (s: string)
    ensures |s| == 4
  {
    [Symbol(a / 4), Symbol(a % 4 * 16), '=', '=']
  }

  function Group2(a: byte, b: byte): (s: string)
    ensures |s| == 4
  {
    [Symbol(a / 4), Symbol(a % 4 * 16 + b / 16), Symbol(b % 16 * 4), '=']
  }

  function Group3(a: byte, b: byte, c: byte): (s: string)
    ensures |s| == 4 && forall i :: 0 <= i < 4 ==> IsSymbol(s[i])
  {
    [Symbol(a / 4), Symbol(a % 4 * 16 + b / 16), Symbol(b % 16 * 4 + c / 64), Symbol(c % 64)]
  }

  function Encode(b: Bytes): (s: string)
    ensures |s| % 4 == 0
    ensures b == [] <==> s == ""
    decreases |b|
  {
    if |b| == 0 then ""
    else if |b| == 1 then Group1(b[0])
    else if |b| == 2 then Group2(b[0], b[1])
    else Group3(b[0], b[1], b[2]) + Encode(b[3..])
  }

  /** What is wrong at position i, in the order of check_base64: a foreign or a misplaced character. */
  predicate BadAt(s: string, i: nat)
    requires i < |s|
  {
    || (!IsSymbol(s[i]) && s[i] != '=')
    || (s[i] == '=' && (i < |s| - 2 || (i == |s| - 2 && s[i + 1] != '=')))
  }

  /** The texts check_base64 lets through. */
  predicate Valid(s: string) {
    |s| % 4 == 0 && forall i :: 0 <= i < |s| ==> !BadAt(s, i)
  }

  lemma ValidTail(s: string)
    requires Valid(s) && |s| > 4
    ensures Valid(s[4..])
    ensures IsSymbol(s[0]) && IsSymbol(s[1]) && IsSymbol(s[2]) && IsSymbol(s[3])
  {
    assert !BadAt(s, 0) && !BadAt(s, 1) && !BadAt(s, 2) && !BadAt(s, 3);
    forall i | 0 <= i < |s| - 4
      ensures !BadAt(s[4..], i)
    {
      assert !BadAt(s, i + 4);
    }
  }

  lemma ValidGroup(s: string)
    requires Valid(s) && |s| == 4
    ensures IsSymbol(s[0]) && IsSymbol(s[1])
    ensures IsSymbol(s[2]) || (s[2] == '=' && s[3] == '=')
    ensures IsSymbol(s[3]) || s[3] == '='
  {
    assert !BadAt(s, 0) && !BadAt(s, 1) && !BadAt(s, 2) && !BadAt(s, 3);
  }

  function Ungroup(a: char, b: char, c: char, d: char): Bytes
    requires IsSymbol(a) && IsSymbol(b) && IsSymbol(c) && IsSymbol(d)
  {
    [SymbolValue(a) * 4 + SymbolValue(b) / 16, SymbolValue(b) % 16 * 16 + SymbolValue(c) / 4, SymbolValue(c) % 4 * 64 + SymbolValue(d)]
  }

  function DecodeValid(s: string): (b: Bytes)
    requires Valid(s)
    decreases |s|
  {
    if s == "" then []
    else if |s| > 4 then
      ValidTail(s);
      Ungroup(s[0], s[1], s[2], s[3]) + DecodeValid(s[4..])
    else
      ValidGroup(s);
      var first := SymbolValue(s[0]) * 4 + SymbolValue(s[1]) / 16;
      if s[2] == '=' then [first]
      else if s[3] == '=' then [first, SymbolValue(s[1]) % 16 * 16 + SymbolValue(s[2]) / 4]
      else Ungroup(s[0], s[1], s[2], s[3])
  }

  /** decode_base64; None when the text is refused. */
  function Decode(s: string): Option<Bytes> {
    if Valid(s) then Some(DecodeValid(s)) else None
  }

  lemma UngroupGroup(a: byte, b: byte, c: byte)
    ensures var g := Group3(a, b, c); Ungroup(g[0], g[1], g[2], g[3]) == [a, b, c]
  {
  }

  lemma OneByte(a: byte)
    ensures Decode(Group1(a)) == Some([a])
  {
    var s := Group1(a);
    assert SymbolValue(s[0]) * 4 + SymbolValue(s[1]) / 16 == a;
  }

  lemma TwoByteValues(a: byte, b: byte)
    ensures a / 4 * 4 + (a % 4 * 16 + b / 16) / 16 == a
    ensures (a % 4 * 16 + b / 16) % 16 * 16 + b % 16 * 4 / 4 == b
  {
  }

  lemma TwoBytes(a: byte, b: byte)
    ensures Decode(Group2(a, b)) == Some([a, b])
  {
    TwoByteValues(a, b);
    assert Valid(Group2(a, b));
  }

  lemma ThreeBytes(a: byte, b: byte, c: byte)
    ensures Decode(Group3(a, b, c)) == Some([a, b, c])
  {
    assert Valid(Group3(a, b, c));
    UngroupGroup(a, b, c);
  }

  /** A full group in front of a valid text. */
  lemma GroupStep(a: char, b: char, c: char, d: char, rest: string)
    requires IsSymbol(a) && IsSymbol(b) && IsSymbol(c) && IsSymbol(d)
    requires Valid(rest) && rest != ""
    ensures Decode([a, b, c, d] + rest) == Some(Ungroup(a, b, c, d) + DecodeValid(rest))
  {
    var s := [a, b, c, d] + rest;
    forall i | 0 <= i < |s|
      ensures !BadAt(s, i)
    {
      if i >= 4 {
        assert !BadAt(rest, i - 4);
        assert s[i] == rest[i - 4];
      }
    }
    assert s[4..] == rest;
  }

  lemma MoreBytes(a: byte, b: byte, c: byte, rest: string)
    requires Valid(rest) && rest != ""
    ensures Decode(Group3(a, b, c) + rest) == Some([a, b, c] + DecodeValid(rest))
  {
    var g := Group3(a, b, c);
    GroupStep(g[0], g[1], g[2], g[3], rest);
    UngroupGroup(a, b, c);
    assert g == [g[0], g[1], g[2], g[3]];
  }

  lemma FirstGroup(b: Bytes)
    requires |b| > 3
    ensures Encode(b) == Group3(b[0], b[1], b[2]) + Encode(b[3..]) && Encode(b[3..]) != ""
  {
  }

  /** Whatever is encoded passes the checks and decodes to itself. */
  lemma {:induction false} DecodeEncode(b: Bytes)
    ensures Decode(Encode(b)) == Some(b)
    decreases |b|
  {
    if |b| == 1 {
      OneByte(b[0]);
      assert b == [b[0]];
    } else if |b| == 2 {
      TwoBytes(b[0], b[1]);
      assert b == [b[0], b[1]];
    } else if |b| == 3 {
      ThreeBytes(b[0], b[1], b[2]);
      assert b[3..] == [] && b == [b[0], b[1], b[2]];
      assert Encode(b) == Group3(b[0], b[1], b[2]);
    } else if |b| > 3 {
      DecodeEncode(b[3..]);
      FirstGroup(b);
      MoreBytes(b[0], b[1], b[2], Encode(b[3..]));
      assert b == [b[0], b[1], b[2]] + b[3..];
    }
  }

  /** The size encode_base64 allocates for. */
  lemma {:induction false} EncodedLength(b: Bytes)
    ensures |Encode(b)| == (|b| + 2) / 3 * 4
    decreases |b|
  {
    if |b| >= 3 {
      EncodedLength(b[3..]);
      assert |Encode(b)| == 4 + |Encode(b[3..])|;
      assert (|b| + 2) / 3 == (|b| - 3 + 2) / 3 + 1;
    }
  }

  /** b64_decoded_size */
  function DecodedSize(s: string): int {
    var padding := if |s| > 1 && s[|s| - 1] == '=' && s[|s| - 2] == '=' then 2
                   else if |s| > 1 && s[|s| - 1] == '=' then 1
                   else 0;
    |s| / 4 * 3 - padding
  }

  /** The size decode_base64 allocates is the number of bytes it gets. */
  lemma {:induction false} DecodedLength(s: string)
    requires Valid(s)
    ensures |DecodeValid(s)| == DecodedSize(s)
    decreases |s|
  {
    if |s| > 4 {
      ValidTail(s);
      DecodedLength(s[4..]);
    } else if s != "" {
      ValidGroup(s);
    }
  }

  /** check_base64; false when it throws. */
  method CheckBase64(s: string) returns (ok: bool)
    ensures ok <==> Valid(s)
  {
    if |s| % 4 != 0 {
      return false;
    }
    var i := 0;
    while i < |s|
      invariant 0 <= i <= |s|
      invariant forall j :: 0 <= j < i ==> !BadAt(s, j)
    {
      if !IsSymbol(s[i]) && s[i] != '=' {
        assert BadAt(s, i);
        return false;
      }
      if s[i] == '=' {
        if i < |s| - 2 || (i == |s| - 2 && s[i + 1] != '=') {
          assert BadAt(s, i);
          return false;
        }
      }
      i := i + 1;
    }
    return true;
  }

  // ---------------------------------------------------------------- the table and the groups

  const CAPITALS := "ABCDEFGHIJKLMNOPQRSTUVWXYZ"
  const SMALL := "abcdefghijklmnopqrstuvwxyz"

  /** Table 1 of RFC 4648. */
  function Alphabet(): (s: string)
    ensures |s| == 64
  {
    CAPITALS + SMALL + "0123456789+/"
  }

  lemma Capital(d: nat)
    requires d < 26
    ensures CAPITALS[d] == 'A' + d as char
  {
  }

  lemma SmallLetter(d: nat)
    requires d < 26
    ensures SMALL[d] == 'a' + d as char
  {
  }

  lemma SymbolTable(d: nat)
    requires d < 64
    ensures Symbol(d) == Alphabet()[d]
  {
    if d < 26 {
      Capital(d);
    } else if d < 52 {
      SmallLetter(d - 26);
    }
  }

  /** The text is made of the symbols of the table with these numbers. */
  predicate Spells(s: string, v: seq<nat>) {
    |s| == |v| && forall j :: 0 <= j < |s| ==> v[j] < 64 && s[j] == Alphabet()[v[j]]
  }

  /** The number with these digits of six bits, and with these bytes. */
  function OfSixBits(v: seq<nat>): nat {
    if v == [] then 0 else OfSixBits(v[..|v| - 1]) * 64 + v[|v| - 1]
  }

  function OfBytes(b: Bytes): nat {
    if b == [] then 0 else OfBytes(b[..|b| - 1]) * 256 + b[|b| - 1]
  }

  lemma ThreeOfBytes(a: byte, b: byte, c: byte)
    ensures OfBytes([a]) == a
    ensures OfBytes([a, b]) == a as nat * 256 + b as nat
    ensures OfBytes([a, b, c]) == (a as nat * 256 + b as nat) * 256 + c as nat
  {
    assert [a][..0] == [] && [a, b][..1] == [a] && [a, b, c][..2] == [a, b];
  }

  lemma FourOfSixBits(p: nat, q: nat, r: nat, s: nat)
    ensures OfSixBits([p, q]) == p * 64 + q
    ensures OfSixBits([p, q, r]) == (p * 64 + q) * 64 + r
    ensures OfSixBits([p, q, r, s]) == ((p * 64 + q) * 64 + r) * 64 + s
  {
    assert [p][..0] == [] && [p, q][..1] == [p] && [p, q, r][..2] == [p, q] && [p, q, r, s][..3] == [p, q, r];
    assert OfSixBits([p]) == p;
  }

  lemma SpelledThree(a: byte, b: byte, c: byte) returns (v: seq<nat>)
    ensures |v| == 4 && Spells(Group3(a, b, c), v) && OfSixBits(v) == OfBytes([a, b, c])
  {
    v := [a / 4, a % 4 * 16 + b / 16, b % 16 * 4 + c / 64, c % 64];
    SymbolTable(v[0]);
    SymbolTable(v[1]);
    SymbolTable(v[2]);
    SymbolTable(v[3]);
    ThreeOfBytes(a, b, c);
    FourOfSixBits(v[0], v[1], v[2], v[3]);
  }

  lemma SpelledOne(a: byte) returns (v: seq<nat>)
    ensures |v| == 2 && Spells(Group1(a)[..2], v) && Group1(a)[2..] == "==" && OfSixBits(v) == OfBytes([a]) * 16
  {
    v := [a / 4, a % 4 * 16];
    SymbolTable(v[0]);
    SymbolTable(v[1]);
    ThreeOfBytes(a, 0, 0);
    FourOfSixBits(v[0], v[1], 0, 0);
  }

  lemma SpelledTwo(a: byte, b: byte) returns (v: seq<nat>)
    ensures |v| == 3 && Spells(Group2(a, b)[..3], v) && Group2(a, b)[3..] == "=" && OfSixBits(v) == OfBytes([a, b]) * 4
  {
    v := [a / 4, a % 4 * 16 + b / 16, b % 16 * 4];
    SymbolTable(v[0]);
    SymbolTable(v[1]);
    SymbolTable(v[2]);
    ThreeOfBytes(a, b, 0);
    FourOfSixBits(v[0], v[1], v[2], 0);
  }

  /**
   One to three bytes are one number, filled up with zero bits to a multiple of six and written in
   digits of six bits each, the highest first; "=" fills up the four characters.
   */
  lemma BytesAsSymbols(b: Bytes) returns (v: seq<nat>)
    requires 1 <= |b| <= 3
    ensures |v| == |b| + 1 && |Encode(b)| == 4 && Spells(Encode(b)[..|v|], v)
    ensures Encode(b)[|v|..] == (if |b| == 1 then "==" else if |b| == 2 then "=" else "")
    ensures OfSixBits(v) == OfBytes(b) * if |b| == 1 then 16 else if |b| == 2 then 4 else 1
  {
    if |b| == 1 {
      v := SpelledOne(b[0]);
      assert b == [b[0]];
    } else if |b| == 2 {
      v := SpelledTwo(b[0], b[1]);
      assert b == [b[0], b[1]];
    } else {
      v := SpelledThree(b[0], b[1], b[2]);
      assert b == [b[0], b[1], b[2]] && Encode(b) == Group3(b[0], b[1], b[2]) + "";
    }
  }

  /** The first three bytes, or as many as there are. */
  function UpToThree(b: Bytes): Bytes {
    if |b| <= 3 then b else b[..3]
  }

  lemma FirstFour(b: Bytes)
    requires b != []
    ensures |Encode(b)| >= 4 && Encode(b)[..4] == Encode(UpToThree(b))
    ensures |b| >= 3 ==> Encode(b)[4..] == Encode(b[3..])
  {
    if |b| >= 3 {
      assert b[..3][3..] == [] && Encode(b[..3]) == Group3(b[0], b[1], b[2]) + "";
      assert |b| == 3 ==> b[..3] == b;
    }
  }

  lemma {:induction false} TailEncoded(b: Bytes, k: nat)
    requires 3 * k < |b|
    ensures 4 * k + 4 <= |Encode(b)| && Encode(b)[4 * k..] == Encode(b[3 * k..])
    decreases k
  {
    FirstFour(b);
    if k == 0 {
      assert b[0..] == b;
    } else {
      TailEncoded(b[3..], k - 1);
      assert b[3..][3 * (k - 1)..] == b[3 * k..];
      assert Encode(b)[4..][4 * (k - 1)..] == Encode(b)[4 * k..];
    }
  }

  /** Every three bytes are encoded by themselves: those from 3k on stand in the four characters from 4k on. */
  lemma EncodedByThrees(b: Bytes, k: nat)
    requires 3 * k < |b|
    ensures 4 * k + 4 <= |Encode(b)|
    ensures Encode(b)[4 * k..4 * k + 4] == Encode(UpToThree(b[3 * k..]))
  {
    TailEncoded(b, k);
    FirstFour(b[3 * k..]);
    assert Encode(b)[4 * k..4 * k + 4] == Encode(b)[4 * k..][..4];
  }

  /** The symbols are those of the table, and no others. */
  lemma SymbolsAre(c: char)
    ensures IsSymbol(c) <==> exists d :: 0 <= d < 64 && Alphabet()[d] == c
  {
    if IsSymbol(c) {
      var d := SymbolValue(c);
      assert Symbol(d) == c;
      SymbolTable(d);
    }
    forall d | 0 <= d < 64 && Alphabet()[d] == c
      ensures IsSymbol(c)
    {
      SymbolTable(d);
    }
  }

  /** A text is let through when it has whole groups of four symbols, of which the last may end in "=" or "==". */
  lemma ValidExactly(s: string)
    ensures Valid(s) <==> |s| % 4 == 0 && forall i | 0 <= i < |s| ::
              IsSymbol(s[i]) || (s[i] == '=' && (i == |s| - 1 || (i == |s| - 2 && s[|s| - 1] == '=')))
  {
    forall i | 0 <= i < |s|
      ensures !BadAt(s, i) <==> IsSymbol(s[i]) || (s[i] == '=' && (i == |s| - 1 || (i == |s| - 2 && s[|s| - 1] == '=')))
    {
    }
  }

  /** How many symbols a group that is let through has. */
  function SymbolsIn(s: string): (n: nat)
    requires |s| == 4
    ensures 2 <= n <= 4
  {
    if s[2] == '=' then 2 else if s[3] == '=' then 3 else 4
  }

  function Values(s: string): (v: seq<nat>)
    requires forall i :: 0 <= i < |s| ==> IsSymbol(s[i])
  {
    seq(|s|, i requires 0 <= i < |s| => SymbolValue(s[i]))
  }

  lemma ValuesSpell(s: string)
    requires forall i :: 0 <= i < |s| ==> IsSymbol(s[i])
    ensures Spells(s, Values(s))
  {
    forall i | 0 <= i < |s|
      ensures s[i] == Alphabet()[Values(s)[i]]
    {
      SymbolOfValue(s[i]);
    }
  }

  /** A group that is let through stands for the bytes of its number; the bits they leave over are ignored. */
  lemma DecodedGroup(s: string)
    requires Valid(s) && |s| == 4
    ensures forall i | 0 <= i < SymbolsIn(s) :: IsSymbol(s[i])
    ensures var n := SymbolsIn(s);
            && Spells(s[..n], Values(s[..n])) && |DecodeValid(s)| == n - 1
            && OfBytes(DecodeValid(s)) == OfSixBits(Values(s[..n])) / if n == 2 then 16 else if n == 3 then 4 else 1
  {
    ValidGroup(s);
    ValuesSpell(s[..SymbolsIn(s)]);
    if s[2] == '=' {
      DecodedOne(s);
    } else if s[3] == '=' {
      DecodedTwo(s);
    } else {
      DecodedThree(s);
    }
  }

  lemma DecodedOne(s: string)
    requires Valid(s) && |s| == 4 && IsSymbol(s[0]) && IsSymbol(s[1]) && s[2] == '='
    ensures |DecodeValid(s)| == 1 && OfBytes(DecodeValid(s)) == OfSixBits(Values(s[..2])) / 16
  {
    assert Values(s[..2]) == [SymbolValue(s[0]), SymbolValue(s[1])];
    SixBitsOfOne(SymbolValue(s[0]), SymbolValue(s[1]));
  }

  lemma DecodedTwo(s: string)
    requires Valid(s) && |s| == 4 && IsSymbol(s[0]) && IsSymbol(s[1]) && IsSymbol(s[2]) && s[3] == '='
    ensures |DecodeValid(s)| == 2 && OfBytes(DecodeValid(s)) == OfSixBits(Values(s[..3])) / 4
  {
    assert Values(s[..3]) == [SymbolValue(s[0]), SymbolValue(s[1]), SymbolValue(s[2])];
    SixBitsOfTwo(SymbolValue(s[0]), SymbolValue(s[1]), SymbolValue(s[2]));
  }

  lemma DecodedThree(s: string)
    requires Valid(s) && |s| == 4 && IsSymbol(s[0]) && IsSymbol(s[1]) && IsSymbol(s[2]) && IsSymbol(s[3])
    ensures |DecodeValid(s)| == 3 && OfBytes(DecodeValid(s)) == OfSixBits(Values(s[..4]))
  {
    var p, q, r, t, b := FullGroup(s);
    SixBitsOfThree(p, q, r, t, b[0], b[1], b[2]);
  }

  lemma FullGroup(s: string) returns (p: nat, q: nat, r: nat, t: nat, b: Bytes)
    requires Valid(s) && |s| == 4 && IsSymbol(s[0]) && IsSymbol(s[1]) && IsSymbol(s[2]) && IsSymbol(s[3])
    ensures p < 64 && q < 64 && r < 64 && t < 64 && Values(s[..4]) == [p, q, r, t] && |b| == 3
    ensures DecodeValid(s) == [b[0], b[1], b[2]] && b[0] == p * 4 + q / 16 && b[1] == q % 16 * 16 + r / 4 && b[2] == r % 4 * 64 + t
  {
    p, q, r, t := SymbolValue(s[0]), SymbolValue(s[1]), SymbolValue(s[2]), SymbolValue(s[3]);
    b := Ungroup(s[0], s[1], s[2], s[3]);
  }

  lemma SymbolOfValue(c: char)
    requires IsSymbol(c)
    ensures Alphabet()[SymbolValue(c)] == c
  {
    assert Symbol(SymbolValue(c)) == c;
    SymbolTable(SymbolValue(c));
  }

  lemma SixBitsOfOne(p: nat, q: nat)
    requires p < 64 && q < 64
    ensures OfBytes([p * 4 + q / 16]) == OfSixBits([p, q]) / 16
  {
    ThreeOfBytes(p * 4 + q / 16, 0, 0);
    FourOfSixBits(p, q, 0, 0);
  }

  lemma SixBitsOfTwo(p: nat, q: nat, r: nat)
    requires p < 64 && q < 64 && r < 64
    ensures OfBytes([p * 4 + q / 16, q % 16 * 16 + r / 4]) == OfSixBits([p, q, r]) / 4
  {
    ThreeOfBytes(p * 4 + q / 16, q % 16 * 16 + r / 4, 0);
    FourOfSixBits(p, q, r, 0);
  }

  lemma SixBitsOfThree(p: nat, q: nat, r: nat, s: nat, a: byte, b: byte, c: byte)
    requires p < 64 && q < 64 && r < 64 && s < 64
    requires a == p * 4 + q / 16 && b == q % 16 * 16 + r / 4 && c == r % 4 * 64 + s
    ensures OfBytes([a, b, c]) == OfSixBits([p, q, r, s])
  {
    ThreeOfBytes(a, b, c);
    FourOfSixBits(p, q, r, s);
  }

  /** A longer text is decoded group by group. */
  lemma DecodedByGroups(s: string)
    requires Valid(s) && |s| > 4
    ensures Valid(s[..4]) && Valid(s[4..]) && DecodeValid(s) == DecodeValid(s[..4]) + DecodeValid(s[4..])
  {
    ValidTail(s);
    FirstIsFull(s[..4]);
  }

  lemma FirstIsFull(g: string)
    requires |g| == 4 && forall i :: 0 <= i < 4 ==> IsSymbol(g[i])
    ensures Valid(g) && DecodeValid(g) == Ungroup(g[0], g[1], g[2], g[3])
  {
  }
}
