/** The Luhn formula of card_crypter: the control digit, the check, and what the check catches. */
module Luhn {
  import opened Basics

  // ---------------------------------------------------------------- the weighted sum

  /** The value the loops give a character; a digit stands for itself. */
  function Value(c: char): int { c as int - '0' as int }

  function Doubled(p: int): int {
    if p * 2 > 9 then p * 2 - 9 else p * 2
  }

  function Weight(c: char, doubled: bool): int {
    if doubled then Doubled(Value(c)) else Value(c)
  }

  /** Every second character counts double, from the last one, doubled or not, towards the front. */
  function Weighted(s: string, doubled: bool): int {
    if s == "" then 0 else Weighted(s[..|s| - 1], !doubled) + Weight(s[|s| - 1], doubled)
  }

  function ControlDigit(s: string): char {
    DigitChar((10 - Weighted(s, true) % 10) % 10)
  }

  predicate Check(s: string) {
    Weighted(s, false) % 10 == 0
  }

  // ---------------------------------------------------------------- the loops

  /** luhn_control_digit */
  method LuhnControlDigit(num: string) returns (c: char)
    ensures c == ControlDigit(num)
  {
    var ptr, i, sum := |num| - 1, 0, 0;
    assert num[..ptr + 1] == num;
    while ptr != -1
      invariant -1 <= ptr < |num| && i == |num| - 1 - ptr
      invariant Weighted(num, true) == Weighted(num[..ptr + 1], i % 2 == 0) + sum
      decreases ptr + 1
    {
      var p := num[ptr] as int - '0' as int;
      assert num[..ptr + 1][..ptr] == num[..ptr];
      sum := sum + if i % 2 == 0 then (if p * 2 > 9 then p * 2 - 9 else p * 2) else p;
      ptr, i := ptr - 1, i + 1;
    }
    sum := (10 - sum % 10) % 10;
    c := DigitChar(sum);
  }

  /** luhn_check */
  method LuhnCheck(num: string) returns (ok: bool)
    ensures ok <==> Check(num)
  {
    var ptr, i, sum := |num| - 1, 0, 0;
    assert num[..ptr + 1] == num;
    while ptr != -1
      invariant -1 <= ptr < |num| && i == |num| - 1 - ptr
      invariant Weighted(num, false) == Weighted(num[..ptr + 1], i % 2 == 1) + sum
      decreases ptr + 1
    {
      var p := num[ptr] as int - '0' as int;
      assert num[..ptr + 1][..ptr] == num[..ptr];
      sum := sum + if i % 2 == 1 then (if p * 2 > 9 then p * 2 - 9 else p * 2) else p;
      ptr, i := ptr - 1, i + 1;
    }
    ok := sum % 10 == 0;
  }

  /** Sizes are unsigned 64-bit numbers, and no string is longer than half of their range. */
  const SIZES: int := 0x1_0000_0000_0000_0000
  const MAX_LENGTH: int := 0x7FFF_FFFF_FFFF_FFFF

  /** A buffer of zeros with the two texts copied to its front, and room for one more digit. */
  method Joined(prefix: string, random: string) returns (pan: array<char>)
    ensures fresh(pan) && pan[..] == prefix + random + ['0']
  {
    pan := new char[|prefix| + |random| + 1](i => '0');
    forall i | 0 <= i < |prefix| {
      pan[i] := prefix[i];
    }
    forall i | 0 <= i < |random| {
      pan[|prefix| + i] := random[i];
    }
  }

  /** The length of the random part as an unsigned number: from 7 on what it should be, below that larger than any string. */
  lemma UnsignedLength(panLen: int)
    requires -0x8000_0000 <= panLen < 0x8000_0000
    ensures (panLen - 7) % SIZES == if panLen >= 7 then panLen - 7 else SIZES + panLen - 7
    ensures panLen % SIZES == if panLen >= 0 then panLen else SIZES + panLen
  {
  }

  /**
   generate_pan, with the random digits it drew; None when its assertion fails, or when it asks
   for a longer string than there can be: below 7 the length of the random part wraps around.
   */
  method GeneratePan(panLen: int, random: string) returns (r: Option<string>)
    requires -0x8000_0000 <= panLen < 0x8000_0000 && (panLen < 0 || panLen >= 6)
    requires panLen >= 8 ==> |random| == panLen - 7 && AllDigits(random)
    ensures r.Some? <==> panLen >= 8
    ensures r.Some? ==> |r.value| == panLen && AllDigits(r.value) && "500000" + random <= r.value && Check(r.value)
  {
    var prefix := "500000";
    var genLen := (panLen - |prefix| - 1) % SIZES;
    UnsignedLength(panLen);
    if genLen < 1 || panLen % SIZES > MAX_LENGTH || genLen > MAX_LENGTH {
      return None;
    }
    var pan := Joined(prefix, random);
    assert pan[..panLen - 1] == prefix + random;
    var control := LuhnControlDigit(pan[..panLen - 1]);
    pan[panLen - 1] := control;
    assert pan[..] == prefix + random + [control];
    ControlDigitIsTheOne(prefix + random, control);
    return Some(pan[..]);
  }

  // ---------------------------------------------------------------- what it means

  /** The sum of a text is that of its two parts, the left one shifted by the length of the right. */
  lemma {:induction false} WeightedSplit(a: string, b: string, doubled: bool)
    ensures Weighted(a + b, doubled) == Weighted(a, if |b| % 2 == 0 then doubled else !doubled) + Weighted(b, doubled)
    decreases |b|
  {
    if b == "" {
      assert a + b == a;
    } else {
      assert (a + b)[..|a + b| - 1] == a + b[..|b| - 1];
      WeightedSplit(a, b[..|b| - 1], !doubled);
    }
  }

  lemma ThreeParts(left: string, middle: string, right: string)
    ensures Weighted(left + (middle + right), false)
         == Weighted(left, |middle + right| % 2 == 1) + Weighted(middle, |right| % 2 == 1) + Weighted(right, false)
  {
    WeightedSplit(left, middle + right, false);
    WeightedSplit(middle, right, false);
  }

  /** One digit completes a sum to a multiple of ten. */
  lemma OneDigitCompletes(n: int, d: nat)
    requires d < 10
    ensures (n + d) % 10 == 0 <==> d == (10 - n % 10) % 10
  {
  }

  /** Appending the control digit passes the check, and no other digit does. */
  lemma ControlDigitIsTheOne(s: string, c: char)
    requires IsDigit(c)
    ensures Check(s + [c]) <==> c == ControlDigit(s)
  {
    assert (s + [c])[..|s|] == s;
    assert Weighted(s + [c], false) == Weighted(s, true) + Value(c);
    OneDigitCompletes(Weighted(s, true), DigitValue(c));
    SameDigitValue(c, DigitChar((10 - Weighted(s, true) % 10) % 10));
  }

  lemma SameDigitValue(c: char, d: char)
    requires IsDigit(c) && IsDigit(d)
    ensures c == d <==> DigitValue(c) == DigitValue(d)
  {
  }

  /** A doubled digit counts as the sum of the digits of the result. */
  lemma DoubledIsDigitSum(d: nat)
    requires d < 10
    ensures Doubled(d) == 2 * d / 10 + 2 * d % 10
  {
  }

  /** The places counted from the right, the last one being number `place`: at even ones twice the digit, as a digit sum, at odd ones the digit. */
  function DigitSums(s: string, place: nat): nat
    requires AllDigits(s)
  {
    if s == "" then 0
    else
      var d := DigitValue(s[|s| - 1]);
      DigitSums(s[..|s| - 1], place + 1) + if place % 2 == 0 then 2 * d / 10 + 2 * d % 10 else d
  }

  /** A check doubles every second digit from the one before the last on, a control digit is reckoned from the last on. */
  lemma {:induction false} WeightedIsDigitSums(s: string, place: nat)
    requires AllDigits(s)
    ensures Weighted(s, place % 2 == 0) == DigitSums(s, place)
    decreases |s|
  {
    if s != "" {
      WeightedIsDigitSums(s[..|s| - 1], place + 1);
      DoubledIsDigitSum(DigitValue(s[|s| - 1]));
    }
  }

  /** The check and the control digit by places. */
  lemma CheckByPlaces(s: string)
    requires AllDigits(s)
    ensures Check(s) <==> DigitSums(s, 1) % 10 == 0
    ensures IsDigit(ControlDigit(s)) && (DigitSums(s, 0) + DigitValue(ControlDigit(s))) % 10 == 0
  {
    WeightedIsDigitSums(s, 1);
    WeightedIsDigitSums(s, 0);
    OneDigitCompletes(DigitSums(s, 0), (10 - DigitSums(s, 0) % 10) % 10);
  }

  /** A leading zero does not matter. */
  lemma LeadingZero(s: string)
    ensures Check("0" + s) <==> Check(s)
    ensures ControlDigit("0" + s) == ControlDigit(s)
  {
    WeightedSplit("0", s, false);
    WeightedSplit("0", s, true);
    OneChar('0', false);
    OneChar('0', true);
  }

  lemma {:induction false} Ones(n: nat, doubled: bool)
    ensures Weighted(seq(n, i => '1'), doubled) == n + (if doubled then (n + 1) / 2 else n / 2)
    decreases n
  {
    if n > 0 {
      Ones(n - 1, !doubled);
      assert seq(n, i => '1')[..n - 1] == seq(n - 1, i => '1');
    }
  }

  /** The sixteen digits 4111 1111 1111 1111 pass, and their last digit is the control digit of the others. */
  lemma KnownNumber()
    ensures Check("4111111111111111") && ControlDigit("411111111111111") == '1'
  {
    var ones := seq(15, i => '1');
    assert "4111111111111111" == "4" + ones;
    WeightedSplit("4", ones, false);
    OneChar('4', true);
    Ones(15, false);
    ControlDigitIsTheOne("411111111111111", '1');
    assert "411111111111111" + ['1'] == "4111111111111111";
  }

  lemma WeightIsInjective(a: char, b: char, doubled: bool)
    requires IsDigit(a) && IsDigit(b) && a != b
    ensures (Weight(a, doubled) - Weight(b, doubled)) % 10 != 0
  {
    assert 0 <= Weight(a, doubled) <= 9 && 0 <= Weight(b, doubled) <= 9;
  }

  /** Every substitution of one digit by another is caught. */
  lemma SubstitutionIsCaught(s: string, i: nat, d: char)
    requires Check(s) && i < |s| && IsDigit(s[i]) && IsDigit(d) && d != s[i]
    ensures !Check(s[i := d])
  {
    var left, right := s[..i], s[i + 1..];
    var doubled := |right| % 2 == 1;
    SubstitutionShape(s, i, d);
    SubstitutedSums(left, s[i], d, right);
    WeightIsInjective(s[i], d, doubled);
    SumsDiffer(Weighted(s, false), Weighted(s[i := d], false), Weight(s[i], doubled) - Weight(d, doubled));
  }

  lemma SubstitutionShape(s: string, i: nat, d: char)
    requires i < |s|
    ensures s == s[..i] + ([s[i]] + s[i + 1..]) && s[i := d] == s[..i] + ([d] + s[i + 1..])
  {
  }

  lemma SubstitutedSums(left: string, a: char, b: char, right: string)
    ensures var doubled := |right| % 2 == 1;
            Weighted(left + ([a] + right), false) - Weighted(left + ([b] + right), false) == Weight(a, doubled) - Weight(b, doubled)
  {
    ThreeParts(left, [a], right);
    ThreeParts(left, [b], right);
    OneChar(a, |right| % 2 == 1);
    OneChar(b, |right| % 2 == 1);
  }

  lemma OneChar(c: char, doubled: bool)
    ensures Weighted([c], doubled) == Weight(c, doubled)
  {
    assert [c][..0] == "";
  }

  lemma SumsDiffer(a: int, b: int, d: int)
    requires a % 10 == 0 && a - b == d
    ensures b % 10 == 0 <==> d % 10 == 0
  {
  }

  lemma TwoChars(a: char, b: char, doubled: bool)
    ensures Weighted([a, b], doubled) == Weight(a, !doubled) + Weight(b, doubled)
  {
    assert [a, b][..1] == [a];
    OneChar(a, !doubled);
  }

  lemma SwapDifference(a: char, b: char, doubled: bool)
    requires IsDigit(a) && IsDigit(b) && a != b
    ensures (Weight(a, !doubled) + Weight(b, doubled) - Weight(b, !doubled) - Weight(a, doubled)) % 10 == 0
       <==> {a, b} == {'0', '9'}
  {
    var x, y := Value(a), Value(b);
    assert 0 <= x <= 9 && 0 <= y <= 9 && x != y;
    assert {a, b} == {'0', '9'} <==> (x == 0 && y == 9) || (x == 9 && y == 0) by {
      assert a == '0' + x as char && b == '0' + y as char;
      if {a, b} == {'0', '9'} {
        assert a in {'0', '9'} && b in {'0', '9'};
      }
    }
    var e := Doubled(x) + y - Doubled(y) - x;
    assert -9 <= Doubled(x) - x <= 9;
    assert e % 10 == 0 <==> (x == 0 && y == 9) || (x == 9 && y == 0);
    assert (0 - e) % 10 == 0 <==> e % 10 == 0;
  }

  /** Every swap of two unequal neighbouring digits is caught, except that of 0 with 9. */
  lemma SwapIsCaught(s: string, i: nat)
    requires Check(s) && i + 1 < |s| && IsDigit(s[i]) && IsDigit(s[i + 1]) && s[i] != s[i + 1]
    ensures Check(s[i := s[i + 1]][i + 1 := s[i]]) <==> {s[i], s[i + 1]} == {'0', '9'}
  {
    var a, b := s[i], s[i + 1];
    var left, right := s[..i], s[i + 2..];
    var t := s[i := b][i + 1 := a];
    SwapShape(s, i);
    var doubled := |right| % 2 == 1;
    SwappedSums(left, a, b, right);
    SwapDifference(a, b, doubled);
    SumsDiffer(Weighted(s, false), Weighted(t, false),
               Weight(a, !doubled) + Weight(b, doubled) - Weight(b, !doubled) - Weight(a, doubled));
  }

  lemma SwapShape(s: string, i: nat)
    requires i + 1 < |s|
    ensures s == s[..i] + ([s[i], s[i + 1]] + s[i + 2..])
    ensures s[i := s[i + 1]][i + 1 := s[i]] == s[..i] + ([s[i + 1], s[i]] + s[i + 2..])
  {
  }

  lemma SwappedSums(left: string, a: char, b: char, right: string)
    ensures var doubled := |right| % 2 == 1;
            Weighted(left + ([a, b] + right), false) - Weighted(left + ([b, a] + right), false)
            == Weight(a, !doubled) + Weight(b, doubled) - Weight(b, !doubled) - Weight(a, doubled)
  {
    ThreeParts(left, [a, b], right);
    ThreeParts(left, [b, a], right);
    TwoChars(a, b, |right| % 2 == 1);
    TwoChars(b, a, |right| % 2 == 1);
  }

  // ---------------------------------------------------------------- normalize_pan

  /** The characters normalize_pan skips; the end of its list, a zero, is one of them. */
  predicate Skipped(c: char) {
    c == ' ' || c == '\t' || c == '\n' || c == '\r' || c == '\0'
  }

  function Digits(s: string): (r: Option<string>)
    ensures r.Some? ==> AllDigits(r.value)
  {
    if s == "" then Some("")
    else
      var last := s[|s| - 1];
      match Digits(s[..|s| - 1])
      case None => None
      case Some(d) => if IsDigit(last) then Some(d + [last]) else if Skipped(last) then Some(d) else None
  }

  /** The digits of a card number; None for a foreign character or a length outside 12 to 19. */
  function Normalized(pan: string): Option<string> {
    match Digits(pan)
    case None => None
    case Some(d) => if 12 <= |d| <= 19 then Some(d) else None
  }

  method NormalizePan(pan: string) returns (r: Option<string>)
    ensures r == Normalized(pan)
  {
    var digits := "";
    var i := 0;
    while i < |pan|
      invariant 0 <= i <= |pan|
      invariant Digits(pan[..i]) == Some(digits)
    {
      assert pan[..i + 1][..i] == pan[..i];
      var c := pan[i];
      if '0' <= c <= '9' {
        digits := digits + [c];
      } else if !Skipped(c) {
        ForeignStays(pan, i + 1);
        return None;
      }
      i := i + 1;
    }
    assert pan[..i] == pan;
    if |digits| < 12 || |digits| > 19 {
      return None;
    }
    return Some(digits);
  }

  lemma {:induction false} ForeignStays(pan: string, n: nat)
    requires n <= |pan| && Digits(pan[..n]) == None
    ensures Digits(pan) == None
    decreases |pan| - n
  {
    if n < |pan| {
      assert pan[..n + 1][..n] == pan[..n];
      ForeignStays(pan, n + 1);
    } else {
      assert pan[..n] == pan;
    }
  }

  lemma {:induction false} DigitsOfDigits(s: string)
    requires AllDigits(s)
    ensures Digits(s) == Some(s)
  {
    if s != "" {
      var front, last := s[..|s| - 1], s[|s| - 1];
      DigitsOfDigits(front);
      assert Digits(s) == Some(front + [last]);
      assert s == front + [last];
    }
  }

  /** A normalized number is its own normal form, so both spellings get the same token. */
  lemma NormalizeTwice(pan: string)
    requires Normalized(pan).Some?
    ensures Normalized(Normalized(pan).value) == Normalized(pan)
  {
    DigitsOfDigits(Digits(pan).value);
  }

  lemma {:induction false} DigitsAppend(a: string, b: string)
    ensures Digits(a + b) == if Digits(a).Some? && Digits(b).Some? then Some(Digits(a).value + Digits(b).value) else None
    decreases |b|
  {
    if b == "" {
      assert a + b == a;
      if Digits(a).Some? {
        assert Digits(a).value + "" == Digits(a).value;
      }
    } else {
      var front, last := b[..|b| - 1], b[|b| - 1];
      assert (a + b)[..|a + b| - 1] == a + front;
      DigitsAppend(a, front);
      if Digits(a).Some? && Digits(front).Some? {
        assert (Digits(a).value + Digits(front).value) + [last] == Digits(a).value + (Digits(front).value + [last]);
      }
    }
  }

  /** A number in digits alone is normal when it has 12 to 19 of them, and refused otherwise. */
  lemma NormalIsTwelveToNineteen(s: string)
    requires AllDigits(s)
    ensures Normalized(s) == if 12 <= |s| <= 19 then Some(s) else None
  {
    DigitsOfDigits(s);
  }

  /** A space, a tab, a line feed, a carriage return or a zero character makes no difference anywhere. */
  lemma SeparatorsDoNotMatter(a: string, c: char, b: string)
    requires c in {' ', '\t', '\n', '\r', '\0'}
    ensures Normalized(a + [c] + b) == Normalized(a + b)
  {
    assert [c][..0] == "";
    assert Digits([c]) == Some("");
    DigitsAppend(a, [c]);
    DigitsAppend(a + [c], b);
    DigitsAppend(a, b);
  }

  /** Any other character that is no digit makes the number unacceptable. */
  lemma ForeignIsRefused(a: string, c: char, b: string)
    requires c !in {' ', '\t', '\n', '\r', '\0'} && !('0' <= c <= '9')
    ensures Normalized(a + [c] + b) == None
  {
    assert [c][..0] == "";
    assert Digits([c]) == None;
    DigitsAppend(a, [c]);
    DigitsAppend(a + [c], b);
  }
}
