/** Bytes, decimal numerals and a few set helpers shared by every other module. */
module Basics {

  /** The value of a call that may throw: None stands for the exception. */
  datatype Option<+T> = None | Some(value: T)

  type byte = x: int | 0 <= x < 256

  type Bytes = seq<byte>

  // ---------------------------------------------------------------- text and bytes

  /** A string every character of which fits the 8-bit char of the program. */
  predicate Narrow(s: string) {
    forall i :: 0 <= i < |s| ==> s[i] as int < 256
  }

  type Text = s: string | Narrow(s) witness ""

  /** The bytes of a string. */
  function Latin(s: string): (b: Bytes)
    ensures |b| == |s|
    ensures forall i :: 0 <= i < |s| ==> b[i] == s[i] as int % 256
  {
    seq(|s|, i requires 0 <= i < |s| => s[i] as int % 256)
  }

  /** The string made of the given bytes. */
  function Chars(b: Bytes): (s: Text)
    ensures |s| == |b|
    ensures forall i :: 0 <= i < |b| ==> s[i] as int == b[i]
  {
    seq(|b|, i requires 0 <= i < |b| => b[i] as char)
  }

  lemma CharsOfLatin(s: Text)
    ensures Chars(Latin(s)) == s
  {
    assert forall i :: 0 <= i < |s| ==> Chars(Latin(s))[i] as int == s[i] as int;
    assert forall i :: 0 <= i < |s| ==> Chars(Latin(s))[i] == s[i];
  }

  // ---------------------------------------------------------------- decimal numerals

  predicate IsDigit(c: char) { '0' <= c <= '9' }

  predicate AllDigits(s: string) {
    forall i :: 0 <= i < |s| ==> IsDigit(s[i])
  }

  function DigitChar(d: nat): (c: char)
    requires d < 10
    ensures IsDigit(c) && DigitValue(c) == d
  {
    '0' + d as char
  }

  function DigitValue(c: char): (d: nat)
    requires IsDigit(c)
    ensures d < 10 && c as int == '0' as int + d
  {
    c as int - '0' as int
  }

  function ParseNat(s: string): nat
    requires AllDigits(s)
  {
    if s == [] then 0 else ParseNat(s[..|s| - 1]) * 10 + DigitValue(s[|s| - 1])
  }

  /** The shortest decimal numeral of n. */
  function Decimal(n: nat): (s: string)
    ensures s != [] && AllDigits(s) && ParseNat(s) == n
  {
    if n < 10 then [DigitChar(n)]
    else
      var head := Decimal(n / 10);
      var s := head + [DigitChar(n % 10)];
      assert s[..|s| - 1] == head;
      s
  }

  function Pow10(k: nat): (p: nat)
    ensures p > 0
  {
    if k == 0 then 1 else 10 * Pow10(k - 1)
  }

  /** n has at most k digits exactly when it is below the k-th power of ten. */
  lemma {:induction false} DecimalLength(n: nat, k: nat)
    requires k > 0
    ensures |Decimal(n)| <= k <==> n < Pow10(k)
    decreases k
  {
    if k == 1 {
      assert Pow10(1) == 10 * Pow10(0);
    } else if n >= 10 {
      DecimalLength(n / 10, k - 1);
      assert Decimal(n) == Decimal(n / 10) + [DigitChar(n % 10)];
      assert n / 10 < Pow10(k - 1) <==> n < 10 * Pow10(k - 1);
    } else {
      assert Pow10(k) == 10 * Pow10(k - 1);
    }
  }

  /** The text that to_string writes for n. */
  function ToText(n: int): (s: string)
    ensures ParseInt(s) == Some(n)
  {
    if n < 0 then
      var s := "-" + Decimal(-n);
      assert s[1..] == Decimal(-n);
      s
    else Decimal(n)
  }

  /** The number that lexical_cast<int> reads from s, None when it throws. */
  function ParseInt(s: string): Option<int> {
    if s == [] then None
    else if s[0] == '-' then
      if |s| > 1 && AllDigits(s[1..]) then Some(0 - ParseNat(s[1..])) else None
    else if s[0] == '+' then
      if |s| > 1 && AllDigits(s[1..]) then Some(ParseNat(s[1..])) else None
    else if AllDigits(s) then Some(ParseNat(s))
    else None
  }

  lemma DecimalInjective(a: nat, b: nat)
    requires Decimal(a) == Decimal(b)
    ensures a == b
  {
    assert ParseNat(Decimal(a)) == ParseNat(Decimal(b));
  }

  // ---------------------------------------------------------------- finite sets of numbers

  lemma Pick<T>(s: set<T>) returns (e: T)
    requires s != {}
    ensures e in s
  {
    e :| e in s;
  }

  lemma {:induction false} MaxExists(s: set<int>)
    requires s != {}
    ensures exists m :: m in s && forall x | x in s :: x <= m
    decreases |s|
  {
    var e := Pick(s);
    var rest := s - {e};
    if rest == {} {
      forall x | x in s ensures x <= e {
        assert x in rest || x == e;
      }
    } else {
      MaxExists(rest);
      var m :| m in rest && forall x | x in rest :: x <= m;
      var best := if m < e then e else m;
      forall x | x in s ensures x <= best {
        assert x == e || x in rest;
      }
      assert best in s;
    }
  }

  /** The largest element, as std::max_element returns it. */
  function MaxOf(s: set<int>): (m: int)
    requires s != {}
    ensures m in s
    ensures forall x | x in s :: x <= m
  {
    MaxExists(s);
    var m :| m in s && forall x | x in s :: x <= m;
    m
  }

  lemma {:induction false} MinExists(s: set<int>)
    requires s != {}
    ensures exists m :: m in s && forall x | x in s :: m <= x
    decreases |s|
  {
    var e := Pick(s);
    var rest := s - {e};
    if rest == {} {
      forall x | x in s ensures e <= x {
        assert x in rest || x == e;
      }
    } else {
      MinExists(rest);
      var m :| m in rest && forall x | x in rest :: m <= x;
      var best := if e < m then e else m;
      forall x | x in s ensures best <= x {
        assert x == e || x in rest;
      }
      assert best in s;
    }
  }

  /** The smallest element, as "order by id ... first" returns it. */
  function MinOf(s: set<int>): (m: int)
    requires s != {}
    ensures m in s
    ensures forall x | x in s :: m <= x
  {
    MinExists(s);
    var m :| m in s && forall x | x in s :: m <= x;
    m
  }

  /** The elements in ascending order. */
  function Sorted(s: set<int>): (r: seq<int>)
    ensures forall e :: e in r <==> e in s
    decreases |s|
  {
    if s == {} then [] else [MinOf(s)] + Sorted(s - {MinOf(s)})
  }

  // ---------------------------------------------------------------- stored items

  /** The items a cleanup leaves: the named one, and it only if it holds data. */
  function KeepOnly<K>(items: map<K, string>, k: K): map<K, string> {
    if k in items && items[k] != "" then map[k := items[k]] else map[]
  }
}
