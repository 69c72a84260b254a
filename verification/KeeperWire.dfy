/**
 How a key keeper writes a snapshot of its items as request parameters, and how the receiving
 node reads them back: push_to_peers, find_id_versions and do_write.
 */
module KeeperWire {
  import opened Basics

  /** Times in seconds; the clock gives whole milliseconds. */
  datatype Info = Info(data: string, created: real, updated: real)

  type Storage = map<string, Info>

  type Params = map<string, string>

  // ---------------------------------------------------------------- formats

  predicate IsWordChar(c: char) {
    'A' <= c <= 'Z' || 'a' <= c <= 'z' || IsDigit(c) || c == '_'
  }

  /** id_fmt */
  predicate IdFormat(s: string) {
    1 <= |s| <= 40 && forall i :: 0 <= i < |s| ==> IsWordChar(s[i])
  }

  /** data_fmt */
  predicate DataFormat(s: string) {
    |s| <= 2000 && forall i :: 0 <= i < |s| ==> 0x20 <= s[i] as int <= 0x7F
  }

  /** fmt_re: the digits of "id_" followed by one to nine of them. */
  function IdVersion(key: string): Option<int> {
    if 4 <= |key| <= 12 && key[..3] == "id_" && AllDigits(key[3..]) then Some(ParseNat(key[3..])) else None
  }

  // ---------------------------------------------------------------- times

  /** The nearest whole number of milliseconds. */
  function Millis(ts: real): nat
    requires ts >= 0.0
  {
    (ts * 1000.0 + 0.5).Floor
  }

  function Rounded(ts: real): real
    requires ts >= 0.0
  {
    Millis(ts) as real / 1000.0
  }

  /** A time taken from the clock of the program. */
  predicate Clock(ts: real) {
    ts >= 0.0 && Rounded(ts) == ts
  }

  function ThreeDigits(n: nat): (s: string)
    requires n < 1000
    ensures |s| == 3 && AllDigits(s)
  {
    [DigitChar(n / 100), DigitChar(n / 10 % 10), DigitChar(n % 10)]
  }

  /** format_ts */
  function FormatTs(ts: real): string
    requires ts >= 0.0
  {
    Decimal(Millis(ts) / 1000) + "." + ThreeDigits(Millis(ts) % 1000)
  }

  /** The position of the first of two characters, the length of the text when there is none. */
  function FirstOf(s: string, c: char, d: char): (n: nat)
    ensures n <= |s| && (n < |s| ==> s[n] == c || s[n] == d)
    ensures forall i :: 0 <= i < n ==> s[i] != c && s[i] != d
  {
    if s == "" || s[0] == c || s[0] == d then 0 else 1 + FirstOf(s[1..], c, d)
  }

  /** Digits with at most one dot, and at least one digit. */
  function ParseMantissa(s: string): (r: Option<real>)
    ensures r.Some? ==> r.value >= 0.0
  {
    var n := FirstOf(s, '.', '.');
    var whole, part := s[..n], if n < |s| then s[n + 1..] else "";
    if AllDigits(whole) && AllDigits(part) && |whole| + |part| > 0
    then Some(ParseNat(whole) as real + ParseNat(part) as real / Pow10(|part|) as real)
    else None
  }

  function Scaled(x: real, exponent: int): (r: real)
    requires x >= 0.0
    ensures r >= 0.0
  {
    if exponent >= 0 then x * Pow10(exponent) as real else x / Pow10(-exponent) as real
  }

  /** lexical_cast<double> of an unsigned numeral, with or without a fraction and an exponent. */
  function ParseTs(s: string): (r: Option<real>)
    ensures r.Some? ==> r.value >= 0.0
  {
    var n := FirstOf(s, 'e', 'E');
    if n == |s| then ParseMantissa(s)
    else
      match (ParseMantissa(s[..n]), ParseInt(s[n + 1..]))
      case (Some(x), Some(exponent)) => Some(Scaled(x, exponent))
      case _ => None
  }

  lemma ThreeDigitsValue(n: nat)
    requires n < 1000
    ensures ParseNat(ThreeDigits(n)) == n
  {
    var s := ThreeDigits(n);
    assert s[..2][..1] == [s[0]] && s[..2] == [s[0], s[1]];
    assert ParseNat(s[..1]) == n / 100 by {
      assert s[..1][..0] == [];
    }
    assert ParseNat(s[..2]) == n / 100 * 10 + n / 10 % 10;
  }

  lemma FirstIs(s: string, c: char, d: char, n: nat)
    requires n <= |s| && (forall i :: 0 <= i < n ==> s[i] != c && s[i] != d) && (n < |s| ==> s[n] == c || s[n] == d)
    ensures FirstOf(s, c, d) == n
  {
  }

  lemma Thousand()
    ensures Pow10(3) == 1000
  {
    assert Pow10(1) == 10 && Pow10(2) == 100;
  }

  lemma MantissaIs(ms: nat)
    ensures ParseMantissa(Decimal(ms / 1000) + "." + ThreeDigits(ms % 1000)) == Some((ms / 1000) as real + (ms % 1000) as real / 1000.0)
  {
    FormatShape(ms);
    ThreeDigitsValue(ms % 1000);
    Thousand();
  }

  /** What is written is read back to the millisecond. */
  lemma ParseFormatTs(ts: real)
    requires ts >= 0.0
    ensures ParseTs(FormatTs(ts)) == Some(Rounded(ts))
  {
    var ms := Millis(ts);
    FormatShape(ms);
    MantissaIs(ms);
    WholeAndPart(ms);
  }

  /** A written time has no exponent, its dot follows the seconds, and its milliseconds the dot. */
  lemma FormatShape(ms: nat)
    ensures var s, n := Decimal(ms / 1000) + "." + ThreeDigits(ms % 1000), |Decimal(ms / 1000)|;
            && FirstOf(s, 'e', 'E') == |s| && FirstOf(s, '.', '.') == n && n < |s|
            && s[..n] == Decimal(ms / 1000) && s[n + 1..] == ThreeDigits(ms % 1000)
  {
    var whole, part := Decimal(ms / 1000), ThreeDigits(ms % 1000);
    var s := whole + "." + part;
    forall i | 0 <= i < |s|
      ensures s[i] == '.' || IsDigit(s[i])
      ensures i < |whole| ==> IsDigit(s[i])
    {
      if i < |whole| {
        assert IsDigit(whole[i]);
      } else if i > |whole| {
        assert IsDigit(part[i - |whole| - 1]);
      }
    }
    FirstIs(s, 'e', 'E', |s|);
    FirstIs(s, '.', '.', |whole|);
  }

  lemma WholeAndPart(ms: nat)
    ensures (ms / 1000) as real + (ms % 1000) as real / 1000.0 == ms as real / 1000.0
  {
    assert ms == ms / 1000 * 1000 + ms % 1000;
    assert ms as real == (ms / 1000) as real * 1000.0 + (ms % 1000) as real;
  }

  // ---------------------------------------------------------------- writing the parameters

  function IdKey(c: nat): string { "id_" + Decimal(c) }
  function DataKey(c: nat): string { "data_" + Decimal(c) }
  function TsKey(c: nat): string { "create_ts_" + Decimal(c) }

  /** A snapshot in its order of iteration: every id once. */
  type Listing = seq<(string, Info)>

  predicate Listed(list: Listing, st: Storage) {
    && (forall i, j :: 0 <= i < j < |list| ==> list[i].0 != list[j].0)
    && (forall i :: 0 <= i < |list| ==> list[i].0 in st && st[list[i].0] == list[i].1)
    && (forall id | id in st :: exists i :: 0 <= i < |list| && list[i].0 == id)
  }

  predicate Timed(list: Listing) {
    forall i :: 0 <= i < |list| ==> list[i].1.created >= 0.0
  }

  /** The parameters push_to_peers crafts. */
  function Encode(list: Listing): Params
    requires Timed(list)
  {
    if list == [] then map[]
    else
      var c := |list| - 1;
      Encode(list[..c])[IdKey(c) := list[c].0][DataKey(c) := list[c].1.data][TsKey(c) := FormatTs(list[c].1.created)]
  }

  lemma EncodeLast(list: Listing)
    requires Timed(list) && list != []
    ensures var c := |list| - 1;
            Encode(list) == Encode(list[..c])[IdKey(c) := list[c].0][DataKey(c) := list[c].1.data][TsKey(c) := FormatTs(list[c].1.created)]
  {
  }

  lemma EncodeMore(list: Listing, id: string, info: Info)
    requires Timed(list) && info.created >= 0.0
    ensures Timed(list + [(id, info)])
    ensures Encode(list + [(id, info)]) ==
            Encode(list)[IdKey(|list|) := id][DataKey(|list|) := info.data][TsKey(|list|) := FormatTs(info.created)]
  {
    var more := list + [(id, info)];
    assert Timed(more);
    EncodeLast(more);
    assert more[..|list|] == list && more[|list|] == (id, info);
  }

  lemma KeysDiffer(a: nat, b: nat)
    ensures IdKey(a) == IdKey(b) ==> a == b
    ensures DataKey(a) == DataKey(b) ==> a == b
    ensures TsKey(a) == TsKey(b) ==> a == b
    ensures IdKey(a) != DataKey(b) && IdKey(a) != TsKey(b) && DataKey(a) != TsKey(b)
  {
    assert IdKey(a)[0] == 'i' && DataKey(b)[0] == 'd' && TsKey(b)[0] == 'c' && DataKey(a)[0] == 'd';
    assert IdKey(a)[3..] == Decimal(a) && IdKey(b)[3..] == Decimal(b);
    assert DataKey(a)[5..] == Decimal(a) && DataKey(b)[5..] == Decimal(b);
    assert TsKey(a)[10..] == Decimal(a) && TsKey(b)[10..] == Decimal(b);
    if Decimal(a) == Decimal(b) {
      DecimalInjective(a, b);
    }
  }

  /** Item c is found under its three keys. */
  predicate HasItem(p: Params, c: nat, id: string, data: string, ts: string) {
    && IdKey(c) in p && p[IdKey(c)] == id
    && DataKey(c) in p && p[DataKey(c)] == data
    && TsKey(c) in p && p[TsKey(c)] == ts
  }

  lemma AddItem(p: Params, n: nat, id: string, data: string, ts: string)
    ensures var q := p[IdKey(n) := id][DataKey(n) := data][TsKey(n) := ts];
            && HasItem(q, n, id, data, ts)
            && forall c, i, d, t | 0 <= c && c != n && HasItem(p, c, i, d, t) :: HasItem(q, c, i, d, t)
  {
    KeysDiffer(n, n);
    forall c: nat, i, d, t | c != n && HasItem(p, c, i, d, t)
      ensures HasItem(p[IdKey(n) := id][DataKey(n) := data][TsKey(n) := ts], c, i, d, t)
    {
      KeysDiffer(c, n);
      KeysDiffer(n, c);
    }
  }

  lemma {:induction false} EncodedItem(list: Listing, c: nat)
    requires Timed(list) && c < |list|
    ensures HasItem(Encode(list), c, list[c].0, list[c].1.data, FormatTs(list[c].1.created))
    decreases |list|
  {
    var n := |list| - 1;
    AddItem(Encode(list[..n]), n, list[n].0, list[n].1.data, FormatTs(list[n].1.created));
    if c < n {
      EncodedItem(list[..n], c);
    }
  }

  /** There are no other keys. */
  lemma {:induction false} EncodedKey(list: Listing, key: string) returns (c: nat)
    requires Timed(list) && key in Encode(list)
    ensures c < |list| && key in {IdKey(c), DataKey(c), TsKey(c)} && |key| > 3
    decreases |list|
  {
    var last := |list| - 1;
    if key in {IdKey(last), DataKey(last), TsKey(last)} {
      c := last;
    } else {
      c := EncodedKey(list[..last], key);
    }
  }

  // ---------------------------------------------------------------- reading them

  /** The keys of a dictionary in its order of iteration. */
  ghost predicate Enumerates(order: seq<string>, params: Params) {
    && (forall i, j :: 0 <= i < j < |order| ==> order[i] != order[j])
    && (forall key :: key in order <==> key in params)
  }

  /** find_id_versions of the keys in their order; a plain "id" comes first, as -1. */
  function NumberedIds(order: seq<string>): seq<int> {
    if order == [] then []
    else
      var rest, last := NumberedIds(order[..|order| - 1]), IdVersion(order[|order| - 1]);
      if last.Some? then rest + [last.value] else rest
  }

  function IdVersions(params: Params, order: seq<string>): seq<int> {
    (if "id" in params then [-1] else []) + NumberedIds(order)
  }

  method FindIdVersions(params: Params, order: seq<string>) returns (versions: seq<int>)
    ensures versions == IdVersions(params, order)
  {
    versions := [];
    if "id" in params {
      versions := versions + [-1];
    }
    ghost var first := versions;
    var i := 0;
    while i < |order|
      invariant 0 <= i <= |order|
      invariant versions == first + NumberedIds(order[..i])
    {
      assert order[..i + 1][..i] == order[..i];
      var version := IdVersion(order[i]);
      if version.Some? {
        versions := versions + [version.value];
      }
      i := i + 1;
    }
    assert order[..i] == order;
  }

  function Suffix(version: int): string {
    if version >= 0 then "_" + Decimal(version) else ""
  }

  /** The item one version names; None when a parameter is missing or malformed. */
  function ReadItem(params: Params, version: int, now: real): Option<(string, Info)> {
    var idKey, dataKey, tsKey := "id" + Suffix(version), "data" + Suffix(version), "create_ts" + Suffix(version);
    if idKey !in params || !IdFormat(params[idKey]) then None
    else if dataKey !in params || !DataFormat(params[dataKey]) then None
    else if tsKey !in params then None
    else
      match ParseTs(params[tsKey])
      case None => None
      case Some(ts) => Some((params[idKey], Info(params[dataKey], ts, now)))
  }

  function ReadAll(params: Params, versions: seq<int>, start: Storage, now: real): Option<Storage> {
    if versions == [] then Some(start)
    else
      match ReadAll(params, versions[..|versions| - 1], start, now)
      case None => None
      case Some(st) =>
        match ReadItem(params, versions[|versions| - 1], now)
        case None => None
        case Some((id, info)) => Some(st[id := info])
  }

  /** do_write: the new storage, None when a parameter is rejected. */
  function Written(st: Storage, params: Params, order: seq<string>, update: bool, now: real): Option<Storage> {
    ReadAll(params, IdVersions(params, order), if update then st else map[], now)
  }

  /** One failing item makes the whole call fail. */
  lemma {:induction false} RejectedStays(params: Params, versions: seq<int>, start: Storage, now: real, k: nat)
    requires k < |versions| && ReadItem(params, versions[k], now) == None
    ensures ReadAll(params, versions, start, now) == None
    decreases |versions|
  {
    if k < |versions| - 1 {
      RejectedStays(params, versions[..|versions| - 1], start, now, k);
    }
  }

  // ---------------------------------------------------------------- round trip

  const MAX_ITEMS: nat := 1_000_000_000

  predicate WellFormed(list: Listing) {
    forall i :: 0 <= i < |list| ==> IdFormat(list[i].0) && DataFormat(list[i].1.data) && list[i].1.created >= 0.0
  }

  /** How an item arrives: the time of creation in milliseconds, the receiver's time of update. */
  function Arrived(info: Info, now: real): Info
    requires info.created >= 0.0
  {
    Info(info.data, Rounded(info.created), now)
  }

  /** A whole snapshot as it arrives. */
  function ArrivedAll(st: Storage, now: real): Storage
    requires forall id | id in st :: st[id].created >= 0.0
  {
    map id | id in st :: Arrived(st[id], now)
  }

  lemma TenToTheNinth()
    ensures Pow10(9) == MAX_ITEMS
  {
    assert Pow10(3) == 1000 by {
      assert Pow10(1) == 10 && Pow10(2) == 100;
    }
    assert Pow10(6) == 1000000 by {
      assert Pow10(4) == 10000 && Pow10(5) == 100000;
    }
    assert Pow10(8) == 100000000 by {
      assert Pow10(7) == 10000000;
    }
  }

  /** The numbers find_id_versions makes out: those of at most nine digits. */
  lemma VersionOfKey(c: nat)
    ensures IdVersion(IdKey(c)) == if c < MAX_ITEMS then Some(c) else None
    ensures IdVersion(DataKey(c)) == None && IdVersion(TsKey(c)) == None
  {
    TenToTheNinth();
    DecimalLength(c, 9);
    assert IdKey(c)[3..] == Decimal(c) && IdKey(c)[..3] == "id_";
    assert DataKey(c)[0] == 'd' && TsKey(c)[0] == 'c';
    assert DataKey(c)[..3] != "id_" by { assert DataKey(c)[..3][0] == 'd'; }
    assert TsKey(c)[..3] != "id_" by { assert TsKey(c)[..3][0] == 'c'; }
  }

  /** A key of the parameters, and the number it is the id of, if it is one. */
  lemma NumberOfKey(list: Listing, key: string)
    requires Timed(list) && key in Encode(list)
    ensures forall v: nat :: IdVersion(key) == Some(v) <==> IdKey(v) == key && v < |list| && v < MAX_ITEMS
    ensures IdVersion(key).Some? ==> IdVersion(key).value >= 0
  {
    var c := EncodedKey(list, key);
    VersionOfKey(c);
    forall v: nat
      ensures IdKey(v) == key <==> key == IdKey(c) && v == c
    {
      KeysDiffer(v, c);
    }
  }

  lemma {:induction false} NumberedAre(list: Listing, order: seq<string>)
    requires Timed(list) && forall key | key in order :: key in Encode(list)
    requires forall i, j :: 0 <= i < j < |order| ==> order[i] != order[j]
    ensures forall v :: v in NumberedIds(order) <==> 0 <= v < |list| && v < MAX_ITEMS && IdKey(v) in order
    ensures forall i, j :: 0 <= i < j < |NumberedIds(order)| ==> NumberedIds(order)[i] != NumberedIds(order)[j]
    decreases |order|
  {
    if order != [] {
      var front, key := order[..|order| - 1], order[|order| - 1];
      assert order == front + [key] && key in order && key !in front;
      NumberedAre(list, front);
      NumberOfKey(list, key);
    }
  }

  predicate Within(versions: seq<int>, n: nat) {
    forall v | v in versions :: 0 <= v < n
  }

  /** What was read so far: exactly the items the versions name. */
  predicate HasRead(list: Listing, versions: seq<int>, st: Storage, now: real)
    requires Timed(list) && Within(versions, |list|)
  {
    && (forall v | v in versions :: list[v].0 in st && st[list[v].0] == Arrived(list[v].1, now))
    && (forall id | id in st :: exists v :: v in versions && list[v].0 == id)
  }

  lemma KeyNames(v: nat)
    ensures "id" + Suffix(v) == IdKey(v)
    ensures "data" + Suffix(v) == DataKey(v)
    ensures "create_ts" + Suffix(v) == TsKey(v)
  {
    var d := Decimal(v);
    assert "id" + ("_" + d) == "id_" + d;
    assert "data" + ("_" + d) == "data_" + d;
    assert "create_ts" + ("_" + d) == "create_ts_" + d;
  }

  lemma ReadItemIs(list: Listing, v: nat, now: real)
    requires WellFormed(list) && Timed(list) && v < |list|
    ensures ReadItem(Encode(list), v, now) == Some((list[v].0, Arrived(list[v].1, now)))
  {
    EncodedItem(list, v);
    ParseFormatTs(list[v].1.created);
    KeyNames(v);
  }

  lemma ReadOneMore(list: Listing, front: seq<int>, v: int, before: Storage, now: real)
    requires Timed(list) && Within(front, |list|) && 0 <= v < |list|
    requires forall i, j :: 0 <= i < j < |list| ==> list[i].0 != list[j].0
    requires HasRead(list, front, before, now)
    ensures Within(front + [v], |list|)
    ensures HasRead(list, front + [v], before[list[v].0 := Arrived(list[v].1, now)], now)
  {
    var versions, st := front + [v], before[list[v].0 := Arrived(list[v].1, now)];
    forall x | x in versions
      ensures 0 <= x < |list| && list[x].0 in st && st[list[x].0] == Arrived(list[x].1, now)
    {
      assert x in front || x == v;
    }
    forall id | id in st
      ensures exists x :: x in versions && list[x].0 == id
    {
      if id in before {
        var x :| x in front && list[x].0 == id;
        assert x in versions;
      } else {
        assert v in versions;
      }
    }
  }

  lemma {:induction false} ReadAllIs(list: Listing, versions: seq<int>, now: real)
    requires WellFormed(list) && Timed(list) && Within(versions, |list|)
    requires forall i, j :: 0 <= i < j < |list| ==> list[i].0 != list[j].0
    ensures ReadAll(Encode(list), versions, map[], now).Some?
    ensures HasRead(list, versions, ReadAll(Encode(list), versions, map[], now).value, now)
    decreases |versions|
  {
    if versions != [] {
      var front, v := versions[..|versions| - 1], versions[|versions| - 1];
      assert versions == front + [v];
      assert v in versions && forall x | x in front :: x in versions;
      ReadAllIs(list, front, now);
      ReadItemIs(list, v, now);
      ReadOneMore(list, front, v, ReadAll(Encode(list), front, map[], now).value, now);
    }
  }

  lemma NoPlainId(list: Listing)
    requires Timed(list)
    ensures "id" !in Encode(list)
  {
    if "id" in Encode(list) {
      var c := EncodedKey(list, "id");
    }
  }

  /** The versions the receiver makes out of an encoded snapshot. */
  lemma VersionsAre(list: Listing, order: seq<string>)
    requires Timed(list) && Enumerates(order, Encode(list))
    ensures forall v :: v in IdVersions(Encode(list), order) <==> 0 <= v < |list| && v < MAX_ITEMS
  {
    NoPlainId(list);
    NumberedAre(list, order);
    forall v: nat | v < |list|
      ensures IdKey(v) in order
    {
      EncodedItem(list, v);
    }
  }

  lemma ListedTimes(snapshot: Storage, list: Listing)
    requires Timed(list) && Listed(list, snapshot)
    ensures forall id | id in snapshot :: snapshot[id].created >= 0.0
  {
    forall id | id in snapshot
      ensures snapshot[id].created >= 0.0
    {
      var i :| 0 <= i < |list| && list[i].0 == id;
    }
  }

  /** What was read is the snapshot exactly when no number was too long. */
  lemma ArrivedExactly(snapshot: Storage, list: Listing, versions: seq<int>, got: Storage, now: real)
    requires Timed(list) && Listed(list, snapshot) && forall id | id in snapshot :: snapshot[id].created >= 0.0
    requires (forall v :: v in versions <==> 0 <= v < |list| && v < MAX_ITEMS) && HasRead(list, versions, got, now)
    ensures got == ArrivedAll(snapshot, now) <==> |list| <= MAX_ITEMS
  {
    if |list| <= MAX_ITEMS {
      AllRead(snapshot, list, versions, got, now);
    } else {
      ItemLost(snapshot, list, versions, got, now);
    }
  }

  /**
   A snapshot written as parameters and read with update off arrives item by item, whatever the
   order of the dictionary, exactly when it has no more than a billion items: the numbers of
   the others are too long for the receiver, which drops them without an error.
   */
  lemma DecodeEncode(snapshot: Storage, list: Listing, order: seq<string>, st: Storage, now: real)
    requires WellFormed(list) && Timed(list) && Listed(list, snapshot)
    requires Enumerates(order, Encode(list))
    ensures forall id | id in snapshot :: snapshot[id].created >= 0.0
    ensures Written(st, Encode(list), order, false, now).Some?
    ensures Written(st, Encode(list), order, false, now) == Some(ArrivedAll(snapshot, now)) <==> |list| <= MAX_ITEMS
  {
    var versions := IdVersions(Encode(list), order);
    VersionsAre(list, order);
    ReadAllIs(list, versions, now);
    ListedTimes(snapshot, list);
    ArrivedExactly(snapshot, list, versions, ReadAll(Encode(list), versions, map[], now).value, now);
  }

  // ---------------------------------------------------------------- a billion items and one

  const EMPTY_ITEM := Info("", 0.0, 0.0)

  /** Empty items called by their numbers. */
  function Counted(n: nat): (list: Listing)
    ensures |list| == n && forall i :: 0 <= i < n ==> list[i] == (Decimal(i), EMPTY_ITEM)
  {
    seq(n, i requires 0 <= i < n => (Decimal(i), EMPTY_ITEM))
  }

  function Numerals(n: nat): set<string> {
    set i | 0 <= i < n :: Decimal(i)
  }

  function CountedItems(n: nat): Storage {
    map id | id in Numerals(n) :: EMPTY_ITEM
  }

  lemma CountedIsListed(n: nat)
    requires n <= MAX_ITEMS + 1
    ensures WellFormed(Counted(n)) && Timed(Counted(n)) && Listed(Counted(n), CountedItems(n))
  {
    TenToTheNinth();
    forall i | 0 <= i < n
      ensures IdFormat(Decimal(i))
    {
      DecimalLength(i, 10);
    }
    forall i, j | 0 <= i < j < n
      ensures Decimal(i) != Decimal(j)
    {
      if Decimal(i) == Decimal(j) {
        DecimalInjective(i, j);
      }
    }
    var list := Counted(n);
    forall id | id in CountedItems(n)
      ensures exists i :: 0 <= i < |list| && list[i].0 == id
    {
      var i :| 0 <= i < n && Decimal(i) == id;
      assert list[i].0 == id;
    }
  }

  lemma {:induction false} SomeOrder(keys: set<string>) returns (order: seq<string>)
    ensures forall i, j :: 0 <= i < j < |order| ==> order[i] != order[j]
    ensures forall key :: key in order <==> key in keys
    decreases |keys|
  {
    order := [];
    if keys != {} {
      var key := Pick(keys);
      var rest := SomeOrder(keys - {key});
      order := rest + [key];
    }
  }

  /** A snapshot of a billion items and one: the write succeeds, and the last item is not there. */
  lemma OneItemTooMany(st: Storage, now: real) returns (order: seq<string>)
    ensures var list := Counted(MAX_ITEMS + 1);
            && Timed(list) && Listed(list, CountedItems(MAX_ITEMS + 1)) && Enumerates(order, Encode(list))
            && var r := Written(st, Encode(list), order, false, now);
               r.Some? && list[MAX_ITEMS].0 in CountedItems(MAX_ITEMS + 1) && list[MAX_ITEMS].0 !in r.value
  {
    var list, snapshot := Counted(MAX_ITEMS + 1), CountedItems(MAX_ITEMS + 1);
    CountedIsListed(MAX_ITEMS + 1);
    order := SomeOrder(Encode(list).Keys);
    var versions := IdVersions(Encode(list), order);
    VersionsAre(list, order);
    ReadAllIs(list, versions, now);
    ItemLost(snapshot, list, versions, ReadAll(Encode(list), versions, map[], now).value, now);
  }

  /** The item with the first number that is too long. */
  lemma ItemLost(snapshot: Storage, list: Listing, versions: seq<int>, got: Storage, now: real)
    requires Timed(list) && Listed(list, snapshot) && Within(versions, |list|) && |list| > MAX_ITEMS
    requires MAX_ITEMS !in versions && HasRead(list, versions, got, now)
    ensures list[MAX_ITEMS].0 in snapshot && list[MAX_ITEMS].0 !in got
  {
  }

  lemma AllRead(snapshot: Storage, list: Listing, versions: seq<int>, got: Storage, now: real)
    requires Timed(list) && Listed(list, snapshot) && Within(versions, |list|)
    requires forall v | 0 <= v < |list| :: v in versions
    requires HasRead(list, versions, got, now)
    requires forall id | id in snapshot :: snapshot[id].created >= 0.0
    ensures got == ArrivedAll(snapshot, now)
  {
    forall id
      ensures id in got <==> id in snapshot
      ensures id in got && id in snapshot ==> got[id] == Arrived(snapshot[id], now)
    {
      if id in snapshot {
        var i :| 0 <= i < |list| && list[i].0 == id;
        assert i in versions;
      }
    }
  }
}
