/** How the rows of the config table are named, and how the loading loops recognise the names. */
module ConfigNames {
  import opened Basics
  import opened KeyState

  const KEK_PREFIX := "KEK_VER"
  const HMAC_PREFIX := "HMAC_VER"

  /** The ckey of a config row. */
  function Render(key: ConfigKey): string {
    match key
    case KekVersion => "KEK_VERSION"
    case KekTargetVersion => "KEK_TARGET_VERSION"
    case ControlPhrase => "KEK_CONTROL_PHRASE"
    case Part3(v) => KEK_PREFIX + ToText(v) + "_PART3"
    case ControlCode(v) => KEK_PREFIX + ToText(v) + "_CONTROL_CODE"
    case PartCheck(v, i) => KEK_PREFIX + (ToText(v) + CheckSuffix(i))
    case HmacVersion => "HMAC_VERSION"
    case HmacId(v) => HMAC_PREFIX + ToText(v) + "_ID"
  }

  function CheckSuffix(part: int): string {
    "_PART" + ToText(part) + "_CHECK"
  }

  predicate StartsWith(s: string, prefix: string) {
    |prefix| <= |s| && s[..|prefix|] == prefix
  }

  predicate EndsWith(s: string, suffix: string) {
    |suffix| <= |s| && s[|s| - |suffix|..] == suffix
  }

  /** The version between a prefix and a suffix; None where the loop skips the row. */
  function VersionIn(id: string, prefix: string, suffix: string): Option<int> {
    if !StartsWith(id, prefix) || !EndsWith(id, suffix) || |id| < |prefix| + |suffix| then None
    else ParseInt(id[|prefix|..|id| - |suffix|])
  }

  // ---------------------------------------------------------------- recognising the names

  lemma VersionInside(prefix: string, text: string, suffix: string)
    ensures VersionIn(prefix + text + suffix, prefix, suffix) == ParseInt(text)
  {
    var id := prefix + text + suffix;
    assert id[..|prefix|] == prefix;
    assert id[|id| - |suffix|..] == suffix;
    assert id[|prefix|..|id| - |suffix|] == text;
  }

  function LastChar(s: string): char
    requires s != ""
  {
    s[|s| - 1]
  }

  lemma NotSuffixed(s: string, suffix: string)
    requires s != "" && suffix != "" && LastChar(s) != LastChar(suffix)
    ensures !EndsWith(s, suffix)
  {
    if |suffix| <= |s| {
      assert s[|s| - |suffix|..][|suffix| - 1] == LastChar(s);
    }
  }

  /** assemble_master_keys takes exactly the part 3 rows, with their versions. */
  lemma KekLoopSeesPart3(key: ConfigKey)
    ensures VersionIn(Render(key), KEK_PREFIX, "_PART3") == if key.Part3? then Some(key.version) else None
  {
    match key
    case Part3(v) => VersionInside(KEK_PREFIX, ToText(v), "_PART3");
    case _ =>
      LastCharOf(key);
      NotSuffixed(Render(key), "_PART3");
  }

  /** load_hmac_keys takes exactly the digest key rows. */
  lemma HmacLoopSeesHmacId(key: ConfigKey)
    ensures VersionIn(Render(key), HMAC_PREFIX, "_ID") == if key.HmacId? then Some(key.version) else None
  {
    match key
    case HmacId(v) => VersionInside(HMAC_PREFIX, ToText(v), "_ID");
    case _ =>
      LastCharOf(key);
      NotSuffixed(Render(key), "_ID");
  }

  /** The last character tells the kinds of row apart. */
  lemma LastCharOf(key: ConfigKey)
    ensures Render(key) != ""
    ensures LastChar(Render(key)) ==
            match key
            case Part3(_) => '3'
            case HmacId(_) => 'D'
            case PartCheck(_, _) => 'K'
            case ControlPhrase => 'E'
            case ControlCode(_) => 'E'
            case _ => 'N'
  {
  }

  // ---------------------------------------------------------------- no two keys share a row

  lemma SameMiddle(prefix: string, a: string, b: string, suffix: string)
    requires prefix + a + suffix == prefix + b + suffix
    ensures a == b
  {
    var s := prefix + a + suffix;
    assert |a| == |b|;
    assert a == s[|prefix|..|s| - |suffix|] && b == s[|prefix|..|s| - |suffix|];
  }

  lemma SameNumber(prefix: string, a: int, b: int, suffix: string)
    requires prefix + ToText(a) + suffix == prefix + ToText(b) + suffix
    ensures a == b
  {
    SameMiddle(prefix, ToText(a), ToText(b), suffix);
    assert ParseInt(ToText(a)) == ParseInt(ToText(b));
  }

  lemma NumberHasNoUnderscore(n: int, k: nat)
    requires k < |ToText(n)|
    ensures ToText(n)[k] != '_'
  {
  }

  /** A number ends at the underscore after it. */
  lemma SplitAtUnderscore(a: int, x: string, b: int, y: string)
    requires x != "" && y != "" && x[0] == '_' && y[0] == '_'
    requires ToText(a) + x == ToText(b) + y
    ensures a == b && x == y
  {
    var s := ToText(a) + x;
    var m, n := |ToText(a)|, |ToText(b)|;
    assert s[m] == '_' && s[n] == '_';
    if m < n {
      NumberHasNoUnderscore(b, m);
    } else if n < m {
      NumberHasNoUnderscore(a, n);
    } else {
      assert ToText(a) == s[..m] && ToText(b) == s[..m];
      assert x == s[m..] && y == s[m..];
      assert ParseInt(ToText(a)) == ParseInt(ToText(b));
    }
  }

  lemma SamePartCheck(v: int, i: int, w: int, j: int)
    requires Render(PartCheck(v, i)) == Render(PartCheck(w, j))
    ensures v == w && i == j
  {
    SameTail(KEK_PREFIX, ToText(v) + CheckSuffix(i), ToText(w) + CheckSuffix(j));
    SplitAtUnderscore(v, CheckSuffix(i), w, CheckSuffix(j));
    SameNumber("_PART", i, j, "_CHECK");
  }

  lemma SameTail(prefix: string, a: string, b: string)
    requires prefix + a == prefix + b
    ensures a == b
  {
    assert a == (prefix + a)[|prefix|..] && b == (prefix + b)[|prefix|..];
  }

  lemma FifthChar(key: ConfigKey)
    requires key.ControlCode? || key.ControlPhrase?
    ensures |Render(key)| > 4 && (Render(key)[4] == 'V' <==> key.ControlCode?)
  {
  }

  lemma RenderInjective(a: ConfigKey, b: ConfigKey)
    requires Render(a) == Render(b)
    ensures a == b
  {
    LastCharOf(a);
    LastCharOf(b);
    match a
    case Part3(v) => SameNumber(KEK_PREFIX, v, b.version, "_PART3");
    case HmacId(v) => SameNumber(HMAC_PREFIX, v, b.version, "_ID");
    case PartCheck(v, i) => SamePartCheck(v, i, b.version, b.part);
    case ControlCode(v) =>
      FifthChar(a);
      FifthChar(b);
      SameNumber(KEK_PREFIX, v, b.version, "_CONTROL_CODE");
    case ControlPhrase =>
      FifthChar(a);
      FifthChar(b);
    case _ =>
  }

  // ---------------------------------------------------------------- some names and numbers

  /** The rows of version 7, as they are spelled. */
  lemma KnownNames()
    ensures Render(Part3(7)) == "KEK_VER7_PART3" && Render(ControlCode(7)) == "KEK_VER7_CONTROL_CODE"
    ensures Render(PartCheck(7, 2)) == "KEK_VER7_PART2_CHECK" && Render(HmacId(7)) == "HMAC_VER7_ID"
    ensures Render(KekVersion) == "KEK_VERSION" && Render(KekTargetVersion) == "KEK_TARGET_VERSION"
    ensures Render(ControlPhrase) == "KEK_CONTROL_PHRASE" && Render(HmacVersion) == "HMAC_VERSION"
  {
    assert ToText(7) == "7" && ToText(2) == "2";
    assert CheckSuffix(2) == "_PART2_CHECK";
  }

  /** A number may have a sign; an empty text, a sign alone and a foreign character are refused. */
  lemma KnownNumbers()
    ensures ParseInt("17") == Some(17) && ParseInt("+7") == Some(7) && ParseInt("-7") == Some(-7) && ParseInt("007") == Some(7)
    ensures ParseInt("") == None && ParseInt("-") == None && ParseInt("7 ") == None
  {
    assert "17"[..1] == "1" && "1"[..0] == "" && ParseNat("1") == 1;
    assert "+7"[1..] == "7" && "-7"[1..] == "7" && "7"[..0] == "" && ParseNat("7") == 7;
    assert "007"[..2] == "00" && "00"[..1] == "0" && "0"[..0] == "" && ParseNat("0") == 0 && ParseNat("00") == 0;
    assert !IsDigit("7 "[1]);
  }
}
