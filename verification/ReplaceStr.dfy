/** replace_str: every occurrence of a text replaced, from left to right, without overlaps. */
module ReplaceStr {
  import opened Basics

  predicate MatchAt(s: string, search: string, k: nat) {
    k + |search| <= |s| && s[k..k + |search|] == search
  }

  /** The recursive definition: at a match the replacement, and on behind the match. */
  function Replaced(s: string, search: string, replace: string): string
    requires search != ""
    decreases |s|
  {
    if s == "" then ""
    else if MatchAt(s, search, 0) then replace + Replaced(s[|search|..], search, replace)
    else [s[0]] + Replaced(s[1..], search, replace)
  }

  /** The first match from pos on, None when there is none. */
  predicate IsNext(s: string, search: string, pos: nat, next: Option<nat>) {
    match next
    case Some(at) => pos <= at && MatchAt(s, search, at) && forall k :: pos <= k < at ==> !MatchAt(s, search, k)
    case None => forall k :: pos <= k <= |s| ==> !MatchAt(s, search, k)
  }

  /** string::find: the first match at or after pos. */
  method Find(s: string, search: string, pos: nat) returns (r: Option<nat>)
    requires pos <= |s|
    ensures IsNext(s, search, pos, r)
  {
    var k := pos;
    while k + |search| <= |s|
      invariant pos <= k
      invariant forall j :: pos <= j < k ==> !MatchAt(s, search, j)
    {
      if s[k..k + |search|] == search {
        return Some(k);
      }
      k := k + 1;
    }
    return None;
  }

  /** Up to its first match a text is copied. */
  lemma {:induction false} CopiedUpTo(s: string, search: string, replace: string, pos: nat, k: nat)
    requires search != "" && pos <= k <= |s|
    requires forall j :: pos <= j < k ==> !MatchAt(s, search, j)
    ensures Replaced(s[pos..], search, replace) == s[pos..k] + Replaced(s[k..], search, replace)
    decreases k - pos
  {
    if pos < k {
      assert !MatchAt(s, search, pos);
      assert !MatchAt(s[pos..], search, 0) by {
        if pos + |search| <= |s| {
          assert s[pos..][0..|search|] == s[pos..pos + |search|];
        }
      }
      assert s[pos..][1..] == s[pos + 1..];
      CopiedUpTo(s, search, replace, pos + 1, k);
      assert s[pos..k] == [s[pos]] + s[pos + 1..k];
    }
  }

  lemma ReplacedAt(s: string, search: string, replace: string, k: nat)
    requires search != "" && MatchAt(s, search, k)
    ensures Replaced(s[k..], search, replace) == replace + Replaced(s[k + |search|..], search, replace)
  {
    assert s[k..][0..|search|] == s[k..k + |search|];
    assert s[k..][|search|..] == s[k + |search|..];
  }

  lemma Regroup(a: string, b: string, c: string, d: string)
    ensures a + (b + (c + d)) == a + b + c + d
  {
  }

  /** A match copied and replaced. */
  lemma OneMatch(str: string, search: string, replace: string, pos: nat, at: nat, result: string)
    requires search != "" && pos <= |str| && IsNext(str, search, pos, Some(at))
    requires at + |search| <= |str|
    ensures result + Replaced(str[pos..], search, replace)
         == result + str[pos..at] + replace + Replaced(str[at + |search|..], search, replace)
  {
    CopiedUpTo(str, search, replace, pos, at);
    ReplacedAt(str, search, replace, at);
    Regroup(result, str[pos..at], replace, Replaced(str[at + |search|..], search, replace));
  }

  lemma NothingLeft(str: string, search: string, replace: string, pos: nat)
    requires search != "" && pos <= |str| && IsNext(str, search, pos, None)
    ensures Replaced(str[pos..], search, replace) == str[pos..]
  {
    CopiedUpTo(str, search, replace, pos, |str|);
    assert str[|str|..] == "";
  }

  /** The loop; an empty search text leaves the text as it is. */
  method Replace(str: string, search: string, replace: string) returns (result: string)
    ensures search == "" ==> result == str
    ensures search != "" ==> result == Replaced(str, search, replace)
  {
    if |search| == 0 {
      return str;
    }
    var pos: nat := 0;
    var next := Find(str, search, pos);
    assert str[0..] == str;
    if next == None {
      NothingLeft(str, search, replace, 0);
      return str;
    }
    result := "";
    while next.Some?
      invariant pos <= |str|
      invariant Replaced(str, search, replace) == result + Replaced(str[pos..], search, replace)
      invariant IsNext(str, search, pos, next)
      decreases |str| - pos, if next.Some? then 1 else 0
    {
      var at := next.value;
      OneMatch(str, search, replace, pos, at, result);
      result := result + str[pos..at] + replace;
      pos := at + |search|;
      next := Find(str, search, pos);
    }
    NothingLeft(str, search, replace, pos);
    result := result + str[pos..];
  }

  /** The first match is replaced, and the rest treated alike. */
  lemma FirstMatchReplaced(s: string, search: string, replace: string, at: nat)
    requires search != "" && MatchAt(s, search, at) && forall k :: 0 <= k < at ==> !MatchAt(s, search, k)
    ensures Replaced(s, search, replace) == s[..at] + replace + Replaced(s[at + |search|..], search, replace)
  {
    assert s[0..] == s && s[0..at] == s[..at];
    CopiedUpTo(s, search, replace, 0, at);
    ReplacedAt(s, search, replace, at);
  }

  /** Without a match nothing changes. */
  lemma NoMatchNoChange(s: string, search: string, replace: string)
    requires search != "" && forall k :: 0 <= k <= |s| ==> !MatchAt(s, search, k)
    ensures Replaced(s, search, replace) == s
  {
    assert s[0..] == s;
    NothingLeft(s, search, replace, 0);
  }
}
