/**
 TokenizerConfig: what one host has loaded from the key keeper, its own XML items and the
 database. Its loops are proved to load exactly what module KeyState says about a state.
 */
module LoadedConfig {
  import opened Basics
  import opened KeyState

  class TokenizerConfig {
    var params: Config
    var parts1: map<int, string>
    var parts2: map<int, string>
    var parts3: map<int, string>
    var keys: map<int, Key>
    var valid: map<int, bool>
    var hmacs: map<int, Bytes>

    /** The loaded fields are those of host h in state w. */
    ghost predicate Mirrors(s: Suite, w: World, h: nat)
      requires h < |w.hosts|
      reads this
    {
      && params == w.db
      && KeysAre(s, w, h, {})
      && HmacsAre(s, w, h, {})
    }

    /** The master keys loaded so far: those of every part 3 row not in `todo`. */
    ghost predicate KeysAre(s: Suite, w: World, h: nat, todo: set<ConfigKey>)
      requires h < |w.hosts|
      reads this
    {
      forall v :: VersionIs(s, w, h, v, Part3(v) !in todo && Part3(v) in w.db)
    }

    /** What the fields hold for one version, loaded or not yet. */
    ghost predicate VersionIs(s: Suite, w: World, h: nat, v: int, loaded: bool)
      requires h < |w.hosts|
      reads this
    {
      && (v in keys <==> loaded && MasterKey(s, w, h, v).Some?)
      && (v in parts1 <==> v in keys) && (v in parts2 <==> v in keys) && (v in parts3 <==> v in keys)
      && (v in keys ==>
            && MasterKey(s, w, h, v) == Some(keys[v])
            && parts1[v] == w.part1[v] && parts2[v] == w.hosts[h][v] && parts3[v] == w.db[Part3(v)])
      && (v in valid <==> loaded)
      && (v in valid ==> valid[v] == IsKekValid(s, w, h, v))
    }

    /** The digest keys loaded so far. */
    ghost predicate HmacsAre(s: Suite, w: World, h: nat, todo: set<ConfigKey>)
      requires h < |w.hosts|
      reads this
    {
      && (forall v :: v in hmacs <==> HmacId(v) !in todo && HmacKey(s, w, h, v).Some?)
      && (forall v | v in hmacs :: HmacKey(s, w, h, v) == Some(hmacs[v]))
    }

    constructor (s: Suite, w: World, h: nat)
      requires h < |w.hosts|
      ensures Mirrors(s, w, h)
    {
      params, parts1, parts2, parts3 := map[], map[], map[], map[];
      keys, valid, hmacs := map[], map[], map[];
      new;
      Reload(s, w, h);
    }

    /** reload: every field is replaced. */
    method Reload(s: Suite, w: World, h: nat)
      requires h < |w.hosts|
      modifies this
      ensures Mirrors(s, w, h)
    {
      params := w.db;
      AssembleMasterKeys(s, w, h);
      LoadHmacKeys(s, w, h);
    }

    /** assemble_master_keys: a version whose parts are missing or malformed is skipped. */
    method AssembleMasterKeys(s: Suite, w: World, h: nat)
      requires h < |w.hosts| && params == w.db
      modifies `parts1, `parts2, `parts3, `keys, `valid
      ensures KeysAre(s, w, h, {})
    {
      parts1, parts2, parts3, keys, valid := map[], map[], map[], map[], map[];
      var todo := params.Keys;
      while todo != {}
        invariant todo <= w.db.Keys && params == w.db
        invariant KeysAre(s, w, h, todo)
        decreases |todo|
      {
        var key :| key in todo;
        assert todo - {key} + {key} == todo;
        todo := todo - {key};
        if key.Part3? {
          AssembleVersion(s, w, h, key.version, todo);
        }
      }
    }

    /** One round of the loop, for a version that has a part 3. */
    method AssembleVersion(s: Suite, w: World, h: nat, ver: int, todo: set<ConfigKey>)
      requires h < |w.hosts| && params == w.db
      requires Part3(ver) in w.db && Part3(ver) !in todo && KeysAre(s, w, h, todo + {Part3(ver)})
      modifies `parts1, `parts2, `parts3, `keys, `valid
      ensures KeysAre(s, w, h, todo)
    {
      valid := valid[ver := false];
      if ver in w.part1 && ver in w.hosts[h] {
        var assembled := s.assemble(w.part1[ver], w.hosts[h][ver], params[Part3(ver)]);
        if assembled.Some? {
          parts1 := parts1[ver := w.part1[ver]];
          parts2 := parts2[ver := w.hosts[h][ver]];
          parts3 := parts3[ver := params[Part3(ver)]];
          keys := keys[ver := assembled.value];
          valid := valid[ver := CheckKek(s, params, ver, assembled.value)];
        }
      }
      forall v
        ensures VersionIs(s, w, h, v, Part3(v) !in todo && Part3(v) in w.db)
      {
        assert v != ver ==> old(VersionIs(s, w, h, v, Part3(v) !in todo && Part3(v) in w.db));
      }
    }

    /** load_hmac_keys, from the assembled master keys, valid or not. */
    method LoadHmacKeys(s: Suite, w: World, h: nat)
      requires h < |w.hosts| && params == w.db && KeysAre(s, w, h, {})
      modifies `hmacs
      ensures HmacsAre(s, w, h, {})
    {
      hmacs := map[];
      var todo := params.Keys;
      while todo != {}
        invariant todo <= w.db.Keys
        invariant HmacsAre(s, w, h, todo)
        decreases |todo|
      {
        var key :| key in todo;
        todo := todo - {key};
        if key.HmacId? {
          var id := ParseInt(params[key]);
          if id.Some? && id.value in w.deks {
            var row := w.deks[id.value];
            assert VersionIs(s, w, h, row.kek, Part3(row.kek) in w.db);
            if row.kek in keys {
              var hmac := s.open(keys[row.kek], row.wrapped);
              if hmac.Some? {
                hmacs := hmacs[key.version := hmac.value];
              }
            }
          }
        }
      }
    }

    // ------------------------------------------------------------ queries

    /** get_master_key of a valid version. */
    function GetMasterKey(v: int): Option<Key>
      reads this
    {
      if v in keys && v in valid && valid[v] then Some(keys[v]) else None
    }

    function IsValid(v: int): bool
      reads this
    {
      v in valid && valid[v]
    }

    /** get_master_key_component */
    function GetComponent(v: int, part: int): Option<string>
      reads this
    {
      var parts := if part == 2 then parts2 else if part == 3 then parts3 else parts1;
      if v in parts then Some(parts[v]) else None
    }

    /** What the queries answer is what the state says. */
    lemma QueriesAgree(s: Suite, w: World, h: nat, v: int, part: int)
      requires h < |w.hosts| && Mirrors(s, w, h)
      ensures GetMasterKey(v) == UsableKey(s, w, h, v)
      ensures IsValid(v) == IsKekValid(s, w, h, v)
      ensures GetComponent(v, part) == Component(s, w, h, v, part)
      ensures v in keys <==> MasterKey(s, w, h, v).Some?
      ensures v in hmacs <==> HmacKey(s, w, h, v).Some?
    {
      assert VersionIs(s, w, h, v, Part3(v) in w.db);
    }

    /** get_last_version: the largest version with a part 3, by std::max_element. */
    method GetLastVersion(s: Suite, w: World, h: nat) returns (r: Option<int>)
      requires h < |w.hosts| && Mirrors(s, w, h)
      ensures r == LastVersion(w.db)
    {
      ValidNamed(s, w, h);
      if valid == map[] {
        assert valid.Keys == {};
        return None;
      }
      var best := MaxElement(valid.Keys);
      return Some(best);
    }

    /** get_hmac_versions: the active version first, then the others in ascending order. */
    method GetHmacVersions(s: Suite, w: World, h: nat) returns (r: Option<seq<int>>)
      requires h < |w.hosts| && Mirrors(s, w, h)
      ensures r.Some? <==> HmacVersions(s, w, h).Some?
      ensures r.Some? ==> r.value != [] && Some(r.value[0]) == Number(w.db, HmacVersion)
      ensures r.Some? ==> forall v :: v in r.value <==> v in HmacVersions(s, w, h).value
      ensures r.Some? ==> Ascending(r.value[1..]) && r.value[0] !in r.value[1..]
    {
      var active := Number(params, HmacVersion);
      if active == None {
        return None;
      }
      var others := SortedWithout(hmacs.Keys, active.value);
      LoadedNamed(s, w, h);
      r := Some([active.value] + others);
    }

    lemma ValidNamed(s: Suite, w: World, h: nat)
      requires h < |w.hosts| && Mirrors(s, w, h)
      ensures valid.Keys == Versions(w.db)
    {
      forall v
        ensures v in valid <==> v in Versions(w.db)
      {
        if v in valid {
          assert Part3(v) in w.db && Part3(v).Part3?;
        }
      }
    }

    lemma LoadedNamed(s: Suite, w: World, h: nat)
      requires h < |w.hosts| && Mirrors(s, w, h)
      ensures LoadedHmacs(s, w, h) == hmacs.Keys
    {
      forall v
        ensures v in LoadedHmacs(s, w, h) <==> v in hmacs
      {
        if v in hmacs {
          assert HmacId(v) in w.db && HmacId(v).HmacId?;
        }
      }
    }
  }

  predicate Ascending(s: seq<int>) {
    forall i, j :: 0 <= i < j < |s| ==> s[i] < s[j]
  }

  lemma AscendingStep(s: seq<int>, v: int)
    requires Ascending(s) && forall x | x in s :: x < v
    ensures Ascending(s + [v])
  {
    forall i | 0 <= i < |s|
      ensures s[i] < v
    {
      assert s[i] in s;
    }
  }

  /** The keys of an ordered map but one, in the order of iteration. */
  method SortedWithout(versions: set<int>, active: int) returns (others: seq<int>)
    ensures forall v :: v in others <==> v in versions && v != active
    ensures Ascending(others)
  {
    others := [];
    var todo := versions;
    while todo != {}
      invariant todo <= versions
      invariant forall v :: v in others <==> v in versions && v !in todo && v != active
      invariant Ascending(others)
      invariant forall v, x | v in others && x in todo :: v < x
      decreases |todo|
    {
      var v := MinElement(todo);
      todo := todo - {v};
      if v != active {
        AscendingStep(others, v);
        others := others + [v];
      }
    }
  }

  /** std::max_element */
  method MaxElement(s: set<int>) returns (m: int)
    requires s != {}
    ensures m == MaxOf(s)
  {
    ghost var some := Pick(s);
    m :| m in s;
    var todo := s - {m};
    while todo != {}
      invariant m in s && todo <= s
      invariant forall x | x in s && x !in todo :: x <= m
      decreases |todo|
    {
      var x :| x in todo;
      todo := todo - {x};
      if m < x {
        m := x;
      }
    }
  }

  /** The first element of an ordered container. */
  method MinElement(s: set<int>) returns (m: int)
    requires s != {}
    ensures m == MinOf(s)
  {
    ghost var some := Pick(s);
    m :| m in s;
    var todo := s - {m};
    while todo != {}
      invariant m in s && todo <= s
      invariant forall x | x in s && x !in todo :: m <= x
      decreases |todo|
    {
      var x :| x in todo;
      todo := todo - {x};
      if x < m {
        m := x;
      }
    }
  }
}
