/**
 DEKPool within one session: which data key a tokenize call gets. The random draws are inputs:
 `picks` for the row choices and `spare` for the values of new keys.
 */
module DekPool {
  import opened Basics
  import opened KeyState
  import opened Storage
  import opened LoadedConfig
  import L = Lifecycle

  /** The three settings of the pool. */
  datatype Limits = Limits(useCount: int, minActive: int, period: int)

  // ---------------------------------------------------------------- specification

  function SelectableIds(deks: map<int, DekRow>, now: int): set<int> {
    set id | id in deks && L.Selectable(deks[id], now)
  }

  predicate Known(deks: map<int, DekRow>, ids: seq<int>) {
    forall id | id in ids :: id in deks
  }

  /** The uses left on the listed rows. */
  function Unused(deks: map<int, DekRow>, ids: seq<int>): int
    requires Known(deks, ids)
  {
    if ids == [] then 0
    else
      var last := ids[|ids| - 1];
      assert last in ids;
      Unused(deks, ids[..|ids| - 1]) + deks[last].maxCounter - deks[last].counter
  }

  /** What a round of generate_enough_deks starts from. */
  function Listed(w: World, active: seq<int>, now: int): seq<int> {
    if active == [] then Sorted(SelectableIds(w.deks, now)) else active
  }

  /** generate_enough_deks: two more rows, and a new list, when too few uses are left. */
  function Enough(s: Suite, w: World, key: Key, version: int, limits: Limits, active: seq<int>, v1: Key, v2: Key, now: int)
    : (r: Option<(World, seq<int>)>)
    requires Known(w.deks, active)
    ensures r.Some? ==> Known(r.value.0.deks, r.value.1)
    ensures r.Some? ==> r.value.0 == w.(deks := r.value.0.deks, nextDek := r.value.0.nextDek)
  {
    var listed := Listed(w, active, now);
    if Unused(w.deks, listed) >= limits.minActive then Some((w, listed))
    else
      match L.AddDeks(s, w, key, version, [v1, v2], limits.useCount, L.EndOfLife(now, limits.period))
      case None => None
      case Some(grown) => Some((grown, Sorted(SelectableIds(grown.deks, now))))
  }

  /** What get_active_data_key comes to: the state, the list and the row, or why there is none. */
  datatype Obtained =
    | Row(w: World, active: seq<int>, id: int)
    | Refused          // a new key could not be encrypted
    | NoRows           // an empty list: the random index is taken modulo zero
    | OutOfDraws       // every draw given was used up on rows that are spent or expired

  function Obtain(s: Suite, w: World, key: Key, version: int, limits: Limits, active: seq<int>,
                  picks: seq<nat>, spare: seq<(Key, Key)>, now: int): (r: Obtained)
    requires Known(w.deks, active)
    ensures r.Row? ==> Known(r.w.deks, r.active) && r.id in r.active
    ensures r.Row? ==> r.w == w.(deks := r.w.deks, nextDek := r.w.nextDek)
    decreases |picks|
  {
    if picks == [] || spare == [] then OutOfDraws
    else
      match Enough(s, w, key, version, limits, active, spare[0].0, spare[0].1, now)
      case None => Refused
      case Some((w', active')) =>
        if active' == [] then NoRows
        else
          var id := active'[picks[0] % |active'|];
          if L.Selectable(w'.deks[id], now) then Row(w', active', id)
          else Obtain(s, w', key, version, limits, active', picks[1..], spare[1..], now)
  }

  // ---------------------------------------------------------------- what it guarantees

  /** With no selectable row, a round makes one exactly when new rows have a use and a life. */
  lemma RefilledEmpty(s: Suite, w: World, key: Key, version: int, limits: Limits, v1: Key, v2: Key, now: int)
    requires L.AddDeks(s, w, key, version, [v1, v2], limits.useCount, L.EndOfLife(now, limits.period)).Some?
    requires w.nextDek !in w.deks && w.nextDek + 1 !in w.deks
    ensures var grown := L.AddDeks(s, w, key, version, [v1, v2], limits.useCount, L.EndOfLife(now, limits.period)).value;
            (SelectableIds(grown.deks, now) == {} <==> SelectableIds(w.deks, now) == {} && !(limits.useCount > 0 && limits.period > 0))
  {
    var ids, finish := SelectableIds(w.deks, now), L.EndOfLife(now, limits.period);
    var grown := L.AddDeks(s, w, key, version, [v1, v2], limits.useCount, finish).value;
    TwoMore(s, w, key, version, v1, v2, limits.useCount, finish);
    assert finish > now <==> limits.period > 0;
    if ids != {} {
      var id := Pick(ids);
      assert id in SelectableIds(grown.deks, now);
    } else if limits.useCount > 0 && limits.period > 0 {
      assert w.nextDek in SelectableIds(grown.deks, now);
    } else {
      forall id | id in grown.deks
        ensures !L.Selectable(grown.deks[id], now)
      {
        assert id in w.deks ==> id !in ids;
      }
    }
  }

  /**
   When the random index divides by zero, from whatever list a round starts: exactly when no
   stored row is selectable and either the listed uses reach the minimum on an empty list, or
   they do not and new rows have no use or no life.
   */
  lemma EmptyListExactly(s: Suite, w: World, key: Key, version: int, limits: Limits, active: seq<int>, v1: Key, v2: Key, now: int)
    requires Known(w.deks, active) && Enough(s, w, key, version, limits, active, v1, v2, now).Some?
    requires w.nextDek !in w.deks && w.nextDek + 1 !in w.deks
    ensures Enough(s, w, key, version, limits, active, v1, v2, now).value.1 == []
       <==> SelectableIds(w.deks, now) == {}
            && (if Unused(w.deks, Listed(w, active, now)) >= limits.minActive then active == []
                else !(limits.useCount > 0 && limits.period > 0))
  {
    SortedEmpty(SelectableIds(w.deks, now));
    if Unused(w.deks, Listed(w, active, now)) < limits.minActive {
      RefilledEmpty(s, w, key, version, limits, v1, v2, now);
      var grown := Enough(s, w, key, version, limits, active, v1, v2, now).value.0;
      SortedEmpty(SelectableIds(grown.deks, now));
    }
  }

  /** With positive limits the list is never empty, whatever a round starts from. */
  lemma PositiveLimitsNeverEmpty(s: Suite, w: World, key: Key, version: int, limits: Limits, active: seq<int>, v1: Key, v2: Key, now: int)
    requires Known(w.deks, active) && Enough(s, w, key, version, limits, active, v1, v2, now).Some?
    requires w.nextDek !in w.deks && w.nextDek + 1 !in w.deks
    requires limits.minActive > 0 && limits.useCount > 0 && limits.period > 0
    ensures Enough(s, w, key, version, limits, active, v1, v2, now).value.1 != []
  {
    EmptyListExactly(s, w, key, version, limits, active, v1, v2, now);
    if active == [] && SelectableIds(w.deks, now) == {} {
      assert Listed(w, active, now) == [];
    }
  }

  // ---------------------------------------------------------------- when some draw gives a row

  /** What a round ends with: the kept list when it has uses enough, else all selectable rows. */
  lemma RoundList(s: Suite, w: World, key: Key, version: int, limits: Limits, active: seq<int>, v1: Key, v2: Key, now: int)
    requires Known(w.deks, active) && Enough(s, w, key, version, limits, active, v1, v2, now).Some?
    ensures var (w', active') := Enough(s, w, key, version, limits, active, v1, v2, now).value;
            if Unused(w.deks, Listed(w, active, now)) >= limits.minActive
            then w' == w && active' == Listed(w, active, now)
            else forall id | id in active' :: L.Selectable(w'.deks[id], now)
  {
  }

  /** A list with uses enough but no selectable row stays as it is, so that no retry helps. */
  lemma {:induction false} StuckStays(s: Suite, w: World, key: Key, version: int, limits: Limits, active: seq<int>,
                                      picks: seq<nat>, spare: seq<(Key, Key)>, now: int)
    requires Known(w.deks, active) && Unused(w.deks, Listed(w, active, now)) >= limits.minActive
    requires forall id | id in Listed(w, active, now) :: !L.Selectable(w.deks[id], now)
    ensures !Obtain(s, w, key, version, limits, active, picks, spare, now).Row?
    ensures active != [] ==> Obtain(s, w, key, version, limits, active, picks, spare, now) == OutOfDraws
    decreases |picks|
  {
    if picks != [] && spare != [] && active != [] {
      StuckStays(s, w, key, version, limits, active, picks[1..], spare[1..], now);
    }
  }

  /** The first draw of a round from an empty list, or of one that refills the list, is never lost. */
  lemma FirstDrawCounts(s: Suite, w: World, key: Key, version: int, limits: Limits, active: seq<int>,
                        picks: seq<nat>, spare: seq<(Key, Key)>, now: int)
    requires Known(w.deks, active) && picks != [] && spare != []
    requires active == [] || Unused(w.deks, active) < limits.minActive
    requires Enough(s, w, key, version, limits, active, spare[0].0, spare[0].1, now).Some?
    requires Enough(s, w, key, version, limits, active, spare[0].0, spare[0].1, now).value.1 != []
    ensures Obtain(s, w, key, version, limits, active, picks, spare, now).Row?
  {
    var (w', active') := Enough(s, w, key, version, limits, active, spare[0].0, spare[0].1, now).value;
    RoundList(s, w, key, version, limits, active, spare[0].0, spare[0].1, now);
    var id := active'[picks[0] % |active'|];
    assert id in active';
    assert L.Selectable(w'.deks[id], now);
  }

  /** Some sequence of draws gives a row. */
  ghost predicate Obtainable(s: Suite, w: World, key: Key, version: int, limits: Limits, active: seq<int>, now: int)
    requires Known(w.deks, active)
  {
    exists picks: seq<nat>, spare: seq<(Key, Key)> :: Obtain(s, w, key, version, limits, active, picks, spare, now).Row?
  }

  /** What a caller can look up: whether a round leads to a list with a selectable row. */
  predicate RowAtHand(w: World, limits: Limits, active: seq<int>, now: int)
    requires Known(w.deks, active)
  {
    if Unused(w.deks, Listed(w, active, now)) >= limits.minActive
    then exists id | id in Listed(w, active, now) :: L.Selectable(w.deks[id], now)
    else SelectableIds(w.deks, now) != {} || (limits.useCount > 0 && limits.period > 0)
  }

  /**
   The retry loop can end with a row exactly when there is a row at hand. So with a kept list
   whose rows are all spent or expired, but whose listed uses reach the minimum, it never does:
   the list is not filled again and every draw is lost.
   */
  lemma ObtainableExactly(s: Suite, w: World, key: Key, version: int, limits: Limits, active: seq<int>, now: int)
    requires Lawful(s) && Known(w.deks, active) && w.nextDek !in w.deks && w.nextDek + 1 !in w.deks
    ensures Obtainable(s, w, key, version, limits, active, now) <==> RowAtHand(w, limits, active, now)
  {
    if Unused(w.deks, Listed(w, active, now)) >= limits.minActive {
      if RowAtHand(w, limits, active, now) {
        KeptObtains(s, w, key, version, limits, active, now);
      } else {
        forall picks: seq<nat>, spare: seq<(Key, Key)>
          ensures !Obtain(s, w, key, version, limits, active, picks, spare, now).Row?
        {
          StuckStays(s, w, key, version, limits, active, picks, spare, now);
        }
      }
    } else {
      RefillObtains(s, w, key, version, limits, active, now);
    }
  }

  lemma KeptObtains(s: Suite, w: World, key: Key, version: int, limits: Limits, active: seq<int>, now: int)
    requires Known(w.deks, active) && Unused(w.deks, Listed(w, active, now)) >= limits.minActive && RowAtHand(w, limits, active, now)
    ensures Obtainable(s, w, key, version, limits, active, now)
  {
    var listed := Listed(w, active, now);
    var id :| id in listed && L.Selectable(w.deks[id], now);
    var i :| 0 <= i < |listed| && listed[i] == id;
    var picks: seq<nat>, spare := [i], [(DefaultKey(), DefaultKey())];
    SmallIndex(i, |listed|);
    assert Enough(s, w, key, version, limits, active, spare[0].0, spare[0].1, now) == Some((w, listed));
    assert Obtain(s, w, key, version, limits, active, picks, spare, now) == Row(w, listed, id);
  }

  lemma SmallIndex(i: nat, n: nat)
    requires i < n
    ensures i % n == i
  {
  }

  /** A row is there, but the list kept from the call before holds only one whose life has just ended. */
  lemma KeptListMissesRow(s: Suite, w: World, key: Key, now: int)
    requires Lawful(s) && w.deks == map[1 := DekRow("", 0, 0, 5, now), 2 := DekRow("", 0, 0, 5, now + 1)] && w.nextDek == 3
    ensures SelectableIds(w.deks, now) == {2}
    ensures Obtainable(s, w, key, 0, Limits(5, 1, 1), [], now) && !Obtainable(s, w, key, 0, Limits(5, 1, 1), [1], now)
  {
    var limits := Limits(5, 1, 1);
    assert [1][..0] == [];
    assert Unused(w.deks, [1]) == 5;
    ObtainableExactly(s, w, key, 0, limits, [1], now);
    ObtainableExactly(s, w, key, 0, limits, [], now);
    assert SelectableIds(w.deks, now) == {2};
    assert Sorted({2}) == [2];
    assert 2 in Listed(w, [], now);
  }

  function DefaultKey(): Key {
    seq(32, i => 0)
  }

  lemma SealedTwice(s: Suite, w: World, key: Key, version: int, v1: Key, v2: Key, maxCounter: int, finish: int)
    requires Lawful(s)
    ensures L.AddDeks(s, w, key, version, [v1, v2], maxCounter, finish).Some?
  {
    assert s.seal(key, v1).Some? && s.seal(key, v2).Some?;
    assert [v1, v2][1..] == [v2] && [v2][1..] == [];
    var w1 := L.AddDek(w, L.NewDek(s, key, version, v1, maxCounter, finish).value);
    var w2 := L.AddDek(w1, L.NewDek(s, key, version, v2, maxCounter, finish).value);
    assert L.AddDeks(s, w1, key, version, [v2], maxCounter, finish) == L.AddDeks(s, w2, key, version, [], maxCounter, finish) == Some(w2);
  }

  lemma RefillObtains(s: Suite, w: World, key: Key, version: int, limits: Limits, active: seq<int>, now: int)
    requires Lawful(s) && Known(w.deks, active) && w.nextDek !in w.deks && w.nextDek + 1 !in w.deks
    requires Unused(w.deks, Listed(w, active, now)) < limits.minActive
    ensures Obtainable(s, w, key, version, limits, active, now) <==> RowAtHand(w, limits, active, now)
  {
    var k := DefaultKey();
    SealedTwice(s, w, key, version, k, k, limits.useCount, L.EndOfLife(now, limits.period));
    EmptyListExactly(s, w, key, version, limits, active, k, k, now);
    if RowAtHand(w, limits, active, now) {
      FirstDrawCounts(s, w, key, version, limits, active, [0], [(k, k)], now);
    } else {
      forall picks: seq<nat>, spare: seq<(Key, Key)>
        ensures !Obtain(s, w, key, version, limits, active, picks, spare, now).Row?
      {
        if picks != [] && spare != [] {
          SealedTwice(s, w, key, version, spare[0].0, spare[0].1, limits.useCount, L.EndOfLife(now, limits.period));
          EmptyListExactly(s, w, key, version, limits, active, spare[0].0, spare[0].1, now);
        }
      }
    }
  }

  lemma SortedEmpty(ids: set<int>)
    ensures Sorted(ids) == [] <==> ids == {}
  {
  }

  /** The two rows a round adds. */
  lemma TwoMore(s: Suite, w: World, key: Key, version: int, v1: Key, v2: Key, maxCounter: int, finish: int)
    requires L.AddDeks(s, w, key, version, [v1, v2], maxCounter, finish).Some?
    requires w.nextDek !in w.deks && w.nextDek + 1 !in w.deks
    ensures var grown := L.AddDeks(s, w, key, version, [v1, v2], maxCounter, finish).value;
            && grown.deks.Keys == w.deks.Keys + {w.nextDek, w.nextDek + 1}
            && (forall id | id in w.deks :: grown.deks[id] == w.deks[id])
            && (forall id | id in grown.deks && id !in w.deks ::
                  var row := grown.deks[id];
                  row.counter == 0 && row.maxCounter == maxCounter && row.finish == finish && row.kek == version)
  {
    var first := L.NewDek(s, key, version, v1, maxCounter, finish).value;
    var w1 := L.AddDek(w, first);
    assert [v1, v2][1..] == [v2];
    assert [v2][1..] == [];
    var second := L.NewDek(s, key, version, v2, maxCounter, finish).value;
    assert L.AddDeks(s, w, key, version, [v1, v2], maxCounter, finish) == L.AddDeks(s, w1, key, version, [v2], maxCounter, finish);
    assert L.AddDeks(s, w1, key, version, [v2], maxCounter, finish) == Some(L.AddDek(w1, second));
  }

  /**
   A row that is obtained can be used once more, so it is never a digest key row (their limit
   is 0), and the state only grew by keys that some draw of a tokenize call stands for.
   */
  lemma {:induction false} ObtainedIsDrawn(s: Suite, w: World, key: Key, version: int, limits: Limits, active: seq<int>,
                          picks: seq<nat>, spare: seq<(Key, Key)>, now: int) returns (values: seq<Key>)
    requires Known(w.deks, active)
    ensures var r := Obtain(s, w, key, version, limits, active, picks, spare, now);
            r.Row? ==>
              && L.AddDeks(s, w, key, version, values, limits.useCount, L.EndOfLife(now, limits.period)) == Some(r.w)
              && r.id in r.w.deks && L.Selectable(r.w.deks[r.id], now)
    decreases |picks|
  {
    values := [];
    if Obtain(s, w, key, version, limits, active, picks, spare, now).Row? {
      var (w', active') := Enough(s, w, key, version, limits, active, spare[0].0, spare[0].1, now).value;
      var first := RoundIsDrawn(s, w, key, version, limits, active, spare[0].0, spare[0].1, now);
      if L.Selectable(w'.deks[active'[picks[0] % |active'|]], now) {
        values := first;
      } else {
        var rest := ObtainedIsDrawn(s, w', key, version, limits, active', picks[1..], spare[1..], now);
        AddDeksTwice(s, w, key, version, first, rest, limits.useCount, L.EndOfLife(now, limits.period));
        values := first + rest;
      }
    }
  }

  lemma RoundIsDrawn(s: Suite, w: World, key: Key, version: int, limits: Limits, active: seq<int>, v1: Key, v2: Key, now: int)
    returns (values: seq<Key>)
    requires Known(w.deks, active) && Enough(s, w, key, version, limits, active, v1, v2, now).Some?
    ensures values in {[], [v1, v2]}
    ensures L.AddDeks(s, w, key, version, values, limits.useCount, L.EndOfLife(now, limits.period))
         == Some(Enough(s, w, key, version, limits, active, v1, v2, now).value.0)
  {
    values := if Unused(w.deks, Listed(w, active, now)) >= limits.minActive then [] else [v1, v2];
  }

  lemma {:induction false} AddDeksTwice(s: Suite, w: World, key: Key, version: int, a: seq<Key>, b: seq<Key>, maxCounter: int, finish: int)
    requires L.AddDeks(s, w, key, version, a, maxCounter, finish).Some?
    ensures L.AddDeks(s, w, key, version, a + b, maxCounter, finish)
         == L.AddDeks(s, L.AddDeks(s, w, key, version, a, maxCounter, finish).value, key, version, b, maxCounter, finish)
    decreases |a|
  {
    if a == [] {
      assert a + b == b;
    } else {
      assert (a + b)[0] == a[0] && (a + b)[1..] == a[1..] + b;
      var row := L.NewDek(s, key, version, a[0], maxCounter, finish).value;
      AddDeksTwice(s, L.AddDek(w, row), key, version, a[1..], b, maxCounter, finish);
    }
  }

  // ---------------------------------------------------------------- the class

  /** std::copy of a result set into a list. */
  method AllOf(ids: set<int>) returns (list: seq<int>)
    ensures list == Sorted(ids)
  {
    list := [];
    var todo := ids;
    while todo != {}
      invariant list + Sorted(todo) == Sorted(ids)
      decreases |todo|
    {
      var id := MinElement(todo);
      assert [id] + Sorted(todo - {id}) == Sorted(todo);
      list := list + [id];
      todo := todo - {id};
    }
  }

  class Pool {
    const s: Suite
    const store: Store
    const master: Key
    const version: int
    const limits: Limits
    var active: seq<int>

    predicate Valid()
      reads this, store
    {
      Known(store.deks, active)
    }

    constructor (s: Suite, store: Store, master: Key, version: int, limits: Limits)
      ensures Valid() && active == []
      ensures this.s == s && this.store == store && this.master == master && this.version == version && this.limits == limits
    {
      this.s, this.store, this.master, this.version, this.limits := s, store, master, version, limits;
      active := [];
    }

    /** get_unused_count */
    method GetUnusedCount(ids: seq<int>) returns (unused: int)
      requires Known(store.deks, ids)
      ensures unused == Unused(store.deks, ids)
    {
      unused := 0;
      var i := 0;
      while i < |ids|
        invariant 0 <= i <= |ids|
        invariant unused == Unused(store.deks, ids[..i])
      {
        var id := ids[i];
        assert id in ids;
        assert ids[..i + 1][..i] == ids[..i];
        unused := unused + store.deks[id].maxCounter - store.deks[id].counter;
        i := i + 1;
      }
      assert ids[..i] == ids;
    }

    /** fill_active_deks; the rows come in the order of their ids. */
    method FillActiveDeks(now: int)
      modifies `active
      ensures Valid() && active == Sorted(SelectableIds(store.deks, now))
    {
      active := [];
      active := AllOf(SelectableIds(store.deks, now));
    }

    /** generate_new_data_key for a data key; false when it cannot be encrypted. */
    method GenerateNewDataKey(value: Key, now: int) returns (ok: bool)
      modifies store`deks, store`nextDek
      ensures ok <==> L.NewDek(s, master, version, value, limits.useCount, L.EndOfLife(now, limits.period)).Some?
      ensures store.State() == if ok then L.AddDek(old(store.State()), L.NewDek(s, master, version, value, limits.useCount, L.EndOfLife(now, limits.period)).value)
                               else old(store.State())
    {
      var encoded := s.seal(master, value);
      if encoded == None {
        return false;
      }
      var dataKey := DekRow(encoded.value, version, 0, limits.useCount, now + limits.period * 24 * 3600);
      store.deks := store.deks[store.nextDek := dataKey];
      store.nextDek := store.nextDek + 1;
      return true;
    }

    method GenerateEnoughDeks(v1: Key, v2: Key, now: int) returns (ok: bool)
      requires Valid()
      modifies `active, store`deks, store`nextDek
      ensures Valid()
      ensures ok <==> Enough(s, old(store.State()), master, version, limits, old(active), v1, v2, now).Some?
      ensures ok ==> Some((store.State(), active)) == Enough(s, old(store.State()), master, version, limits, old(active), v1, v2, now)
    {
      ghost var w := store.State();
      ghost var finish := L.EndOfLife(now, limits.period);
      if |active| == 0 {
        FillActiveDeks(now);
      }
      var unused := GetUnusedCount(active);
      if unused >= limits.minActive {
        return true;
      }
      assert [v1, v2][1..] == [v2] && [v2][1..] == [];
      ok := GenerateNewDataKey(v1, now);
      if !ok {
        return;
      }
      ghost var w1 := store.State();
      assert L.AddDeks(s, w, master, version, [v1, v2], limits.useCount, finish) == L.AddDeks(s, w1, master, version, [v2], limits.useCount, finish);
      ok := GenerateNewDataKey(v2, now);
      if !ok {
        return;
      }
      assert L.AddDeks(s, w1, master, version, [v2], limits.useCount, finish) == Some(store.State());
      FillActiveDeks(now);
    }

    /** get_active_data_key: None when it fails, in one of the three ways Obtain names. */
    method GetActiveDataKey(picks: seq<nat>, spare: seq<(Key, Key)>, now: int) returns (r: Option<int>)
      requires Valid()
      modifies `active, store`deks, store`nextDek
      ensures Valid()
      ensures var o := Obtain(s, old(store.State()), master, version, limits, old(active), picks, spare, now);
              && (r.Some? <==> o.Row?)
              && (r.Some? ==> o == Row(store.State(), active, r.value))
    {
      ghost var o := Obtain(s, store.State(), master, version, limits, active, picks, spare, now);
      var i := 0;
      while i < |picks| && i < |spare|
        invariant 0 <= i <= |picks| && i <= |spare| && Valid()
        invariant o == Obtain(s, store.State(), master, version, limits, active, picks[i..], spare[i..], now)
      {
        var ok := GenerateEnoughDeks(spare[i].0, spare[i].1, now);
        if !ok || |active| == 0 {
          return None;
        }
        var id := active[picks[i] % |active|];
        var dek := store.deks[id];
        if dek.counter < dek.maxCounter && dek.finish > now {
          return Some(id);
        }
        i := i + 1;
      }
      return None;
    }
  }
}
