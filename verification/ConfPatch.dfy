/** ConfPatch: the ordered item list of a host's key settings, edited in place. */
module ConfPatch {
  import opened Basics

  datatype Item = Item(id: string, data: string, updated: string)

  // ---------------------------------------------------------------- specification

  /** Some item with the id comes at or after position n. */
  predicate OccursFrom(items: seq<Item>, id: string, n: nat) {
    exists i :: n <= i < |items| && items[i].id == id
  }

  /** No item with the id comes at or after position n. */
  predicate AbsentFrom(items: seq<Item>, id: string, n: nat) {
    forall i :: n <= i < |items| ==> items[i].id != id
  }

  predicate FirstAt(items: seq<Item>, id: string, k: nat) {
    k < |items| && items[k].id == id && forall i :: 0 <= i < k ==> items[i].id != id
  }

  /** What the host reads: of several items with an id, the last. */
  function AsMap(items: seq<Item>): (m: map<string, string>)
    ensures forall id :: id in m <==> OccursFrom(items, id, 0)
  {
    if items == [] then map[]
    else
      var front, last := AsMap(items[..|items| - 1]), items[|items| - 1];
      assert forall id :: OccursFrom(items, id, 0) <==> OccursFrom(items[..|items| - 1], id, 0) || last.id == id by {
        StepOccurs(items);
      }
      front[last.id := last.data]
  }

  lemma StepOccurs(items: seq<Item>)
    requires items != []
    ensures forall id :: OccursFrom(items, id, 0) <==> OccursFrom(items[..|items| - 1], id, 0) || items[|items| - 1].id == id
  {
    forall id
      ensures OccursFrom(items, id, 0) <==> OccursFrom(items[..|items| - 1], id, 0) || items[|items| - 1].id == id
    {
      if OccursFrom(items[..|items| - 1], id, 0) {
        var i :| 0 <= i < |items| - 1 && items[..|items| - 1][i].id == id;
        assert items[i].id == id;
      }
    }
  }

  /** No id twice. */
  predicate Distinct(items: seq<Item>) {
    forall i, j :: 0 <= i < j < |items| ==> items[i].id != items[j].id
  }

  /** The value the host reads for an id is the data of its last item. */
  lemma {:induction false} LastWins(items: seq<Item>, id: string, k: nat)
    requires k < |items| && items[k].id == id && AbsentFrom(items, id, k + 1)
    ensures id in AsMap(items) && AsMap(items)[id] == items[k].data
  {
    var n := |items| - 1;
    if k < n {
      assert items[n].id != id;
      var front := items[..n];
      assert forall i :: 0 <= i < n ==> front[i] == items[i];
      LastWins(front, id, k);
    }
  }

  lemma LastOf(items: seq<Item>, id: string) returns (k: nat)
    requires OccursFrom(items, id, 0)
    ensures k < |items| && items[k].id == id && AbsentFrom(items, id, k + 1)
  {
    k :| 0 <= k < |items| && items[k].id == id;
    while !AbsentFrom(items, id, k + 1)
      invariant 0 <= k < |items| && items[k].id == id
      decreases |items| - k
    {
      var later: nat :| k + 1 <= later < |items| && items[later].id == id;
      k := later;
    }
  }

  // ---------------------------------------------------------------- the list of one host

  class ItemList {
    var items: seq<Item>

    constructor (items: seq<Item>)
      ensures this.items == items
    {
      this.items := items;
    }

    /** find_item: the position of the first item with the id. */
    method FindItem(id: string) returns (r: Option<nat>)
      ensures r == None <==> !OccursFrom(items, id, 0)
      ensures r.Some? ==> FirstAt(items, id, r.value)
    {
      var i := 0;
      while i < |items|
        invariant 0 <= i <= |items|
        invariant forall j :: 0 <= j < i ==> items[j].id != id
      {
        if items[i].id == id {
          return Some(i);
        }
        i := i + 1;
      }
      return None;
    }

    /** process_path, mode by mode. */
    method ProcessPath(mode: string, id: string, data: string, ts: string)
      modifies this
      ensures mode == "set" ==> IsSet(old(items), items, id, data, ts)
      ensures mode == "unset" ==> IsUnset(old(items), items, id)
      ensures mode == "cleanup" ==> IsCleanup(old(items), items, id)
      ensures mode !in {"set", "unset", "cleanup"} ==> items == old(items)
    {
      var found := FindItem(id);
      if mode == "set" {
        if found == None {
          items := items + [Item(id, data, ts)];
        } else {
          items := items[found.value := Item(id, data, ts)];
        }
      } else if mode == "unset" {
        if found.Some? {
          items := items[..found.value] + items[found.value + 1..];
        }
      } else if mode == "cleanup" {
        var newData, newTs := "", "";
        if found.Some? {
          newData, newTs := items[found.value].data, items[found.value].updated;
        }
        items := [];
        if newData != "" {
          items := [Item(id, newData, newTs)];
        }
      }
    }
  }

  /** The first item with the id gets the data, or a new one is appended. */
  predicate IsSet(before: seq<Item>, after: seq<Item>, id: string, data: string, ts: string) {
    if OccursFrom(before, id, 0)
    then exists k: nat :: k < |before| && FirstAt(before, id, k) && after == before[k := Item(id, data, ts)]
    else after == before + [Item(id, data, ts)]
  }

  /** The first item with the id goes. */
  predicate IsUnset(before: seq<Item>, after: seq<Item>, id: string) {
    if OccursFrom(before, id, 0)
    then exists k: nat :: k < |before| && FirstAt(before, id, k) && after == before[..k] + before[k + 1..]
    else after == before
  }

  /** Only the first item with the id stays, and only if it holds data. */
  predicate IsCleanup(before: seq<Item>, after: seq<Item>, id: string) {
    if OccursFrom(before, id, 0)
    then exists k: nat :: k < |before| && FirstAt(before, id, k) &&
           after == if before[k].data != "" then [before[k]] else []
    else after == []
  }

  // ---------------------------------------------------------------- what the host then reads

  /** A set is seen by the host exactly when the last item with the id is the one it changed. */
  lemma SetIsSeen(before: seq<Item>, after: seq<Item>, id: string, data: string, ts: string)
    requires IsSet(before, after, id, data, ts)
    ensures AsMap(after).Keys == AsMap(before).Keys + {id}
    ensures AsMap(after)[id] == data <==>
            (forall i, j :: 0 <= i < j < |before| ==> !(before[i].id == id && before[j].id == id)) || AsMap(before)[id] == data
    ensures forall other | other in AsMap(before) && other != id :: AsMap(after)[other] == AsMap(before)[other]
  {
    KeysAfterSet(before, after, id, data, ts);
    var last := LastOf(after, id);
    LastWins(after, id, last);
    if OccursFrom(before, id, 0) {
      var k: nat :| k < |before| && FirstAt(before, id, k) && after == before[k := Item(id, data, ts)];
      if last != k {
        SameLast(before, after, id, last);
        LastWins(before, id, last);
        assert k < last && before[k].id == id && before[last].id == id;
      } else {
        forall i, j | 0 <= i < j < |before|
          ensures !(before[i].id == id && before[j].id == id)
        {
          assert i < k ==> before[i].id != id;
          assert j > k ==> after[j].id == before[j].id;
        }
      }
    }
    forall other | other in AsMap(before) && other != id
      ensures AsMap(after)[other] == AsMap(before)[other]
    {
      OthersAfterSet(before, after, id, data, ts, other);
    }
  }

  lemma OthersAfterSet(before: seq<Item>, after: seq<Item>, id: string, data: string, ts: string, other: string)
    requires IsSet(before, after, id, data, ts) && other in AsMap(before) && other != id
    ensures other in AsMap(after) && AsMap(after)[other] == AsMap(before)[other]
  {
    KeysAfterSet(before, after, id, data, ts);
    var o := LastOf(before, other);
    LastWins(before, other, o);
    forall i | o + 1 <= i < |after|
      ensures after[i].id != other
    {
      assert i < |before| ==> before[i].id != other;
    }
    LastWins(after, other, o);
  }

  lemma KeysAfterSet(before: seq<Item>, after: seq<Item>, id: string, data: string, ts: string)
    requires IsSet(before, after, id, data, ts)
    ensures AsMap(after).Keys == AsMap(before).Keys + {id}
    ensures OccursFrom(after, id, 0)
  {
    forall x
      ensures OccursFrom(after, x, 0) <==> OccursFrom(before, x, 0) || x == id
    {
      if OccursFrom(before, x, 0) {
        var i :| 0 <= i < |before| && before[i].id == x;
        assert after[i].id == x;
      }
      if x == id && !OccursFrom(before, id, 0) {
        assert after[|before|].id == id;
      }
      if OccursFrom(after, x, 0) && x != id {
        var i :| 0 <= i < |after| && after[i].id == x;
        assert i < |before| && before[i].id == x;
      }
    }
  }

  lemma SameLast(before: seq<Item>, after: seq<Item>, id: string, last: nat)
    requires |after| == |before| && forall i :: 0 <= i < |before| ==> after[i].id == before[i].id
    requires last < |after| && AbsentFrom(after, id, last + 1)
    ensures AbsentFrom(before, id, last + 1)
  {
    forall i | last + 1 <= i < |before|
      ensures before[i].id != id
    {
      assert after[i].id == before[i].id;
    }
  }

  /**
   Over lists without repeated ids the three modes are those of a map, which is how module
   Lifecycle models a host's items, and they never repeat an id.
   */
  lemma ModesOnMaps(before: seq<Item>, after: seq<Item>, id: string, data: string, ts: string)
    requires Distinct(before)
    ensures IsSet(before, after, id, data, ts) ==> Distinct(after) && AsMap(after) == AsMap(before)[id := data]
    ensures IsUnset(before, after, id) ==> Distinct(after) && AsMap(after) == AsMap(before) - {id}
    ensures IsCleanup(before, after, id) ==> Distinct(after) && AsMap(after) == KeepOnly(AsMap(before), id)
  {
    if IsSet(before, after, id, data, ts) {
      SetOnMap(before, after, id, data, ts);
    }
    if IsUnset(before, after, id) {
      UnsetOnMap(before, after, id);
    }
    if IsCleanup(before, after, id) {
      CleanupOnMap(before, after, id);
    }
  }

  /** Of two items with the id the first is set and the last is read. */
  lemma RepeatedIdHidesSet(id: string, old1: string, old2: string, data: string, ts: string)
    requires data != old2
    ensures var before := [Item(id, old1, ts), Item(id, old2, ts)];
            exists after :: IsSet(before, after, id, data, ts) && AsMap(after)[id] == old2 && AsMap(after)[id] != data
  {
    var before := [Item(id, old1, ts), Item(id, old2, ts)];
    var after := before[0 := Item(id, data, ts)];
    assert before[0].id == id && FirstAt(before, id, 0);
    assert IsSet(before, after, id, data, ts);
    LastWins(after, id, 1);
  }

  lemma SetOnMap(before: seq<Item>, after: seq<Item>, id: string, data: string, ts: string)
    requires Distinct(before) && IsSet(before, after, id, data, ts)
    ensures Distinct(after) && AsMap(after) == AsMap(before)[id := data]
  {
    SetIsSeen(before, after, id, data, ts);
    SetDistinct(before, after, id, data, ts);
  }

  lemma SetDistinct(before: seq<Item>, after: seq<Item>, id: string, data: string, ts: string)
    requires Distinct(before) && IsSet(before, after, id, data, ts)
    ensures Distinct(after)
  {
    if OccursFrom(before, id, 0) {
      var k: nat :| k < |before| && FirstAt(before, id, k) && after == before[k := Item(id, data, ts)];
      assert forall i :: 0 <= i < |before| ==> after[i].id == before[i].id;
    } else {
      assert forall i :: 0 <= i < |before| ==> before[i].id != id;
    }
  }

  lemma UnsetOnMap(before: seq<Item>, after: seq<Item>, id: string)
    requires Distinct(before) && IsUnset(before, after, id)
    ensures Distinct(after) && AsMap(after) == AsMap(before) - {id}
  {
    if OccursFrom(before, id, 0) {
      var k: nat :| k < |before| && FirstAt(before, id, k) && after == before[..k] + before[k + 1..];
      UnsetAt(before, k, after);
    } else {
      assert id !in AsMap(before);
      assert AsMap(before) - {id} == AsMap(before);
    }
  }

  /** The list without its item k. */
  predicate Shrunk(before: seq<Item>, k: nat, after: seq<Item>) {
    && k < |before| && |after| == |before| - 1
    && forall j | 0 <= j < |after| :: after[j] == before[if j < k then j else j + 1]
  }

  lemma UnsetAt(before: seq<Item>, k: nat, after: seq<Item>)
    requires Distinct(before) && k < |before| && after == before[..k] + before[k + 1..]
    ensures Distinct(after) && AsMap(after) == AsMap(before) - {before[k].id}
  {
    assert Shrunk(before, k, after);
    assert Distinct(after);
    ShrunkMap(before, k, after);
  }

  lemma ShrunkMap(before: seq<Item>, k: nat, after: seq<Item>)
    requires Distinct(before) && Distinct(after) && Shrunk(before, k, after)
    ensures AsMap(after) == AsMap(before) - {before[k].id}
  {
    forall x
      ensures x in AsMap(after) <==> x in AsMap(before) && x != before[k].id
      ensures x in AsMap(after) ==> AsMap(after)[x] == AsMap(before)[x]
    {
      ShrunkAt(before, k, after, x);
    }
  }

  lemma ShrunkAt(before: seq<Item>, k: nat, after: seq<Item>, x: string)
    requires Distinct(before) && Distinct(after) && Shrunk(before, k, after)
    ensures x in AsMap(after) <==> x in AsMap(before) && x != before[k].id
    ensures x in AsMap(after) ==> AsMap(after)[x] == AsMap(before)[x]
  {
    if x in AsMap(before) && x != before[k].id {
      StillThere(before, k, after, x);
    }
    if x in AsMap(after) {
      KeptItem(before, k, after, x);
    }
  }

  lemma StillThere(before: seq<Item>, k: nat, after: seq<Item>, x: string)
    requires Shrunk(before, k, after)
    requires x in AsMap(before) && x != before[k].id
    ensures x in AsMap(after)
  {
    var i: nat :| i < |before| && before[i].id == x;
    assert after[if i < k then i else i - 1].id == x;
  }

  lemma KeptItem(before: seq<Item>, k: nat, after: seq<Item>, x: string)
    requires Distinct(before) && Distinct(after) && Shrunk(before, k, after)
    requires x in AsMap(after)
    ensures x in AsMap(before) && x != before[k].id && AsMap(after)[x] == AsMap(before)[x]
  {
    var j: nat :| j < |after| && after[j].id == x;
    var i := if j < k then j else j + 1;
    assert after[j] == before[i];
    OnlyOne(after, x, j);
    OnlyOne(before, x, i);
  }

  /** In a list without repeated ids every item is the one its id stands for. */
  lemma OnlyOne(items: seq<Item>, x: string, i: nat)
    requires Distinct(items) && i < |items| && items[i].id == x
    ensures x in AsMap(items) && AsMap(items)[x] == items[i].data
  {
    LastWins(items, x, i);
  }

  lemma CleanupOnMap(before: seq<Item>, after: seq<Item>, id: string)
    requires Distinct(before) && IsCleanup(before, after, id)
    ensures Distinct(after) && AsMap(after) == KeepOnly(AsMap(before), id)
  {
    if OccursFrom(before, id, 0) {
      var k: nat :| k < |before| && FirstAt(before, id, k) && after == if before[k].data != "" then [before[k]] else [];
      OnlyOne(before, id, k);
      if before[k].data != "" {
        assert after[..0] == [];
        assert AsMap(after) == map[id := before[k].data];
      }
    } else {
      assert id !in AsMap(before);
    }
  }

  // ---------------------------------------------------------------- the time stamps

  /** A set leaves exactly one item with the given data and time where the first with the id was, or at the end; the others stay in their places. */
  lemma SetStampsItem(before: seq<Item>, after: seq<Item>, id: string, data: string, ts: string) returns (k: nat)
    requires IsSet(before, after, id, data, ts)
    ensures k < |after| && after[k] == Item(id, data, ts) && forall i | 0 <= i < k :: before[i].id != id
    ensures |after| == if k < |before| then |before| else |before| + 1
    ensures forall i | 0 <= i < |before| && i != k :: after[i] == before[i]
  {
    if OccursFrom(before, id, 0) {
      k :| k < |before| && FirstAt(before, id, k) && after == before[k := Item(id, data, ts)];
    } else {
      k := |before|;
    }
  }

  /** An unset takes the first item with the id out and closes the gap; without one it changes nothing. */
  lemma UnsetTakesItem(before: seq<Item>, after: seq<Item>, id: string) returns (k: nat)
    requires IsUnset(before, after, id)
    ensures k <= |before| && (forall i | 0 <= i < k :: before[i].id != id) && (k < |before| ==> before[k].id == id)
    ensures |after| == if k < |before| then |before| - 1 else |before|
    ensures forall i | 0 <= i < |after| :: after[i] == before[if i < k then i else i + 1]
  {
    if OccursFrom(before, id, 0) {
      k :| k < |before| && FirstAt(before, id, k) && after == before[..k] + before[k + 1..];
    } else {
      k := |before|;
    }
  }

  /** What survives a cleanup is the first item with the id, with its data and its time, unless it holds no data. */
  lemma CleanupKeepsItem(before: seq<Item>, after: seq<Item>, id: string) returns (k: nat)
    requires IsCleanup(before, after, id)
    ensures k <= |before| && (forall i | 0 <= i < k :: before[i].id != id) && (k < |before| ==> before[k].id == id)
    ensures after == if k < |before| && before[k].data != "" then [before[k]] else []
  {
    if OccursFrom(before, id, 0) {
      k :| k < |before| && FirstAt(before, id, k) && after == if before[k].data != "" then [before[k]] else [];
    } else {
      k := |before|;
    }
  }
}
