/** The batch re-encryption driver (KeyProcApp) and its batches. */
module KeyProc {
  import opened Basics
  import opened KeyState
  import opened Lifecycle
  import opened LifecycleSafety
  import opened TokenSafety

  // ---------------------------------------------------------------- batches

  datatype Batch = Batch(lo: int, hi: int)

  predicate InBatch(b: Batch, id: int) { b.lo <= id <= b.hi }

  /** calculate_batches before the shuffle. */
  function Batches(minId: int, maxId: int, size: int): seq<Batch>
    requires size > 0
  {
    var total := maxId - minId + 1;
    var count := (total + size - 1) / size;
    seq(if count < 0 then 0 else count, i => Batch(minId + i * size, minId + (i + 1) * size - 1))
  }

  /** Batch i, and how many there are. */
  lemma BatchesAre(minId: int, maxId: int, size: int, i: nat)
    requires size > 0
    ensures var bs, count := Batches(minId, maxId, size), (maxId - minId + size) / size;
            (i < |bs| <==> i < count) && (i < |bs| ==> bs[i] == Batch(minId + i * size, minId + (i + 1) * size - 1))
  {
  }

  /** The batch with the quotient of the offset. */
  lemma InItsBatch(minId: int, maxId: int, size: int, id: int)
    requires size > 0 && minId <= id <= maxId
    ensures var bs, k := Batches(minId, maxId, size), (id - minId) / size; 0 <= k < |bs| && InBatch(bs[k], id)
  {
    var k := (id - minId) / size;
    DivisionBounds(id - minId, size);
    CountCovers(id - minId, maxId - minId + size, size);
    BatchesAre(minId, maxId, size, k);
  }

  lemma InNoOther(minId: int, maxId: int, size: int, id: int, i: nat)
    requires size > 0 && minId <= id <= maxId && i < |Batches(minId, maxId, size)| && InBatch(Batches(minId, maxId, size)[i], id)
    ensures i == (id - minId) / size
  {
    BatchesAre(minId, maxId, size, i);
    SameQuotient(id - minId, size, i);
  }

  /** Every id of the range is in exactly one batch. */
  lemma BatchesPartition(minId: int, maxId: int, size: int, id: int)
    requires size > 0 && minId <= id <= maxId
    ensures var bs := Batches(minId, maxId, size);
            var k := (id - minId) / size;
            && 0 <= k < |bs| && InBatch(bs[k], id)
            && forall i | 0 <= i < |bs| && InBatch(bs[i], id) :: i == k
  {
    var bs := Batches(minId, maxId, size);
    InItsBatch(minId, maxId, size, id);
    forall i | 0 <= i < |bs| && InBatch(bs[i], id)
      ensures i == (id - minId) / size
    {
      InNoOther(minId, maxId, size, id, i);
    }
  }

  lemma {:induction false} MulGrows(x: int, d: nat, size: int)
    requires size > 0
    ensures size * x + d <= size * (x + d)
  {
    if d > 0 {
      MulGrows(x, d - 1, size);
      assert size * (x + d) == size * (x + d - 1) + size;
    }
  }

  lemma MulOrder(x: int, y: int, size: int)
    requires size > 0
    ensures x <= y <==> size * x <= size * y
  {
    if x <= y {
      MulGrows(x, y - x, size);
    } else {
      MulGrows(y, x - y, size);
    }
  }

  lemma DivisionBounds(a: int, size: int)
    requires size > 0
    ensures size * (a / size) <= a < size * (a / size) + size
    ensures a >= 0 ==> a / size >= 0
  {
    MulOrder(a / size, -1, size);
  }

  lemma CountCovers(a: int, b: int, size: int)
    requires size > 0 && a + size <= b
    ensures a / size < b / size
  {
    DivisionBounds(a, size);
    DivisionBounds(b, size);
    MulOrder(b / size, a / size, size);
  }

  lemma SameQuotient(a: int, size: int, i: int)
    requires size > 0 && i * size <= a <= (i + 1) * size - 1
    ensures a / size == i
  {
    DivisionBounds(a, size);
    MulOrder(a / size + 1, i, size);
    MulOrder(i + 1, a / size, size);
  }

  // ---------------------------------------------------------------- processing

  predicate Covered(batches: seq<Batch>, id: int) {
    exists b | b in batches :: InBatch(b, id)
  }

  /** The rows a run over these batches has to convert. */
  function ToConvert(w: World, target: int, batches: seq<Batch>): set<int> {
    set id | id in w.deks && w.deks[id].kek != target && Covered(batches, id)
  }

  /** With a confirmed target that is valid on the host, a batch cannot fail. */
  lemma BatchSucceeds(s: Suite, w: World, h: nat, lo: int, hi: int, target: int)
    requires Lawful(s) && Inv(s, w) && h < |w.hosts|
    requires SwitchVersion(w.db) == Some(target) && IsKekValid(s, w, h, target)
    ensures ReencryptDeks(s, w, h, lo, hi).Some?
  {
    forall id | id in OffTarget(w, target, lo, hi)
      ensures ReencryptRow(s, w, h, w.deks[id], target).Some?
    {
      assert Ready(s, w, w.deks[id].kek);
      assert OpenDek(s, w, 0, id).Some?;
      var to := UsableKey(s, w, h, target).value;
      var dek := OpenDek(s, w, 0, id).value;
      assert s.seal(to, dek).Some?;
    }
  }

  /** What a run over the batches has made of w, with a total of so many rows. */
  ghost predicate AllConverted(s: Suite, w: World, r: World, batches: seq<Batch>, target: int, total: int) {
    && Inv(s, r) && SameDeks(s, w, r) && r == w.(deks := r.deks) && r.deks.Keys == w.deks.Keys
    && (forall id | id in w.deks :: r.deks[id].kek == if Covered(batches, id) then target else w.deks[id].kek)
    && total == |ToConvert(w, target, batches)|
  }

  lemma NothingConverted(s: Suite, w: World, target: int)
    requires Inv(s, w)
    ensures AllConverted(s, w, w, [], target, 0)
  {
    assert ToConvert(w, target, []) == {};
  }

  /** The last batch, after what the others made of w. */
  lemma LastBatchConverts(s: Suite, w: World, h: nat, batches: seq<Batch>, mid: World, total: int, r: World, more: nat, target: int)
    requires Lawful(s) && h < |w.hosts| && batches != [] && SwitchVersion(w.db) == Some(target)
    requires AllConverted(s, w, mid, batches[..|batches| - 1], target, total)
    requires ReencryptDeks(s, mid, h, batches[|batches| - 1].lo, batches[|batches| - 1].hi) == Some((r, more))
    ensures AllConverted(s, w, r, batches, target, total + more)
  {
    var b := batches[|batches| - 1];
    ReencryptKeeps(s, mid, h, b.lo, b.hi);
    SameDeksTransitive(s, w, mid, r);
    BatchConverts(s, mid, h, b.lo, b.hi, target);
    OnlyRows(s, mid, h, b.lo, b.hi);
    LastRows(w, mid, r, target, batches, more);
  }

  lemma LastRows(w: World, mid: World, r: World, target: int, batches: seq<Batch>, more: nat)
    requires batches != [] && mid.deks.Keys == w.deks.Keys && r.deks.Keys == mid.deks.Keys
    requires forall id | id in w.deks :: mid.deks[id].kek == if Covered(batches[..|batches| - 1], id) then target else w.deks[id].kek
    requires var b := batches[|batches| - 1];
             && more == |OffTarget(mid, target, b.lo, b.hi)|
             && forall id | id in mid.deks :: r.deks[id].kek == if b.lo <= id <= b.hi then target else mid.deks[id].kek
    ensures forall id | id in w.deks :: r.deks[id].kek == if Covered(batches, id) then target else w.deks[id].kek
    ensures |ToConvert(w, target, batches)| == |ToConvert(w, target, batches[..|batches| - 1])| + more
  {
    CoveredSplit(batches);
    OneMoreBatch(w, mid, target, batches);
  }

  lemma OnlyRows(s: Suite, w: World, h: nat, lo: int, hi: int)
    requires h < |w.hosts| && ReencryptDeks(s, w, h, lo, hi).Some?
    ensures var r := ReencryptDeks(s, w, h, lo, hi).value.0; r == w.(deks := r.deks)
  {
  }

  /** One batch: the rows of its range are on the target, the others where they were. */
  lemma BatchConverts(s: Suite, w: World, h: nat, lo: int, hi: int, target: int)
    requires h < |w.hosts| && ReencryptDeks(s, w, h, lo, hi).Some? && SwitchVersion(w.db) == Some(target)
    ensures var (r, count) := ReencryptDeks(s, w, h, lo, hi).value;
            && r.deks.Keys == w.deks.Keys && count == |OffTarget(w, target, lo, hi)|
            && forall id | id in w.deks :: r.deks[id].kek == if lo <= id <= hi then target else w.deks[id].kek
  {
  }

  lemma CoveredSplit(batches: seq<Batch>)
    requires batches != []
    ensures forall id :: Covered(batches, id) <==> Covered(batches[..|batches| - 1], id) || InBatch(batches[|batches| - 1], id)
  {
    var before := batches[..|batches| - 1];
    var b := batches[|batches| - 1];
    assert batches == before + [b];
    forall id
      ensures Covered(batches, id) <==> Covered(before, id) || InBatch(b, id)
    {
      if InBatch(b, id) {
        assert b in batches;
      }
      if Covered(before, id) {
        var x :| x in before && InBatch(x, id);
        assert x in batches;
      }
    }
  }

  /** What the last batch converts is what the earlier ones did not reach. */
  lemma OneMoreBatch(w: World, mid: World, target: int, batches: seq<Batch>)
    requires batches != [] && mid.deks.Keys == w.deks.Keys
    requires var before := batches[..|batches| - 1];
             forall id | id in w.deks :: mid.deks[id].kek == if Covered(before, id) then target else w.deks[id].kek
    ensures var before := batches[..|batches| - 1];
            var b := batches[|batches| - 1];
            |ToConvert(w, target, batches)| == |ToConvert(w, target, before)| + |OffTarget(mid, target, b.lo, b.hi)|
  {
    var before := batches[..|batches| - 1];
    var b := batches[|batches| - 1];
    CoveredSplit(batches);
    var first := ToConvert(w, target, before);
    var more := OffTarget(mid, target, b.lo, b.hi);
    forall id
      ensures id in ToConvert(w, target, batches) <==> id in first || id in more
      ensures !(id in first && id in more)
    {
      if id in w.deks {
        assert id in mid.deks;
      }
    }
    assert ToConvert(w, target, batches) == first + more;
    assert first !! more;
  }

  // ---------------------------------------------------------------- other calls in between

  /** The calls of others before a batch, and between the batch and the look at the target. */
  datatype Gap = Gap(before: seq<Step>, after: seq<Step>)

  lemma NextKeepsHosts(s: Suite, w: World, step: Step)
    ensures |Next(s, w, step).hosts| == |w.hosts|
  {
    if step.h < |w.hosts| && step.DoTokenize? {
      TokenizeKeepsStores(s, w, step.h, step.t, step.text, step.dedup, step.draw, step.env);
    }
  }

  lemma {:induction false} RunKeepsHosts(s: Suite, w: World, steps: seq<Step>)
    ensures |Run(s, w, steps).hosts| == |w.hosts|
    decreases |steps|
  {
    if steps != [] {
      RunKeepsHosts(s, w, steps[..|steps| - 1]);
      NextKeepsHosts(s, Run(s, w, steps[..|steps| - 1]), steps[|steps| - 1]);
    }
  }

  /** One batch with what comes before and after it. */
  function OneBatch(s: Suite, w: World, h: nat, b: Batch, gap: Gap): (r: Option<(World, nat)>)
    requires h < |w.hosts|
    ensures r.Some? ==> |r.value.0.hosts| == |w.hosts|
  {
    RunKeepsHosts(s, w, gap.before);
    match ReencryptDeks(s, Run(s, w, gap.before), h, b.lo, b.hi)
    case None => None
    case Some((mid, count)) =>
      RunKeepsHosts(s, mid, gap.after);
      Some((Run(s, mid, gap.after), count))
  }

  /** What call i of the driver makes of a state, and its count; None when it fails. */
  type Call = (World, nat) -> Option<(World, nat)>

  /** The calls of a run over the given batches. */
  function BatchCalls(s: Suite, h: nat, batches: seq<Batch>, gaps: seq<Gap>): Call {
    (w: World, i: nat) => if h < |w.hosts| && i < |batches| && i < |gaps| then OneBatch(s, w, h, batches[i], gaps[i]) else None
  }

  function Sum(counts: seq<nat>): nat {
    if counts == [] then 0 else Sum(counts[..|counts| - 1]) + counts[|counts| - 1]
  }

  /** Call i leads from state i of the trail to the next one, with its count. */
  predicate CallAt(call: Call, trail: seq<World>, counts: seq<nat>, i: nat) {
    i < |counts| && i + 1 < |trail| && call(trail[i], i) == Some((trail[i + 1], counts[i]))
  }

  /** The states after each of the first calls, and what each of them converted. */
  predicate Trail(call: Call, w: World, trail: seq<World>, counts: seq<nat>) {
    |trail| == |counts| + 1 && trail[0] == w && forall i: nat | i < |counts| :: CallAt(call, trail, counts, i)
  }

  lemma TrailExtends(call: Call, w: World, trail: seq<World>, counts: seq<nat>, r: World, count: nat)
    requires Trail(call, w, trail, counts) && call(trail[|counts|], |counts|) == Some((r, count))
    ensures Trail(call, w, trail + [r], counts + [count]) && Sum(counts + [count]) == Sum(counts) + count
  {
    assert (counts + [count])[..|counts|] == counts;
    forall i: nat | i < |counts| + 1
      ensures CallAt(call, trail + [r], counts + [count], i)
    {
      if i < |counts| {
        assert CallAt(call, trail, counts, i);
      }
    }
  }

  /** A trail without its last call. */
  lemma TrailBefore(call: Call, w: World, trail: seq<World>, counts: seq<nat>)
    requires Trail(call, w, trail, counts) && counts != []
    ensures Trail(call, w, trail[..|counts|], counts[..|counts| - 1])
    ensures call(trail[|counts| - 1], |counts| - 1) == Some((trail[|counts|], counts[|counts| - 1]))
  {
    var n := |counts| - 1;
    assert CallAt(call, trail, counts, n);
    forall i: nat | i < n
      ensures CallAt(call, trail[..|counts|], counts[..n], i)
    {
      assert CallAt(call, trail, counts, i);
    }
  }

  /** No other calls at all. */
  function NoGaps(n: nat): (gaps: seq<Gap>)
    ensures |gaps| == n
  {
    seq(n, i => Gap([], []))
  }

  /** Then a call is that of its batch. */
  lemma PlainCall(s: Suite, w: World, h: nat, batches: seq<Batch>, i: nat)
    requires h < |w.hosts| && i < |batches|
    ensures BatchCalls(s, h, batches, NoGaps(|batches|))(w, i) == ReencryptDeks(s, w, h, batches[i].lo, batches[i].hi)
  {
  }

  // ---------------------------------------------------------------- the driver

  /** The target as the driver reads it, 0 when the row is missing or empty; None when int() throws. */
  function DriverTarget(db: Config): Option<int> {
    if KekTargetVersion !in db || db[KekTargetVersion] == "" then Some(0) else ParseInt(db[KekTargetVersion])
  }

  /**
   The driver and the server mean the same version exactly when there is a target, or version 0
   is the active one: without a target the server converts to the active version.
   */
  lemma TargetsAgreeExactly(db: Config)
    requires SwitchVersion(db).Some?
    ensures DriverTarget(db) == SwitchVersion(db) <==> KekTargetVersion in db || ActiveVersion(db) == Some(0)
  {
    assert ParseInt("") == None;
  }

  datatype Outcome = Finished | TargetChanged | TimeLimit | Failed

  /** After k calls the driver saw its target, and the clock below the limit. */
  predicate SawTarget(trail: seq<World>, late: seq<bool>, target: int, k: nat) {
    0 < k < |trail| && k <= |late| && DriverTarget(trail[k].db) == Some(target) && !late[k - 1]
  }

  /** The driver is at state r with its total, and saw its target after each of the first `seen` calls. */
  predicate Driven(call: Call, w: World, target: int, late: seq<bool>, trail: seq<World>, counts: seq<nat>, r: World, converted: nat, seen: nat) {
    && Trail(call, w, trail, counts) && r == trail[|counts|] && converted == Sum(counts)
    && forall k: nat | 0 < k <= seen :: SawTarget(trail, late, target, k)
  }

  lemma DrivenStep(call: Call, w: World, target: int, late: seq<bool>, trail: seq<World>, counts: seq<nat>, r: World, converted: nat, next: World, count: nat)
    requires Driven(call, w, target, late, trail, counts, r, converted, |counts|) && call(r, |counts|) == Some((next, count))
    ensures Driven(call, w, target, late, trail + [next], counts + [count], next, converted + count, |counts|)
    ensures DriverTarget(next.db) == Some(target) && |counts| < |late| && !late[|counts|] ==>
              Driven(call, w, target, late, trail + [next], counts + [count], next, converted + count, |counts| + 1)
  {
    TrailExtends(call, w, trail, counts, next, count);
    forall k: nat | 0 < k <= |counts|
      ensures SawTarget(trail + [next], late, target, k)
    {
      assert SawTarget(trail, late, target, k);
    }
  }

  /**
   The loop of reencrypt_deks over n batches, for the target it started with. `call` is
   process_batch with all that happens until the driver reads the target again; after batch i it
   also looks at the clock, which `late[i]` says is over the limit.
   */
  method Drive(call: Call, w: World, target: int, n: nat, late: seq<bool>)
    returns (r: World, converted: nat, processed: nat, outcome: Outcome, ghost trail: seq<World>, ghost counts: seq<nat>)
    requires |late| == n
    ensures processed == |counts| <= n
    ensures Driven(call, w, target, late, trail, counts, r, converted, if outcome == Finished || processed == 0 then processed else processed - 1)
    ensures outcome == Finished ==> processed == n
    ensures outcome == TargetChanged ==> 0 < processed && DriverTarget(r.db).Some? && DriverTarget(r.db) != Some(target)
    ensures outcome == TimeLimit ==> 0 < processed && DriverTarget(r.db) == Some(target) && late[processed - 1]
    ensures outcome == Failed ==> (0 < processed && DriverTarget(r.db) == None) || (processed < n && call(r, processed) == None)
  {
    r, converted, processed, trail, counts := w, 0, 0, [w], [];
    while processed < n
      invariant processed == |counts| <= n && Driven(call, w, target, late, trail, counts, r, converted, processed)
    {
      var next := call(r, processed);
      if next == None {
        return r, converted, processed, Failed, trail, counts;
      }
      DrivenStep(call, w, target, late, trail, counts, r, converted, next.value.0, next.value.1);
      trail, counts := trail + [next.value.0], counts + [next.value.1];
      r, converted, processed := next.value.0, converted + next.value.1, processed + 1;
      if DriverTarget(r.db) == None {
        return r, converted, processed, Failed, trail, counts;
      }
      if DriverTarget(r.db).value != target {
        return r, converted, processed, TargetChanged, trail, counts;
      }
      if late[processed - 1] {
        return r, converted, processed, TimeLimit, trail, counts;
      }
    }
    outcome := Finished;
  }

  // ---------------------------------------------------------------- a run with nobody else at work

  /**
   Any list of batches, in any order, with a confirmed target that is valid on the host: no batch
   fails, every key keeps its content, the covered rows are on the target, the others untouched,
   and the total is that of the rows that were off target.
   */
  lemma ProcessConverts(s: Suite, w: World, h: nat, batches: seq<Batch>, trail: seq<World>, counts: seq<nat>, target: int)
    requires Lawful(s) && Inv(s, w) && h < |w.hosts| && |counts| <= |batches|
    requires SwitchVersion(w.db) == Some(target) && IsKekValid(s, w, h, target)
    requires Trail(BatchCalls(s, h, batches, NoGaps(|batches|)), w, trail, counts)
    ensures AllConverted(s, w, trail[|counts|], batches[..|counts|], target, Sum(counts))
    ensures |counts| < |batches| ==> BatchCalls(s, h, batches, NoGaps(|batches|))(trail[|counts|], |counts|).Some?
  {
    TrailCounts(s, w, h, batches, BatchCalls(s, h, batches, NoGaps(|batches|)), trail, counts, target);
    if |counts| < |batches| {
      NextSucceeds(s, w, h, batches, |counts|, trail[|counts|], target);
    }
  }

  lemma {:induction false} TrailCounts(s: Suite, w: World, h: nat, batches: seq<Batch>, call: Call, trail: seq<World>, counts: seq<nat>, target: int)
    requires Lawful(s) && Inv(s, w) && h < |w.hosts| && |counts| <= |batches| && SwitchVersion(w.db) == Some(target)
    requires call == BatchCalls(s, h, batches, NoGaps(|batches|)) && Trail(call, w, trail, counts)
    ensures AllConverted(s, w, trail[|counts|], batches[..|counts|], target, Sum(counts))
    decreases |counts|
  {
    if counts == [] {
      NothingConverted(s, w, target);
    } else {
      var n := |counts| - 1;
      TrailBefore(call, w, trail, counts);
      TrailCounts(s, w, h, batches, call, trail[..|counts|], counts[..n], target);
      OneMore(s, w, h, batches, n, trail[n], Sum(counts[..n]), trail[|counts|], counts[n], target);
    }
  }

  lemma OneMore(s: Suite, w: World, h: nat, batches: seq<Batch>, n: nat, mid: World, total: int, r: World, more: nat, target: int)
    requires Lawful(s) && h < |w.hosts| && n < |batches| && SwitchVersion(w.db) == Some(target)
    requires AllConverted(s, w, mid, batches[..n], target, total)
    requires BatchCalls(s, h, batches, NoGaps(|batches|))(mid, n) == Some((r, more))
    ensures AllConverted(s, w, r, batches[..n + 1], target, total + more)
  {
    assert batches[..n + 1][..n] == batches[..n];
    PlainCall(s, mid, h, batches, n);
    LastBatchConverts(s, w, h, batches[..n + 1], mid, total, r, more, target);
  }

  lemma NextSucceeds(s: Suite, w: World, h: nat, batches: seq<Batch>, n: nat, r: World, target: int)
    requires Lawful(s) && h < |w.hosts| && n < |batches| && SwitchVersion(w.db) == Some(target) && IsKekValid(s, w, h, target)
    requires Inv(s, r) && r == w.(deks := r.deks)
    ensures BatchCalls(s, h, batches, NoGaps(|batches|))(r, n).Some?
  {
    PlainCall(s, r, h, batches, n);
    assert MasterKey(s, r, h, target) == MasterKey(s, w, h, target);
    BatchSucceeds(s, r, h, batches[n].lo, batches[n].hi, target);
  }

  /**
   A run over any shuffle of the calculated batches: at any exit the total equals the rows that
   were off target in the processed batches, and when it finishes no row of the range is.
   */
  lemma DriveConverts(s: Suite, w: World, h: nat, minId: int, maxId: int, size: int, shuffled: seq<Batch>, trail: seq<World>, counts: seq<nat>, target: int)
    requires Lawful(s) && Inv(s, w) && h < |w.hosts| && size > 0 && |counts| <= |shuffled|
    requires SwitchVersion(w.db) == Some(target) && IsKekValid(s, w, h, target)
    requires multiset(shuffled) == multiset(Batches(minId, maxId, size))
    requires Trail(BatchCalls(s, h, shuffled, NoGaps(|shuffled|)), w, trail, counts)
    ensures AllConverted(s, w, trail[|counts|], shuffled[..|counts|], target, Sum(counts))
    ensures |counts| < |shuffled| ==> BatchCalls(s, h, shuffled, NoGaps(|shuffled|))(trail[|counts|], |counts|).Some?
    ensures |counts| == |shuffled| ==>
              forall id | id in trail[|counts|].deks && minId <= id <= maxId :: trail[|counts|].deks[id].kek == target
  {
    ProcessConverts(s, w, h, shuffled, trail, counts, target);
    if |counts| == |shuffled| {
      assert shuffled[..|counts|] == shuffled;
      forall id | id in w.deks && minId <= id <= maxId
        ensures Covered(shuffled, id)
      {
        ShuffleCovers(minId, maxId, size, shuffled, id);
      }
    }
  }

  /** Every id of the range is covered by any shuffle of its batches. */
  lemma ShuffleCovers(minId: int, maxId: int, size: int, shuffled: seq<Batch>, id: int)
    requires size > 0 && minId <= id <= maxId && multiset(shuffled) == multiset(Batches(minId, maxId, size))
    ensures Covered(shuffled, id)
  {
    BatchesPartition(minId, maxId, size, id);
    var b := Batches(minId, maxId, size)[(id - minId) / size];
    assert b in multiset(Batches(minId, maxId, size));
    assert b in multiset(shuffled);
    assert b in shuffled;
  }

  /** A missing or an empty row is read as version 0, a text that is no number is an error. */
  lemma TargetRead(db: Config, v: int)
    ensures KekTargetVersion !in db ==> DriverTarget(db) == Some(0)
    ensures DriverTarget(db[KekTargetVersion := ""]) == Some(0) && DriverTarget(db[KekTargetVersion := "x"]) == None
    ensures DriverTarget(db[KekTargetVersion := ToText(v)]) == Some(v)
  {
    assert !IsDigit("x"[0]);
    assert ToText(v) == "" ==> ParseInt("") == Some(v);
  }
}
