/** Runs of the re-encryption driver while others go on calling: which version it works for, and what it leaves. */
module DriverRuns {
  import opened Basics
  import opened KeyState
  import opened Lifecycle
  import opened LifecycleSafety
  import opened TokenSafety
  import opened KeyProc
  import Installation

  // ---------------------------------------------------------------- one version for driver and server

  /** Both rows can be read, and without a target the version the data script installs is still the active one. */
  predicate TargetKnown(db: Config) {
    && ActiveVersion(db).Some?
    && if KekTargetVersion in db then Number(db, KekTargetVersion).Some? else ActiveVersion(db) == Some(0)
  }

  /** The two rows read the same in both tables. */
  ghost predicate SameTarget(db: Config, db': Config) {
    forall key | key == KekTargetVersion || key == KekVersion ::
      (key in db <==> key in db') && (key in db ==> db'[key] == db[key])
  }

  lemma DigestCallsKeepTarget(s: Suite, w: World, step: Step)
    requires step.h < |w.hosts| && (step.DoGenerateHmac? || step.DoSwitchHmac?)
    ensures SameTarget(w.db, Next(s, w, step).db)
  {
  }

  lemma OtherCallsKeepTarget(s: Suite, w: World, step: Step)
    requires !step.DoGenerateKek? && !step.DoResetTarget? && !step.DoSwitchKek?
    ensures SameTarget(w.db, Next(s, w, step).db)
  {
    if step.h < |w.hosts| {
      if step.DoTokenize? {
        TokenizeKeepsStores(s, w, step.h, step.t, step.text, step.dedup, step.draw, step.env);
      } else if step.DoGenerateHmac? || step.DoSwitchHmac? {
        DigestCallsKeepTarget(s, w, step);
      }
    }
  }

  /** Only generate_kek and reset_target_version write a target, and switch_kek needs one. */
  lemma NextKeepsTarget(s: Suite, w: World, step: Step)
    requires TargetKnown(w.db)
    ensures TargetKnown(Next(s, w, step).db)
  {
    if !step.DoGenerateKek? && !step.DoResetTarget? && !step.DoSwitchKek? {
      OtherCallsKeepTarget(s, w, step);
    }
  }

  lemma TargetsAgree(db: Config)
    requires TargetKnown(db)
    ensures DriverTarget(db).Some? && SwitchVersion(db) == if Checked(db, DriverTarget(db).value) then DriverTarget(db) else None
  {
    assert ParseInt("") == None;
    if SwitchVersion(db).Some? {
      TargetsAgreeExactly(db);
    }
  }

  /**
   So in every state a run reaches the driver and the server mean the same version: the server
   converts to the one the driver works for, or refuses because that one is not confirmed.
   */
  lemma {:induction false} TargetsAlwaysAgree(s: Suite, w: World, steps: seq<Step>)
    requires TargetKnown(w.db)
    ensures var db := Run(s, w, steps).db;
            && TargetKnown(db) && DriverTarget(db).Some?
            && SwitchVersion(db) == if Checked(db, DriverTarget(db).value) then DriverTarget(db) else None
    decreases |steps|
  {
    if steps != [] {
      TargetsAlwaysAgree(s, w, steps[..|steps| - 1]);
      NextKeepsTarget(s, Run(s, w, steps[..|steps| - 1]), steps[|steps| - 1]);
    }
    TargetsAgree(Run(s, w, steps).db);
  }

  // ---------------------------------------------------------------- the task

  /** The target with the smallest and the largest id of the rows off it. */
  datatype Task = Task(target: int, minId: int, maxId: int)

  function RowsOff(w: World, target: int): set<int> {
    set id | id in w.deks && w.deks[id].kek != target
  }

  /** get_reencryption_task: None when the target is not valid or not confirmed, or no row is off it. */
  function FindTask(s: Suite, w: World, h: nat): Option<Task>
    requires h < |w.hosts|
  {
    match DriverTarget(w.db)
    case None => None
    case Some(target) =>
      if IsKekValid(s, w, h, target) && Checked(w.db, target) && RowsOff(w, target) != {}
      then Some(Task(target, MinOf(RowsOff(w, target)), MaxOf(RowsOff(w, target))))
      else None
  }

  /** The driver goes to work exactly when the server can convert and a row is off its target. */
  lemma TaskExactly(s: Suite, w: World, h: nat, steps: seq<Step>)
    requires Lawful(s) && Inv(s, w) && TargetKnown(w.db) && h < |w.hosts|
    ensures var r := Run(s, w, steps);
            && |r.hosts| == |w.hosts|
            && (FindTask(s, r, h).Some? <==> SwitchVersion(r.db).Some? && RowsOff(r, SwitchVersion(r.db).value) != {})
            && (FindTask(s, r, h).Some? ==> SwitchVersion(r.db) == Some(FindTask(s, r, h).value.target))
  {
    TargetsAlwaysAgree(s, w, steps);
    RunKeeps(s, w, steps);
    var r := Run(s, w, steps);
    if SwitchVersion(r.db).Some? {
      TargetIsValid(s, r, h);
    }
  }

  /** A confirmed target is valid on every host. */
  lemma TargetIsValid(s: Suite, w: World, h: nat)
    requires Inv(s, w) && h < |w.hosts| && SwitchVersion(w.db).Some?
    ensures IsKekValid(s, w, h, SwitchVersion(w.db).value)
  {
    assert Ready(s, w, SwitchVersion(w.db).value);
  }

  // ---------------------------------------------------------------- a run with others at work

  /** No row that w0 had is gone in w, and those it did not have got ids above all that w0 had given. */
  predicate Grown(w0: World, w: World) {
    w0.nextDek <= w.nextDek && w0.deks.Keys <= w.deks.Keys && forall id | id in w.deks && id !in w0.deks :: id >= w0.nextDek
  }

  lemma {:induction false} AddDeksGrows(s: Suite, w: World, key: Key, v: int, values: seq<Key>, maxCounter: int, finish: int)
    ensures var next := AddDeks(s, w, key, v, values, maxCounter, finish);
            next.Some? ==> Grown(w, next.value)
    decreases |values|
  {
    if values != [] && NewDek(s, key, v, values[0], maxCounter, finish).Some? {
      AddDeksGrows(s, AddDek(w, NewDek(s, key, v, values[0], maxCounter, finish).value), key, v, values[1..], maxCounter, finish);
    }
  }

  lemma TokenizeGrows(s: Suite, w: World, h: nat, t: Table, text: Text, dedup: bool, d: Draw, env: Env)
    requires h < |w.hosts|
    ensures var next := Tokenize(s, w, h, t, text, dedup, d, env);
            next.Some? ==> Grown(w, next.value.0)
  {
    if Reserve(s, w, h, t, text, d, env).Some? {
      var active, kek, finish, grown, row := ReserveIs(s, w, h, t, text, d, env);
      AddDeksGrows(s, w, kek, active, d.values, env.useCount, finish);
    }
  }

  lemma NextGrows(s: Suite, w: World, step: Step)
    ensures Grown(w, Next(s, w, step))
  {
    if step.h < |w.hosts| && step.DoTokenize? {
      TokenizeGrows(s, w, step.h, step.t, step.text, step.dedup, step.draw, step.env);
    }
  }

  /** The call re-encrypts a range with this id. */
  predicate Reaches(step: Step, id: int) {
    step.DoReencrypt? && step.lo <= id <= step.hi
  }

  /** No other call changes the version of a row, and such a call changes it to the server's target. */
  lemma NextKeepsVersion(s: Suite, w: World, step: Step, id: int)
    requires Inv(s, w) && id in w.deks
    ensures id in Next(s, w, step).deks
    ensures var v := Next(s, w, step).deks[id].kek; v == w.deks[id].kek || (Reaches(step, id) && Some(v) == SwitchVersion(w.db))
  {
    NextGrows(s, w, step);
    if Next(s, w, step).deks[id].kek != w.deks[id].kek {
      Installation.RowsMoveToConfirmedVersions(s, w, step, id);
    }
  }

  /** The target of the server is the same after every one of the calls. */
  predicate KeepsTarget(s: Suite, w: World, steps: seq<Step>, target: int) {
    forall i | 0 <= i <= |steps| :: SwitchVersion(Run(s, w, steps[..i]).db) == Some(target)
  }

  /** Some of the calls re-encrypts a range with this id. */
  predicate Reencrypted(steps: seq<Step>, id: int) {
    exists i :: 0 <= i < |steps| && Reaches(steps[i], id)
  }

  /**
   Since w0: the rows of w0 that were on the target, those in the batches and those in `moved` are
   on it, and of the others only those in `others` have been moved.
   */
  predicate Settled(w0: World, w: World, batches: seq<Batch>, moved: set<int>, others: set<int>, target: int) {
    && Grown(w0, w)
    && (forall id | id in w0.deks && (w0.deks[id].kek == target || Covered(batches, id)) :: w.deks[id].kek == target)
    && (forall id | id in moved :: id in w.deks && w.deks[id].kek == target)
    && (forall id | id in w0.deks && w0.deks[id].kek != target && id !in moved && id !in others :: w.deks[id].kek != target)
  }

  lemma NextSettled(s: Suite, w0: World, w: World, step: Step, batches: seq<Batch>, moved: set<int>, others: set<int>, target: int)
    requires Lawful(s) && Inv(s, w) && SwitchVersion(w.db) == Some(target) && Settled(w0, w, batches, moved, others, target)
    requires forall id | id in w0.deks && Reaches(step, id) :: id in others
    ensures var w' := Next(s, w, step);
            Inv(s, w') && SameDeks(s, w, w') && Settled(w0, w', batches, moved, others, target)
  {
    NextKeeps(s, w, step);
    NextGrows(s, w, step);
    forall id | id in w.deks
      ensures id in Next(s, w, step).deks
      ensures var v := Next(s, w, step).deks[id].kek; v == w.deks[id].kek || (Reaches(step, id) && v == target)
    {
      NextKeepsVersion(s, w, step, id);
    }
  }

  /** Calls that keep the target leave the rows on it there. */
  lemma {:induction false} RunSettled(s: Suite, w0: World, w: World, steps: seq<Step>, batches: seq<Batch>, moved: set<int>, others: set<int>, target: int)
    requires Lawful(s) && Inv(s, w) && KeepsTarget(s, w, steps, target) && Settled(w0, w, batches, moved, others, target)
    requires forall id | id in w0.deks && Reencrypted(steps, id) :: id in others
    ensures var w' := Run(s, w, steps);
            Inv(s, w') && SameDeks(s, w, w') && Settled(w0, w', batches, moved, others, target) && SwitchVersion(w'.db) == Some(target)
    decreases |steps|
  {
    assert steps[..|steps|] == steps;
    if steps != [] {
      var front := steps[..|steps| - 1];
      forall i | 0 <= i <= |front|
        ensures SwitchVersion(Run(s, w, front[..i]).db) == Some(target)
      {
        assert front[..i] == steps[..i];
      }
      forall id | id in w0.deks && Reencrypted(front, id)
        ensures id in others
      {
        var i :| 0 <= i < |front| && Reaches(front[i], id);
        assert Reaches(steps[i], id);
      }
      RunSettled(s, w0, w, front, batches, moved, others, target);
      NextSettled(s, w0, Run(s, w, front), steps[|steps| - 1], batches, moved, others, target);
      SameDeksTransitive(s, w, Run(s, w, front), Run(s, w, steps));
    }
  }

  /** The others keep the target around one batch. */
  predicate GapKeepsTarget(s: Suite, w: World, h: nat, b: Batch, gap: Gap, target: int)
    requires h < |w.hosts|
  {
    RunKeepsHosts(s, w, gap.before);
    && KeepsTarget(s, w, gap.before, target)
    && match ReencryptDeks(s, Run(s, w, gap.before), h, b.lo, b.hi)
       case None => true
       case Some((mid, _)) => KeepsTarget(s, mid, gap.after, target)
  }

  /** They do so around batch i of a trail. */
  predicate TargetKeptAt(s: Suite, h: nat, batches: seq<Batch>, gaps: seq<Gap>, trail: seq<World>, target: int, i: nat) {
    && i < |trail| && i < |batches| && i < |gaps| && h < |trail[i].hosts|
    && GapKeepsTarget(s, trail[i], h, batches[i], gaps[i], target)
  }

  /** The rows off the target when a batch comes. */
  function Taken(s: Suite, w: World, b: Batch, gap: Gap, target: int): set<int> {
    OffTarget(Run(s, w, gap.before), target, b.lo, b.hi)
  }

  /** The rows of w that other calls can have moved. */
  function ByOthers(w: World, gap: Gap): set<int> {
    set id | id in w.deks && (Reencrypted(gap.before, id) || Reencrypted(gap.after, id))
  }

  /** The rows of a batch, all of its range and, as far as w0 had them, off the target in w0. */
  predicate Fresh(w0: World, b: Batch, more: set<int>, target: int) {
    forall id | id in more :: InBatch(b, id) && (if id in w0.deks then w0.deks[id].kek != target else id >= w0.nextDek)
  }

  /** A batch alone, by what it does to the rows. */
  lemma BatchSettles(w0: World, start: World, mid: World, batches: seq<Batch>, moved: set<int>, others: set<int>, target: int)
    requires batches != [] && Settled(w0, start, batches[..|batches| - 1], moved, others, target)
    requires mid.nextDek == start.nextDek && mid.deks.Keys == start.deks.Keys
    requires var b := batches[|batches| - 1];
             forall id | id in start.deks :: mid.deks[id].kek == if b.lo <= id <= b.hi then target else start.deks[id].kek
    ensures var b := batches[|batches| - 1];
            var more := OffTarget(start, target, b.lo, b.hi);
            Settled(w0, mid, batches, moved + more, others, target) && more !! moved && Fresh(w0, b, more, target)
  {
    CoveredSplit(batches);
  }

  /** One batch with what comes before and after it: it cannot fail, and takes what is off target in its range. */
  lemma OneBatchSettles(s: Suite, w0: World, w: World, h: nat, batches: seq<Batch>, gap: Gap, moved: set<int>, others: set<int>, target: int)
    requires Lawful(s) && Inv(s, w) && h < |w.hosts| && batches != [] && ByOthers(w0, gap) <= others
    requires Settled(w0, w, batches[..|batches| - 1], moved, others, target) && GapKeepsTarget(s, w, h, batches[|batches| - 1], gap, target)
    ensures var b := batches[|batches| - 1];
            var more := Taken(s, w, b, gap, target);
            && OneBatch(s, w, h, b, gap).Some?
            && var (r, count) := OneBatch(s, w, h, b, gap).value;
               && Inv(s, r) && SameDeks(s, w, r) && Settled(w0, r, batches, moved + more, others, target)
               && count == |more| && more !! moved && Fresh(w0, b, more, target)
  {
    var front, b := batches[..|batches| - 1], batches[|batches| - 1];
    RunKeepsHosts(s, w, gap.before);
    RunSettled(s, w0, w, gap.before, front, moved, others, target);
    var start := Run(s, w, gap.before);
    TargetIsValid(s, start, h);
    BatchSucceeds(s, start, h, b.lo, b.hi, target);
    var mid := ReencryptDeks(s, start, h, b.lo, b.hi).value.0;
    ReencryptKeeps(s, start, h, b.lo, b.hi);
    BatchConverts(s, start, h, b.lo, b.hi, target);
    OnlyRows(s, start, h, b.lo, b.hi);
    BatchSettles(w0, start, mid, batches, moved, others, target);
    RunSettled(s, w0, mid, gap.after, batches, moved + Taken(s, w, b, gap, target), others, target);
    SameDeksTransitive(s, w, start, mid);
    SameDeksTransitive(s, w, mid, Run(s, mid, gap.after));
  }

  /** The rows the first n batches of a trail took. */
  function Moved(s: Suite, batches: seq<Batch>, gaps: seq<Gap>, trail: seq<World>, target: int, n: nat): set<int>
    requires n <= |batches| && n <= |gaps| && n <= |trail|
  {
    if n == 0 then {} else Moved(s, batches, gaps, trail, target, n - 1) + Taken(s, trail[n - 1], batches[n - 1], gaps[n - 1], target)
  }

  /** The rows of w that others can have moved in the first n gaps. */
  function OthersMoved(w: World, gaps: seq<Gap>, n: nat): set<int>
    requires n <= |gaps|
  {
    if n == 0 then {} else OthersMoved(w, gaps, n - 1) + ByOthers(w, gaps[n - 1])
  }

  /** So many rows, all of these batches and, as far as w had them, off the target in w. */
  predicate Took(w: World, moved: set<int>, batches: seq<Batch>, target: int, total: int) {
    && |moved| == total
    && forall id | id in moved :: Covered(batches, id) && (if id in w.deks then w.deks[id].kek != target else id >= w.nextDek)
  }

  lemma TookMore(w: World, moved: set<int>, more: set<int>, batches: seq<Batch>, n: nat, target: int, counts: seq<nat>)
    requires n < |batches| && n < |counts| && Took(w, moved, batches[..n], target, Sum(counts[..n]))
    requires |more| == counts[n] && more !! moved
    requires Fresh(w, batches[n], more, target)
    ensures Took(w, moved + more, batches[..n + 1], target, Sum(counts[..n + 1]))
  {
    assert batches[..n + 1][..n] == batches[..n] && counts[..n + 1][..n] == counts[..n];
    CoveredSplit(batches[..n + 1]);
  }

  /** What the first n calls of a trail have made of w. */
  ghost predicate SettledAt(s: Suite, w: World, batches: seq<Batch>, gaps: seq<Gap>, trail: seq<World>, counts: seq<nat>, target: int, n: nat)
    requires n <= |batches| && n <= |gaps| && n < |trail| && n <= |counts|
  {
    var moved := Moved(s, batches, gaps, trail, target, n);
    && Inv(s, trail[n]) && SameDeks(s, w, trail[n])
    && Settled(w, trail[n], batches[..n], moved, OthersMoved(w, gaps, n), target)
    && Took(w, moved, batches[..n], target, Sum(counts[..n]))
  }

  /** The same for batch n of a list, when the calls around it move more rows. */
  lemma BatchOfListSettles(s: Suite, w0: World, w: World, h: nat, batches: seq<Batch>, n: nat, gap: Gap, moved: set<int>, others: set<int>, target: int)
    requires Lawful(s) && Inv(s, w) && h < |w.hosts| && n < |batches|
    requires Settled(w0, w, batches[..n], moved, others, target) && GapKeepsTarget(s, w, h, batches[n], gap, target)
    ensures var more := Taken(s, w, batches[n], gap, target);
            && OneBatch(s, w, h, batches[n], gap).Some?
            && var (r, count) := OneBatch(s, w, h, batches[n], gap).value;
               && Inv(s, r) && SameDeks(s, w, r) && Settled(w0, r, batches[..n + 1], moved + more, others + ByOthers(w0, gap), target)
               && count == |more| && more !! moved && Fresh(w0, batches[n], more, target)
  {
    assert batches[..n + 1][..n] == batches[..n];
    OneBatchSettles(s, w0, w, h, batches[..n + 1], gap, moved, others + ByOthers(w0, gap), target);
  }

  lemma CallIs(s: Suite, h: nat, batches: seq<Batch>, gaps: seq<Gap>, w: World, i: nat)
    requires h < |w.hosts| && i < |batches| && i < |gaps|
    ensures BatchCalls(s, h, batches, gaps)(w, i) == OneBatch(s, w, h, batches[i], gaps[i])
  {
  }

  /** The next call of the driver cannot fail. */
  lemma CallSucceeds(s: Suite, w: World, h: nat, batches: seq<Batch>, gaps: seq<Gap>, trail: seq<World>, counts: seq<nat>, target: int, n: nat)
    requires Lawful(s) && n <= |counts| && n < |trail| && TargetKeptAt(s, h, batches, gaps, trail, target, n)
    requires SettledAt(s, w, batches, gaps, trail, counts, target, n)
    ensures BatchCalls(s, h, batches, gaps)(trail[n], n).Some?
  {
    var moved, others := Moved(s, batches, gaps, trail, target, n), OthersMoved(w, gaps, n);
    BatchOfListSettles(s, w, trail[n], h, batches, n, gaps[n], moved, others, target);
    CallIs(s, h, batches, gaps, trail[n], n);
  }

  lemma CallSettles(s: Suite, w: World, h: nat, batches: seq<Batch>, gaps: seq<Gap>, trail: seq<World>, counts: seq<nat>, target: int, n: nat)
    requires Lawful(s) && n < |counts| && n + 1 < |trail| && TargetKeptAt(s, h, batches, gaps, trail, target, n)
    requires SettledAt(s, w, batches, gaps, trail, counts, target, n)
    requires BatchCalls(s, h, batches, gaps)(trail[n], n) == Some((trail[n + 1], counts[n]))
    ensures SettledAt(s, w, batches, gaps, trail, counts, target, n + 1)
  {
    var moved, others := Moved(s, batches, gaps, trail, target, n), OthersMoved(w, gaps, n);
    BatchOfListSettles(s, w, trail[n], h, batches, n, gaps[n], moved, others, target);
    CallIs(s, h, batches, gaps, trail[n], n);
    SameDeksTransitive(s, w, trail[n], trail[n + 1]);
    TookMore(w, moved, Taken(s, trail[n], batches[n], gaps[n], target), batches, n, target, counts);
  }

  lemma {:induction false} TrailSettles(s: Suite, w: World, h: nat, batches: seq<Batch>, gaps: seq<Gap>, trail: seq<World>, counts: seq<nat>, target: int, n: nat)
    requires Lawful(s) && Inv(s, w) && Trail(BatchCalls(s, h, batches, gaps), w, trail, counts)
    requires n <= |counts| <= |batches| && |counts| <= |gaps|
    requires forall i: nat | i < n :: TargetKeptAt(s, h, batches, gaps, trail, target, i)
    ensures SettledAt(s, w, batches, gaps, trail, counts, target, n)
  {
    if n > 0 {
      TrailSettles(s, w, h, batches, gaps, trail, counts, target, n - 1);
      assert TargetKeptAt(s, h, batches, gaps, trail, target, n - 1);
      assert CallAt(BatchCalls(s, h, batches, gaps), trail, counts, n - 1);
      CallSettles(s, w, h, batches, gaps, trail, counts, target, n - 1);
    }
  }

  /**
   The driver's run over any batches in any order, with other calls in between that keep the target.
   At every exit: no key has changed and the next batch could not fail; the total is the number of
   rows the batches took, which were off the target at the start or are newer; and a covered row
   that was off the target and that no batch took was moved by another call that reaches it.
   */
  lemma BusyDriveConverts(s: Suite, w: World, h: nat, batches: seq<Batch>, gaps: seq<Gap>, trail: seq<World>, counts: seq<nat>, target: int)
    requires Lawful(s) && Inv(s, w) && |counts| <= |batches| == |gaps|
    requires Trail(BatchCalls(s, h, batches, gaps), w, trail, counts)
    requires forall i: nat | i <= |counts| && i < |batches| :: TargetKeptAt(s, h, batches, gaps, trail, target, i)
    ensures var n, r := |counts|, trail[|counts|];
            var moved, off := Moved(s, batches, gaps, trail, target, n), ToConvert(w, target, batches[..n]);
            && Inv(s, r) && SameDeks(s, w, r)
            && (n < |batches| ==> BatchCalls(s, h, batches, gaps)(r, n).Some?)
            && Sum(counts) == |moved|
            && (forall id | id in moved :: id in off || id >= w.nextDek)
            && off - OthersMoved(w, gaps, n) <= moved
            && forall id | id in w.deks && Covered(batches[..n], id) :: id in r.deks && r.deks[id].kek == target
  {
    var n, r := |counts|, trail[|counts|];
    TrailSettles(s, w, h, batches, gaps, trail, counts, target, n);
    assert counts[..n] == counts;
    if n < |batches| {
      assert TargetKeptAt(s, h, batches, gaps, trail, target, n);
      CallSucceeds(s, w, h, batches, gaps, trail, counts, target, n);
    }
  }

  /** The batches of a task reach every row off its target. */
  lemma TaskCovers(s: Suite, w: World, h: nat, task: Task, size: int, shuffled: seq<Batch>)
    requires h < |w.hosts| && FindTask(s, w, h) == Some(task)
    requires size > 0 && multiset(shuffled) == multiset(Batches(task.minId, task.maxId, size))
    ensures forall id | id in w.deks && w.deks[id].kek != task.target :: Covered(shuffled, id)
  {
    forall id | id in w.deks && w.deks[id].kek != task.target
      ensures Covered(shuffled, id)
    {
      assert id in RowsOff(w, task.target);
      ShuffleCovers(task.minId, task.maxId, size, shuffled, id);
    }
  }

  lemma AllSettled(w: World, r: World, batches: seq<Batch>, moved: set<int>, others: set<int>, target: int)
    requires Settled(w, r, batches, moved, others, target)
    requires forall id | id in w.deks && w.deks[id].kek != target :: Covered(batches, id)
    ensures forall id | id in w.deks :: id in r.deks && r.deks[id].kek == target
    ensures RowsOff(w, target) - others <= moved
  {
    forall id | id in RowsOff(w, target) - others
      ensures id in moved
    {
      assert r.deks[id].kek == target;
    }
  }

  /**
   When the driver has gone through all batches of its task, in any order and with such calls of
   others in between, every row there was at the start is on the target.
   */
  lemma FinishedDriveMovesAll(s: Suite, w: World, h: nat, task: Task, size: int, shuffled: seq<Batch>, gaps: seq<Gap>,
                              trail: seq<World>, counts: seq<nat>)
    requires Lawful(s) && Inv(s, w) && h < |w.hosts| && FindTask(s, w, h) == Some(task)
    requires size > 0 && multiset(shuffled) == multiset(Batches(task.minId, task.maxId, size)) && |counts| == |shuffled| == |gaps|
    requires Trail(BatchCalls(s, h, shuffled, gaps), w, trail, counts)
    requires forall i: nat | i < |shuffled| :: TargetKeptAt(s, h, shuffled, gaps, trail, task.target, i)
    ensures var r := trail[|counts|];
            && (forall id | id in w.deks :: id in r.deks && r.deks[id].kek == task.target)
            && RowsOff(w, task.target) - OthersMoved(w, gaps, |gaps|) <= Moved(s, shuffled, gaps, trail, task.target, |gaps|)
  {
    TrailSettles(s, w, h, shuffled, gaps, trail, counts, task.target, |counts|);
    assert shuffled[..|counts|] == shuffled;
    TaskCovers(s, w, h, task, size, shuffled);
    AllSettled(w, trail[|counts|], shuffled, Moved(s, shuffled, gaps, trail, task.target, |gaps|), OthersMoved(w, gaps, |gaps|), task.target);
  }
}
