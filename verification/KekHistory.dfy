/**
 What a run did to the KEK versions: which were generated, which components were presented,
 which versions became active; and what every reachable state therefore guarantees.
 */
module KekHistory {
  import opened Basics
  import opened KeyState
  import opened Lifecycle
  import opened LifecycleSafety
  import opened TokenSafety

  datatype Event =
    | Generated(version: int)
    | Presented(version: int, part: int)
    | Switched(version: int)

  /** The caller's password is component i of the version, as host h assembles it. */
  predicate IsComponent(s: Suite, w: World, h: nat, v: int, i: int, password: string)
    requires h < |w.hosts|
  {
    1 <= i <= 3 && Component(s, w, h, v, i) == Some(password)
  }

  /** At most one event per call; a refused or stopped call has none. */
  function EventsOf(s: Suite, w: World, step: Step): (es: seq<Event>)
    ensures |es| <= 1
  {
    if step.h >= |w.hosts| then []
    else
      match step
      case DoGenerateKek(h, pw, p1, p2, p3) =>
        (match PlanKek(s, w, h, pw, p1, p2, p3) case None => [] case Some((v, _)) => [Generated(v)])
      case DoConfirm(h, pw, wanted) =>
        (match Authorize(s, w, h, Target, pw)
         case None => []
         case Some((v, i)) => if IsComponent(s, w, h, v, i, pw) then [Presented(v, i)] else [])
      case DoSwitchKek(h, pw) =>
        (match SwitchKek(s, w, h, pw)
         case None => []
         case Some(w') => if ActiveVersion(w'.db).Some? then [Switched(ActiveVersion(w'.db).value)] else [])
      case _ => []
  }

  function History(s: Suite, w: World, steps: seq<Step>): seq<Event> {
    if steps == [] then []
    else
      var before := steps[..|steps| - 1];
      History(s, w, before) + EventsOf(s, Run(s, w, before), steps[|steps| - 1])
  }

  /** Part i of v was presented and v not generated again since, or v was never generated at all. */
  predicate Confirmed(es: seq<Event>, v: int, i: int) {
    if es == [] then true
    else
      var last := es[|es| - 1];
      if last == Generated(v) then false
      else if last == Presented(v, i) then true
      else Confirmed(es[..|es| - 1], v, i)
  }

  lemma {:induction false} ConfirmedMeans(es: seq<Event>, v: int, i: int)
    ensures Confirmed(es, v, i) <==>
            || Generated(v) !in es
            || exists k :: 0 <= k < |es| && es[k] == Presented(v, i) && Generated(v) !in es[k..]
  {
    if es != [] {
      var last := es[|es| - 1];
      var before := es[..|es| - 1];
      assert es == before + [last];
      ConfirmedMeans(before, v, i);
      if last == Generated(v) {
        assert forall k | 0 <= k < |es| :: es[k..][|es| - 1 - k] == Generated(v);
      } else if last == Presented(v, i) {
        assert es[|es| - 1..] == [last];
      } else {
        assert forall k | 0 <= k < |before| :: es[k..] == before[k..] + [last];
      }
    }
  }

  /** A check flag is up only for a component that was presented since its version was generated. */
  ghost predicate FlagsEarned(db: Config, es: seq<Event>) {
    forall v, i | 1 <= i <= 3 && PartCheck(v, i) in db && db[PartCheck(v, i)] == "1" :: Confirmed(es, v, i)
  }

  /** A call other than generate_kek and confirm_component writes no flag. */
  lemma OtherCallsWriteNoFlag(s: Suite, w: World, step: Step)
    requires !step.DoGenerateKek? && !step.DoConfirm?
    ensures forall v, i | PartCheck(v, i) in Next(s, w, step).db ::
              PartCheck(v, i) in w.db && Next(s, w, step).db[PartCheck(v, i)] == w.db[PartCheck(v, i)]
  {
    if step.h < |w.hosts| && step.DoTokenize? {
      TokenizeKeepsStores(s, w, step.h, step.t, step.text, step.dedup, step.draw, step.env);
    }
  }

  /** generate_kek puts the flags of its version down and touches no others. */
  lemma GenerateWritesItsFlags(s: Suite, w: World, h: nat, password: string, p1: string, p2: string, p3: string)
    requires h < |w.hosts| && PlanKek(s, w, h, password, p1, p2, p3).Some?
    ensures var (n, db) := PlanKek(s, w, h, password, p1, p2, p3).value;
            forall v, i | 1 <= i <= 3 && PartCheck(v, i) in db ::
              if v == n then db[PartCheck(v, i)] == "0"
              else PartCheck(v, i) in w.db && db[PartCheck(v, i)] == w.db[PartCheck(v, i)]
  {
    var (n, db) := PlanKek(s, w, h, password, p1, p2, p3).value;
    var code := NewControlCode(s, w.db, s.assemble(p1, p2, p3).value).value;
    assert db == NewVersionRows(w.db, n, p3, code);
    NewRows(w.db, n, p3, code);
  }

  /** Only confirm_component raises a flag, and only for the part its caller presented. */
  lemma FlagsStayEarned(s: Suite, w: World, step: Step, es: seq<Event>)
    requires FlagsEarned(w.db, es)
    ensures FlagsEarned(Next(s, w, step).db, es + EventsOf(s, w, step))
  {
    var more := EventsOf(s, w, step);
    assert more == [] ==> es + more == es;
    assert more != [] ==> (es + more)[..|es + more| - 1] == es;
    if step.h >= |w.hosts| {
      assert Next(s, w, step) == w;
    } else if step.DoGenerateKek? {
      if PlanKek(s, w, step.h, step.password, step.p1, step.p2, step.p3).Some? {
        GenerateWritesItsFlags(s, w, step.h, step.password, step.p1, step.p2, step.p3);
      }
    } else if !step.DoConfirm? {
      OtherCallsWriteNoFlag(s, w, step);
    }
  }

  lemma {:induction false} FlagsAlwaysEarned(s: Suite, w: World, steps: seq<Step>)
    ensures FlagsEarned(Run(s, w, steps).db, History(s, w, steps))
    decreases |steps|
  {
    if steps != [] {
      var before := steps[..|steps| - 1];
      FlagsAlwaysEarned(s, w, before);
      FlagsStayEarned(s, Run(s, w, before), steps[|steps| - 1], History(s, w, before));
    }
  }

  /** The call that emits a switch saw all three flags up. */
  lemma SwitchSawFlags(s: Suite, w: World, step: Step, v: int, es: seq<Event>)
    requires EventsOf(s, w, step) == [Switched(v)] && FlagsEarned(w.db, es)
    ensures forall i | 1 <= i <= 3 :: Confirmed(es, v, i)
  {
    assert Checked(w.db, v);
    forall i | 1 <= i <= 3
      ensures Confirmed(es, v, i)
    {
      assert PartCheck(v, i) in w.db && w.db[PartCheck(v, i)] == "1";
    }
  }

  lemma {:induction false} EverySwitchConfirmed(s: Suite, w: World, steps: seq<Step>, k: nat, v: int)
    requires k < |History(s, w, steps)| && History(s, w, steps)[k] == Switched(v)
    ensures forall i | 1 <= i <= 3 :: Confirmed(History(s, w, steps)[..k], v, i)
    decreases |steps|
  {
    var before := steps[..|steps| - 1];
    var es := History(s, w, before);
    var more := EventsOf(s, Run(s, w, before), steps[|steps| - 1]);
    assert History(s, w, steps) == es + more;
    if k < |es| {
      EverySwitchConfirmed(s, w, before, k, v);
      assert (es + more)[..k] == es[..k];
    } else {
      FlagsAlwaysEarned(s, w, before);
      assert (es + more)[..k] == es;
      SwitchSawFlags(s, Run(s, w, before), steps[|steps| - 1], v, es);
    }
  }

  /**
   A version becomes active only after each of its three components was presented since it was
   last generated: for any run, also one that purges versions and reuses their numbers.
   */
  lemma SwitchNeedsAllComponents(s: Suite, w: World, steps: seq<Step>, g: nat, k: nat, v: int, i: int)
    requires var es := History(s, w, steps);
             g < k < |es| && es[g] == Generated(v) && es[k] == Switched(v)
    requires 1 <= i <= 3
    ensures exists j :: g < j < k && History(s, w, steps)[j] == Presented(v, i)
  {
    var es := History(s, w, steps);
    EverySwitchConfirmed(s, w, steps, k, v);
    ConfirmedMeans(es[..k], v, i);
    assert es[..k][g] == Generated(v);
    forall m | 0 <= m <= g
      ensures Generated(v) in es[..k][m..]
    {
      assert es[..k][m..][g - m] == Generated(v);
    }
    var j :| 0 <= j < k && es[..k][j] == Presented(v, i) && Generated(v) !in es[..k][j..];
    assert es[j] == Presented(v, i);
  }
}
