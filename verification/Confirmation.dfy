/**
 Which keys can ever be confirmed: over all runs, exactly those whose three parts differ pairwise;
 and which version a call of confirm_component acts on.
 */
module Confirmation {
  import opened Basics
  import opened KeyState
  import opened Lifecycle
  import opened LifecycleSafety
  import opened KekHistory
  import Rotation

  predicate Raised(db: Config, v: int, i: int) {
    PartCheck(v, i) in db && db[PartCheck(v, i)] == "1"
  }

  // ---------------------------------------------------------------- a part that cannot be presented

  /** Part j, from 0, is not a password kek_auth takes, or is taken for an earlier part. */
  predicate Shadowed(p: seq<string>, j: nat)
    requires j < |p|
  {
    |p[j]| != 64 || exists i :: 0 <= i < j && p[i] == p[j]
  }

  /** No store holds anything but p as the parts of v, as long as the database knows the version. */
  ghost predicate HoldsNoOther(w: World, v: int, p: seq<string>) {
    |p| == 3 && (Part3(v) in w.db ==>
                   && w.db[Part3(v)] == p[2]
                   && (v in w.part1 ==> w.part1[v] == p[0])
                   && forall h | 0 <= h < |w.hosts| && v in w.hosts[h] :: w.hosts[h][v] == p[1])
  }

  /** The parts of v are p, or v is gone, and the flag of part j is not up. */
  ghost predicate Stuck(w: World, v: int, p: seq<string>, j: nat) {
    HoldsNoOther(w, v, p) && !Raised(w.db, v, j + 1)
  }

  /** The parts and the flags of v stay when generate_kek makes another version. */
  lemma OtherVersionHoldsNoOther(w: World, w': World, n: int, v: int, p: seq<string>, j: nat)
    requires j < 3 && Stuck(w, v, p, j) && n != v && |w'.hosts| == |w.hosts|
    requires forall key | key == Part3(v) || key == PartCheck(v, j + 1) ::
               (key in w.db <==> key in w'.db) && (key in w.db ==> w'.db[key] == w.db[key])
    requires n in w'.part1 && w'.part1 == w.part1[n := w'.part1[n]]
    requires forall h | 0 <= h < |w.hosts| :: n in w'.hosts[h] && w'.hosts[h] == w.hosts[h][n := w'.hosts[h][n]]
    ensures Stuck(w', v, p, j)
  {
  }

  lemma GenerateKeepsStuck(s: Suite, w: World, h: nat, password: string, p1: string, p2: string, p3: string,
                           v: int, p: seq<string>, j: nat)
    requires h < |w.hosts| && j < 3 && Stuck(w, v, p, j)
    requires PlanKek(s, w, h, password, p1, p2, p3).Some? && PlanKek(s, w, h, password, p1, p2, p3).value.0 != v
    ensures Stuck(GenerateKek(s, w, h, password, p1, p2, p3).value, v, p, j)
  {
    var n := PlanKek(s, w, h, password, p1, p2, p3).value.0;
    var code := NewControlCode(s, w.db, s.assemble(p1, p2, p3).value).value;
    NewRows(w.db, n, p3, code);
    GenerateMakesReady(s, w, h, password, p1, p2, p3);
    OtherVersionHoldsNoOther(w, GenerateKek(s, w, h, password, p1, p2, p3).value, n, v, p, j);
  }

  lemma AbortKeepsStuck(s: Suite, w: World, h: nat, password: string, p1: string, p2: string, p3: string, done: nat,
                        v: int, p: seq<string>, j: nat)
    requires h < |w.hosts| && j < 3 && Stuck(w, v, p, j)
    ensures Stuck(AbortedGenerateKek(s, w, h, password, p1, p2, p3, done), v, p, j)
  {
    if PlanKek(s, w, h, password, p1, p2, p3).Some? {
      var n := PlanKek(s, w, h, password, p1, p2, p3).value.0;
      var es := GenerateEffects(n, p1, p2, |w.hosts|);
      var k := if done < |es| then done else |es|;
      assert es[..|es|] == es;
      GeneratePrefix(w, n, p1, p2, k);
      PlanIsAbove(s, w, h, password, p1, p2, p3);
    }
  }

  lemma SweptHoldsNoOther(w: World, n: int, k: nat, db: Config, v: int, p: seq<string>)
    requires HoldsNoOther(w, v, p) && (Part3(v) in db ==> Part3(v) in w.db && db[Part3(v)] == w.db[Part3(v)])
    ensures HoldsNoOther(SweepFirst(w, n, k).(db := db), v, p)
  {
  }

  lemma CleanupKeepsStuck(s: Suite, w: World, h: nat, password: string, v: int, p: seq<string>, j: nat)
    requires h < |w.hosts| && Stuck(w, v, p, j) && Cleanup(s, w, h, password).Some?
    ensures Stuck(Cleanup(s, w, h, password).value, v, p, j)
  {
    var n, unused := CleanupIs(s, w, h, password);
    SweptHoldsNoOther(w, n, 1 + |w.hosts|, Cleanup(s, w, h, password).value.db, v, p);
  }

  lemma AbortedCleanupKeepsStuck(s: Suite, w: World, h: nat, password: string, done: nat, v: int, p: seq<string>, j: nat)
    requires h < |w.hosts| && Stuck(w, v, p, j)
    ensures Stuck(AbortedCleanup(s, w, h, password, done), v, p, j)
  {
    if PlanCleanup(s, w, h, password).Some? {
      var n := PlanCleanup(s, w, h, password).value;
      var es := CleanupEffects(n, |w.hosts|);
      var k := if done < |es| then done else |es|;
      assert es[..|es|] == es;
      CleanupPrefix(w, n, k);
      SweptHoldsNoOther(w, n, k, w.db, v, p);
    }
  }

  /** The password of part j is taken for an earlier part, if it is taken at all. */
  lemma NeverPresented(s: Suite, w: World, h: nat, password: string, v: int, p: seq<string>, j: nat)
    requires h < |w.hosts| && j < 3 && HoldsNoOther(w, v, p) && Shadowed(p, j)
    ensures Authorize(s, w, h, Target, password) != Some((v, j + 1))
  {
    if MasterKey(s, w, h, v).Some? {
      assert Component(s, w, h, v, 1) == Some(p[0]);
      assert Component(s, w, h, v, 2) == Some(p[1]);
      assert Component(s, w, h, v, 3) == Some(p[2]);
    }
  }

  lemma ConfirmKeepsStuck(s: Suite, w: World, h: nat, password: string, wanted: Option<int>, v: int, p: seq<string>, j: nat)
    requires h < |w.hosts| && j < 3 && Stuck(w, v, p, j) && Shadowed(p, j)
    requires ConfirmComponent(s, w, h, password, wanted).Some?
    ensures Stuck(ConfirmComponent(s, w, h, password, wanted).value, v, p, j)
  {
    NeverPresented(s, w, h, password, v, p, j);
  }

  lemma OtherCallsKeepStuck(s: Suite, w: World, step: Step, v: int, p: seq<string>, j: nat)
    requires step.h < |w.hosts| && Stuck(w, v, p, j)
    requires !step.DoGenerateKek? && !step.DoAbortGenerateKek? && !step.DoConfirm? && !step.DoCleanup? && !step.DoAbortCleanup?
    ensures Stuck(Next(s, w, step), v, p, j)
  {
    OtherCallsWriteNoFlag(s, w, step);
    if step.DoTokenize? {
      TokenizeKeepsStores(s, w, step.h, step.t, step.text, step.dedup, step.draw, step.env);
    }
  }

  /** Only generating v anew lets its shadowed part be confirmed. */
  lemma NextKeepsStuck(s: Suite, w: World, step: Step, v: int, p: seq<string>, j: nat)
    requires |p| == 3 && j < 3 && Stuck(w, v, p, j) && Shadowed(p, j) && Generated(v) !in EventsOf(s, w, step)
    ensures Stuck(Next(s, w, step), v, p, j)
  {
    if step.h < |w.hosts| {
      match step
      case DoGenerateKek(h, pw, p1, p2, p3) =>
        if PlanKek(s, w, h, pw, p1, p2, p3).Some? { GenerateKeepsStuck(s, w, h, pw, p1, p2, p3, v, p, j); }
      case DoAbortGenerateKek(h, pw, p1, p2, p3, done) => AbortKeepsStuck(s, w, h, pw, p1, p2, p3, done, v, p, j);
      case DoConfirm(h, pw, wanted) =>
        if ConfirmComponent(s, w, h, pw, wanted).Some? { ConfirmKeepsStuck(s, w, h, pw, wanted, v, p, j); }
      case DoCleanup(h, pw) =>
        if Cleanup(s, w, h, pw).Some? { CleanupKeepsStuck(s, w, h, pw, v, p, j); }
      case DoAbortCleanup(h, pw, done) => AbortedCleanupKeepsStuck(s, w, h, pw, done, v, p, j);
      case _ => OtherCallsKeepStuck(s, w, step, v, p, j);
    }
  }

  lemma {:induction false} RunKeepsStuck(s: Suite, w: World, steps: seq<Step>, v: int, p: seq<string>, j: nat)
    requires |p| == 3 && j < 3 && Stuck(w, v, p, j) && Shadowed(p, j) && Generated(v) !in History(s, w, steps)
    ensures Stuck(Run(s, w, steps), v, p, j)
    decreases |steps|
  {
    if steps != [] {
      var before := steps[..|steps| - 1];
      assert History(s, w, steps) == History(s, w, before) + EventsOf(s, Run(s, w, before), steps[|steps| - 1]);
      RunKeepsStuck(s, w, before, v, p, j);
      NextKeepsStuck(s, Run(s, w, before), steps[|steps| - 1], v, p, j);
    }
  }

  // ---------------------------------------------------------------- the exact condition

  /** The run confirms v without generating it again. */
  ghost predicate Confirms(s: Suite, w: World, steps: seq<Step>, v: int) {
    Generated(v) !in History(s, w, steps) && Checked(Run(s, w, steps).db, v)
  }

  lemma {:induction false} ConfirmingGeneratesNothing(s: Suite, w: World, steps: seq<Step>, v: int)
    requires forall i | 0 <= i < |steps| :: steps[i].DoConfirm?
    ensures Generated(v) !in History(s, w, steps)
    decreases |steps|
  {
    if steps != [] {
      ConfirmingGeneratesNothing(s, w, steps[..|steps| - 1], v);
    }
  }

  /** Right after generate_kek the flag of every part is down. */
  lemma StuckFromTheStart(s: Suite, w: World, h: nat, password: string, p: seq<string>, j: nat)
    requires Inv(s, w) && h < |w.hosts| && |p| == 3 && j < 3 && PlanKek(s, w, h, password, p[0], p[1], p[2]).Some?
    ensures Stuck(GenerateKek(s, w, h, password, p[0], p[1], p[2]).value, PlanKek(s, w, h, password, p[0], p[1], p[2]).value.0, p, j)
  {
    GenerateMakesReady(s, w, h, password, p[0], p[1], p[2]);
    GenerateWritesItsFlags(s, w, h, password, p[0], p[1], p[2]);
    Rotation.GeneratedRows(s, w, h, password, p[0], p[1], p[2]);
  }

  lemma SomePartShadowed(p: seq<string>) returns (j: nat)
    requires |p| == 3 && !Rotation.Distinct(p)
    ensures j < 3 && Shadowed(p, j)
  {
    if |p[0]| != 64 {
      j := 0;
    } else if |p[1]| != 64 || p[0] == p[1] {
      j := 1;
    } else {
      j := 2;
    }
  }

  function ConfirmSteps(h: nat, p: seq<string>): seq<Step>
    requires |p| == 3
  {
    [DoConfirm(h, p[0], None), DoConfirm(h, p[1], None), DoConfirm(h, p[2], None)]
  }

  lemma ConfirmStepsCheck(s: Suite, w: World, h: nat, v: int, p: seq<string>)
    requires Rotation.Targeted(s, w, h, v, p) && Rotation.Distinct(p)
    ensures Checked(Run(s, w, ConfirmSteps(h, p)).db, v)
  {
    var end := Rotation.ConfirmAll(s, w, h, v, p);
    Rotation.FlaggedIsChecked(w.db, v);
    Rotation.RunThree(s, w, DoConfirm(h, p[0], None), DoConfirm(h, p[1], None), DoConfirm(h, p[2], None));
  }

  lemma DistinctCanBeConfirmed(s: Suite, w: World, h: nat, v: int, p: seq<string>)
    requires Rotation.Targeted(s, w, h, v, p) && Rotation.Distinct(p)
    ensures exists steps: seq<Step> :: Confirms(s, w, steps, v)
  {
    ConfirmStepsCheck(s, w, h, v, p);
    ConfirmingGeneratesNothing(s, w, ConfirmSteps(h, p), v);
    assert Confirms(s, w, ConfirmSteps(h, p), v);
  }

  lemma ShadowedNeverConfirmed(s: Suite, w: World, v: int, p: seq<string>, j: nat)
    requires |p| == 3 && j < 3 && Stuck(w, v, p, j) && Shadowed(p, j)
    ensures forall steps: seq<Step> :: !Confirms(s, w, steps, v)
  {
    forall steps: seq<Step>
      ensures !Confirms(s, w, steps, v)
    {
      if Generated(v) !in History(s, w, steps) {
        RunKeepsStuck(s, w, steps, v, p, j);
        assert !Raised(Run(s, w, steps).db, v, j + 1);
      }
    }
  }

  /**
   A version just generated can be confirmed by some run, one that does not generate it again,
   exactly when its three parts are passwords of the length asked for and differ pairwise.
   */
  lemma ConfirmableExactly(s: Suite, w: World, h: nat, password: string, p: seq<string>)
    requires Inv(s, w) && h < |w.hosts| && |p| == 3 && PlanKek(s, w, h, password, p[0], p[1], p[2]).Some?
    ensures GenerateKek(s, w, h, password, p[0], p[1], p[2]).Some?
    ensures var v := PlanKek(s, w, h, password, p[0], p[1], p[2]).value.0;
            var w1 := GenerateKek(s, w, h, password, p[0], p[1], p[2]).value;
            (exists steps: seq<Step> :: Confirms(s, w1, steps, v)) <==> Rotation.Distinct(p)
  {
    var v, w1 := Rotation.Generated(s, w, h, password, p);
    if Rotation.Distinct(p) {
      DistinctCanBeConfirmed(s, w1, h, v, p);
    } else {
      var j := SomePartShadowed(p);
      StuckFromTheStart(s, w, h, password, p, j);
      ShadowedNeverConfirmed(s, w1, v, p, j);
    }
  }

  // ---------------------------------------------------------------- the version a call acts on

  /**
   confirm_component ignores the version it is given: with any explicit version it does what it
   does without one. So it raises a flag of a version that has none up exactly when the call
   succeeds and that version is the target, and it raises no flag of another version.
   */
  lemma ConfirmActsOnTarget(s: Suite, w: World, h: nat, password: string, v: int)
    requires h < |w.hosts|
    ensures ConfirmComponent(s, w, h, password, Some(v)) == ConfirmComponent(s, w, h, password, None)
    ensures var after := Next(s, w, DoConfirm(h, password, Some(v)));
            && ((forall i | 1 <= i <= 3 :: !Raised(w.db, v, i)) ==>
                  ((exists i :: 1 <= i <= 3 && Raised(after.db, v, i)) <==>
                   ConfirmComponent(s, w, h, password, Some(v)).Some? && Number(w.db, KekTargetVersion) == Some(v)))
            && (forall x, i | Some(x) != Number(w.db, KekTargetVersion) :: Raised(after.db, x, i) <==> Raised(w.db, x, i))
  {
    var after := Next(s, w, DoConfirm(h, password, Some(v)));
    if ConfirmComponent(s, w, h, password, Some(v)).Some? {
      var (x, i) := Authorize(s, w, h, Target, password).value;
      assert Raised(after.db, x, i);
      if x != v {
        assert forall k | 1 <= k <= 3 :: Raised(after.db, v, k) <==> Raised(w.db, v, k);
      }
    }
  }

  /** A caller that names another version than the target confirms a part of the target. */
  lemma AskedForAnother(s: Suite, w: World, h: nat, v: int, p: seq<string>, asked: int)
    requires Rotation.Targeted(s, w, h, v, p) && Rotation.Distinct(p) && asked != v
    ensures var after := Next(s, w, DoConfirm(h, p[0], Some(asked)));
            Raised(after.db, v, 1) && forall i :: Raised(after.db, asked, i) <==> Raised(w.db, asked, i)
  {
    ConfirmActsOnTarget(s, w, h, p[0], asked);
    var after := Rotation.ConfirmOne(s, w, h, v, p, 0);
  }

  /** The caller has the part of the active version that the key keeper holds. */
  predicate OwnsPart1(w: World, password: string) {
    && |password| == 64 && ActiveVersion(w.db).Some? && ActiveVersion(w.db).value >= 0
    && ActiveVersion(w.db).value in w.part1 && w.part1[ActiveVersion(w.db).value] == password
  }

  /** In a good state that caller is let in on every host. */
  lemma OwnerIsLetIn(s: Suite, w: World, h: nat, password: string)
    requires Inv(s, w) && h < |w.hosts| && OwnsPart1(w, password)
    ensures Authorize(s, w, h, Current, password) == Some((ActiveVersion(w.db).value, 1))
    ensures UsableKey(s, w, h, ActiveVersion(w.db).value).Some?
  {
    var v := ActiveVersion(w.db).value;
    assert Ready(s, w, v);
    assert UsableKey(s, w, h, v).Some?;
    assert Component(s, w, h, v, 1) == Some(password);
  }

  /** generate_kek goes through for parts that assemble: its version is one above the last. */
  lemma PlanGoesThrough(s: Suite, w: World, h: nat, password: string, p: seq<string>, last: int)
    requires Inv(s, w) && h < |w.hosts| && OwnsPart1(w, password) && |p| == 3 && LastVersion(w.db) == Some(last)
    requires s.assemble(p[0], p[1], p[2]).Some? && NewControlCode(s, w.db, s.assemble(p[0], p[1], p[2]).value).Some?
    ensures PlanKek(s, w, h, password, p[0], p[1], p[2]).Some?
    ensures PlanKek(s, w, h, password, p[0], p[1], p[2]).value.0 == last + 1
  {
    OwnerIsLetIn(s, w, h, password);
  }

  /** Its version is the target then, and none of its flags is up. */
  lemma NewTarget(s: Suite, w: World, h: nat, password: string, p: seq<string>, last: int) returns (w': World)
    requires Inv(s, w) && h < |w.hosts| && OwnsPart1(w, password) && |p| == 3 && LastVersion(w.db) == Some(last)
    requires s.assemble(p[0], p[1], p[2]).Some? && NewControlCode(s, w.db, s.assemble(p[0], p[1], p[2]).value).Some?
    ensures Next(s, w, DoGenerateKek(h, password, p[0], p[1], p[2])) == w'
    ensures Inv(s, w') && Rotation.Targeted(s, w', h, last + 1, p)
    ensures forall x, i | x == last + 1 && 1 <= i <= 3 :: !Raised(w'.db, x, i)
  {
    PlanGoesThrough(s, w, h, password, p, last);
    GenerateWritesItsFlags(s, w, h, password, p[0], p[1], p[2]);
    var v;
    v, w' := Rotation.Generated(s, w, h, password, p);
  }

  /** With two equal parts no run confirms it. */
  lemma EqualPartsUnconfirmed(s: Suite, w: World, h: nat, password: string, p1: string, p2: string, p3: string, v: int, steps: seq<Step>)
    returns (w': World)
    requires Inv(s, w) && h < |w.hosts| && (p1 == p2 || p1 == p3 || p2 == p3)
    requires PlanKek(s, w, h, password, p1, p2, p3).Some? && PlanKek(s, w, h, password, p1, p2, p3).value.0 == v
    ensures w' == Next(s, w, DoGenerateKek(h, password, p1, p2, p3))
    ensures Number(w'.db, KekTargetVersion) == Some(v) && !Confirms(s, w', steps, v)
  {
    ConfirmableExactly(s, w, h, password, [p1, p2, p3]);
    var n;
    n, w' := Rotation.Generated(s, w, h, password, [p1, p2, p3]);
  }
}
