/**
 What the calls achieve together: a KEK rotation that cannot fail half-way once its three parts
 are different, what blocks it before it is confirmed, and digest versions that only move up.
 */
module Rotation {
  import opened Basics
  import opened KeyState
  import opened Lifecycle
  import opened LifecycleSafety
  import opened TokenSafety
  import KeyCalls
  import KeyProc

  // ---------------------------------------------------------------- the version under way

  /** Three different passwords of the length kek_auth asks for. */
  predicate Distinct(p: seq<string>) {
    && |p| == 3 && |p[0]| == 64 && |p[1]| == 64 && |p[2]| == 64
    && p[0] != p[1] && p[0] != p[2] && p[1] != p[2]
  }

  /** Version v is valid on host h, and p are its parts there. */
  predicate HasParts(s: Suite, w: World, h: nat, v: int, p: seq<string>) {
    && |p| == 3 && h < |w.hosts| && v >= 0
    && Part3(v) in w.db && w.db[Part3(v)] == p[2]
    && v in w.part1 && w.part1[v] == p[0]
    && v in w.hosts[h] && w.hosts[h][v] == p[1]
    && IsKekValid(s, w, h, v)
  }

  /** The version under way is the target, too. */
  predicate Targeted(s: Suite, w: World, h: nat, v: int, p: seq<string>) {
    HasParts(s, w, h, v, p) && Number(w.db, KekTargetVersion) == Some(v)
  }

  lemma PartIsKnown(s: Suite, w: World, h: nat, v: int, p: seq<string>, mode: Mode, i: nat)
    requires HasParts(s, w, h, v, p) && Distinct(p) && AuthVersion(w.db, mode) == Some(v) && i < 3
    ensures Authorize(s, w, h, mode, p[i]) == Some((v, i + 1))
  {
    assert Component(s, w, h, v, 1) == Some(p[0]);
    assert Component(s, w, h, v, 2) == Some(p[1]);
    assert Component(s, w, h, v, 3) == Some(p[2]);
  }

  /** A change of other config rows, or of rows that hold no part, leaves the parts. */
  lemma PartsStay(s: Suite, w: World, w': World, h: nat, v: int, p: seq<string>)
    requires HasParts(s, w, h, v, p) && w'.part1 == w.part1 && w'.hosts == w.hosts
    requires forall key | key in [ControlPhrase, Part3(v), ControlCode(v)] ::
               (key in w.db <==> key in w'.db) && (key in w.db ==> w'.db[key] == w.db[key])
    ensures HasParts(s, w', h, v, p)
  {
    assert ControlPhrase in [ControlPhrase, Part3(v), ControlCode(v)];
    assert Part3(v) in [ControlPhrase, Part3(v), ControlCode(v)];
    assert ControlCode(v) in [ControlPhrase, Part3(v), ControlCode(v)];
    assert MasterKey(s, w', h, v) == MasterKey(s, w, h, v);
  }

  // ---------------------------------------------------------------- the steps of a rotation

  /** generate_kek leaves its version as an unconfirmed target that this host can use. */
  lemma Generated(s: Suite, w: World, h: nat, password: string, p: seq<string>) returns (v: int, w': World)
    requires Inv(s, w) && h < |w.hosts| && |p| == 3
    requires PlanKek(s, w, h, password, p[0], p[1], p[2]).Some?
    ensures v == PlanKek(s, w, h, password, p[0], p[1], p[2]).value.0
    ensures GenerateKek(s, w, h, password, p[0], p[1], p[2]) == Some(w')
    ensures Inv(s, w') && Targeted(s, w', h, v, p) && !Checked(w'.db, v)
    ensures forall x | Part3(x) in w.db :: x < v
    ensures ActiveVersion(w'.db) == ActiveVersion(w.db)
    ensures w' == w.(db := w'.db, part1 := w'.part1, hosts := w'.hosts) && |w'.hosts| == |w.hosts| && SameDigests(w, w')
  {
    v := PlanKek(s, w, h, password, p[0], p[1], p[2]).value.0;
    w' := GenerateKek(s, w, h, password, p[0], p[1], p[2]).value;
    GeneratedRows(s, w, h, password, p[0], p[1], p[2]);
    GenerateKeeps(s, w, h, password, p[0], p[1], p[2]);
    GeneratedHasParts(s, w, h, password, p);
    GeneratedDigests(s, w, h, password, p[0], p[1], p[2]);
  }

  lemma GeneratedDigests(s: Suite, w: World, h: nat, password: string, p1: string, p2: string, p3: string)
    requires h < |w.hosts| && PlanKek(s, w, h, password, p1, p2, p3).Some? && GenerateKek(s, w, h, password, p1, p2, p3).Some?
    ensures SameDigests(w, GenerateKek(s, w, h, password, p1, p2, p3).value)
  {
    NewRows(w.db, PlanKek(s, w, h, password, p1, p2, p3).value.0, p3, NewControlCode(s, w.db, s.assemble(p1, p2, p3).value).value);
  }

  lemma GeneratedHasParts(s: Suite, w: World, h: nat, password: string, p: seq<string>)
    requires Inv(s, w) && h < |w.hosts| && |p| == 3
    requires PlanKek(s, w, h, password, p[0], p[1], p[2]).Some?
    ensures GenerateKek(s, w, h, password, p[0], p[1], p[2]).Some?
    ensures var v := PlanKek(s, w, h, password, p[0], p[1], p[2]).value.0;
            && HasParts(s, GenerateKek(s, w, h, password, p[0], p[1], p[2]).value, h, v, p)
            && forall x | Part3(x) in w.db :: x < v
  {
    var v := PlanKek(s, w, h, password, p[0], p[1], p[2]).value.0;
    GeneratedParts(s, w, h, password, p[0], p[1], p[2]);
    PlanIsAbove(s, w, h, password, p[0], p[1], p[2]);
    GeneratedRows(s, w, h, password, p[0], p[1], p[2]);
    NotNegative(w, v);
    ReadyHasThem(s, GenerateKek(s, w, h, password, p[0], p[1], p[2]).value, h, v, p);
  }

  /** The stores right after generate_kek. */
  lemma GeneratedParts(s: Suite, w: World, h: nat, password: string, p1: string, p2: string, p3: string)
    requires h < |w.hosts| && PlanKek(s, w, h, password, p1, p2, p3).Some?
    ensures GenerateKek(s, w, h, password, p1, p2, p3).Some?
    ensures var v := PlanKek(s, w, h, password, p1, p2, p3).value.0;
            var w' := GenerateKek(s, w, h, password, p1, p2, p3).value;
            && |w'.hosts| == |w.hosts| && Ready(s, w', v)
            && v in w'.part1 && w'.part1[v] == p1 && v in w'.hosts[h] && w'.hosts[h][v] == p2
  {
    GenerateMakesReady(s, w, h, password, p1, p2, p3);
  }

  lemma ReadyHasThem(s: Suite, w: World, h: nat, v: int, p: seq<string>)
    requires h < |w.hosts| && Ready(s, w, v) && |p| == 3
    requires Part3(v) in w.db && w.db[Part3(v)] == p[2]
    requires v in w.part1 && w.part1[v] == p[0] && v in w.hosts[h] && w.hosts[h][v] == p[1]
    ensures v >= 0 ==> HasParts(s, w, h, v, p)
  {
    ReadyIsValid(s, w, h, v);
  }

  lemma ReadyIsValid(s: Suite, w: World, h: nat, v: int)
    requires h < |w.hosts| && Ready(s, w, v)
    ensures IsKekValid(s, w, h, v)
  {
    assert UsableKey(s, w, h, v) == UsableKey(s, w, 0, v);
  }

  lemma NotNegative(w: World, v: int)
    requires ActiveVersion(w.db).Some? && ActiveVersion(w.db).value >= 0 && Part3(ActiveVersion(w.db).value) in w.db
    requires forall x | Part3(x) in w.db :: x < v
    ensures v >= 0
  {
  }

  lemma GeneratedRows(s: Suite, w: World, h: nat, password: string, p1: string, p2: string, p3: string)
    requires h < |w.hosts| && PlanKek(s, w, h, password, p1, p2, p3).Some?
    ensures GenerateKek(s, w, h, password, p1, p2, p3).Some?
    ensures var (v, db) := PlanKek(s, w, h, password, p1, p2, p3).value;
            var w' := GenerateKek(s, w, h, password, p1, p2, p3).value;
            && w' == w.(db := db, part1 := w'.part1, hosts := w'.hosts) && |w'.hosts| == |w.hosts|
            && Part3(v) in db && db[Part3(v)] == p3
            && Number(db, KekTargetVersion) == Some(v) && !Checked(db, v) && ActiveVersion(db) == ActiveVersion(w.db)
  {
    var v, code := PlanKek(s, w, h, password, p1, p2, p3).value.0, NewControlCode(s, w.db, s.assemble(p1, p2, p3).value).value;
    NewRows(w.db, v, p3, code);
  }

  /** Presenting part i of the target raises exactly its flag. */
  lemma ConfirmOne(s: Suite, w: World, h: nat, v: int, p: seq<string>, i: nat) returns (w': World)
    requires Targeted(s, w, h, v, p) && Distinct(p) && i < 3
    ensures w' == w.(db := w.db[PartCheck(v, i + 1) := "1"])
    ensures Next(s, w, DoConfirm(h, p[i], None)) == w'
    ensures Targeted(s, w', h, v, p)
  {
    PartIsKnown(s, w, h, v, p, Target, i);
    w' := w.(db := w.db[PartCheck(v, i + 1) := "1"]);
    PartsStay(s, w, w', h, v, p);
  }

  function Flagged(db: Config, v: int): Config {
    db[PartCheck(v, 1) := "1"][PartCheck(v, 2) := "1"][PartCheck(v, 3) := "1"]
  }

  lemma FlaggedIsChecked(db: Config, v: int)
    ensures Checked(Flagged(db, v), v) && ActiveVersion(Flagged(db, v)) == ActiveVersion(db)
  {
  }

  /** All three presented: the version is confirmed. */
  lemma ConfirmAll(s: Suite, w: World, h: nat, v: int, p: seq<string>) returns (w': World)
    requires Targeted(s, w, h, v, p) && Distinct(p)
    ensures w' == Next(s, Next(s, Next(s, w, DoConfirm(h, p[0], None)), DoConfirm(h, p[1], None)), DoConfirm(h, p[2], None))
    ensures Targeted(s, w', h, v, p) && w' == w.(db := Flagged(w.db, v))
  {
    var w1 := ConfirmOne(s, w, h, v, p, 0);
    var w2 := ConfirmOne(s, w1, h, v, p, 1);
    w' := ConfirmOne(s, w2, h, v, p, 2);
  }

  lemma RunMore(s: Suite, w: World, steps: seq<Step>, next: Step)
    ensures Run(s, w, steps + [next]) == Next(s, Run(s, w, steps), next)
  {
    assert (steps + [next])[..|steps|] == steps;
  }

  lemma RunThree(s: Suite, w: World, a: Step, b: Step, c: Step)
    ensures Run(s, w, [a, b, c]) == Next(s, Next(s, Next(s, w, a), b), c)
  {
    assert [] + [a] == [a] && [a] + [b] == [a, b] && [a, b] + [c] == [a, b, c];
    RunMore(s, w, [], a);
    RunMore(s, w, [a], b);
    RunMore(s, w, [a, b], c);
  }

  /** Re-encryption over a range that holds every row. */
  lemma ReencryptAll(s: Suite, w: World, h: nat, v: int, p: seq<string>, lo: int, hi: int) returns (w': World)
    requires Lawful(s) && Inv(s, w) && Targeted(s, w, h, v, p) && Checked(w.db, v)
    requires forall id | id in w.deks :: lo <= id <= hi
    ensures Next(s, w, DoReencrypt(h, lo, hi)) == w' && w' == w.(deks := w'.deks) && Inv(s, w')
    ensures w'.deks.Keys == w.deks.Keys && forall id | id in w'.deks :: w'.deks[id].kek == v
    ensures Targeted(s, w', h, v, p) && SameDeks(s, w, w')
  {
    assert SwitchVersion(w.db) == Some(v);
    KeyProc.BatchSucceeds(s, w, h, lo, hi, v);
    w' := ReencryptDeks(s, w, h, lo, hi).value.0;
    ReencryptKeeps(s, w, h, lo, hi);
    KeyProc.BatchConverts(s, w, h, lo, hi, v);
    OnlyDeksChange(s, w, h, lo, hi);
    PartsStay(s, w, w', h, v, p);
  }

  lemma OnlyDeksChange(s: Suite, w: World, h: nat, lo: int, hi: int)
    requires h < |w.hosts| && ReencryptDeks(s, w, h, lo, hi).Some?
    ensures var w' := ReencryptDeks(s, w, h, lo, hi).value.0;
            w' == w.(deks := w'.deks) && Next(s, w, DoReencrypt(h, lo, hi)) == w'
  {
  }

  lemma Switched(s: Suite, w: World, h: nat, v: int, p: seq<string>) returns (w': World)
    requires Targeted(s, w, h, v, p) && Distinct(p) && Checked(w.db, v)
    requires ActiveVersion(w.db).Some? && ActiveVersion(w.db) != Some(v)
    ensures Next(s, w, DoSwitchKek(h, p[0])) == w' && w' == w.(db := w.db[KekVersion := ToText(v)])
    ensures Targeted(s, w', h, v, p) && ActiveVersion(w'.db) == Some(v)
  {
    PartIsKnown(s, w, h, v, p, Target, 0);
    w' := w.(db := w.db[KekVersion := ToText(v)]);
    PartsStay(s, w, w', h, v, p);
  }

  /** Nothing that the digest versions in use depend on has changed. */
  ghost predicate SameDigests(w: World, w': World) {
    && w'.cards == w.cards && w'.vault == w.vault
    && forall key: ConfigKey | key.HmacId? || key == HmacVersion :: (key in w'.db <==> key in w.db) && (key in w.db ==> w'.db[key] == w.db[key])
  }

  /** Of the digest versions only those in use are left. */
  ghost predicate DigestsLeft(w: World, w': World) {
    && w'.cards == w.cards && w'.vault == w.vault && Number(w'.db, HmacVersion) == Number(w.db, HmacVersion)
    && forall x :: HmacId(x) in w'.db <==> HmacId(x) in w.db && KeyCalls.DigestInUse(w, x)
  }

  /** With every row on the active target, cleanup leaves that version alone. */
  lemma CleanedUp(s: Suite, w: World, h: nat, v: int, p: seq<string>) returns (w': World)
    requires Lawful(s) && Inv(s, w) && Targeted(s, w, h, v, p) && Distinct(p)
    requires ActiveVersion(w.db) == Some(v) && forall id | id in w.deks :: w.deks[id].kek == v
    ensures Next(s, w, DoCleanup(h, p[0])) == w' && w'.deks == w.deks && |w'.hosts| == |w.hosts|
    ensures ActiveVersion(w'.db) == Some(v) && Versions(w'.db) == {v} && w'.part1.Keys == {v}
    ensures forall i | 0 <= i < |w'.hosts| :: w'.hosts[i].Keys == {v}
    ensures DigestsLeft(w, w')
  {
    CleanupAllowed(s, w, h, v, p);
    w' := CleanupRuns(s, w, h, p[0], v);
    OnlyVersionLeft(w, w', v);
  }

  lemma CleanupRuns(s: Suite, w: World, h: nat, password: string, v: int) returns (w': World)
    requires Lawful(s) && Inv(s, w) && h < |w.hosts| && KeyCalls.MayCleanUp(s, w, h, password) && ParseInt(w.db[KekVersion]) == Some(v)
    ensures Next(s, w, DoCleanup(h, password)) == w' && KeyCalls.CleanedTo(w, w', v)
  {
    KeyCalls.CleanupExactly(s, w, h, password);
    w' := Cleanup(s, w, h, password).value;
  }

  lemma CleanupAllowed(s: Suite, w: World, h: nat, v: int, p: seq<string>)
    requires Targeted(s, w, h, v, p) && Distinct(p)
    requires ActiveVersion(w.db) == Some(v) && forall id | id in w.deks :: w.deks[id].kek == v
    ensures KeyCalls.MayCleanUp(s, w, h, p[0]) && ParseInt(w.db[KekVersion]) == Some(v)
  {
    PartIsKnown(s, w, h, v, p, Current, 0);
    KeyCalls.LetInExactly(s, w, h, Current, p[0]);
  }

  lemma OnlyVersionLeft(w: World, w': World, v: int)
    requires Part3(v) in w.db && ActiveVersion(w.db) == Some(v) && KeyCalls.CleanedTo(w, w', v)
    ensures ActiveVersion(w'.db) == Some(v) && Versions(w'.db) == {v} && w'.part1.Keys == {v}
    ensures forall i | 0 <= i < |w'.hosts| :: w'.hosts[i].Keys == {v}
    ensures DigestsLeft(w, w')
  {
    InVersions(w'.db);
    assert Part3(v) in w'.db;
  }

  // ---------------------------------------------------------------- the whole rotation

  function RotationSteps(h: nat, password: string, p: seq<string>, lo: int, hi: int): seq<Step>
    requires |p| == 3
  {
    [DoGenerateKek(h, password, p[0], p[1], p[2])]
    + [DoConfirm(h, p[0], None), DoConfirm(h, p[1], None), DoConfirm(h, p[2], None)]
    + [DoReencrypt(h, lo, hi), DoSwitchKek(h, p[0]), DoCleanup(h, p[0])]
  }

  lemma {:induction false} RunSplit(s: Suite, w: World, a: seq<Step>, b: seq<Step>)
    ensures Run(s, w, a + b) == Run(s, Run(s, w, a), b)
    decreases |b|
  {
    if b == [] {
      assert a + b == a;
    } else {
      assert (a + b)[..|a + b| - 1] == a + b[..|b| - 1];
      RunSplit(s, w, a, b[..|b| - 1]);
    }
  }

  /**
   A rotation from any good state goes through: generating a version whose three parts differ,
   presenting each part, re-encrypting all rows, switching and cleaning up ends with that version
   active, every DEK under it with its content unchanged, no other version anywhere, and of the
   digest versions exactly those in use.
   */
  lemma RotationCompletes(s: Suite, w: World, h: nat, password: string, p: seq<string>, lo: int, hi: int)
    requires Lawful(s) && Inv(s, w) && h < |w.hosts| && Distinct(p)
    requires PlanKek(s, w, h, password, p[0], p[1], p[2]).Some?
    requires forall id | id in w.deks :: lo <= id <= hi
    ensures var v := PlanKek(s, w, h, password, p[0], p[1], p[2]).value.0;
            var end := Run(s, w, RotationSteps(h, password, p, lo, hi));
            && ActiveVersion(end.db) == Some(v) && Versions(end.db) == {v} && end.part1.Keys == {v}
            && |end.hosts| == |w.hosts| && (forall i | 0 <= i < |end.hosts| :: end.hosts[i].Keys == {v})
            && end.deks.Keys == w.deks.Keys && (forall id | id in end.deks :: end.deks[id].kek == v)
            && Inv(s, end) && SameDeks(s, w, end) && DigestsLeft(w, end)
  {
    var v, w1 := Generated(s, w, h, password, p);
    var w4 := ConfirmAll(s, w1, h, v, p);
    FlaggedIsChecked(w1.db, v);
    RunThree(s, w1, DoConfirm(h, p[0], None), DoConfirm(h, p[1], None), DoConfirm(h, p[2], None));
    ConfirmedIsGood(s, w, w1, w4, h, password, p);
    var w5 := ReencryptAll(s, w4, h, v, p, lo, hi);
    var w6 := Switched(s, w5, h, v, p);
    NextKeeps(s, w5, DoSwitchKek(h, p[0]));
    var w7 := CleanedUp(s, w6, h, v, p);
    NextKeeps(s, w6, DoCleanup(h, p[0]));
    RunThree(s, w4, DoReencrypt(h, lo, hi), DoSwitchKek(h, p[0]), DoCleanup(h, p[0]));
    RunSteps(s, w, h, password, p, lo, hi, w1, w4);
    SameDeksTransitive(s, w, w4, w5);
    SameDeksTransitive(s, w, w5, w6);
    SameDeksTransitive(s, w, w6, w7);
    DigestsLeftAlong(w, w1, w6, w7, v);
  }

  lemma DigestsLeftAlong(w: World, w1: World, w6: World, w7: World, v: int)
    requires SameDigests(w, w1) && DigestsLeft(w6, w7)
    requires w6.cards == w1.cards && w6.vault == w1.vault && w6.db == Flagged(w1.db, v)[KekVersion := ToText(v)]
    ensures DigestsLeft(w, w7)
  {
    forall x
      ensures KeyCalls.DigestInUse(w6, x) <==> KeyCalls.DigestInUse(w, x)
      ensures HmacId(x) in w6.db <==> HmacId(x) in w.db
    {
      assert HmacId(x).HmacId?;
    }
  }

  lemma ConfirmedIsGood(s: Suite, w: World, w1: World, w4: World, h: nat, password: string, p: seq<string>)
    requires Lawful(s) && Inv(s, w) && h < |w.hosts| && |p| == 3
    requires GenerateKek(s, w, h, password, p[0], p[1], p[2]) == Some(w1)
    requires w4 == Run(s, w1, [DoConfirm(h, p[0], None), DoConfirm(h, p[1], None), DoConfirm(h, p[2], None)])
    ensures Inv(s, w4) && SameDeks(s, w, w4)
  {
    GenerateKeeps(s, w, h, password, p[0], p[1], p[2]);
    var a, b, c := DoConfirm(h, p[0], None), DoConfirm(h, p[1], None), DoConfirm(h, p[2], None);
    RunThree(s, w1, a, b, c);
    NextKeeps(s, w1, a);
    var w2 := Next(s, w1, a);
    NextKeeps(s, w2, b);
    var w3 := Next(s, w2, b);
    NextKeeps(s, w3, c);
    SameDeksTransitive(s, w, w1, w2);
    SameDeksTransitive(s, w, w2, w3);
    SameDeksTransitive(s, w, w3, w4);
  }

  lemma RunSteps(s: Suite, w: World, h: nat, password: string, p: seq<string>, lo: int, hi: int, w1: World, w4: World)
    requires h < |w.hosts| && |p| == 3 && GenerateKek(s, w, h, password, p[0], p[1], p[2]) == Some(w1)
    requires w4 == Run(s, w1, [DoConfirm(h, p[0], None), DoConfirm(h, p[1], None), DoConfirm(h, p[2], None)])
    ensures Run(s, w, RotationSteps(h, password, p, lo, hi))
         == Run(s, w4, [DoReencrypt(h, lo, hi), DoSwitchKek(h, p[0]), DoCleanup(h, p[0])])
  {
    var a := [DoGenerateKek(h, password, p[0], p[1], p[2])];
    var b := [DoConfirm(h, p[0], None), DoConfirm(h, p[1], None), DoConfirm(h, p[2], None)];
    var c := [DoReencrypt(h, lo, hi), DoSwitchKek(h, p[0]), DoCleanup(h, p[0])];
    assert a[..0] == [];
    assert Run(s, w, a) == w1;
    RunSplit(s, w, a, b);
    RunSplit(s, w, a + b, c);
  }

  // ---------------------------------------------------------------- what blocks it

  /** Until it is confirmed, the new target stops re-encryption and switching on every host. */
  lemma UnconfirmedTargetBlocks(s: Suite, w: World, h: nat, password: string, p: seq<string>, i: nat, lo: int, hi: int, caller: string)
    requires Inv(s, w) && h < |w.hosts| && |p| == 3 && GenerateKek(s, w, h, password, p[0], p[1], p[2]).Some?
    ensures var w' := GenerateKek(s, w, h, password, p[0], p[1], p[2]).value;
            i < |w'.hosts| ==> ReencryptDeks(s, w', i, lo, hi) == None && SwitchKek(s, w', i, caller) == None
  {
    var v, w' := Generated(s, w, h, password, p);
    if i < |w'.hosts| {
      UncheckedBlocks(s, w', i, v, lo, hi, caller);
    }
  }

  lemma UncheckedBlocks(s: Suite, w: World, i: nat, v: int, lo: int, hi: int, caller: string)
    requires i < |w.hosts| && Number(w.db, KekTargetVersion) == Some(v) && !Checked(w.db, v)
    ensures ReencryptDeks(s, w, i, lo, hi) == None && SwitchKek(s, w, i, caller) == None
  {
    assert SwitchVersion(w.db) == None;
  }

  // ---------------------------------------------------------------- digest versions

  /** generate_hmac names a version above every known one, and touches no other name. */
  lemma NewHmacIsAbove(s: Suite, w: World, h: nat, password: string, value: Key, finish: int) returns (n: int)
    requires h < |w.hosts| && GenerateHmac(s, w, h, password, value, finish).Some?
    ensures var w' := GenerateHmac(s, w, h, password, value, finish).value;
            && HmacVersions(s, w, h).Some? && (forall v | v in HmacVersions(s, w, h).value :: v < n)
            && Number(w.db, HmacVersion).Some? && Number(w.db, HmacVersion).value < n
            && w'.db == w.db[HmacId(n) := ToText(w.nextDek)] && Number(w'.db, HmacId(n)) == Some(w.nextDek)
            && w.nextDek in w'.deks && w'.deks[w.nextDek].maxCounter == 0
  {
    n := NewHmacVersion(HmacVersions(s, w, h).value);
  }

  /** switch_hmac moves to the largest known version, which is always a step up. */
  lemma SwitchHmacMovesUp(s: Suite, w: World, h: nat, password: string)
    requires h < |w.hosts| && SwitchHmac(s, w, h, password).Some?
    ensures var db' := SwitchHmac(s, w, h, password).value.db;
            && Number(w.db, HmacVersion).Some? && Number(db', HmacVersion).Some?
            && Number(w.db, HmacVersion).value < Number(db', HmacVersion).value
            && (forall v | v in LoadedHmacs(s, w, h) :: v <= Number(db', HmacVersion).value)
            && forall key | key != HmacVersion :: (key in db' <==> key in w.db) && (key in db' ==> db'[key] == w.db[key])
  {
  }

  lemma GenerateKekKeepsHmacVersion(s: Suite, w: World, h: nat, password: string, p1: string, p2: string, p3: string)
    requires h < |w.hosts| && PlanKek(s, w, h, password, p1, p2, p3).Some?
    ensures Number(GenerateKek(s, w, h, password, p1, p2, p3).value.db, HmacVersion) == Number(w.db, HmacVersion)
  {
    var (v, db) := PlanKek(s, w, h, password, p1, p2, p3).value;
    var code := NewControlCode(s, w.db, s.assemble(p1, p2, p3).value).value;
    NewRows(w.db, v, p3, code);
  }

  lemma CleanupKeepsHmacVersion(s: Suite, w: World, h: nat, password: string)
    requires h < |w.hosts| && Cleanup(s, w, h, password).Some?
    ensures Number(Cleanup(s, w, h, password).value.db, HmacVersion) == Number(w.db, HmacVersion)
  {
  }

  /** A call that is no switch leaves the active digest version. */
  lemma OthersKeepHmacVersion(s: Suite, w: World, step: Step)
    requires !step.DoSwitchHmac?
    ensures Number(Next(s, w, step).db, HmacVersion) == Number(w.db, HmacVersion)
  {
    if step.h < |w.hosts| {
      match step
      case DoGenerateKek(h, pw, p1, p2, p3) =>
        if PlanKek(s, w, h, pw, p1, p2, p3).Some? { GenerateKekKeepsHmacVersion(s, w, h, pw, p1, p2, p3); }
      case DoCleanup(h, pw) =>
        if Cleanup(s, w, h, pw).Some? { CleanupKeepsHmacVersion(s, w, h, pw); }
      case DoTokenize(h, t, text, dedup, draw, env) => TokenizeKeepsStores(s, w, h, t, text, dedup, draw, env);
      case _ =>
    }
  }

  /** Over any run the active digest version never falls. */
  lemma {:induction false} HmacVersionNeverFalls(s: Suite, w: World, steps: seq<Step>)
    requires Number(w.db, HmacVersion).Some?
    ensures Number(Run(s, w, steps).db, HmacVersion).Some?
    ensures Number(Run(s, w, steps).db, HmacVersion).value >= Number(w.db, HmacVersion).value
    decreases |steps|
  {
    if steps != [] {
      var before, step := Run(s, w, steps[..|steps| - 1]), steps[|steps| - 1];
      HmacVersionNeverFalls(s, w, steps[..|steps| - 1]);
      if step.DoSwitchHmac? {
        if step.h < |before.hosts| && SwitchHmac(s, before, step.h, step.password).Some? {
          SwitchHmacMovesUp(s, before, step.h, step.password);
        }
      } else {
        OthersKeepHmacVersion(s, before, step);
      }
    }
  }
}
