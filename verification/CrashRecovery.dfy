/**
 Calls stopped between two of their requests. The database transaction is rolled back, the
 requests already made are not; a later retry wipes out every trace of them.
 */
module CrashRecovery {
  import opened Basics
  import opened KeyState
  import opened Lifecycle
  import opened LifecycleSafety

  /** Two states in which a caller is authorized alike: the parts of the active version agree. */
  lemma SameActiveSameAuth(s: Suite, w: World, w': World, h: nat, password: string)
    requires w'.db == w.db && h < |w.hosts| && ActiveVersion(w.db).Some?
    requires SameParts(w, w', ActiveVersion(w.db).value)
    ensures Authorize(s, w', h, Current, password) == Authorize(s, w, h, Current, password)
  {
    var v := ActiveVersion(w.db).value;
    assert MasterKey(s, w', h, v) == MasterKey(s, w, h, v);
  }

  /** What an abandoned generate_kek leaves behind does not change the active version's parts. */
  lemma AbortSparesActive(s: Suite, w: World, h: nat, password: string, p1: string, p2: string, p3: string, done: nat) returns (k: nat)
    requires Inv(s, w) && h < |w.hosts| && PlanKek(s, w, h, password, p1, p2, p3).Some?
    ensures var w' := AbortedGenerateKek(s, w, h, password, p1, p2, p3, done);
            var n := PlanKek(s, w, h, password, p1, p2, p3).value.0;
            && k <= 1 + |w.hosts| && w' == PutFirst(w, n, p1, p2, k)
            && SameParts(w, w', ActiveVersion(w.db).value)
  {
    var n := PlanKek(s, w, h, password, p1, p2, p3).value.0;
    var w' := AbortedGenerateKek(s, w, h, password, p1, p2, p3, done);
    var es := GenerateEffects(n, p1, p2, |w.hosts|);
    k := if done < |es| then done else |es|;
    assert es[..|es|] == es;
    GeneratePrefix(w, n, p1, p2, k);
    PlanIsAbove(s, w, h, password, p1, p2, p3);
    var active := ActiveVersion(w.db).value;
    assert Present(w, active);
    OtherVersionSpared(s, w, w', n, active);
  }

  /**
   Retrying generate_kek after it was stopped anywhere gives exactly the state that the retry
   alone would have given: the orphan parts are overwritten, on the key keeper and on every host.
   */
  lemma RetryAfterAbortedGenerate(s: Suite, w: World, h: nat, password: string, p1: string, p2: string, p3: string, done: nat,
                                  h': nat, password': string, q1: string, q2: string, q3: string)
    requires Inv(s, w) && h < |w.hosts| && h' < |w.hosts|
    ensures var stopped := AbortedGenerateKek(s, w, h, password, p1, p2, p3, done);
            && |stopped.hosts| == |w.hosts|
            && GenerateKek(s, stopped, h', password', q1, q2, q3) == GenerateKek(s, w, h', password', q1, q2, q3)
  {
    var stopped := AbortedGenerateKek(s, w, h, password, p1, p2, p3, done);
    if PlanKek(s, w, h, password, p1, p2, p3).Some? {
      var k := AbortSparesActive(s, w, h, password, p1, p2, p3, done);
      SameActiveSameAuth(s, w, stopped, h', password');
      assert PlanKek(s, stopped, h', password', q1, q2, q3) == PlanKek(s, w, h', password', q1, q2, q3);
      if PlanKek(s, w, h', password', q1, q2, q3).Some? {
        SameOutcome(w, PlanKek(s, w, h', password', q1, q2, q3).value.0, p1, p2, k, q1, q2);
      }
    }
  }

  lemma Overwrite(m: map<int, string>, n: int, a: string, b: string)
    ensures m[n := a][n := b] == m[n := b]
  {
  }

  /** Writing a version over itself leaves the later parts. */
  lemma PutTwice(w: World, n: int, p1: string, p2: string, k: nat, q1: string, q2: string, all: nat)
    requires all == 1 + |w.hosts|
    ensures PutFirst(PutFirst(w, n, p1, p2, k), n, q1, q2, all) == PutFirst(w, n, q1, q2, all)
  {
    var twice := PutFirst(PutFirst(w, n, p1, p2, k), n, q1, q2, all);
    var once := PutFirst(w, n, q1, q2, all);
    Overwrite(w.part1, n, p1, q1);
    forall i | 0 <= i < |w.hosts|
      ensures twice.hosts[i] == once.hosts[i]
    {
      Overwrite(w.hosts[i], n, p2, q2);
    }
    assert twice.hosts == once.hosts;
  }

  /** Sweeping down to a version that an interrupted sweep already kept. */
  lemma SweepTwice(w: World, v: int, k: nat, all: nat)
    requires all == 1 + |w.hosts|
    ensures SweepFirst(SweepFirst(w, v, k), v, all) == SweepFirst(w, v, all)
  {
    assert SweepFirst(SweepFirst(w, v, k), v, all).hosts == SweepFirst(w, v, all).hosts;
    assert SweepFirst(SweepFirst(w, v, k), v, all).part1 == SweepFirst(w, v, all).part1;
  }

  lemma SameOutcome(w: World, n: int, p1: string, p2: string, k: nat, q1: string, q2: string)
    ensures var es := GenerateEffects(n, q1, q2, |w.hosts|);
            ApplyAll(PutFirst(w, n, p1, p2, k), es) == ApplyAll(w, es)
  {
    AllPuts(w, n, q1, q2);
    AllPuts(PutFirst(w, n, p1, p2, k), n, q1, q2);
    PutTwice(w, n, p1, p2, k, q1, q2, 1 + |w.hosts|);
  }

  lemma SameSweep(w: World, v: int, k: nat)
    ensures var es := CleanupEffects(v, |w.hosts|);
            ApplyAll(SweepFirst(w, v, k), es) == ApplyAll(w, es)
  {
    AllSweeps(w, v);
    AllSweeps(SweepFirst(w, v, k), v);
    SweepTwice(w, v, k, 1 + |w.hosts|);
  }

  lemma AllPuts(w: World, n: int, p1: string, p2: string)
    ensures ApplyAll(w, GenerateEffects(n, p1, p2, |w.hosts|)) == PutFirst(w, n, p1, p2, 1 + |w.hosts|)
  {
    var es := GenerateEffects(n, p1, p2, |w.hosts|);
    assert es[..|es|] == es;
    GeneratePrefix(w, n, p1, p2, |es|);
  }

  lemma AllSweeps(w: World, v: int)
    ensures ApplyAll(w, CleanupEffects(v, |w.hosts|)) == SweepFirst(w, v, 1 + |w.hosts|)
  {
    var es := CleanupEffects(v, |w.hosts|);
    assert es[..|es|] == es;
    CleanupPrefix(w, v, |es|);
  }

  /** Retrying cleanup after it was stopped anywhere ends where an undisturbed cleanup ends. */
  lemma RetryAfterAbortedCleanup(s: Suite, w: World, h: nat, password: string, done: nat, h': nat, password': string)
    requires Lawful(s) && Inv(s, w) && h < |w.hosts| && h' < |w.hosts|
    ensures var stopped := AbortedCleanup(s, w, h, password, done);
            && |stopped.hosts| == |w.hosts|
            && Cleanup(s, stopped, h', password') == Cleanup(s, w, h', password')
  {
    if PlanCleanup(s, w, h, password).Some? {
      var v := PlanCleanup(s, w, h, password).value;
      var k := AbortedSweep(s, w, h, password, done);
      var stopped := SweepFirst(w, v, k);
      SameActiveSameAuth(s, w, stopped, h', password');
      SamePlan(s, w, stopped, h', password');
      if PlanCleanup(s, w, h', password').Some? {
        CleanupPlan(s, w, h', password');
        SameSweep(w, v, k);
      }
    }
  }

  lemma SamePlan(s: Suite, w: World, w': World, h: nat, password: string)
    requires h < |w.hosts| == |w'.hosts| && w'.db == w.db && w'.deks == w.deks
    requires Authorize(s, w', h, Current, password) == Authorize(s, w, h, Current, password)
    ensures PlanCleanup(s, w', h, password) == PlanCleanup(s, w, h, password)
  {
    assert forall x :: KekUsed(w', x) <==> KekUsed(w, x);
  }

  lemma AbortedSweep(s: Suite, w: World, h: nat, password: string, done: nat) returns (k: nat)
    requires Lawful(s) && Inv(s, w) && h < |w.hosts| && PlanCleanup(s, w, h, password).Some?
    ensures var v := PlanCleanup(s, w, h, password).value;
            && k <= 1 + |w.hosts| && AbortedCleanup(s, w, h, password, done) == SweepFirst(w, v, k)
            && ActiveVersion(w.db) == Some(v) && SameParts(w, SweepFirst(w, v, k), v)
  {
    var v := PlanCleanup(s, w, h, password).value;
    var es := CleanupEffects(v, |w.hosts|);
    k := if done < |es| then done else |es|;
    assert es[..|es|] == es;
    CleanupPrefix(w, v, k);
    CleanupPlan(s, w, h, password);
    assert Present(w, v);
    KeptVersionSpared(s, w, SweepFirst(w, v, k), v);
  }
}
