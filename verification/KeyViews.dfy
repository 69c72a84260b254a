/**
 How little a call sees of part 1: two states that differ only in parts of versions the database
 does not know are the same to every call.
 */
module KeyViews {
  import opened Basics
  import opened KeyState
  import opened Lifecycle
  import opened LifecycleSafety

  /** Equal in all but part 1. */
  predicate SameRest(w1: World, w2: World) {
    && w1.db == w2.db && w1.hosts == w2.hosts && w1.deks == w2.deks && w1.nextDek == w2.nextDek
    && w1.cards == w2.cards && w1.vault == w2.vault
  }

  /** And the parts of the version are equal or missing in both. */
  predicate SamePart(w1: World, w2: World, v: int) {
    (v in w1.part1 <==> v in w2.part1) && (v in w1.part1 && v in w2.part1 ==> w1.part1[v] == w2.part1[v])
  }

  ghost predicate Twins(w1: World, w2: World) {
    SameRest(w1, w2) && forall v | Part3(v) in w1.db :: SamePart(w1, w2, v)
  }

  // ---------------------------------------------------------------- keys

  lemma SameKey(s: Suite, w1: World, w2: World, h: nat, v: int)
    requires Twins(w1, w2) && h < |w1.hosts|
    ensures MasterKey(s, w1, h, v) == MasterKey(s, w2, h, v) && UsableKey(s, w1, h, v) == UsableKey(s, w2, h, v)
    ensures forall i :: Component(s, w1, h, v, i) == Component(s, w2, h, v, i)
  {
    if Part3(v) in w1.db {
      assert SamePart(w1, w2, v);
    }
  }

  lemma SameDek(s: Suite, w1: World, w2: World, h: nat, id: int)
    requires Twins(w1, w2) && h < |w1.hosts|
    ensures OpenDek(s, w1, h, id) == OpenDek(s, w2, h, id)
  {
    if id in w1.deks {
      SameKey(s, w1, w2, h, w1.deks[id].kek);
    }
  }

  lemma SameDigests(s: Suite, w1: World, w2: World, h: nat)
    requires Twins(w1, w2) && h < |w1.hosts|
    ensures forall v :: HmacKey(s, w1, h, v) == HmacKey(s, w2, h, v)
    ensures LoadedHmacs(s, w1, h) == LoadedHmacs(s, w2, h) && HmacVersions(s, w1, h) == HmacVersions(s, w2, h)
  {
    forall v
      ensures HmacKey(s, w1, h, v) == HmacKey(s, w2, h, v)
    {
      var id := Number(w1.db, HmacId(v));
      if id.Some? && id.value in w1.deks {
        SameKey(s, w1, w2, h, w1.deks[id.value].kek);
      }
    }
    forall v
      ensures v in LoadedHmacs(s, w1, h) <==> v in LoadedHmacs(s, w2, h)
    {
      LoadedInDb(s, w1, h, v);
      LoadedInDb(s, w2, h, v);
    }
    assert LoadedHmacs(s, w1, h) == LoadedHmacs(s, w2, h);
  }

  lemma SameAuthorization(s: Suite, w1: World, w2: World, h: nat, mode: Mode, password: string)
    requires Twins(w1, w2) && h < |w1.hosts|
    ensures Authorize(s, w1, h, mode, password) == Authorize(s, w2, h, mode, password)
  {
    if AuthVersion(w1.db, mode).Some? {
      SameKey(s, w1, w2, h, AuthVersion(w1.db, mode).value);
    }
  }

  // ---------------------------------------------------------------- calls of KeyAPI

  lemma SamePlan(s: Suite, w1: World, w2: World, h: nat, password: string, p1: string, p2: string, p3: string)
    requires Twins(w1, w2) && h < |w1.hosts|
    ensures PlanKek(s, w1, h, password, p1, p2, p3) == PlanKek(s, w2, h, password, p1, p2, p3)
  {
    SameAuthorization(s, w1, w2, h, Current, password);
  }

  lemma SamePut(w1: World, w2: World, v: int, p1: string, p2: string, k: nat)
    requires SameRest(w1, w2) && k <= 1 + |w1.hosts|
    ensures SameRest(PutFirst(w1, v, p1, p2, k), PutFirst(w2, v, p1, p2, k))
  {
  }

  lemma SameGenerate(s: Suite, w1: World, w2: World, h: nat, password: string, p1: string, p2: string, p3: string)
    requires Twins(w1, w2) && h < |w1.hosts|
    ensures SameRest(Next(s, w1, DoGenerateKek(h, password, p1, p2, p3)), Next(s, w2, DoGenerateKek(h, password, p1, p2, p3)))
  {
    SamePlan(s, w1, w2, h, password, p1, p2, p3);
    if PlanKek(s, w1, h, password, p1, p2, p3).Some? {
      var v := PlanKek(s, w1, h, password, p1, p2, p3).value.0;
      var es := GenerateEffects(v, p1, p2, |w1.hosts|);
      assert es[..|es|] == es;
      GeneratePrefix(w1, v, p1, p2, |es|);
      GeneratePrefix(w2, v, p1, p2, |es|);
      SamePut(w1, w2, v, p1, p2, |es|);
    }
  }

  lemma SameAbortedGenerate(s: Suite, w1: World, w2: World, h: nat, password: string, p1: string, p2: string, p3: string, done: nat)
    requires Twins(w1, w2) && h < |w1.hosts|
    ensures SameRest(AbortedGenerateKek(s, w1, h, password, p1, p2, p3, done), AbortedGenerateKek(s, w2, h, password, p1, p2, p3, done))
  {
    SamePlan(s, w1, w2, h, password, p1, p2, p3);
    if PlanKek(s, w1, h, password, p1, p2, p3).Some? {
      var v := PlanKek(s, w1, h, password, p1, p2, p3).value.0;
      var es := GenerateEffects(v, p1, p2, |w1.hosts|);
      var k := if done < |es| then done else |es|;
      assert es[..|es|] == es;
      GeneratePrefix(w1, v, p1, p2, k);
      GeneratePrefix(w2, v, p1, p2, k);
      SamePut(w1, w2, v, p1, p2, k);
    }
  }

  lemma SameCleanupPlan(s: Suite, w1: World, w2: World, h: nat, password: string)
    requires Twins(w1, w2) && h < |w1.hosts|
    ensures PlanCleanup(s, w1, h, password) == PlanCleanup(s, w2, h, password)
  {
    SameAuthorization(s, w1, w2, h, Current, password);
    assert forall v :: KekUsed(w1, v) <==> KekUsed(w2, v);
  }

  lemma SameSweep(w1: World, w2: World, v: int, k: nat)
    requires Twins(w1, w2) && k <= 1 + |w1.hosts|
    ensures Twins(SweepFirst(w1, v, k), SweepFirst(w2, v, k))
  {
    var s1, s2 := SweepFirst(w1, v, k), SweepFirst(w2, v, k);
    forall x | Part3(x) in s1.db
      ensures SamePart(s1, s2, x)
    {
      assert SamePart(w1, w2, x);
    }
  }

  lemma SameUnused(s: Suite, w1: World, w2: World, h: nat)
    requires Twins(w1, w2) && h < |w1.hosts|
    ensures UnusedHmacs(s, w1, h) == UnusedHmacs(s, w2, h)
  {
    SameDigests(s, w1, w2, h);
    assert forall v :: HmacUsed(w1, v) <==> HmacUsed(w2, v);
    if Number(w1.db, HmacVersion).Some? {
      assert UnusedHmacs(s, w1, h).value == UnusedHmacs(s, w2, h).value;
    }
  }

  lemma SameCleanup(s: Suite, w1: World, w2: World, h: nat, password: string)
    requires Twins(w1, w2) && h < |w1.hosts|
    ensures SameRest(Next(s, w1, DoCleanup(h, password)), Next(s, w2, DoCleanup(h, password)))
    ensures Cleanup(s, w1, h, password).Some? <==> Cleanup(s, w2, h, password).Some?
  {
    SameCleanupPlan(s, w1, w2, h, password);
    if PlanCleanup(s, w1, h, password).Some? {
      var v := PlanCleanup(s, w1, h, password).value;
      var es := CleanupEffects(v, |w1.hosts|);
      assert es[..|es|] == es;
      CleanupPrefix(w1, v, |es|);
      CleanupPrefix(w2, v, |es|);
      SameSweep(w1, w2, v, |es|);
      SameUnused(s, SweepFirst(w1, v, |es|), SweepFirst(w2, v, |es|), h);
    }
  }

  lemma SameAbortedCleanup(s: Suite, w1: World, w2: World, h: nat, password: string, done: nat)
    requires Twins(w1, w2) && h < |w1.hosts|
    ensures SameRest(AbortedCleanup(s, w1, h, password, done), AbortedCleanup(s, w2, h, password, done))
  {
    SameCleanupPlan(s, w1, w2, h, password);
    if PlanCleanup(s, w1, h, password).Some? {
      var v := PlanCleanup(s, w1, h, password).value;
      var es := CleanupEffects(v, |w1.hosts|);
      var k := if done < |es| then done else |es|;
      assert es[..|es|] == es;
      CleanupPrefix(w1, v, k);
      CleanupPrefix(w2, v, k);
      SameSweep(w1, w2, v, k);
    }
  }

  /** confirm_component, reset_target_version and switch_kek. */
  lemma SameKekRows(s: Suite, w1: World, w2: World, step: Step)
    requires Twins(w1, w2) && step.h < |w1.hosts| && (step.DoConfirm? || step.DoResetTarget? || step.DoSwitchKek?)
    ensures SameRest(Next(s, w1, step), Next(s, w2, step))
  {
    match step
    case DoConfirm(h, pw, wanted) => SameAuthorization(s, w1, w2, h, if wanted.Some? then Custom(wanted.value) else Target, pw);
    case DoResetTarget(h, pw, v) =>
      SameAuthorization(s, w1, w2, h, Current, pw);
      SameKey(s, w1, w2, h, v);
    case DoSwitchKek(h, pw) =>
      SameAuthorization(s, w1, w2, h, Target, pw);
      if Authorize(s, w1, h, Target, pw).Some? {
        SameKey(s, w1, w2, h, Authorize(s, w1, h, Target, pw).value.0);
      }
  }

  lemma SameHmacRows(s: Suite, w1: World, w2: World, step: Step)
    requires Twins(w1, w2) && step.h < |w1.hosts| && (step.DoGenerateHmac? || step.DoSwitchHmac?)
    ensures SameRest(Next(s, w1, step), Next(s, w2, step))
  {
    SameAuthorization(s, w1, w2, step.h, Current, step.password);
    SameDigests(s, w1, w2, step.h);
    var auth := Authorize(s, w1, step.h, Current, step.password);
    if auth.Some? {
      SameKey(s, w1, w2, step.h, auth.value.0);
    }
  }

  lemma SameReencrypt(s: Suite, w1: World, w2: World, h: nat, lo: int, hi: int)
    requires Twins(w1, w2) && h < |w1.hosts|
    ensures SameRest(Next(s, w1, DoReencrypt(h, lo, hi)), Next(s, w2, DoReencrypt(h, lo, hi)))
  {
    if SwitchVersion(w1.db).Some? {
      var target := SwitchVersion(w1.db).value;
      SameKey(s, w1, w2, h, target);
      forall id | id in w1.deks
        ensures ReencryptRow(s, w1, h, w1.deks[id], target) == ReencryptRow(s, w2, h, w2.deks[id], target)
      {
        SameKey(s, w1, w2, h, w1.deks[id].kek);
      }
      assert OffTarget(w1, target, lo, hi) == OffTarget(w2, target, lo, hi);
    }
  }

  // ---------------------------------------------------------------- calls of Tokenizer

  lemma SameRehash(s: Suite, w1: World, w2: World, h: nat, lo: int, hi: int)
    requires Twins(w1, w2) && h < |w1.hosts|
    ensures SameRest(Next(s, w1, DoRehash(h, lo, hi)), Next(s, w2, DoRehash(h, lo, hi)))
  {
    SameDigests(s, w1, w2, h);
    if Number(w1.db, HmacVersion).Some? {
      var target := Number(w1.db, HmacVersion).value;
      forall id | id in w1.cards.rows
        ensures RehashRow(s, w1, h, w1.cards.rows[id], target) == RehashRow(s, w2, h, w2.cards.rows[id], target)
      {
        SameDek(s, w1, w2, h, w1.cards.rows[id].dek);
      }
      assert StaleTokens(w1, target, lo, hi) == StaleTokens(w2, target, lo, hi);
    }
  }

  lemma SameSearch(s: Suite, w1: World, w2: World, h: nat, t: Table, text: Text)
    requires Twins(w1, w2) && h < |w1.hosts|
    ensures Search(s, w1, h, t, text) == Search(s, w2, h, t, text)
  {
    SameDigests(s, w1, w2, h);
    if Number(w1.db, HmacVersion).Some? {
      var versions := {Number(w1.db, HmacVersion).value} + LoadedHmacs(s, w1, h);
      assert Hits(s, w1, h, t, text, versions) == Hits(s, w2, h, t, text, versions);
    }
  }

  lemma {:induction false} SameAddDeks(s: Suite, w1: World, w2: World, key: Key, v: int, values: seq<Key>, maxCounter: int, finish: int)
    requires Twins(w1, w2)
    ensures var r1, r2 := AddDeks(s, w1, key, v, values, maxCounter, finish), AddDeks(s, w2, key, v, values, maxCounter, finish);
            (r1.Some? <==> r2.Some?) && (r1.Some? && r2.Some? ==> Twins(r1.value, r2.value))
    decreases |values|
  {
    if values != [] && NewDek(s, key, v, values[0], maxCounter, finish).Some? {
      var row := NewDek(s, key, v, values[0], maxCounter, finish).value;
      TwinsAddDek(w1, w2, row);
      SameAddDeks(s, AddDek(w1, row), AddDek(w2, row), key, v, values[1..], maxCounter, finish);
    }
  }

  lemma TwinsAddDek(w1: World, w2: World, row: DekRow)
    requires Twins(w1, w2)
    ensures Twins(AddDek(w1, row), AddDek(w2, row))
  {
    forall v | Part3(v) in w1.db
      ensures SamePart(AddDek(w1, row), AddDek(w2, row), v)
    {
      assert SamePart(w1, w2, v);
    }
  }

  /** What a reservation needs, by parts. */
  lemma SameReserve(s: Suite, w1: World, w2: World, h: nat, t: Table, text: Text, d: Draw, env: Env)
    requires Twins(w1, w2) && h < |w1.hosts|
    ensures var r1, r2 := Reserve(s, w1, h, t, text, d, env), Reserve(s, w2, h, t, text, d, env);
            && (r1.Some? <==> r2.Some?)
            && (r1.Some? && r2.Some? ==> Twins(r1.value.0, r2.value.0) && r1.value.1 == r2.value.1)
  {
    SameDigests(s, w1, w2, h);
    if ActiveVersion(w1.db).Some? {
      var active := ActiveVersion(w1.db).value;
      SameKey(s, w1, w2, h, active);
      if UsableKey(s, w1, h, active).Some? {
        var kek, finish := UsableKey(s, w1, h, active).value, EndOfLife(env.now, env.period);
        SameAddDeks(s, w1, w2, kek, active, d.values, env.useCount, finish);
        var g1, g2 := AddDeks(s, w1, kek, active, d.values, env.useCount, finish), AddDeks(s, w2, kek, active, d.values, env.useCount, finish);
        if g1.Some? && g2.Some? {
          SameDek(s, g1.value, g2.value, h, d.pick);
        }
      }
    }
  }

  lemma SameStored(w1: World, w2: World, t: Table, row: TokenRow, now: int)
    requires SameRest(w1, w2) && row.dek in w1.deks
    ensures SameRest(StoreRow(w1, t, row, now), StoreRow(w2, t, row, now))
  {
  }

  lemma SameInsert(s: Suite, w1: World, w2: World, h: nat, t: Table, text: Text, d: Draw, env: Env)
    requires Twins(w1, w2) && h < |w1.hosts|
    ensures var r1, r2 := Insert(s, w1, h, t, text, d, env), Insert(s, w2, h, t, text, d, env);
            (r1.Some? <==> r2.Some?) && (r1.Some? && r2.Some? ==> SameRest(r1.value, r2.value))
  {
    SameReserve(s, w1, w2, h, t, text, d, env);
    assert w1.TableOf(t) == w2.TableOf(t);
    assert TokenTaken(w1, t, d.token) <==> TokenTaken(w2, t, d.token);
    if Reserve(s, w1, h, t, text, d, env).Some? {
      var (grown, row) := Reserve(s, w1, h, t, text, d, env).value;
      SameStored(grown, Reserve(s, w2, h, t, text, d, env).value.0, t, row, env.now);
    }
  }

  /** The same token comes back. */
  lemma SameMade(s: Suite, w1: World, w2: World, step: Step)
    requires Twins(w1, w2) && step.h < |w1.hosts| && step.DoTokenize?
    ensures var made1 := Tokenize(s, w1, step.h, step.t, step.text, step.dedup, step.draw, step.env);
            var made2 := Tokenize(s, w2, step.h, step.t, step.text, step.dedup, step.draw, step.env);
            && (made1.Some? <==> made2.Some?)
            && (made1.Some? && made2.Some? ==> SameRest(made1.value.0, made2.value.0) && made1.value.1 == made2.value.1)
  {
    SameSearch(s, w1, w2, step.h, step.t, step.text);
    SameInsert(s, w1, w2, step.h, step.t, step.text, step.draw, step.env);
  }

  lemma SameTokenize(s: Suite, w1: World, w2: World, step: Step)
    requires Twins(w1, w2) && step.h < |w1.hosts| && step.DoTokenize?
    ensures SameRest(Next(s, w1, step), Next(s, w2, step))
  {
    SameMade(s, w1, w2, step);
  }

  /** A removal looks at no key. */
  lemma SameRemove(s: Suite, w1: World, w2: World, step: Step)
    requires SameRest(w1, w2) && step.DoRemove?
    ensures SameRest(Next(s, w1, step), Next(s, w2, step))
  {
    assert w1.TableOf(step.t) == w2.TableOf(step.t);
  }

  // ---------------------------------------------------------------- every call

  lemma SameKeyCalls(s: Suite, w1: World, w2: World, step: Step)
    requires Twins(w1, w2) && step.h < |w1.hosts| && !step.DoRehash? && !step.DoTokenize? && !step.DoRemove?
    ensures SameRest(Next(s, w1, step), Next(s, w2, step))
  {
    match step
    case DoGenerateKek(h, pw, p1, p2, p3) => SameGenerate(s, w1, w2, h, pw, p1, p2, p3);
    case DoAbortGenerateKek(h, pw, p1, p2, p3, done) => SameAbortedGenerate(s, w1, w2, h, pw, p1, p2, p3, done);
    case DoReencrypt(h, lo, hi) => SameReencrypt(s, w1, w2, h, lo, hi);
    case DoCleanup(h, pw) => SameCleanup(s, w1, w2, h, pw);
    case DoAbortCleanup(h, pw, done) => SameAbortedCleanup(s, w1, w2, h, pw, done);
    case DoGenerateHmac(_, _, _, _) => SameHmacRows(s, w1, w2, step);
    case DoSwitchHmac(_, _) => SameHmacRows(s, w1, w2, step);
    case _ => SameKekRows(s, w1, w2, step);
  }

  /** A call does the same to two such states, part 1 aside. */
  lemma SameCalls(s: Suite, w1: World, w2: World, step: Step)
    requires Twins(w1, w2)
    ensures SameRest(Next(s, w1, step), Next(s, w2, step))
  {
    if step.h < |w1.hosts| {
      match step
      case DoRehash(h, lo, hi) => SameRehash(s, w1, w2, h, lo, hi);
      case DoTokenize(_, _, _, _, _, _) => SameTokenize(s, w1, w2, step);
      case DoRemove(_, _, _) => SameRemove(s, w1, w2, step);
      case _ => SameKeyCalls(s, w1, w2, step);
    }
  }
}
