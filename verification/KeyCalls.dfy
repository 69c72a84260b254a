/**
 What each call of KeyAPI needs and what it changes, told by the stores: the rows of the config
 table, the key parts and the cipher, and nothing of how the calls are put together.
 */
module KeyCalls {
  import opened Basics
  import opened KeyState
  import opened Lifecycle
  import opened LifecycleSafety
  import Dedup
  import KeyProc
  import TrueDigests

  // ---------------------------------------------------------------- keys and confirmations

  /** The three parts of the version are stored where host h finds them. */
  predicate HasParts(w: World, h: nat, v: int)
    requires h < |w.hosts|
  {
    Part3(v) in w.db && v in w.part1 && v in w.hosts[h]
  }

  /** The key the parts assemble to encrypts the control phrase to the control code. */
  predicate Proven(s: Suite, w: World, h: nat, v: int, key: Key)
    requires h < |w.hosts|
  {
    && HasParts(w, h, v) && s.assemble(w.part1[v], w.hosts[h][v], w.db[Part3(v)]) == Some(key)
    && ControlPhrase in w.db && ControlCode(v) in w.db && s.seal(key, Latin(w.db[ControlPhrase])) == Some(w.db[ControlCode(v)])
  }

  lemma ValidExactly(s: Suite, w: World, h: nat, v: int, key: Key)
    requires h < |w.hosts|
    ensures UsableKey(s, w, h, v) == Some(key) <==> Proven(s, w, h, v, key)
    ensures IsKekValid(s, w, h, v) <==> exists k: Key :: Proven(s, w, h, v, k)
  {
    if IsKekValid(s, w, h, v) {
      assert Proven(s, w, h, v, UsableKey(s, w, h, v).value);
    }
  }

  /** All three flags are up. */
  predicate FlagsUp(db: Config, v: int) {
    && PartCheck(v, 1) in db && db[PartCheck(v, 1)] == "1"
    && PartCheck(v, 2) in db && db[PartCheck(v, 2)] == "1"
    && PartCheck(v, 3) in db && db[PartCheck(v, 3)] == "1"
  }

  lemma ConfirmedExactly(db: Config, v: int)
    ensures Checked(db, v) <==> FlagsUp(db, v)
  {
  }

  // ---------------------------------------------------------------- who is let in

  /** The password is one of the three parts of a version whose parts assemble. */
  predicate Presents(s: Suite, w: World, h: nat, v: int, password: string)
    requires h < |w.hosts|
  {
    && v >= 0 && |password| == 64 && HasParts(w, h, v)
    && s.assemble(w.part1[v], w.hosts[h][v], w.db[Part3(v)]).Some?
    && (password == w.part1[v] || password == w.hosts[h][v] || password == w.db[Part3(v)])
  }

  /** It is a part of the version that the row of the config table names. */
  predicate PresentsBy(s: Suite, w: World, h: nat, row: ConfigKey, password: string)
    requires h < |w.hosts|
  {
    row in w.db && ParseInt(w.db[row]).Some? && Presents(s, w, h, ParseInt(w.db[row]).value, password)
  }

  lemma LetInExactly(s: Suite, w: World, h: nat, mode: Mode, password: string)
    requires h < |w.hosts| && (mode == Current || mode == Target)
    ensures var row := if mode == Current then KekVersion else KekTargetVersion;
            && (Authorize(s, w, h, mode, password).Some? <==> PresentsBy(s, w, h, row, password))
            && (Authorize(s, w, h, mode, password).Some? ==>
                  var (v, i) := Authorize(s, w, h, mode, password).value;
                  && v == ParseInt(w.db[row]).value
                  && i == if password == w.part1[v] then 1 else if password == w.hosts[h][v] then 2 else 3)
  {
  }

  /** The calls that need a part of the active version. */
  predicate NeedsActivePart(step: Step) {
    step.DoGenerateKek? || step.DoAbortGenerateKek? || step.DoResetTarget? || step.DoGenerateHmac? || step.DoSwitchHmac?
    || step.DoCleanup? || step.DoAbortCleanup?
  }

  /**
   A caller who presents no part of the active version is turned away: no such call changes
   anything, and neither generate_kek nor cleanup makes a request, also when stopped later.
   */
  lemma StrangersAreTurnedAway(s: Suite, w: World, step: Step)
    requires step.h < |w.hosts| && NeedsActivePart(step) && !PresentsBy(s, w, step.h, KekVersion, step.password)
    ensures Next(s, w, step) == w
    ensures step.DoGenerateKek? ==> GenerateKek(s, w, step.h, step.password, step.p1, step.p2, step.p3) == None
    ensures step.DoResetTarget? ==> ResetTargetVersion(s, w, step.h, step.password, step.version) == None
    ensures step.DoGenerateHmac? ==> GenerateHmac(s, w, step.h, step.password, step.value, step.finish) == None
    ensures step.DoSwitchHmac? ==> SwitchHmac(s, w, step.h, step.password) == None
    ensures step.DoCleanup? ==> Cleanup(s, w, step.h, step.password) == None
    ensures step.DoGenerateKek? || step.DoAbortGenerateKek? ==> PlanKek(s, w, step.h, step.password, step.p1, step.p2, step.p3) == None
    ensures step.DoCleanup? || step.DoAbortCleanup? ==> PlanCleanup(s, w, step.h, step.password) == None
  {
    LetInExactly(s, w, step.h, Current, step.password);
  }

  /** confirm_component and switch_kek turn away who presents no part of the target. */
  lemma StrangersToTheTarget(s: Suite, w: World, step: Step)
    requires step.h < |w.hosts| && (step.DoConfirm? || step.DoSwitchKek?) && !PresentsBy(s, w, step.h, KekTargetVersion, step.password)
    ensures Next(s, w, step) == w
    ensures step.DoConfirm? ==> ConfirmComponent(s, w, step.h, step.password, step.wanted) == None
    ensures step.DoSwitchKek? ==> SwitchKek(s, w, step.h, step.password) == None
  {
    LetInExactly(s, w, step.h, Target, step.password);
  }

  // ---------------------------------------------------------------- calls that write one row

  /** Of the two config tables only the given rows may differ. */
  ghost predicate OnlyRows(db: Config, db': Config, rows: set<ConfigKey>) {
    forall key | key !in rows :: (key in db <==> key in db') && (key in db && key in db' ==> db'[key] == db[key])
  }

  /** The whole state but one row of the config table. */
  ghost predicate OneRowWritten(w: World, w': World, row: ConfigKey, number: int) {
    && w' == w.(db := w'.db) && OnlyRows(w.db, w'.db, {row}) && Number(w'.db, row) == Some(number)
  }

  /** reset_target_version goes through exactly for a caller with a part of the active version and a valid, confirmed version. */
  lemma ResetTargetExactly(s: Suite, w: World, h: nat, password: string, wanted: int)
    requires h < |w.hosts|
    ensures ResetTargetVersion(s, w, h, password, wanted).Some?
       <==> PresentsBy(s, w, h, KekVersion, password) && (exists key: Key :: Proven(s, w, h, wanted, key)) && FlagsUp(w.db, wanted)
    ensures ResetTargetVersion(s, w, h, password, wanted).Some? ==>
              OneRowWritten(w, ResetTargetVersion(s, w, h, password, wanted).value, KekTargetVersion, wanted)
  {
    LetInExactly(s, w, h, Current, password);
    ConfirmedExactly(w.db, wanted);
    if IsKekValid(s, w, h, wanted) {
      assert Proven(s, w, h, wanted, UsableKey(s, w, h, wanted).value);
    }
  }

  /** switch_kek, for a caller with a part of the target: it must be another version than the active one, valid and confirmed. */
  lemma SwitchKekExactly(s: Suite, w: World, h: nat, password: string)
    requires h < |w.hosts|
    ensures SwitchKek(s, w, h, password).Some?
       <==> && PresentsBy(s, w, h, KekTargetVersion, password)
            && var t := ParseInt(w.db[KekTargetVersion]).value;
               && Number(w.db, KekVersion).Some? && Number(w.db, KekVersion) != Some(t)
               && (exists key: Key :: Proven(s, w, h, t, key)) && FlagsUp(w.db, t)
    ensures SwitchKek(s, w, h, password).Some? ==>
              OneRowWritten(w, SwitchKek(s, w, h, password).value, KekVersion, ParseInt(w.db[KekTargetVersion]).value)
  {
    LetInExactly(s, w, h, Target, password);
    if PresentsBy(s, w, h, KekTargetVersion, password) {
      var t := ParseInt(w.db[KekTargetVersion]).value;
      ConfirmedExactly(w.db, t);
      if IsKekValid(s, w, h, t) {
        assert Proven(s, w, h, t, UsableKey(s, w, h, t).value);
      }
    }
  }

  /** confirm_component raises the flag of the first part of the target that the password equals, and writes nothing else. */
  lemma ConfirmExactly(s: Suite, w: World, h: nat, password: string, wanted: Option<int>)
    requires h < |w.hosts|
    ensures ConfirmComponent(s, w, h, password, wanted).Some? <==> PresentsBy(s, w, h, KekTargetVersion, password)
    ensures ConfirmComponent(s, w, h, password, wanted).Some? ==>
              var w', t := ConfirmComponent(s, w, h, password, wanted).value, ParseInt(w.db[KekTargetVersion]).value;
              var flag := PartCheck(t, if password == w.part1[t] then 1 else if password == w.hosts[h][t] then 2 else 3);
              w' == w.(db := w'.db) && OnlyRows(w.db, w'.db, {flag}) && flag in w'.db && w'.db[flag] == "1"
  {
    LetInExactly(s, w, h, Target, password);
  }

  // ---------------------------------------------------------------- generate_kek

  /** The password, the parts and the control phrase that generate_kek asks for. */
  predicate MayGenerate(s: Suite, w: World, h: nat, password: string, p1: string, p2: string, p3: string)
    requires h < |w.hosts|
  {
    && PresentsBy(s, w, h, KekVersion, password) && s.assemble(p1, p2, p3).Some?
    && ControlPhrase in w.db && s.seal(s.assemble(p1, p2, p3).value, Latin(w.db[ControlPhrase])).Some?
  }

  /** The next version after all known ones. */
  ghost predicate NextVersion(w: World, n: int) {
    Part3(n - 1) in w.db && forall v | Part3(v) in w.db :: v < n
  }

  /** The config table has got the six rows of version n, which is the target now. */
  ghost predicate VersionRows(db: Config, db': Config, n: int, p3: string, code: string) {
    && OnlyRows(db, db', {Part3(n), ControlCode(n), PartCheck(n, 1), PartCheck(n, 2), PartCheck(n, 3), KekTargetVersion})
    && Part3(n) in db' && db'[Part3(n)] == p3
    && ControlCode(n) in db' && db'[ControlCode(n)] == code
    && PartCheck(n, 1) in db' && db'[PartCheck(n, 1)] == "0"
    && PartCheck(n, 2) in db' && db'[PartCheck(n, 2)] == "0"
    && PartCheck(n, 3) in db' && db'[PartCheck(n, 3)] == "0"
    && Number(db', KekTargetVersion) == Some(n)
  }

  lemma PlanExactly(s: Suite, w: World, h: nat, password: string, p1: string, p2: string, p3: string) returns (n: int, db': Config)
    requires h < |w.hosts|
    ensures PlanKek(s, w, h, password, p1, p2, p3).Some? <==> MayGenerate(s, w, h, password, p1, p2, p3)
    ensures MayGenerate(s, w, h, password, p1, p2, p3) ==>
              && PlanKek(s, w, h, password, p1, p2, p3) == Some((n, db')) && NextVersion(w, n)
              && VersionRows(w.db, db', n, p3, s.seal(s.assemble(p1, p2, p3).value, Latin(w.db[ControlPhrase])).value)
  {
    n, db' := 0, map[];
    LetInExactly(s, w, h, Current, password);
    InVersions(w.db);
    if PlanKek(s, w, h, password, p1, p2, p3).Some? {
      n, db' := PlanKek(s, w, h, password, p1, p2, p3).value.0, PlanKek(s, w, h, password, p1, p2, p3).value.1;
    }
  }

  /**
   generate_kek goes through exactly for a caller with a part of the active version whose parts
   assemble to a key that encrypts the control phrase. It puts part 1 into the key keeper, part 2 on
   every host and the six rows of the next version into the config table; the rest stays.
   */
  lemma GenerateKekExactly(s: Suite, w: World, h: nat, password: string, p1: string, p2: string, p3: string) returns (n: int)
    requires h < |w.hosts|
    ensures GenerateKek(s, w, h, password, p1, p2, p3).Some? <==> MayGenerate(s, w, h, password, p1, p2, p3)
    ensures MayGenerate(s, w, h, password, p1, p2, p3) ==>
              var w' := GenerateKek(s, w, h, password, p1, p2, p3).value;
              && NextVersion(w, n)
              && VersionRows(w.db, w'.db, n, p3, s.seal(s.assemble(p1, p2, p3).value, Latin(w.db[ControlPhrase])).value)
              && w' == w.(db := w'.db, part1 := w.part1[n := p1], hosts := w'.hosts)
              && |w'.hosts| == |w.hosts| && forall i | 0 <= i < |w.hosts| :: w'.hosts[i] == w.hosts[i][n := p2]
  {
    var db';
    n, db' := PlanExactly(s, w, h, password, p1, p2, p3);
    if MayGenerate(s, w, h, password, p1, p2, p3) {
      var es := GenerateEffects(n, p1, p2, |w.hosts|);
      assert es[..|es|] == es;
      GeneratePrefix(w, n, p1, p2, |es|);
    }
  }

  /** Stopped after some requests it has put the parts into the first stores, the key keeper being the first, and nothing else. */
  lemma StoppedGenerateExactly(s: Suite, w: World, h: nat, password: string, p1: string, p2: string, p3: string, done: nat) returns (n: int)
    requires h < |w.hosts|
    ensures var w' := AbortedGenerateKek(s, w, h, password, p1, p2, p3, done);
            if !MayGenerate(s, w, h, password, p1, p2, p3) then w' == w
            else
              && NextVersion(w, n)
              && w' == w.(part1 := if done == 0 then w.part1 else w.part1[n := p1], hosts := w'.hosts) && |w'.hosts| == |w.hosts|
              && forall i | 0 <= i < |w.hosts| :: w'.hosts[i] == if i + 1 < done then w.hosts[i][n := p2] else w.hosts[i]
  {
    var db';
    n, db' := PlanExactly(s, w, h, password, p1, p2, p3);
    if MayGenerate(s, w, h, password, p1, p2, p3) {
      FirstRequests(w, n, p1, p2, done);
    }
  }

  lemma FirstRequests(w: World, n: int, p1: string, p2: string, done: nat)
    ensures var es := GenerateEffects(n, p1, p2, |w.hosts|);
            var w' := ApplyAll(w, if done < |es| then es[..done] else es);
            && w' == w.(part1 := if done == 0 then w.part1 else w.part1[n := p1], hosts := w'.hosts) && |w'.hosts| == |w.hosts|
            && forall i | 0 <= i < |w.hosts| :: w'.hosts[i] == if i + 1 < done then w.hosts[i][n := p2] else w.hosts[i]
  {
    var es := GenerateEffects(n, p1, p2, |w.hosts|);
    assert es[..|es|] == es;
    GeneratePrefix(w, n, p1, p2, if done < |es| then done else |es|);
  }

  // ---------------------------------------------------------------- re-encryption

  /** The version re-encryption moves to: the target, or without one the active version; its flags must be up. */
  lemma TargetExactly(db: Config, t: int)
    ensures SwitchVersion(db) == Some(t)
       <==> && KekVersion in db && ParseInt(db[KekVersion]).Some? && FlagsUp(db, t)
            && ParseInt(if KekTargetVersion in db then db[KekTargetVersion] else db[KekVersion]) == Some(t)
  {
    ConfirmedExactly(db, t);
  }

  /** A row and what becomes of it: its content encrypted anew, under the key of version t. */
  ghost predicate Rewrapped(s: Suite, w: World, h: nat, row: DekRow, t: int, row': DekRow)
    requires h < |w.hosts|
  {
    && row' == row.(wrapped := row'.wrapped, kek := t)
    && exists from: Key, to: Key :: RewrappedBy(s, w, h, row, t, row', from, to)
  }

  predicate RewrappedBy(s: Suite, w: World, h: nat, row: DekRow, t: int, row': DekRow, from: Key, to: Key)
    requires h < |w.hosts|
  {
    && Proven(s, w, h, row.kek, from) && Proven(s, w, h, t, to)
    && s.open(from, row.wrapped).Some? && s.seal(to, s.open(from, row.wrapped).value) == Some(row'.wrapped)
  }

  lemma RewrapExactly(s: Suite, w: World, h: nat, row: DekRow, t: int, row': DekRow)
    requires h < |w.hosts|
    ensures ReencryptRow(s, w, h, row, t) == Some(row') <==> Rewrapped(s, w, h, row, t, row')
  {
    if ReencryptRow(s, w, h, row, t) == Some(row') {
      var from, to := UsableKey(s, w, h, row.kek).value, UsableKey(s, w, h, t).value;
      ValidExactly(s, w, h, row.kek, from);
      ValidExactly(s, w, h, t, to);
      assert RewrappedBy(s, w, h, row, t, row', from, to);
    }
    if Rewrapped(s, w, h, row, t, row') {
      var from: Key, to: Key :| RewrappedBy(s, w, h, row, t, row', from, to);
      ValidExactly(s, w, h, row.kek, from);
      ValidExactly(s, w, h, t, to);
    }
  }

  /** The rows of the id range that are not under version t. */
  predicate Behind(w: World, t: int, lo: int, hi: int, id: int) {
    id in w.deks && lo <= id <= hi && w.deks[id].kek != t
  }

  /** The row after re-encryption. */
  ghost predicate RowConverted(s: Suite, w: World, h: nat, t: int, lo: int, hi: int, w': World, id: int)
    requires h < |w.hosts| && id in w.deks
  {
    id in w'.deks && if Behind(w, t, lo, hi, id) then Rewrapped(s, w, h, w.deks[id], t, w'.deks[id]) else w'.deks[id] == w.deks[id]
  }

  /**
   reencrypt_deks goes through exactly when there is a confirmed version to move to and each row of
   the range behind it can be opened and encrypted anew. Then all of these rows, and no others, have
   moved; it reports their number and changes nothing else.
   */
  lemma ReencryptExactly(s: Suite, w: World, h: nat, lo: int, hi: int, t: int)
    requires h < |w.hosts| && SwitchVersion(w.db) == Some(t)
    ensures ReencryptDeks(s, w, h, lo, hi).Some?
       <==> forall id | Behind(w, t, lo, hi, id) :: exists row' :: Rewrapped(s, w, h, w.deks[id], t, row')
    ensures ReencryptDeks(s, w, h, lo, hi).Some? ==>
              var (w', count) := ReencryptDeks(s, w, h, lo, hi).value;
              && w' == w.(deks := w'.deks) && w'.deks.Keys == w.deks.Keys
              && (forall id | id in w.deks :: RowConverted(s, w, h, t, lo, hi, w', id))
              && count == |set id | id in w.deks && Behind(w, t, lo, hi, id)|
  {
    var batch := OffTarget(w, t, lo, hi);
    assert batch == set id | id in w.deks && Behind(w, t, lo, hi, id);
    forall id, row' | id in batch
      ensures ReencryptRow(s, w, h, w.deks[id], t) == Some(row') <==> Rewrapped(s, w, h, w.deks[id], t, row')
    {
      RewrapExactly(s, w, h, w.deks[id], t, row');
    }
    forall id | id in batch
      ensures ReencryptRow(s, w, h, w.deks[id], t).Some? <==> exists row' :: Rewrapped(s, w, h, w.deks[id], t, row')
    {
      if ReencryptRow(s, w, h, w.deks[id], t).Some? {
        assert Rewrapped(s, w, h, w.deks[id], t, ReencryptRow(s, w, h, w.deks[id], t).value);
      }
    }
  }

  /** Without a confirmed version to move to it does nothing. */
  lemma NoTargetNoReencryption(s: Suite, w: World, h: nat, lo: int, hi: int)
    requires h < |w.hosts| && forall t :: SwitchVersion(w.db) != Some(t)
    ensures ReencryptDeks(s, w, h, lo, hi) == None
  {
  }

  /**
   After reset_target_version a following reencrypt_deks over all ids, on any host, goes through and
   leaves every row under the wanted version.
   */
  lemma ResetThenReencrypt(s: Suite, w: World, h: nat, password: string, wanted: int, i: nat, lo: int, hi: int)
    requires Lawful(s) && Inv(s, w) && h < |w.hosts| && i < |w.hosts| && ResetTargetVersion(s, w, h, password, wanted).Some?
    requires forall id | id in w.deks :: lo <= id <= hi
    ensures var w' := ResetTargetVersion(s, w, h, password, wanted).value;
            && |w'.hosts| == |w.hosts| && ReencryptDeks(s, w', i, lo, hi).Some?
            && var (end, count) := ReencryptDeks(s, w', i, lo, hi).value;
               && end.deks.Keys == w.deks.Keys && (forall id | id in end.deks :: end.deks[id].kek == wanted)
               && count == |set id | id in w.deks && w.deks[id].kek != wanted|
  {
    ResetTargetKeeps(s, w, h, password, wanted);
    WantedIsTarget(s, w, h, password, wanted);
    AllMove(s, ResetTargetVersion(s, w, h, password, wanted).value, wanted, i, lo, hi);
  }

  lemma AllMove(s: Suite, w: World, wanted: int, i: nat, lo: int, hi: int)
    requires Lawful(s) && Inv(s, w) && i < |w.hosts| && SwitchVersion(w.db) == Some(wanted) && Number(w.db, KekTargetVersion) == Some(wanted)
    requires forall id | id in w.deks :: lo <= id <= hi
    ensures ReencryptDeks(s, w, i, lo, hi).Some?
    ensures var (end, count) := ReencryptDeks(s, w, i, lo, hi).value;
            && end.deks.Keys == w.deks.Keys && (forall id | id in end.deks :: end.deks[id].kek == wanted)
            && count == |set id | id in w.deks && w.deks[id].kek != wanted|
  {
    assert Present(w, wanted) && Ready(s, w, wanted);
    assert UsableKey(s, w, i, wanted) == UsableKey(s, w, 0, wanted);
    KeyProc.BatchSucceeds(s, w, i, lo, hi, wanted);
    KeyProc.BatchConverts(s, w, i, lo, hi, wanted);
    assert OffTarget(w, wanted, lo, hi) == set id | id in w.deks && w.deks[id].kek != wanted;
  }

  lemma WantedIsTarget(s: Suite, w: World, h: nat, password: string, wanted: int)
    requires h < |w.hosts| && ResetTargetVersion(s, w, h, password, wanted).Some?
    ensures var w' := ResetTargetVersion(s, w, h, password, wanted).value;
            SwitchVersion(w'.db) == Some(wanted) && Number(w'.db, KekTargetVersion) == Some(wanted) && w'.part1 == w.part1 && w'.deks == w.deks && |w'.hosts| == |w.hosts|
  {
    ResetTargetExactly(s, w, h, password, wanted);
    var w' := ResetTargetVersion(s, w, h, password, wanted).value;
    assert OnlyRows(w.db, w'.db, {KekTargetVersion});
    assert FlagsUp(w'.db, wanted);
    TargetExactly(w'.db, wanted);
  }

  // ---------------------------------------------------------------- data keys and digest keys

  /** A data key is usable exactly when its row opens, under the valid key of its version, to 32 bytes. */
  lemma DataKeyExactly(s: Suite, w: World, h: nat, id: int, dek: Key)
    requires h < |w.hosts|
    ensures OpenDek(s, w, h, id) == Some(dek)
       <==> id in w.deks && exists key: Key :: Proven(s, w, h, w.deks[id].kek, key) && s.open(key, w.deks[id].wrapped) == Some(dek)
  {
    if id in w.deks {
      forall key: Key
        ensures UsableKey(s, w, h, w.deks[id].kek) == Some(key) <==> Proven(s, w, h, w.deks[id].kek, key)
      {
        ValidExactly(s, w, h, w.deks[id].kek, key);
      }
      if OpenDek(s, w, h, id) == Some(dek) {
        assert Proven(s, w, h, w.deks[id].kek, UsableKey(s, w, h, w.deks[id].kek).value);
      }
    }
  }

  /** A digest key is loaded exactly when the row its version names opens under the assembled key of its version. */
  lemma DigestKeyExactly(s: Suite, w: World, h: nat, v: int, key: Bytes)
    requires h < |w.hosts|
    ensures HmacKey(s, w, h, v) == Some(key)
       <==> && HmacId(v) in w.db && ParseInt(w.db[HmacId(v)]).Some?
            && var id := ParseInt(w.db[HmacId(v)]).value;
               && id in w.deks && HasParts(w, h, w.deks[id].kek)
               && var kek := w.deks[id].kek;
                  && s.assemble(w.part1[kek], w.hosts[h][kek], w.db[Part3(kek)]).Some?
                  && s.open(s.assemble(w.part1[kek], w.hosts[h][kek], w.db[Part3(kek)]).value, w.deks[id].wrapped) == Some(key)
  {
  }

  // ---------------------------------------------------------------- digest versions

  /** The digest version is named, and no named one is larger. */
  ghost predicate LargestDigest(w: World, v: int) {
    HmacId(v) in w.db && forall x | HmacId(x) in w.db :: x <= v
  }

  lemma LargestIs(s: Suite, w: World, h: nat) returns (v: int)
    requires Inv(s, w) && h < |w.hosts|
    ensures LargestDigest(w, v) && HmacVersions(s, w, h).Some? && HmacVersions(s, w, h).value != {} && MaxOf(HmacVersions(s, w, h).value) == v
  {
    Dedup.LoadedAreNamed(s, w, h);
    v := MaxOf(HmacVersions(s, w, h).value);
  }

  /** One more data key row, under the active version and named as digest version n; nothing else has changed. */
  ghost predicate DigestNamed(w: World, w': World, n: int, row: DekRow) {
    && w' == w.(db := w'.db, deks := w.deks[w.nextDek := row], nextDek := w.nextDek + 1)
    && OnlyRows(w.db, w'.db, {HmacId(n)}) && Number(w'.db, HmacId(n)) == Some(w.nextDek)
    && Number(w.db, KekVersion) == Some(row.kek)
  }

  /** Every host reads the key of the digest version as the given one. */
  ghost predicate DigestReads(s: Suite, w: World, v: int, key: Bytes) {
    forall i | 0 <= i < |w.hosts| :: HmacKey(s, w, i, v) == Some(key)
  }

  lemma ActiveKey(s: Suite, w: World, h: nat) returns (v: int, key: Key)
    requires Inv(s, w) && h < |w.hosts|
    ensures ActiveVersion(w.db) == Some(v) && UsableKey(s, w, h, v) == Some(key)
  {
    v := ActiveVersion(w.db).value;
    assert Present(w, v) && Ready(s, w, v);
    assert UsableKey(s, w, h, v) == UsableKey(s, w, 0, v);
    key := UsableKey(s, w, h, v).value;
  }

  /**
   In a good state generate_hmac goes through for every caller with a part of the active version
   (`StrangersAreTurnedAway` has the others). It adds one row that no pool selects, with the value
   encrypted under the active version, and names it by the next digest version, whose key every host
   reads from then on.
   */
  lemma GenerateHmacExactly(s: Suite, w: World, h: nat, password: string, value: Key, finish: int) returns (n: int, row: DekRow, w': World)
    requires Lawful(s) && Inv(s, w) && h < |w.hosts| && PresentsBy(s, w, h, KekVersion, password)
    ensures GenerateHmac(s, w, h, password, value, finish) == Some(w')
    ensures LargestDigest(w, n - 1) && DigestNamed(w, w', n, row)
    ensures row.counter == 0 && row.maxCounter == 0 && row.finish == finish && DigestReads(s, w', n, value)
  {
    n, row, w' := NewDigestRow(s, w, h, password, value, finish);
    NewDigestOpens(s, w, h, password, value, finish, n, w');
  }

  lemma NewDigestRow(s: Suite, w: World, h: nat, password: string, value: Key, finish: int) returns (n: int, row: DekRow, w': World)
    requires Lawful(s) && Inv(s, w) && h < |w.hosts| && PresentsBy(s, w, h, KekVersion, password)
    ensures LargestDigest(w, n - 1) && DigestNamed(w, w', n, row)
    ensures GenerateHmac(s, w, h, password, value, finish) == Some(w') && HmacId(n) in w'.db && w'.db[HmacId(n)] == ToText(w.nextDek)
    ensures row.counter == 0 && row.maxCounter == 0 && row.finish == finish
  {
    LetInExactly(s, w, h, Current, password);
    var last := LargestIs(s, w, h);
    var v, key := ActiveKey(s, w, h);
    assert s.seal(key, value).Some?;
    n := last + 1;
    row, w' := DigestRow(s, w, h, password, value, finish, last, v, key);
  }

  lemma DigestRow(s: Suite, w: World, h: nat, password: string, value: Key, finish: int, last: int, v: int, key: Key)
    returns (row: DekRow, w': World)
    requires h < |w.hosts| && Authorize(s, w, h, Current, password).Some?
    requires HmacVersions(s, w, h).Some? && HmacVersions(s, w, h).value != {} && MaxOf(HmacVersions(s, w, h).value) == last
    requires ActiveVersion(w.db) == Some(v) && UsableKey(s, w, h, v) == Some(key) && s.seal(key, value).Some?
    ensures GenerateHmac(s, w, h, password, value, finish) == Some(w')
    ensures w' == w.(db := w.db[HmacId(last + 1) := ToText(w.nextDek)], deks := w.deks[w.nextDek := row], nextDek := w.nextDek + 1)
    ensures row.kek == v && row.counter == 0 && row.maxCounter == 0 && row.finish == finish
  {
    assert NewHmacVersion(HmacVersions(s, w, h).value) == last + 1;
    row := NewDek(s, key, v, value, 0, finish).value;
    w' := GenerateHmac(s, w, h, password, value, finish).value;
  }

  lemma NewDigestOpens(s: Suite, w: World, h: nat, password: string, value: Key, finish: int, n: int, w': World)
    requires Lawful(s) && Inv(s, w) && h < |w.hosts| && GenerateHmac(s, w, h, password, value, finish) == Some(w')
    requires HmacId(n) in w'.db && w'.db[HmacId(n)] == ToText(w.nextDek)
    ensures DigestReads(s, w', n, value)
  {
    TrueDigests.NewDigestKey(s, w, h, password, value, finish, w', n);
    forall i | 0 <= i < |w'.hosts|
      ensures HmacKey(s, w', i, n) == Some(value)
    {
      Dedup.HmacKeyIsDek(s, w', i, n);
    }
  }

  /** In a good state switch_hmac goes through exactly for such a caller when a larger version than the active one is named; it takes the largest. */
  lemma SwitchHmacExactly(s: Suite, w: World, h: nat, password: string) returns (v: int)
    requires Inv(s, w) && h < |w.hosts|
    ensures LargestDigest(w, v)
    ensures SwitchHmac(s, w, h, password).Some? <==> PresentsBy(s, w, h, KekVersion, password) && Number(w.db, HmacVersion) != Some(v)
    ensures SwitchHmac(s, w, h, password).Some? ==> OneRowWritten(w, SwitchHmac(s, w, h, password).value, HmacVersion, v)
  {
    LetInExactly(s, w, h, Current, password);
    v := LargestIs(s, w, h);
  }

  // ---------------------------------------------------------------- rehashing

  /** A card row and what becomes of it: the digest of its decrypted block under digest version t. */
  ghost predicate Relabelled(s: Suite, w: World, h: nat, row: TokenRow, t: int, row': TokenRow)
    requires h < |w.hosts|
  {
    && row' == row.(digest := row'.digest, hmac := t)
    && OpenDek(s, w, h, row.dek).Some? && HmacKey(s, w, h, t).Some?
    && var block := s.decrypt(Card, OpenDek(s, w, h, row.dek).value, row.crypted);
       block.Some? && row'.digest == s.mac(HmacKey(s, w, h, t).value, block.value)
  }

  lemma RelabelExactly(s: Suite, w: World, h: nat, row: TokenRow, t: int, row': TokenRow)
    requires h < |w.hosts|
    ensures RehashRow(s, w, h, row, t) == Some(row') <==> Relabelled(s, w, h, row, t, row')
  {
  }

  /** The card rows of the range that are not under the active digest version. */
  predicate Stale(w: World, t: int, lo: int, hi: int, id: int) {
    id in w.cards.rows && lo <= id <= hi && w.cards.rows[id].hmac != t
  }

  /** rehash_tokens relabels these rows, all of them or none, and changes nothing else. */
  lemma RehashExactly(s: Suite, w: World, h: nat, lo: int, hi: int, t: int)
    requires h < |w.hosts| && Number(w.db, HmacVersion) == Some(t)
    ensures RehashTokens(s, w, h, lo, hi).Some?
       <==> forall id | Stale(w, t, lo, hi, id) :: exists row' :: Relabelled(s, w, h, w.cards.rows[id], t, row')
    ensures RehashTokens(s, w, h, lo, hi).Some? ==>
              var w' := RehashTokens(s, w, h, lo, hi).value;
              && w' == w.(cards := w.cards.(rows := w'.cards.rows)) && w'.cards.rows.Keys == w.cards.rows.Keys
              && forall id | id in w.cards.rows ::
                   if Stale(w, t, lo, hi, id) then Relabelled(s, w, h, w.cards.rows[id], t, w'.cards.rows[id])
                   else w'.cards.rows[id] == w.cards.rows[id]
  {
    var batch := StaleTokens(w, t, lo, hi);
    forall id, row' | id in batch
      ensures RehashRow(s, w, h, w.cards.rows[id], t) == Some(row') <==> Relabelled(s, w, h, w.cards.rows[id], t, row')
    {
      RelabelExactly(s, w, h, w.cards.rows[id], t, row');
    }
    forall id | id in batch
      ensures RehashRow(s, w, h, w.cards.rows[id], t).Some? <==> exists row' :: Relabelled(s, w, h, w.cards.rows[id], t, row')
    {
      if RehashRow(s, w, h, w.cards.rows[id], t).Some? {
        assert Relabelled(s, w, h, w.cards.rows[id], t, RehashRow(s, w, h, w.cards.rows[id], t).value);
      }
    }
  }

  // ---------------------------------------------------------------- cleanup

  /** A caller with a part of the active version, which is the target too and the version of every data key row. */
  predicate MayCleanUp(s: Suite, w: World, h: nat, password: string)
    requires h < |w.hosts|
  {
    && PresentsBy(s, w, h, KekVersion, password)
    && (KekTargetVersion in w.db ==> ParseInt(w.db[KekTargetVersion]) == ParseInt(w.db[KekVersion]))
    && forall id | id in w.deks :: Some(w.deks[id].kek) == ParseInt(w.db[KekVersion])
  }

  /** The digest version is the active one or that of a card row. */
  predicate DigestInUse(w: World, x: int) {
    Number(w.db, HmacVersion) == Some(x) || exists id | id in w.cards.rows :: w.cards.rows[id].hmac == x
  }

  /** The rows a cleanup deletes: those of other KEK versions with a part 3, and the names of digest versions not in use. */
  predicate SweptRow(w: World, v: int, key: ConfigKey) {
    match key
    case Part3(x) => x != v
    case ControlCode(x) => x != v && Part3(x) in w.db
    case PartCheck(x, i) => x != v && Part3(x) in w.db && 1 <= i <= 3
    case HmacId(x) => !DigestInUse(w, x)
    case _ => false
  }

  /** Only version v is left in the stores, and of the config table what cleanup does not delete; nothing else has changed. */
  ghost predicate CleanedTo(w: World, w': World, v: int) {
    && w' == w.(db := w'.db, part1 := w'.part1, hosts := w'.hosts)
    && v in w.part1 && w'.part1 == map[v := w.part1[v]]
    && |w'.hosts| == |w.hosts| && (forall i | 0 <= i < |w.hosts| :: v in w.hosts[i] && w'.hosts[i] == map[v := w.hosts[i][v]])
    && forall key :: (key in w'.db <==> key in w.db && !SweptRow(w, v, key)) && (key in w'.db ==> w'.db[key] == w.db[key])
  }

  lemma PlanCleanupExactly(s: Suite, w: World, h: nat, password: string)
    requires Inv(s, w) && h < |w.hosts|
    ensures PlanCleanup(s, w, h, password) == if MayCleanUp(s, w, h, password) then ParseInt(w.db[KekVersion]) else None
  {
    LetInExactly(s, w, h, Current, password);
    InVersions(w.db);
    if PlanCleanup(s, w, h, password).Some? {
      CleanupPlan(s, w, h, password);
    }
  }

  /** Sweeping the stores down to the version of every row leaves the digest keys that are loaded. */
  lemma SweptDigests(s: Suite, w: World, h: nat, v: int)
    requires Lawful(s) && Inv(s, w) && h < |w.hosts| && ActiveVersion(w.db) == Some(v)
    requires forall id | id in w.deks :: w.deks[id].kek == v
    requires KekTargetVersion in w.db ==> Number(w.db, KekTargetVersion) == Some(v)
    ensures var swept := SweepFirst(w, v, 1 + |w.hosts|);
            |swept.hosts| == |w.hosts| && forall x :: x in LoadedHmacs(s, swept, h) <==> HmacId(x) in w.db
  {
    assert Present(w, v);
    SweptShape(w, v, 1 + |w.hosts|);
    SweptKeeps(s, w, SweepFirst(w, v, 1 + |w.hosts|), v);
    Dedup.LoadedAreNamed(s, SweepFirst(w, v, 1 + |w.hosts|), h);
  }

  /**
   In a good state cleanup goes through exactly then. It leaves the one version in every store, and
   of the config table all rows but the swept ones; so a digest version stays named exactly when it
   is the active one or some card row has it.
   */
  lemma CleanupExactly(s: Suite, w: World, h: nat, password: string)
    requires Lawful(s) && Inv(s, w) && h < |w.hosts|
    ensures Cleanup(s, w, h, password).Some? <==> MayCleanUp(s, w, h, password)
    ensures MayCleanUp(s, w, h, password) ==>
              CleanedTo(w, Cleanup(s, w, h, password).value, ParseInt(w.db[KekVersion]).value)
  {
    PlanCleanupExactly(s, w, h, password);
    if MayCleanUp(s, w, h, password) {
      var v := ParseInt(w.db[KekVersion]).value;
      CleanupGoes(s, w, h, password, v);
      var x, unused := CleanupIs(s, w, h, password);
      SweptDigests(s, w, h, v);
      OnlyVersionLeft(s, w, v);
      RowsLeft(s, w, h, v, unused);
    }
  }

  lemma CleanupGoes(s: Suite, w: World, h: nat, password: string, v: int)
    requires h < |w.hosts| && PlanCleanup(s, w, h, password) == Some(v) && Number(w.db, HmacVersion).Some?
    ensures Cleanup(s, w, h, password).Some?
  {
    assert UnusedHmacs(s, ApplyAll(w, CleanupEffects(v, |w.hosts|)), h).Some?;
  }

  lemma OnlyVersionLeft(s: Suite, w: World, v: int)
    requires Lawful(s) && Inv(s, w) && ActiveVersion(w.db) == Some(v)
    ensures var w' := SweepFirst(w, v, 1 + |w.hosts|);
            && v in w.part1 && w'.part1 == map[v := w.part1[v]]
            && |w'.hosts| == |w.hosts| && (forall i | 0 <= i < |w.hosts| :: v in w.hosts[i] && w'.hosts[i] == map[v := w.hosts[i][v]])
  {
    assert Present(w, v) && Ready(s, w, v);
    forall i | 0 <= i < |w.hosts|
      ensures v in w.hosts[i] && w.hosts[i][v] != ""
    {
      assert UsableKey(s, w, i, v).Some?;
    }
  }

  lemma RowsLeft(s: Suite, w: World, h: nat, v: int, unused: set<int>)
    requires h < |w.hosts| && |SweepFirst(w, v, 1 + |w.hosts|).hosts| == |w.hosts|
    requires UnusedHmacs(s, SweepFirst(w, v, 1 + |w.hosts|), h) == Some(unused)
    requires forall x :: x in LoadedHmacs(s, SweepFirst(w, v, 1 + |w.hosts|), h) <==> HmacId(x) in w.db
    ensures var db' := PurgeHmacs(PurgeKeks(w.db, Versions(w.db) - {v}), unused);
            forall key :: (key in db' <==> key in w.db && !SweptRow(w, v, key)) && (key in db' ==> db'[key] == w.db[key])
  {
    InVersions(w.db);
    forall x | HmacId(x) in w.db
      ensures x in unused <==> SweptRow(w, v, HmacId(x))
    {
    }
  }

  /** Stopped after some requests, cleanup has swept the first stores down to the one version, the key keeper being the first, and nothing else. */
  lemma StoppedCleanupExactly(s: Suite, w: World, h: nat, password: string, done: nat)
    requires Inv(s, w) && h < |w.hosts|
    ensures var w' := AbortedCleanup(s, w, h, password, done);
            if !MayCleanUp(s, w, h, password) then w' == w
            else
              var v := ParseInt(w.db[KekVersion]).value;
              && w' == w.(part1 := w'.part1, hosts := w'.hosts) && |w'.hosts| == |w.hosts|
              && (forall x :: x in w'.part1 <==> x in w.part1 && (done == 0 || x == v)) && (forall x | x in w'.part1 :: w'.part1[x] == w.part1[x])
              && forall i | 0 <= i < |w.hosts| :: w'.hosts[i] == if i + 1 < done then KeepOnly(w.hosts[i], v) else w.hosts[i]
  {
    PlanCleanupExactly(s, w, h, password);
    if MayCleanUp(s, w, h, password) {
      FirstSweeps(w, ParseInt(w.db[KekVersion]).value, done);
    }
  }

  lemma FirstSweeps(w: World, v: int, done: nat)
    ensures var es := CleanupEffects(v, |w.hosts|);
            var w' := ApplyAll(w, if done < |es| then es[..done] else es);
            && w' == w.(part1 := w'.part1, hosts := w'.hosts) && |w'.hosts| == |w.hosts|
            && (forall x :: x in w'.part1 <==> x in w.part1 && (done == 0 || x == v)) && (forall x | x in w'.part1 :: w'.part1[x] == w.part1[x])
            && forall i | 0 <= i < |w.hosts| :: w'.hosts[i] == if i + 1 < done then KeepOnly(w.hosts[i], v) else w.hosts[i]
  {
    var es := CleanupEffects(v, |w.hosts|);
    assert es[..|es|] == es;
    CleanupPrefix(w, v, if done < |es| then done else |es|);
  }
}
