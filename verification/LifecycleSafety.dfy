/**
 Safety of the key lifecycle: an invariant that every call keeps, also a call stopped between
 two of its requests, and what it gives: every live token stays readable, on every host, as
 the text it was created from.
 */
module LifecycleSafety {
  import opened Basics
  import opened KeyState
  import opened Lifecycle

  // ---------------------------------------------------------------- the invariant

  /** A version with its parts in the database and in the key keeper. */
  predicate Present(w: World, v: int) {
    Part3(v) in w.db && v in w.part1
  }

  /** Every host assembles one and the same valid key. */
  ghost predicate Ready(s: Suite, w: World, v: int)
    requires |w.hosts| > 0
  {
    UsableKey(s, w, 0, v).Some? && forall h | 0 <= h < |w.hosts| :: UsableKey(s, w, h, v) == UsableKey(s, w, 0, v)
  }

  /** A version that data may depend on. */
  predicate Trusted(w: World, v: int) {
    Present(w, v) && Checked(w.db, v)
  }

  ghost predicate KeksInv(s: Suite, w: World)
    requires |w.hosts| > 0
  {
    && (forall v | Present(w, v) :: Ready(s, w, v))
    && ActiveVersion(w.db).Some?
    && Trusted(w, ActiveVersion(w.db).value)
    && (KekTargetVersion in w.db ==>
          && Number(w.db, KekTargetVersion).Some?
          && var t := Number(w.db, KekTargetVersion).value;
             Present(w, t) && (Checked(w.db, t) || Some(t) == LastVersion(w.db)))
  }

  ghost predicate DeksInv(s: Suite, w: World)
    requires |w.hosts| > 0
  {
    forall id | id in w.deks ::
      && id < w.nextDek
      && Trusted(w, w.deks[id].kek)
      && OpenDek(s, w, 0, id).Some?
      && 0 <= w.deks[id].counter
  }

  /** Every digest version names a key row that no pool selects. */
  predicate HmacsInv(w: World) {
    && Number(w.db, HmacVersion).Some?
    && HmacId(Number(w.db, HmacVersion).value) in w.db
    && forall key | key in w.db && key.HmacId? ::
         && Number(w.db, key).Some?
         && Number(w.db, key).value in w.deks
         && w.deks[Number(w.db, key).value].maxCounter == 0
  }

  /** Rows are readable and never share a key with a digest. */
  ghost predicate RowsInv(s: Suite, w: World, t: Table)
    requires |w.hosts| > 0
  {
    forall id | id in w.TableOf(t).rows ::
      && id < w.TableOf(t).next
      && w.TableOf(t).rows[id].dek in w.deks
      && w.deks[w.TableOf(t).rows[id].dek].maxCounter > 0
      && ReadRow(s, w, 0, t, w.TableOf(t).rows[id]).Some?
  }

  predicate DistinctTokens(rows: map<int, TokenRow>) {
    forall i, j | i in rows && j in rows && rows[i].token == rows[j].token :: i == j
  }

  ghost predicate TokensInv(s: Suite, w: World, t: Table)
    requires |w.hosts| > 0
  {
    RowsInv(s, w, t) && DistinctTokens(w.TableOf(t).rows)
  }

  ghost predicate Inv(s: Suite, w: World) {
    && |w.hosts| > 0
    && KeksInv(s, w)
    && DeksInv(s, w)
    && HmacsInv(w)
    && TokensInv(s, w, Card)
    && TokensInv(s, w, Vault)
  }

  // ---------------------------------------------------------------- what a call must not change

  /** Every data key row opens to the same key as before, on every host. */
  ghost predicate SameDeks(s: Suite, w: World, w': World) {
    && |w'.hosts| == |w.hosts|
    && forall id | id in w.deks ::
         && id in w'.deks
         && w'.deks[id].maxCounter == w.deks[id].maxCounter
         && forall h | 0 <= h < |w.hosts| :: OpenDek(s, w', h, id) == OpenDek(s, w, h, id)
  }

  /** The rows present before and after hold the same ciphertext under the same key row. */
  predicate SameCiphertexts(w: World, w': World, t: Table) {
    forall id | id in w.TableOf(t).rows && id in w'.TableOf(t).rows ::
      && w'.TableOf(t).rows[id].token == w.TableOf(t).rows[id].token
      && w'.TableOf(t).rows[id].crypted == w.TableOf(t).rows[id].crypted
      && w'.TableOf(t).rows[id].dek == w.TableOf(t).rows[id].dek
  }

  ghost predicate Stable(s: Suite, w: World, w': World) {
    SameDeks(s, w, w') && SameCiphertexts(w, w', Card) && SameCiphertexts(w, w', Vault)
  }

  // ---------------------------------------------------------------- effects, request by request

  /** The state in which exactly the first k stores, the key keeper being the first, hold the new part. */
  function PutFirst(w: World, v: int, p1: string, p2: string, k: nat): World {
    w.(part1 := if k == 0 then w.part1 else w.part1[v := p1],
       hosts := seq(|w.hosts|, i requires 0 <= i < |w.hosts| => if i + 1 < k then w.hosts[i][v := p2] else w.hosts[i]))
  }

  /** The state in which exactly the first k stores are swept down to version v. */
  function SweepFirst(w: World, v: int, k: nat): World {
    w.(part1 := if k == 0 then w.part1 else map x | x in w.part1 && x == v :: w.part1[x],
       hosts := seq(|w.hosts|, i requires 0 <= i < |w.hosts| => if i + 1 < k then KeepOnly(w.hosts[i], v) else w.hosts[i]))
  }

  lemma {:induction false} GeneratePrefix(w: World, v: int, p1: string, p2: string, k: nat)
    requires k <= 1 + |w.hosts|
    ensures ApplyAll(w, GenerateEffects(v, p1, p2, |w.hosts|)[..k]) == PutFirst(w, v, p1, p2, k)
    decreases k
  {
    var es := GenerateEffects(v, p1, p2, |w.hosts|);
    if k == 0 {
      assert w.hosts == PutFirst(w, v, p1, p2, 0).hosts;
    } else {
      GeneratePrefix(w, v, p1, p2, k - 1);
      assert es[..k][..k - 1] == es[..k - 1];
      assert Apply(PutFirst(w, v, p1, p2, k - 1), es[k - 1]).hosts == PutFirst(w, v, p1, p2, k).hosts;
    }
  }

  lemma {:induction false} CleanupPrefix(w: World, v: int, k: nat)
    requires k <= 1 + |w.hosts|
    ensures ApplyAll(w, CleanupEffects(v, |w.hosts|)[..k]) == SweepFirst(w, v, k)
    decreases k
  {
    var es := CleanupEffects(v, |w.hosts|);
    if k == 0 {
      assert w.hosts == SweepFirst(w, v, 0).hosts;
    } else {
      CleanupPrefix(w, v, k - 1);
      assert es[..k][..k - 1] == es[..k - 1];
      assert Apply(SweepFirst(w, v, k - 1), es[k - 1]).hosts == SweepFirst(w, v, k).hosts;
    }
  }

  // ---------------------------------------------------------------- frames

  /** Two states that agree on everything the key of version v depends on. */
  predicate SameParts(w: World, w': World, v: int) {
    && |w'.hosts| == |w.hosts|
    && ControlPhrase in w.db && ControlPhrase in w'.db && w'.db[ControlPhrase] == w.db[ControlPhrase]
    && Part3(v) in w.db && Part3(v) in w'.db && w'.db[Part3(v)] == w.db[Part3(v)]
    && ControlCode(v) in w.db && ControlCode(v) in w'.db && w'.db[ControlCode(v)] == w.db[ControlCode(v)]
    && v in w.part1 && v in w'.part1 && w'.part1[v] == w.part1[v]
    && forall h | 0 <= h < |w.hosts| ::
         v in w.hosts[h] && v in w'.hosts[h] && w'.hosts[h][v] == w.hosts[h][v]
  }

  lemma SamePartsSameKey(s: Suite, w: World, w': World, v: int)
    requires SameParts(w, w', v)
    ensures forall h | 0 <= h < |w.hosts| :: UsableKey(s, w', h, v) == UsableKey(s, w, h, v)
    ensures |w.hosts| > 0 && Ready(s, w, v) ==> Ready(s, w', v)
  {
    forall h | 0 <= h < |w.hosts|
      ensures UsableKey(s, w', h, v) == UsableKey(s, w, h, v)
    {
      assert MasterKey(s, w', h, v) == MasterKey(s, w, h, v);
    }
  }

  /** A change of the key stores that spares every version in use. */
  lemma SparedKeysKeepInv(s: Suite, w: World, w': World)
    requires Inv(s, w)
    requires w' == w.(db := w'.db, part1 := w'.part1, hosts := w'.hosts)
    requires |w'.hosts| == |w.hosts|
    requires forall id | id in w.deks :: SameParts(w, w', w.deks[id].kek) && Trusted(w', w.deks[id].kek)
    requires KeksInv(s, w') && HmacsInv(w')
    ensures Inv(s, w') && Stable(s, w, w')
  {
    forall id | id in w.deks
      ensures forall h | 0 <= h < |w.hosts| :: OpenDek(s, w', h, id) == OpenDek(s, w, h, id)
    {
      SamePartsSameKey(s, w, w', w.deks[id].kek);
    }
    forall t, id | id in w.TableOf(t).rows
      ensures ReadRow(s, w', 0, t, w.TableOf(t).rows[id]) == ReadRow(s, w, 0, t, w.TableOf(t).rows[id])
    {
      assert TokensInv(s, w, t);
    }
  }

  /** What Ready says about the stores. */
  lemma ReadyHasParts(s: Suite, w: World, v: int)
    requires |w.hosts| > 0 && Ready(s, w, v)
    ensures ControlPhrase in w.db && Part3(v) in w.db && ControlCode(v) in w.db && v in w.part1
    ensures forall h | 0 <= h < |w.hosts| :: v in w.hosts[h]
  {
    forall h | 0 <= h < |w.hosts|
      ensures v in w.hosts[h]
    {
      assert UsableKey(s, w, h, v).Some?;
    }
  }

  /** A change of other rows of the config table keeps the parts of a present version. */
  lemma SamePartsByDb(s: Suite, w: World, w': World, v: int)
    requires |w.hosts| > 0 && Ready(s, w, v)
    requires w'.part1 == w.part1 && w'.hosts == w.hosts
    requires forall key | key in [ControlPhrase, Part3(v), ControlCode(v)] ::
               key in w.db ==> key in w'.db && w'.db[key] == w.db[key]
    ensures SameParts(w, w', v)
  {
    ReadyHasParts(s, w, v);
    assert ControlPhrase in [ControlPhrase, Part3(v), ControlCode(v)];
    assert Part3(v) in [ControlPhrase, Part3(v), ControlCode(v)];
    assert ControlCode(v) in [ControlPhrase, Part3(v), ControlCode(v)];
  }

  lemma InVersions(db: Config)
    ensures forall v :: v in Versions(db) <==> Part3(v) in db
  {
    forall v | Part3(v) in db
      ensures v in Versions(db)
    {
      assert Part3(v).Part3? && Part3(v).version == v;
    }
  }

  lemma SameVersions(db: Config, db': Config)
    requires forall v :: Part3(v) in db <==> Part3(v) in db'
    ensures Versions(db) == Versions(db')
  {
    InVersions(db);
    InVersions(db');
  }

  /** A change of the config table that touches no key part and takes no check away. */
  lemma ConfigStepKeeps(s: Suite, w: World, w': World)
    requires Inv(s, w) && w' == w.(db := w'.db)
    requires forall key :: key == ControlPhrase || key.Part3? || key.ControlCode? ==>
               (key in w.db <==> key in w'.db) && (key in w.db ==> w'.db[key] == w.db[key])
    requires forall v | Checked(w.db, v) :: Checked(w'.db, v)
    requires ActiveVersion(w'.db).Some? && Trusted(w', ActiveVersion(w'.db).value)
    requires KekTargetVersion in w'.db ==>
               && Number(w'.db, KekTargetVersion).Some?
               && var t := Number(w'.db, KekTargetVersion).value;
                  Present(w', t) && (Checked(w'.db, t) || Some(t) == LastVersion(w'.db))
    requires HmacsInv(w')
    ensures Inv(s, w') && Stable(s, w, w')
  {
    forall v | Present(w', v)
      ensures Ready(s, w', v) && SameParts(w, w', v)
    {
      assert Present(w, v);
      SamePartsByDb(s, w, w', v);
      SamePartsSameKey(s, w, w', v);
    }
    SparedKeysKeepInv(s, w, w');
  }

  /** The digest rows are unaffected by a change of other rows. */
  lemma HmacsFramed(w: World, w': World)
    requires HmacsInv(w)
    requires forall key: ConfigKey | key.HmacId? || key == HmacVersion ::
               (key in w.db <==> key in w'.db) && (key in w.db ==> w'.db[key] == w.db[key])
    requires forall id | id in w.deks :: id in w'.deks && w'.deks[id].maxCounter == w.deks[id].maxCounter
    ensures HmacsInv(w')
  {
    assert HmacId(Number(w.db, HmacVersion).value).HmacId?;
  }

  lemma LoadedInDb(s: Suite, w: World, h: nat, v: int)
    requires h < |w.hosts|
    ensures v in LoadedHmacs(s, w, h) <==> HmacId(v) in w.db && HmacKey(s, w, h, v).Some?
  {
    if HmacId(v) in w.db && HmacKey(s, w, h, v).Some? {
      assert HmacId(v).HmacId? && HmacId(v).version == v;
    }
  }

  // ---------------------------------------------------------------- KEK calls keep the invariant

  lemma ConfirmKeeps(s: Suite, w: World, h: nat, password: string, wanted: Option<int>)
    requires Inv(s, w) && h < |w.hosts|
    requires ConfirmComponent(s, w, h, password, wanted).Some?
    ensures var w' := ConfirmComponent(s, w, h, password, wanted).value; Inv(s, w') && Stable(s, w, w')
  {
    var (v, i) := Authorize(s, w, h, Target, password).value;
    assert ConfirmComponent(s, w, h, password, wanted).value == w.(db := w.db[PartCheck(v, i) := "1"]);
    RaisedKeeps(s, w, v, i);
  }

  /** A flag may be raised at any time. */
  lemma RaisedKeeps(s: Suite, w: World, v: int, i: int)
    requires Inv(s, w)
    ensures var w' := w.(db := w.db[PartCheck(v, i) := "1"]); Inv(s, w') && Stable(s, w, w')
  {
    var w' := w.(db := w.db[PartCheck(v, i) := "1"]);
    SameVersions(w.db, w'.db);
    assert forall x | Checked(w.db, x) :: Checked(w'.db, x);
    ConfigStepKeeps(s, w, w');
  }

  lemma ResetTargetKeeps(s: Suite, w: World, h: nat, password: string, wanted: int)
    requires Inv(s, w) && h < |w.hosts|
    requires ResetTargetVersion(s, w, h, password, wanted).Some?
    ensures var w' := ResetTargetVersion(s, w, h, password, wanted).value; Inv(s, w') && Stable(s, w, w')
  {
    var w' := ResetTargetVersion(s, w, h, password, wanted).value;
    assert forall v :: Checked(w'.db, v) <==> Checked(w.db, v);
    ConfigStepKeeps(s, w, w');
  }

  lemma SwitchKekKeeps(s: Suite, w: World, h: nat, password: string)
    requires Inv(s, w) && h < |w.hosts|
    requires SwitchKek(s, w, h, password).Some?
    ensures var w' := SwitchKek(s, w, h, password).value; Inv(s, w') && Stable(s, w, w')
  {
    var w' := SwitchKek(s, w, h, password).value;
    SameVersions(w.db, w'.db);
    assert forall v :: Checked(w'.db, v) <==> Checked(w.db, v);
    ConfigStepKeeps(s, w, w');
  }

  lemma SwitchHmacKeeps(s: Suite, w: World, h: nat, password: string)
    requires Inv(s, w) && h < |w.hosts|
    requires SwitchHmac(s, w, h, password).Some?
    ensures var w' := SwitchHmac(s, w, h, password).value; Inv(s, w') && Stable(s, w, w')
  {
    var newest := MaxOf(HmacVersions(s, w, h).value);
    LoadedInDb(s, w, h, newest);
    HmacVersionKeeps(s, w, newest);
  }

  /** Any named digest version may become the active one. */
  lemma HmacVersionKeeps(s: Suite, w: World, v: int)
    requires Inv(s, w) && HmacId(v) in w.db
    ensures var w' := w.(db := w.db[HmacVersion := ToText(v)]); Inv(s, w') && Stable(s, w, w')
  {
    var w' := w.(db := w.db[HmacVersion := ToText(v)]);
    assert HmacsInv(w') by {
      assert Number(w'.db, HmacVersion) == Some(v);
      assert forall key: ConfigKey | key.HmacId? && key in w'.db :: key in w.db && w'.db[key] == w.db[key];
    }
    SameVersions(w.db, w'.db);
    assert forall x :: Checked(w'.db, x) <==> Checked(w.db, x);
    ConfigStepKeeps(s, w, w');
  }

  // ---------------------------------------------------------------- generate_kek

  /** A planned version is new: it is above every version the database knows. */
  lemma PlanIsAbove(s: Suite, w: World, h: nat, password: string, p1: string, p2: string, p3: string)
    requires h < |w.hosts| && PlanKek(s, w, h, password, p1, p2, p3).Some?
    ensures forall v | Part3(v) in w.db :: v < PlanKek(s, w, h, password, p1, p2, p3).value.0
  {
    InVersions(w.db);
  }

  /** Parts of another version written by generate_kek do not touch version v. */
  lemma OtherVersionSpared(s: Suite, w: World, w': World, n: int, v: int)
    requires |w.hosts| > 0 && Ready(s, w, v) && n != v && |w'.hosts| == |w.hosts|
    requires forall key | key in [ControlPhrase, Part3(v), ControlCode(v)] ::
               key in w.db ==> key in w'.db && w'.db[key] == w.db[key]
    requires v in w.part1 ==> v in w'.part1 && w'.part1[v] == w.part1[v]
    requires forall h | 0 <= h < |w.hosts| && v in w.hosts[h] :: v in w'.hosts[h] && w'.hosts[h][v] == w.hosts[h][v]
    ensures SameParts(w, w', v) && Ready(s, w', v)
  {
    ReadyHasParts(s, w, v);
    assert ControlPhrase in [ControlPhrase, Part3(v), ControlCode(v)];
    assert Part3(v) in [ControlPhrase, Part3(v), ControlCode(v)];
    assert ControlCode(v) in [ControlPhrase, Part3(v), ControlCode(v)];
    SamePartsSameKey(s, w, w', v);
  }

  /** Parts of a version above all known ones, in any of the stores, belong to no known version. */
  lemma OrphansKeep(s: Suite, w: World, n: int, p1: string, p2: string, k: nat)
    requires Inv(s, w) && forall v | Part3(v) in w.db :: v < n
    ensures var w' := PutFirst(w, n, p1, p2, k); Inv(s, w') && Stable(s, w, w')
  {
    var w' := PutFirst(w, n, p1, p2, k);
    forall v | Part3(v) in w.db
      ensures Present(w', v) <==> Present(w, v)
      ensures Present(w, v) ==> Ready(s, w', v) && SameParts(w, w', v)
    {
      if Present(w, v) {
        OtherVersionSpared(s, w, w', n, v);
      }
    }
    SparedKeysKeepInv(s, w, w');
  }

  /** Stopping generate_kek anywhere loses nothing: the orphan parts belong to no known version. */
  lemma AbortedGenerateKeeps(s: Suite, w: World, h: nat, password: string, p1: string, p2: string, p3: string, done: nat)
    requires Inv(s, w) && h < |w.hosts|
    ensures var w' := AbortedGenerateKek(s, w, h, password, p1, p2, p3, done); Inv(s, w') && Stable(s, w, w')
  {
    if PlanKek(s, w, h, password, p1, p2, p3).Some? {
      var n := PlanKek(s, w, h, password, p1, p2, p3).value.0;
      var es := GenerateEffects(n, p1, p2, |w.hosts|);
      var k := if done < |es| then done else |es|;
      assert es[..|es|] == es;
      GeneratePrefix(w, n, p1, p2, k);
      PlanIsAbove(s, w, h, password, p1, p2, p3);
      OrphansKeep(s, w, n, p1, p2, k);
    } else {
      assert Stable(s, w, w);
    }
  }

  /** A completed generate_kek makes the new version ready on every host. */
  lemma GenerateMakesReady(s: Suite, w: World, h: nat, password: string, p1: string, p2: string, p3: string)
    requires |w.hosts| > 0 && h < |w.hosts| && GenerateKek(s, w, h, password, p1, p2, p3).Some?
    ensures var w' := GenerateKek(s, w, h, password, p1, p2, p3).value;
            var n := PlanKek(s, w, h, password, p1, p2, p3).value.0;
            && Ready(s, w', n) && UsableKey(s, w', 0, n) == s.assemble(p1, p2, p3)
            && w'.part1 == w.part1[n := p1]
            && forall i | 0 <= i < |w.hosts| :: w'.hosts[i] == w.hosts[i][n := p2]
  {
    var n := PlanKek(s, w, h, password, p1, p2, p3).value.0;
    var es := GenerateEffects(n, p1, p2, |w.hosts|);
    assert es[..|es|] == es;
    GeneratePrefix(w, n, p1, p2, |es|);
    var w' := GenerateKek(s, w, h, password, p1, p2, p3).value;
    forall i | 0 <= i < |w.hosts|
      ensures UsableKey(s, w', i, n) == s.assemble(p1, p2, p3)
    {
      assert MasterKey(s, w', i, n) == s.assemble(p1, p2, p3);
    }
  }

  /** The rows generate_kek writes: those of the new version and the target, no others. */
  lemma NewRows(db: Config, n: int, part3: string, code: string)
    ensures var db' := NewVersionRows(db, n, part3, code);
            && Part3(n) in db' && Number(db', KekTargetVersion) == Some(n) && !Checked(db', n)
            && forall key | !KekRow(key, {n}) && key != KekTargetVersion ::
                 (key in db <==> key in db') && (key in db ==> db'[key] == db[key])
  {
    assert NewVersionRows(db, n, part3, code)[PartCheck(n, 1)] == "0";
  }

  /** w' is w with the parts and rows of one new version n, ready and above all others. */
  ghost predicate AddsVersion(s: Suite, w: World, w': World, n: int) {
    && |w'.hosts| == |w.hosts| > 0
    && w' == w.(db := w'.db, part1 := w'.part1, hosts := w'.hosts)
    && Ready(s, w', n) && Part3(n) in w'.db
    && (forall v | Part3(v) in w.db :: v < n)
    && (forall key | !KekRow(key, {n}) && key != KekTargetVersion ::
          (key in w.db <==> key in w'.db) && (key in w.db ==> w'.db[key] == w.db[key]))
    && n in w'.part1 && w'.part1 == w.part1[n := w'.part1[n]]
    && (forall h | 0 <= h < |w.hosts| :: n in w'.hosts[h] && w'.hosts[h] == w.hosts[h][n := w'.hosts[h][n]])
  }

  lemma OldVersionSpared(s: Suite, w: World, w': World, n: int, v: int)
    requires Inv(s, w) && AddsVersion(s, w, w', n) && Present(w', v)
    ensures Ready(s, w', v) && (v != n ==> Present(w, v) && SameParts(w, w', v))
  {
    if v != n {
      assert Present(w, v);
      OtherVersionSpared(s, w, w', n, v);
    }
  }

  lemma OldVersionsSpared(s: Suite, w: World, w': World, n: int)
    requires Inv(s, w) && AddsVersion(s, w, w', n)
    ensures forall v | Present(w', v) :: Ready(s, w', v)
    ensures forall v | Trusted(w, v) :: Trusted(w', v) && SameParts(w, w', v)
  {
    forall v | Present(w', v)
      ensures Ready(s, w', v)
    {
      OldVersionSpared(s, w, w', n, v);
    }
    forall v | Trusted(w, v)
      ensures Trusted(w', v) && SameParts(w, w', v)
    {
      assert forall i | 1 <= i <= 3 :: PartCheck(v, i) in w.db;
      OldVersionSpared(s, w, w', n, v);
    }
  }

  /** A new version may become the target at once. */
  lemma NewVersionKeeps(s: Suite, w: World, w': World, n: int)
    requires Inv(s, w) && AddsVersion(s, w, w', n) && Number(w'.db, KekTargetVersion) == Some(n)
    ensures Inv(s, w') && Stable(s, w, w')
  {
    OldVersionsSpared(s, w, w', n);
    NewestIsLast(w'.db, n);
    HmacsFramed(w, w');
    SparedKeysKeepInv(s, w, w');
  }

  lemma NewestIsLast(db: Config, n: int)
    requires Part3(n) in db && forall v | Part3(v) in db :: v <= n
    ensures LastVersion(db) == Some(n)
  {
    InVersions(db);
    assert forall v | v in Versions(db) :: v <= n;
  }

  lemma GenerateKeeps(s: Suite, w: World, h: nat, password: string, p1: string, p2: string, p3: string)
    requires Inv(s, w) && h < |w.hosts|
    requires GenerateKek(s, w, h, password, p1, p2, p3).Some?
    ensures var w' := GenerateKek(s, w, h, password, p1, p2, p3).value; Inv(s, w') && Stable(s, w, w')
  {
    var w' := GenerateKek(s, w, h, password, p1, p2, p3).value;
    var n := PlanKek(s, w, h, password, p1, p2, p3).value.0;
    GenerateMakesReady(s, w, h, password, p1, p2, p3);
    PlanIsAbove(s, w, h, password, p1, p2, p3);
    var code := NewControlCode(s, w.db, s.assemble(p1, p2, p3).value).value;
    NewRows(w.db, n, p3, code);
    NewVersionKeeps(s, w, w', n);
  }

  // ---------------------------------------------------------------- cleanup

  /** Everything is under the version a cleanup keeps. */
  lemma CleanupPlan(s: Suite, w: World, h: nat, password: string)
    requires Inv(s, w) && h < |w.hosts| && PlanCleanup(s, w, h, password).Some?
    ensures var v := PlanCleanup(s, w, h, password).value;
            && ActiveVersion(w.db) == Some(v)
            && (KekTargetVersion in w.db ==> Number(w.db, KekTargetVersion) == Some(v))
            && forall id | id in w.deks :: w.deks[id].kek == v
  {
    var v := PlanCleanup(s, w, h, password).value;
    InVersions(w.db);
    forall id | id in w.deks
      ensures w.deks[id].kek == v
    {
      assert w.deks[id].kek in Versions(w.db);
      assert KekUsed(w, w.deks[id].kek);
    }
  }

  /** Dropping the items of other versions spares the kept one: its data is never empty. */
  lemma KeptVersionSpared(s: Suite, w: World, w': World, v: int)
    requires Lawful(s) && |w.hosts| > 0 && Ready(s, w, v) && |w'.hosts| == |w.hosts|
    requires forall key | key in [ControlPhrase, Part3(v), ControlCode(v)] ::
               key in w.db ==> key in w'.db && w'.db[key] == w.db[key]
    requires v in w.part1 ==> v in w'.part1 && w'.part1[v] == w.part1[v]
    requires forall h | 0 <= h < |w.hosts| :: w'.hosts[h] == w.hosts[h] || w'.hosts[h] == KeepOnly(w.hosts[h], v)
    ensures SameParts(w, w', v) && Ready(s, w', v)
  {
    ReadyHasParts(s, w, v);
    forall h | 0 <= h < |w.hosts|
      ensures v in w'.hosts[h] && w'.hosts[h][v] == w.hosts[h][v]
    {
      assert UsableKey(s, w, h, v).Some?;
      assert w.hosts[h][v] != "";
    }
    OtherVersionSpared(s, w, w', v + 1, v);
  }

  /** A state swept down to version v, on which everything depends. */
  lemma SweptKeeps(s: Suite, w: World, w': World, v: int)
    requires Lawful(s) && Inv(s, w) && |w'.hosts| == |w.hosts|
    requires w' == w.(db := w'.db, part1 := w'.part1, hosts := w'.hosts)
    requires ActiveVersion(w.db) == Some(v) && ActiveVersion(w'.db) == Some(v)
    requires forall id | id in w.deks :: w.deks[id].kek == v
    requires KekTargetVersion in w'.db ==> Number(w'.db, KekTargetVersion) == Some(v)
    requires forall key | key == ControlPhrase || KekRow(key, {v}) ::
               key in w.db ==> key in w'.db && w'.db[key] == w.db[key]
    requires v in w'.part1 && v in w.part1 && w'.part1[v] == w.part1[v]
    requires forall h | 0 <= h < |w.hosts| :: w'.hosts[h] == w.hosts[h] || w'.hosts[h] == KeepOnly(w.hosts[h], v)
    requires forall x | Present(w', x) :: x == v
    requires HmacsInv(w')
    ensures Inv(s, w') && Stable(s, w, w')
  {
    assert Present(w, v) && Checked(w.db, v);
    KeptVersionSpared(s, w, w', v);
    assert Checked(w'.db, v) by {
      assert forall i | 1 <= i <= 3 :: KekRow(PartCheck(v, i), {v});
    }
    SparedKeysKeepInv(s, w, w');
  }

  /** What the sweep of the key keeper and of some hosts leaves. */
  lemma SweptShape(w: World, v: int, k: nat)
    requires 1 <= k <= 1 + |w.hosts|
    ensures var w' := SweepFirst(w, v, k);
            && w' == w.(part1 := w'.part1, hosts := w'.hosts) && |w'.hosts| == |w.hosts|
            && (v in w.part1 ==> v in w'.part1 && w'.part1[v] == w.part1[v])
            && (forall x | x in w'.part1 :: x == v)
            && forall h | 0 <= h < |w.hosts| :: w'.hosts[h] == w.hosts[h] || w'.hosts[h] == KeepOnly(w.hosts[h], v)
  {
  }

  /** What purging every other version and some digest versions leaves. */
  lemma PurgedRows(db: Config, v: int, unused: set<int>)
    ensures var db' := PurgeHmacs(PurgeKeks(db, Versions(db) - {v}), unused);
            && ActiveVersion(db') == ActiveVersion(db)
            && (KekTargetVersion in db' <==> KekTargetVersion in db) && Number(db', KekTargetVersion) == Number(db, KekTargetVersion)
            && (forall key | key == ControlPhrase || KekRow(key, {v}) :: key in db ==> key in db' && db'[key] == db[key])
            && (forall key: ConfigKey | key.HmacId? || key == HmacVersion ::
                  (key in db' <==> key in db && !(key.HmacId? && key.version in unused)) && (key in db' ==> db'[key] == db[key]))
  {
  }

  /** Stopping cleanup anywhere loses nothing that is in use. */
  lemma AbortedCleanupKeeps(s: Suite, w: World, h: nat, password: string, done: nat)
    requires Lawful(s) && Inv(s, w) && h < |w.hosts|
    ensures var w' := AbortedCleanup(s, w, h, password, done); Inv(s, w') && Stable(s, w, w')
  {
    var w' := AbortedCleanup(s, w, h, password, done);
    if PlanCleanup(s, w, h, password).Some? && done > 0 {
      var v := PlanCleanup(s, w, h, password).value;
      var es := CleanupEffects(v, |w.hosts|);
      var k := if done < |es| then done else |es|;
      assert es[..|es|] == es;
      CleanupPrefix(w, v, k);
      CleanupPlan(s, w, h, password);
      assert Present(w, v);
      SweptShape(w, v, k);
      SweptKeeps(s, w, SweepFirst(w, v, k), v);
    } else {
      assert w' == w;
    }
  }

  /** The state a cleanup ends in, as one sweep and one purge. */
  lemma CleanupIs(s: Suite, w: World, h: nat, password: string) returns (v: int, unused: set<int>)
    requires h < |w.hosts| && Cleanup(s, w, h, password).Some?
    ensures PlanCleanup(s, w, h, password) == Some(v)
    ensures UnusedHmacs(s, SweepFirst(w, v, 1 + |w.hosts|), h) == Some(unused)
    ensures Cleanup(s, w, h, password)
         == Some(SweepFirst(w, v, 1 + |w.hosts|).(db := PurgeHmacs(PurgeKeks(w.db, Versions(w.db) - {v}), unused)))
  {
    v := PlanCleanup(s, w, h, password).value;
    var es := CleanupEffects(v, |w.hosts|);
    assert es[..|es|] == es;
    CleanupPrefix(w, v, |es|);
    unused := UnusedHmacs(s, SweepFirst(w, v, 1 + |w.hosts|), h).value;
  }

  lemma CleanupKeeps(s: Suite, w: World, h: nat, password: string)
    requires Lawful(s) && Inv(s, w) && h < |w.hosts|
    requires Cleanup(s, w, h, password).Some?
    ensures var w' := Cleanup(s, w, h, password).value; Inv(s, w') && Stable(s, w, w')
  {
    var v, unused := CleanupIs(s, w, h, password);
    var w' := Cleanup(s, w, h, password).value;
    assert Number(w.db, HmacVersion).value !in unused;
    CleanupPlan(s, w, h, password);
    assert Present(w, v);
    SweptShape(w, v, 1 + |w.hosts|);
    PurgedRows(w.db, v, unused);
    PurgedHmacs(w, w', unused);
    SweptKeeps(s, w, w', v);
  }

  lemma PurgedHmacs(w: World, w': World, unused: set<int>)
    requires HmacsInv(w) && w'.deks == w.deks && Number(w.db, HmacVersion).value !in unused
    requires forall key: ConfigKey | key.HmacId? || key == HmacVersion ::
               (key in w'.db <==> key in w.db && !(key.HmacId? && key.version in unused)) && (key in w'.db ==> w'.db[key] == w.db[key])
    ensures HmacsInv(w')
  {
    assert HmacId(Number(w.db, HmacVersion).value).HmacId?;
  }

  // ---------------------------------------------------------------- re-encryption

  /** A row moved to the target opens to the same key everywhere. */
  lemma ReencryptedRowOpens(s: Suite, w: World, h: nat, w': World, id: int, target: int)
    requires Lawful(s) && Inv(s, w) && h < |w.hosts| && id in w.deks
    requires ReencryptRow(s, w, h, w.deks[id], target).Some?
    requires w' == w.(deks := w'.deks) && id in w'.deks && w'.deks[id] == ReencryptRow(s, w, h, w.deks[id], target).value
    ensures Present(w, target)
    ensures forall i | 0 <= i < |w.hosts| :: OpenDek(s, w', i, id) == OpenDek(s, w, i, id)
  {
    assert Present(w, target) && Ready(s, w, target);
    assert Ready(s, w, w.deks[id].kek);
    forall i | 0 <= i < |w.hosts|
      ensures OpenDek(s, w', i, id) == OpenDek(s, w, i, id)
    {
      assert UsableKey(s, w', i, target) == UsableKey(s, w, i, target) == UsableKey(s, w, h, target);
      assert UsableKey(s, w, i, w.deks[id].kek) == UsableKey(s, w, h, w.deks[id].kek);
      assert OpenDek(s, w, 0, id).Some?;
    }
  }

  /** A change of data key rows that leaves every opened key as it was. */
  lemma DekStepKeeps(s: Suite, w: World, w': World)
    requires Inv(s, w) && w' == w.(deks := w'.deks) && w'.deks.Keys == w.deks.Keys
    requires forall id | id in w.deks ::
               && Trusted(w, w'.deks[id].kek)
               && w'.deks[id].maxCounter == w.deks[id].maxCounter
               && 0 <= w'.deks[id].counter
               && forall h | 0 <= h < |w.hosts| :: OpenDek(s, w', h, id) == OpenDek(s, w, h, id)
    ensures Inv(s, w') && Stable(s, w, w')
  {
    forall v, h | 0 <= h < |w.hosts|
      ensures UsableKey(s, w', h, v) == UsableKey(s, w, h, v)
    {
      assert MasterKey(s, w', h, v) == MasterKey(s, w, h, v);
    }
    forall v | Present(w', v)
      ensures Ready(s, w', v)
    {
      assert Present(w, v);
    }
    HmacsFramed(w, w');
    forall t, id | id in w.TableOf(t).rows
      ensures ReadRow(s, w', 0, t, w.TableOf(t).rows[id]) == ReadRow(s, w, 0, t, w.TableOf(t).rows[id])
    {
      assert TokensInv(s, w, t);
    }
  }

  /** Every row, converted or not, opens as before and is under a confirmed version. */
  lemma ReencryptedRows(s: Suite, w: World, h: nat, lo: int, hi: int, w': World, id: int)
    requires Lawful(s) && Inv(s, w) && h < |w.hosts| && ReencryptDeks(s, w, h, lo, hi).Some? && id in w.deks
    requires w' == ReencryptDeks(s, w, h, lo, hi).value.0
    ensures Trusted(w, w'.deks[id].kek) && w'.deks[id].maxCounter == w.deks[id].maxCounter && w'.deks[id].counter == w.deks[id].counter
    ensures forall i | 0 <= i < |w.hosts| :: OpenDek(s, w', i, id) == OpenDek(s, w, i, id)
  {
    var target := SwitchVersion(w.db).value;
    if id in OffTarget(w, target, lo, hi) {
      ReencryptedRowOpens(s, w, h, w', id, target);
    } else {
      assert w'.deks[id] == w.deks[id];
      forall i | 0 <= i < |w.hosts|
        ensures OpenDek(s, w', i, id) == OpenDek(s, w, i, id)
      {
        assert MasterKey(s, w', i, w.deks[id].kek) == MasterKey(s, w, i, w.deks[id].kek);
      }
    }
  }

  lemma ReencryptKeeps(s: Suite, w: World, h: nat, lo: int, hi: int)
    requires Lawful(s) && Inv(s, w) && h < |w.hosts|
    requires ReencryptDeks(s, w, h, lo, hi).Some?
    ensures var w' := ReencryptDeks(s, w, h, lo, hi).value.0; Inv(s, w') && Stable(s, w, w')
  {
    var w' := ReencryptDeks(s, w, h, lo, hi).value.0;
    forall id | id in w.deks
      ensures Trusted(w, w'.deks[id].kek) && w'.deks[id].maxCounter == w.deks[id].maxCounter && w'.deks[id].counter == w.deks[id].counter
      ensures forall i | 0 <= i < |w.hosts| :: OpenDek(s, w', i, id) == OpenDek(s, w, i, id)
    {
      ReencryptedRows(s, w, h, lo, hi, w', id);
    }
    DekStepKeeps(s, w, w');
  }

  // ---------------------------------------------------------------- new key rows

  lemma KeksFramed(s: Suite, w: World, w': World)
    requires |w.hosts| > 0 && KeksInv(s, w) && w'.db == w.db && w'.part1 == w.part1 && w'.hosts == w.hosts
    ensures KeksInv(s, w')
  {
    SameStoresSameKeys(s, w, w');
    forall v | Present(w', v)
      ensures Ready(s, w', v)
    {
      assert Present(w, v);
    }
  }

  /** A token row reads the same when its key row still opens to the same key. */
  lemma ReadRowFramed(s: Suite, w: World, w': World, t: Table, row: TokenRow)
    requires SameDeks(s, w, w') && row.dek in w.deks
    ensures forall h | 0 <= h < |w.hosts| :: ReadRow(s, w', h, t, row) == ReadRow(s, w, h, t, row)
  {
  }

  /** Tokens read the same when no key row they use is gone or changed. */
  lemma TokensFramed(s: Suite, w: World, w': World, t: Table)
    requires |w.hosts| > 0 && SameDeks(s, w, w') && TokensInv(s, w, t)
    requires w'.TableOf(t) == w.TableOf(t)
    ensures TokensInv(s, w', t)
  {
    forall id | id in w.TableOf(t).rows
      ensures ReadRow(s, w', 0, t, w.TableOf(t).rows[id]) == ReadRow(s, w, 0, t, w.TableOf(t).rows[id])
    {
    }
  }

  /** A new key row opens to its value on every host and leaves the others alone. */
  lemma AddDekKeeps(s: Suite, w: World, h: nat, key: Key, v: int, value: Key, maxCounter: int, finish: int)
    requires Lawful(s) && Inv(s, w) && h < |w.hosts|
    requires Trusted(w, v) && UsableKey(s, w, h, v) == Some(key)
    ensures NewDek(s, key, v, value, maxCounter, finish).Some?
    ensures var w' := AddDek(w, NewDek(s, key, v, value, maxCounter, finish).value);
            && Inv(s, w') && Stable(s, w, w') && w.nextDek !in w.deks
            && forall i | 0 <= i < |w.hosts| :: OpenDek(s, w', i, w.nextDek) == Some(value)
  {
    assert s.seal(key, value).Some?;
    var row := NewDek(s, key, v, value, maxCounter, finish).value;
    var w' := AddDek(w, row);
    SameStoresSameKeys(s, w, w');
    KeksFramed(s, w, w');
    assert Ready(s, w, v);
    forall i | 0 <= i < |w.hosts|
      ensures OpenDek(s, w', i, w.nextDek) == Some(value)
    {
      assert UsableKey(s, w', i, v) == Some(key);
      assert s.open(key, row.wrapped) == Some(value);
    }
    forall i, id | 0 <= i < |w.hosts| && id in w.deks
      ensures OpenDek(s, w', i, id) == OpenDek(s, w, i, id)
    {
      assert w'.deks[id] == w.deks[id];
    }
    HmacsFramed(w, w');
    TokensFramed(s, w, w', Card);
    TokensFramed(s, w, w', Vault);
  }

  /** generate_hmac adds one row and names it. */
  lemma GenerateHmacIs(s: Suite, w: World, h: nat, password: string, value: Key, finish: int) returns (v: int, key: Key, n: int)
    requires h < |w.hosts| && GenerateHmac(s, w, h, password, value, finish).Some?
    ensures ActiveVersion(w.db) == Some(v) && UsableKey(s, w, h, v) == Some(key) && NewDek(s, key, v, value, 0, finish).Some?
    ensures GenerateHmac(s, w, h, password, value, finish)
         == Some(AddDek(w, NewDek(s, key, v, value, 0, finish).value).(db := w.db[HmacId(n) := ToText(w.nextDek)]))
  {
    v := Authorize(s, w, h, Current, password).value.0;
    key := UsableKey(s, w, h, v).value;
    n := NewHmacVersion(HmacVersions(s, w, h).value);
  }

  lemma GenerateHmacKeeps(s: Suite, w: World, h: nat, password: string, value: Key, finish: int)
    requires Lawful(s) && Inv(s, w) && h < |w.hosts|
    requires GenerateHmac(s, w, h, password, value, finish).Some?
    ensures var w' := GenerateHmac(s, w, h, password, value, finish).value; Inv(s, w') && Stable(s, w, w')
  {
    var v, key, n := GenerateHmacIs(s, w, h, password, value, finish);
    AddDekKeeps(s, w, h, key, v, value, 0, finish);
    var grown := AddDek(w, NewDek(s, key, v, value, 0, finish).value);
    HmacRowKeeps(s, w, grown, grown.(db := w.db[HmacId(n) := ToText(w.nextDek)]), n);
  }

  /** Naming a key row no pool selects as a digest version. */
  lemma NamingKeeps(s: Suite, w: World, v: int, id: int)
    requires Inv(s, w) && id in w.deks && w.deks[id].maxCounter == 0
    ensures var w' := w.(db := w.db[HmacId(v) := ToText(id)]); Inv(s, w') && Stable(s, w, w')
  {
    var w' := w.(db := w.db[HmacId(v) := ToText(id)]);
    SameVersions(w.db, w'.db);
    assert forall x :: Checked(w'.db, x) <==> Checked(w.db, x);
    NamedHmac(w, w', v, id);
    ConfigStepKeeps(s, w, w');
  }

  /** Naming the newest one. */
  lemma HmacRowKeeps(s: Suite, w: World, grown: World, w': World, v: int)
    requires Inv(s, grown) && SameDeks(s, w, grown)
    requires grown == w.(deks := grown.deks, nextDek := grown.nextDek)
    requires w.nextDek in grown.deks && grown.deks[w.nextDek].maxCounter == 0
    requires w' == grown.(db := w.db[HmacId(v) := ToText(w.nextDek)])
    ensures Inv(s, w') && Stable(s, w, w')
  {
    NamingKeeps(s, grown, v, w.nextDek);
    SameDeksTransitive(s, w, grown, w');
  }

  lemma NamedHmac(w: World, w': World, v: int, id: int)
    requires HmacsInv(w) && w'.deks == w.deks && w'.db == w.db[HmacId(v) := ToText(id)]
    requires id in w.deks && w.deks[id].maxCounter == 0
    ensures HmacsInv(w')
  {
    assert Number(w'.db, HmacId(v)) == Some(id);
    assert forall key: ConfigKey | key.HmacId? && key != HmacId(v) && key in w'.db :: key in w.db && w'.db[key] == w.db[key];
  }

  lemma SameDeksTransitive(s: Suite, a: World, b: World, c: World)
    requires SameDeks(s, a, b) && SameDeks(s, b, c)
    ensures SameDeks(s, a, c)
  {
    forall i, id | 0 <= i < |a.hosts| && id in a.deks
      ensures OpenDek(s, c, i, id) == OpenDek(s, a, i, id)
    {
      assert OpenDek(s, b, i, id) == OpenDek(s, a, i, id);
    }
  }

  // ---------------------------------------------------------------- tokens

  /** A change of token rows only. */
  lemma OnlyTables(s: Suite, w: World, w': World)
    requires Inv(s, w) && w' == w.(cards := w'.cards, vault := w'.vault)
    ensures KeksInv(s, w') && DeksInv(s, w') && HmacsInv(w') && SameDeks(s, w, w')
  {
    SameStoresSameKeys(s, w, w');
    KeksFramed(s, w, w');
    forall h, id | 0 <= h < |w.hosts|
      ensures OpenDek(s, w', h, id) == OpenDek(s, w, h, id)
    {
    }
    HmacsFramed(w, w');
  }

  /** New digests on card rows leave everything else as it was. */
  lemma RelabelKeeps(s: Suite, w: World, rows: map<int, TokenRow>)
    requires Inv(s, w) && (forall id :: id in rows <==> id in w.cards.rows)
    requires SameCiphertexts(w, w.(cards := TokenTable(rows, w.cards.next)), Card)
    ensures var w' := w.(cards := TokenTable(rows, w.cards.next)); Inv(s, w') && Stable(s, w, w')
  {
    var w' := w.(cards := TokenTable(rows, w.cards.next));
    OnlyTables(s, w, w');
    TokensFramed(s, w, w', Vault);
    RelabelledTables(s, w, w');
    SameTokensDistinct(w.cards.rows, rows);
  }

  lemma RelabelledTables(s: Suite, w: World, w': World)
    requires |w.hosts| > 0 && RowsInv(s, w, Card) && SameDeks(s, w, w')
    requires w'.cards.next == w.cards.next && (forall id :: id in w'.cards.rows <==> id in w.cards.rows) && SameCiphertexts(w, w', Card)
    ensures RowsInv(s, w', Card)
  {
    forall id | id in w'.cards.rows
      ensures ReadRow(s, w', 0, Card, w'.cards.rows[id]) == ReadRow(s, w, 0, Card, w.cards.rows[id])
      ensures id in w.cards.rows && w'.cards.rows[id].dek == w.cards.rows[id].dek
    {
      assert id in w.cards.rows;
      ReadRowFramed(s, w, w', Card, w.cards.rows[id]);
    }
  }

  lemma SameTokensDistinct(rows: map<int, TokenRow>, rows': map<int, TokenRow>)
    requires DistinctTokens(rows)
    requires forall id | id in rows' :: id in rows && rows'[id].token == rows[id].token
    ensures DistinctTokens(rows')
  {
    forall i, j | i in rows' && j in rows' && rows'[i].token == rows'[j].token
      ensures i == j
    {
      assert i in rows && j in rows;
    }
  }

  lemma RehashKeeps(s: Suite, w: World, h: nat, lo: int, hi: int)
    requires Inv(s, w) && h < |w.hosts|
    requires RehashTokens(s, w, h, lo, hi).Some?
    ensures var w' := RehashTokens(s, w, h, lo, hi).value; Inv(s, w') && Stable(s, w, w')
  {
    var w' := RehashTokens(s, w, h, lo, hi).value;
    assert w' == w.(cards := TokenTable(w'.cards.rows, w.cards.next));
    RelabelKeeps(s, w, w'.cards.rows);
  }

  lemma RemoveKeeps(s: Suite, w: World, t: Table, token: string)
    requires Inv(s, w)
    ensures var w' := Remove(w, t, token); Inv(s, w') && Stable(s, w, w')
  {
    var w' := Remove(w, t, token);
    OnlyTables(s, w, w');
    forall u, id | id in w'.TableOf(u).rows
      ensures id in w.TableOf(u).rows
      ensures ReadRow(s, w', 0, u, w'.TableOf(u).rows[id]) == ReadRow(s, w, 0, u, w.TableOf(u).rows[id])
    {
      assert RowsInv(s, w, u);
      ReadRowFramed(s, w, w', u, w.TableOf(u).rows[id]);
    }
  }

  /** The first of several new key rows. */
  lemma AddFirst(s: Suite, w: World, h: nat, key: Key, v: int, values: seq<Key>, maxCounter: int, finish: int) returns (grown: World)
    requires Lawful(s) && Inv(s, w) && h < |w.hosts| && values != []
    requires Trusted(w, v) && UsableKey(s, w, h, v) == Some(key)
    ensures Inv(s, grown) && SameDeks(s, w, grown) && grown.hosts == w.hosts
    ensures Trusted(grown, v) && UsableKey(s, grown, h, v) == Some(key)
    ensures AddDeks(s, w, key, v, values, maxCounter, finish) == AddDeks(s, grown, key, v, values[1..], maxCounter, finish)
  {
    AddDekKeeps(s, w, h, key, v, values[0], maxCounter, finish);
    grown := AddDek(w, NewDek(s, key, v, values[0], maxCounter, finish).value);
    SameStoresSameKeys(s, w, grown);
    KeksFramed(s, w, grown);
  }

  /** The pool may add any number of key rows. */
  lemma {:induction false} AddDeksKeeps(s: Suite, w: World, h: nat, key: Key, v: int, values: seq<Key>, maxCounter: int, finish: int)
    requires Lawful(s) && Inv(s, w) && h < |w.hosts|
    requires Trusted(w, v) && UsableKey(s, w, h, v) == Some(key)
    ensures AddDeks(s, w, key, v, values, maxCounter, finish).Some?
    ensures var w' := AddDeks(s, w, key, v, values, maxCounter, finish).value; Inv(s, w') && SameDeks(s, w, w')
    decreases |values|
  {
    if values != [] {
      var grown := AddFirst(s, w, h, key, v, values, maxCounter, finish);
      AddDeksKeeps(s, grown, h, key, v, values[1..], maxCounter, finish);
      SameDeksTransitive(s, w, grown, AddDeks(s, w, key, v, values, maxCounter, finish).value);
    }
  }

  /** Counting one use of a selectable key changes nothing anybody reads. */
  lemma UseDekKeeps(s: Suite, w: World, pick: int, now: int)
    requires Inv(s, w) && pick in w.deks
    ensures var w' := w.(deks := w.deks[pick := UseDek(w.deks[pick], now)]); Inv(s, w') && Stable(s, w, w')
  {
    var w' := w.(deks := w.deks[pick := UseDek(w.deks[pick], now)]);
    SameStoresSameKeys(s, w, w');
    KeksFramed(s, w, w');
    forall h, id | 0 <= h < |w.hosts| && id in w.deks
      ensures OpenDek(s, w', h, id) == OpenDek(s, w, h, id)
    {
    }
    DekStepKeeps(s, w, w');
  }

  /** Storing a readable row with an unused token under a key that may be used. */
  lemma StoreRowKeeps(s: Suite, w: World, t: Table, row: TokenRow, now: int)
    requires Inv(s, w) && row.dek in w.deks && Selectable(w.deks[row.dek], now)
    requires ReadRow(s, w, 0, t, row).Some? && !TokenTaken(w, t, row.token)
    ensures var w' := StoreRow(w, t, row, now);
            && Inv(s, w') && Stable(s, w, w')
            && forall h | 0 <= h < |w.hosts| :: ReadRow(s, w', h, t, row) == ReadRow(s, w, h, t, row)
  {
    var used := w.(deks := w.deks[row.dek := UseDek(w.deks[row.dek], now)]);
    UseDekKeeps(s, w, row.dek, now);
    ReadRowFramed(s, w, used, t, row);
    var w' := StoreRow(w, t, row, now);
    AddRowKeeps(s, used, t, row, w');
    SameDeksTransitive(s, w, used, w');
  }

  /** A further readable row with an unused token. */
  lemma AddRowKeeps(s: Suite, w: World, t: Table, row: TokenRow, w': World)
    requires Inv(s, w) && w' == w.WithTable(t, TokenTable(w.TableOf(t).rows[w.TableOf(t).next := row], w.TableOf(t).next + 1))
    requires row.dek in w.deks && w.deks[row.dek].maxCounter > 0 && ReadRow(s, w, 0, t, row).Some?
    requires forall id | id in w.TableOf(t).rows :: w.TableOf(t).rows[id].token != row.token
    ensures Inv(s, w') && Stable(s, w, w')
    ensures forall h | 0 <= h < |w.hosts| :: ReadRow(s, w', h, t, row) == ReadRow(s, w, h, t, row)
  {
    OnlyTables(s, w, w');
    TokensFramed(s, w, w', if t == Card then Vault else Card);
    ReadRowFramed(s, w, w', t, row);
    AddedRowInv(s, w, t, row, w');
  }

  lemma AddedRowInv(s: Suite, w: World, t: Table, row: TokenRow, w': World)
    requires |w.hosts| > 0 && TokensInv(s, w, t) && SameDeks(s, w, w')
    requires w'.TableOf(t) == TokenTable(w.TableOf(t).rows[w.TableOf(t).next := row], w.TableOf(t).next + 1)
    requires row.dek in w.deks && w.deks[row.dek].maxCounter > 0 && ReadRow(s, w', 0, t, row).Some?
    requires forall id | id in w.TableOf(t).rows :: w.TableOf(t).rows[id].token != row.token
    ensures TokensInv(s, w', t)
  {
    var tt := w.TableOf(t);
    var tt' := w'.TableOf(t);
    forall id | id in tt'.rows
      ensures id == tt.next || (id in tt.rows && tt'.rows[id] == tt.rows[id] && ReadRow(s, w', 0, t, tt.rows[id]).Some?)
    {
      if id != tt.next {
        ReadRowFramed(s, w, w', t, tt.rows[id]);
      }
    }
  }

  /** What a reservation went through. */
  lemma ReserveIs(s: Suite, w: World, h: nat, t: Table, text: Text, d: Draw, env: Env) returns (active: int, kek: Key, finish: int, grown: World, row: TokenRow)
    requires h < |w.hosts| && Reserve(s, w, h, t, text, d, env).Some?
    ensures Reserve(s, w, h, t, text, d, env) == Some((grown, row))
    ensures ActiveVersion(w.db) == Some(active) && UsableKey(s, w, h, active) == Some(kek)
    ensures AddDeks(s, w, kek, active, d.values, env.useCount, finish) == Some(grown)
    ensures grown == w.(deks := grown.deks, nextDek := grown.nextDek)
    ensures row.token == d.token && row.dek in grown.deks && Selectable(grown.deks[row.dek], env.now)
    ensures s.encode(t, text, d.pad).Some? && OpenDek(s, grown, h, row.dek).Some?
    ensures s.encrypt(t, OpenDek(s, grown, h, row.dek).value, s.encode(t, text, d.pad).value) == Some(row.crypted)
  {
    active := ActiveVersion(w.db).value;
    kek := UsableKey(s, w, h, active).value;
    finish := EndOfLife(env.now, env.period);
    grown, row := Reserve(s, w, h, t, text, d, env).value.0, Reserve(s, w, h, t, text, d, env).value.1;
  }

  /** The reserved row reads back as the text it was made from, on every host. */
  lemma ReservedRowReads(s: Suite, w: World, h: nat, t: Table, text: Text, pad: string,
                         kek: Key, active: int, values: seq<Key>, useCount: int, finish: int, grown: World, row: TokenRow)
    requires Lawful(s) && Inv(s, w) && h < |w.hosts| && |grown.hosts| == |w.hosts|
    requires ActiveVersion(w.db) == Some(active) && UsableKey(s, w, h, active) == Some(kek)
    requires AddDeks(s, w, kek, active, values, useCount, finish) == Some(grown)
    requires s.encode(t, text, pad).Some? && OpenDek(s, grown, h, row.dek).Some?
    requires s.encrypt(t, OpenDek(s, grown, h, row.dek).value, s.encode(t, text, pad).value) == Some(row.crypted)
    ensures Inv(s, grown) && SameDeks(s, w, grown)
    ensures forall i | 0 <= i < |w.hosts| :: ReadRow(s, grown, i, t, row) == Some(ReadsAs(t, text))
  {
    AddDeksKeeps(s, w, h, kek, active, values, useCount, finish);
    FreshRowReads(s, grown, h, t, text, pad, row);
  }

  /** A reserved row, stored. */
  lemma StoredKeeps(s: Suite, w: World, grown: World, t: Table, row: TokenRow, text: Text, now: int)
    requires Inv(s, w) && Inv(s, grown) && SameDeks(s, w, grown) && grown == w.(deks := grown.deks, nextDek := grown.nextDek)
    requires row.dek in grown.deks && Selectable(grown.deks[row.dek], now) && !TokenTaken(w, t, row.token)
    requires forall i | 0 <= i < |w.hosts| :: ReadRow(s, grown, i, t, row) == Some(ReadsAs(t, text))
    ensures var w' := StoreRow(grown, t, row, now); Inv(s, w') && Stable(s, w, w') && NewRow(s, w, w', t, row.token, text)
  {
    assert w.TableOf(t) == grown.TableOf(t);
    StoreRowKeeps(s, grown, t, row, now);
    SameDeksTransitive(s, w, grown, StoreRow(grown, t, row, now));
    assert RowsInv(s, w, t);
  }

  lemma InsertKeeps(s: Suite, w: World, h: nat, t: Table, text: Text, d: Draw, env: Env)
    requires Lawful(s) && Inv(s, w) && h < |w.hosts|
    requires Insert(s, w, h, t, text, d, env).Some?
    ensures var w' := Insert(s, w, h, t, text, d, env).value;
            && Inv(s, w') && Stable(s, w, w')
            && NewRow(s, w, w', t, d.token, text)
  {
    var grown, row := InsertIs(s, w, h, t, text, d, env);
    StoredKeeps(s, w, grown, t, row, text, env.now);
  }

  /** What is stored: a reserved row that every host reads as the text. */
  lemma InsertIs(s: Suite, w: World, h: nat, t: Table, text: Text, d: Draw, env: Env) returns (grown: World, row: TokenRow)
    requires Lawful(s) && Inv(s, w) && h < |w.hosts|
    requires Insert(s, w, h, t, text, d, env).Some?
    ensures row.dek in grown.deks && Insert(s, w, h, t, text, d, env) == Some(StoreRow(grown, t, row, env.now))
    ensures Inv(s, grown) && SameDeks(s, w, grown) && grown == w.(deks := grown.deks, nextDek := grown.nextDek)
    ensures row.token == d.token && !TokenTaken(w, t, d.token) && Selectable(grown.deks[row.dek], env.now)
    ensures forall i | 0 <= i < |w.hosts| :: ReadRow(s, grown, i, t, row) == Some(ReadsAs(t, text))
  {
    var active, kek, finish;
    active, kek, finish, grown, row := ReserveIs(s, w, h, t, text, d, env);
    ReservedRowReads(s, w, h, t, text, d.pad, kek, active, d.values, env.useCount, finish, grown, row);
  }

  /** w' has one more row in table t, with the given token, which every host reads as the text. */
  ghost predicate NewRow(s: Suite, w: World, w': World, t: Table, token: string, text: Text) {
    var id := w.TableOf(t).next;
    && id !in w.TableOf(t).rows && id in w'.TableOf(t).rows
    && w'.TableOf(t).rows == w.TableOf(t).rows[id := w'.TableOf(t).rows[id]]
    && w'.TableOf(t).rows[id].token == token
    && forall i | 0 <= i < |w'.hosts| :: ReadRow(s, w', i, t, w'.TableOf(t).rows[id]) == Some(ReadsAs(t, text))
  }

  /** Decoding undoes encoding and decrypting undoes encrypting, whichever host does it. */
  lemma FreshRowReads(s: Suite, w: World, h: nat, t: Table, text: Text, pad: string, row: TokenRow)
    requires Lawful(s) && Inv(s, w) && h < |w.hosts|
    requires s.encode(t, text, pad).Some? && OpenDek(s, w, h, row.dek).Some?
    requires s.encrypt(t, OpenDek(s, w, h, row.dek).value, s.encode(t, text, pad).value) == Some(row.crypted)
    ensures forall i | 0 <= i < |w.hosts| :: ReadRow(s, w, i, t, row) == Some(ReadsAs(t, text))
  {
    assert Ready(s, w, w.deks[row.dek].kek);
    forall i | 0 <= i < |w.hosts|
      ensures ReadRow(s, w, i, t, row) == Some(ReadsAs(t, text))
    {
      assert UsableKey(s, w, i, w.deks[row.dek].kek) == UsableKey(s, w, h, w.deks[row.dek].kek);
      assert OpenDek(s, w, i, row.dek) == OpenDek(s, w, h, row.dek);
    }
  }
}
