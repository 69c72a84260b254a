/** The state an installation starts in, and what therefore holds in every state it can reach. */
module Installation {
  import opened Basics
  import opened KeyState
  import opened Lifecycle
  import opened LifecycleSafety
  import opened TokenSafety

  /** The rows the data script installs: version 0 of both keys, confirmed and active. */
  function InitialConfig(part3: string, phrase: string, code: string, hmacRow: int): Config {
    map[ControlPhrase := phrase,
        KekVersion := ToText(0), Part3(0) := part3, ControlCode(0) := code,
        PartCheck(0, 1) := "1", PartCheck(0, 2) := "1", PartCheck(0, 3) := "1",
        HmacVersion := ToText(0), HmacId(0) := ToText(hmacRow)]
  }

  /** Part 1 is in the key keeper, part 2 on each host, and there are no tokens yet. */
  function Installed(db: Config, p1: string, p2: string, hosts: nat, hmacRow: int, wrapped: string, finish: int): World {
    World(db, map[0 := p1], seq(hosts, i => map[0 := p2]),
          map[hmacRow := DekRow(wrapped, 0, 0, 0, finish)], hmacRow + 1,
          TokenTable(map[], 1), TokenTable(map[], 1))
  }

  /** What the proofs need of the installed rows. */
  ghost predicate InitialRows(db: Config, part3: string, phrase: string, code: string, hmacRow: int) {
    && ControlPhrase in db && db[ControlPhrase] == phrase
    && Number(db, KekVersion) == Some(0) && KekTargetVersion !in db
    && (forall v :: Part3(v) in db <==> v == 0) && db[Part3(0)] == part3
    && ControlCode(0) in db && db[ControlCode(0)] == code
    && Checked(db, 0)
    && Number(db, HmacVersion) == Some(0)
    && (forall v :: HmacId(v) in db <==> v == 0) && Number(db, HmacId(0)) == Some(hmacRow)
  }

  lemma InitialConfigRows(part3: string, phrase: string, code: string, hmacRow: int)
    ensures InitialRows(InitialConfig(part3, phrase, code, hmacRow), part3, phrase, code, hmacRow)
  {
  }

  lemma InitialRowsAreGood(s: Suite, db: Config, p1: string, p2: string, p3: string, phrase: string, code: string, key: Key,
                           hmac: Key, hosts: nat, hmacRow: int, wrapped: string, finish: int)
    requires hosts > 0 && InitialRows(db, p3, phrase, code, hmacRow)
    requires s.assemble(p1, p2, p3) == Some(key) && s.seal(key, Latin(phrase)) == Some(code) && s.open(key, wrapped) == Some(hmac)
    ensures Inv(s, Installed(db, p1, p2, hosts, hmacRow, wrapped, finish))
  {
    var w := Installed(db, p1, p2, hosts, hmacRow, wrapped, finish);
    forall h | 0 <= h < hosts
      ensures UsableKey(s, w, h, 0) == Some(key)
    {
      assert MasterKey(s, w, h, 0) == s.assemble(p1, p2, p3);
    }
    assert OpenDek(s, w, 0, hmacRow) == Some(hmac);
    assert forall v | Present(w, v) :: v == 0;
  }

  /** Any three parts that assemble, with the codes their key gives, make a good state. */
  lemma InstalledIsGood(s: Suite, p1: string, p2: string, p3: string, phrase: string, hmac: Key, hosts: nat, hmacRow: int, finish: int)
    requires Lawful(s) && hosts > 0
    requires s.assemble(p1, p2, p3).Some?
    requires s.seal(s.assemble(p1, p2, p3).value, Latin(phrase)).Some?
    ensures var key := s.assemble(p1, p2, p3).value;
            && s.seal(key, hmac).Some?
            && Inv(s, Installed(InitialConfig(p3, phrase, s.seal(key, Latin(phrase)).value, hmacRow), p1, p2, hosts, hmacRow, s.seal(key, hmac).value, finish))
  {
    var key := s.assemble(p1, p2, p3).value;
    assert s.seal(key, hmac).Some?;
    var code := s.seal(key, Latin(phrase)).value;
    InitialConfigRows(p3, phrase, code, hmacRow);
    InitialRowsAreGood(s, InitialConfig(p3, phrase, code, hmacRow), p1, p2, p3, phrase, code, key, hmac, hosts, hmacRow, s.seal(key, hmac).value, finish);
  }

  /**
   In every reachable state the active version and the version of every key row are confirmed
   and give one valid key on every host, the target gives one too, and every key row opens to the
   same key everywhere.
   */
  lemma ReachableKeysAreSound(s: Suite, w: World, steps: seq<Step>)
    requires Lawful(s) && Inv(s, w)
    ensures var r := Run(s, w, steps);
            && |r.hosts| == |w.hosts|
            && ActiveVersion(r.db).Some?
            && Checked(r.db, ActiveVersion(r.db).value)
            && (forall h | 0 <= h < |r.hosts| :: IsKekValid(s, r, h, ActiveVersion(r.db).value))
            && (KekTargetVersion in r.db ==>
                  Number(r.db, KekTargetVersion).Some? && forall h | 0 <= h < |r.hosts| :: IsKekValid(s, r, h, Number(r.db, KekTargetVersion).value))
            && (forall id, h | id in r.deks && 0 <= h < |r.hosts| ::
                  && Checked(r.db, r.deks[id].kek) && IsKekValid(s, r, h, r.deks[id].kek)
                  && OpenDek(s, r, h, id).Some? && OpenDek(s, r, h, id) == OpenDek(s, r, 0, id))
  {
    RunKeeps(s, w, steps);
    var r := Run(s, w, steps);
    assert Ready(s, r, ActiveVersion(r.db).value);
    if KekTargetVersion in r.db {
      assert Ready(s, r, Number(r.db, KekTargetVersion).value);
    }
    forall id, h | id in r.deks && 0 <= h < |r.hosts|
      ensures IsKekValid(s, r, h, r.deks[id].kek)
      ensures OpenDek(s, r, h, id).Some? && OpenDek(s, r, h, id) == OpenDek(s, r, 0, id)
    {
      assert Ready(s, r, r.deks[id].kek);
    }
  }

  /** A row changes its version only by re-encryption, and only to a confirmed, valid version. */
  lemma RowsMoveToConfirmedVersions(s: Suite, w: World, step: Step, id: int)
    requires Inv(s, w) && id in w.deks && id in Next(s, w, step).deks
    requires Next(s, w, step).deks[id].kek != w.deks[id].kek
    ensures step.DoReencrypt? && step.h < |w.hosts|
    ensures var v := Next(s, w, step).deks[id].kek;
            && Some(v) == SwitchVersion(w.db) && Checked(w.db, v)
            && forall h | 0 <= h < |w.hosts| :: IsKekValid(s, w, h, v)
  {
    var v := Next(s, w, step).deks[id].kek;
    assert Present(w, v) ==> Ready(s, w, v);
    if step.h < |w.hosts| && step.DoTokenize? {
      TokenizeKeepsVersions(s, w, step.h, step.t, step.text, step.dedup, step.draw, step.env, id);
    }
  }

  lemma TokenizeKeepsVersions(s: Suite, w: World, h: nat, t: Table, text: Text, dedup: bool, d: Draw, env: Env, id: int)
    requires h < |w.hosts| && id in w.deks && id < w.nextDek
    ensures var next := Tokenize(s, w, h, t, text, dedup, d, env);
            next.Some? ==> id in next.value.0.deks && next.value.0.deks[id].kek == w.deks[id].kek
  {
    if UsableKeyOf(s, w, h).Some? {
      var (key, v) := UsableKeyOf(s, w, h).value;
      AddDeksKeepsRow(s, w, key, v, d.values, env.useCount, EndOfLife(env.now, env.period), id);
    }
  }

  function UsableKeyOf(s: Suite, w: World, h: nat): Option<(Key, int)>
    requires h < |w.hosts|
  {
    match ActiveVersion(w.db)
    case None => None
    case Some(v) => if UsableKey(s, w, h, v).Some? then Some((UsableKey(s, w, h, v).value, v)) else None
  }

  lemma {:induction false} AddDeksKeepsRow(s: Suite, w: World, key: Key, v: int, values: seq<Key>, maxCounter: int, finish: int, id: int)
    requires id in w.deks && id < w.nextDek
    ensures var next := AddDeks(s, w, key, v, values, maxCounter, finish);
            next.Some? ==> id in next.value.deks && next.value.deks[id] == w.deks[id]
    decreases |values|
  {
    if values != [] && NewDek(s, key, v, values[0], maxCounter, finish).Some? {
      AddDeksKeepsRow(s, AddDek(w, NewDek(s, key, v, values[0], maxCounter, finish).value), key, v, values[1..], maxCounter, finish, id);
    }
  }
}
