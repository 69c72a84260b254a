/** When a token can be made: in every state of the lifecycle, unless the pool's list is stuck. */
module Availability {
  import opened Basics
  import opened KeyState
  import opened Lifecycle
  import opened LifecycleSafety
  import opened DekPool
  import opened TokenService
  import Dedup

  /** The suite packs the text, and takes the block under any key. */
  ghost predicate Packs(s: Suite, t: Table, text: Text, pad: string) {
    s.encode(t, text, pad).Some? && forall dek: Key :: s.encrypt(t, dek, s.encode(t, text, pad).value).Some?
  }

  predicate SomeFree(w: World, t: Table, tokens: seq<string>) {
    exists token | token in tokens :: !TokenTaken(w, t, token)
  }

  lemma {:induction false} FreshWhenFree(w: World, t: Table, tokens: seq<string>)
    ensures FreshToken(w, t, tokens).Some? <==> SomeFree(w, t, tokens)
  {
    if tokens != [] {
      FreshWhenFree(w, t, tokens[1..]);
      assert tokens[0] in tokens && forall token | token in tokens[1..] :: token in tokens;
      assert forall token | token in tokens :: token == tokens[0] || token in tokens[1..];
    }
  }

  lemma ActiveKeyUsable(s: Suite, w: World, h: nat)
    requires Inv(s, w) && h < |w.hosts|
    ensures ActiveVersion(w.db).Some? && Trusted(w, ActiveVersion(w.db).value)
    ensures UsableKey(s, w, h, ActiveVersion(w.db).value).Some?
  {
    assert Ready(s, w, ActiveVersion(w.db).value);
  }

  lemma ActiveDigestKnown(s: Suite, w: World, h: nat)
    requires Inv(s, w) && h < |w.hosts|
    ensures Number(w.db, HmacVersion).Some? && HmacKey(s, w, h, Number(w.db, HmacVersion).value).Some?
  {
    Dedup.HmacKeyIsDek(s, w, h, Number(w.db, HmacVersion).value);
  }

  lemma RowOpens(s: Suite, w: World, h: nat, id: int)
    requires Inv(s, w) && h < |w.hosts| && id in w.deks
    ensures OpenDek(s, w, h, id).Some?
  {
    assert Ready(s, w, w.deks[id].kek);
    assert OpenDek(s, w, h, id) == OpenDek(s, w, 0, id);
  }

  /** A good state has what a call needs before it asks the pool. */
  lemma AlwaysPrepared(s: Suite, w: World, h: nat, t: Table, text: Text, pool: Option<PoolState>, u: Supply)
    requires Inv(s, w) && h < |w.hosts| && Packs(s, t, text, u.pad) && Fits(s, w, h, pool)
    ensures Prepare(s, w, h, t, text, u).Some? && PoolFor(s, w, h, pool).Some?
    ensures Prepare(s, w, h, t, text, u).value.block == s.encode(t, text, u.pad).value
  {
    ActiveDigestKnown(s, w, h);
    ActiveKeyUsable(s, w, h);
  }

  /** Every row the pool can hand out opens, on every host. */
  lemma ObtainedOpens(s: Suite, w: World, h: nat, q: PoolState, limits: Limits, picks: seq<nat>, spare: seq<(Key, Key)>, now: int)
    requires Lawful(s) && Inv(s, w) && h < |w.hosts| && Known(w.deks, q.active) && Fits(s, w, h, Some(q))
    requires Obtain(s, w, q.master, q.version, limits, q.active, picks, spare, now).Row?
    ensures var r := Obtain(s, w, q.master, q.version, limits, q.active, picks, spare, now);
            OpenDek(s, r.w, h, r.id).Some?
  {
    var r := Obtain(s, w, q.master, q.version, limits, q.active, picks, spare, now);
    var values := ObtainedIsDrawn(s, w, q.master, q.version, limits, q.active, picks, spare, now);
    ActiveKeyUsable(s, w, h);
    AddDeksKeeps(s, w, h, q.master, q.version, values, limits.useCount, EndOfLife(now, limits.period));
    RowOpens(s, r.w, h, r.id);
  }

  /** A row obtained that opens is all that the rest of the call needs. */
  lemma FinishExactly(s: Suite, w: World, h: nat, t: Table, limits: Limits, u: Supply, p: Ticket, q: PoolState, now: int)
    requires h < |w.hosts| && Known(w.deks, q.active) && FreshToken(w, t, u.tokens).Some?
    requires forall dek: Key :: s.encrypt(t, dek, p.block).Some?
    requires var r := Obtain(s, w, q.master, q.version, limits, q.active, u.picks, u.spare, now);
             r.Row? ==> OpenDek(s, r.w, h, r.id).Some?
    ensures Finish(s, w, h, t, limits, u, p, q, now).Some?
            <==> Obtain(s, w, q.master, q.version, limits, q.active, u.picks, u.spare, now).Row?
  {
  }

  /** In a good state only the pool decides whether a row can be made. */
  lemma CreateSucceedsExactly(s: Suite, w: World, h: nat, t: Table, text: Text, limits: Limits, pool: Option<PoolState>, u: Supply, now: int)
    requires Lawful(s) && Inv(s, w) && h < |w.hosts| && PoolKnown(w, pool) && Fits(s, w, h, pool)
    requires Packs(s, t, text, u.pad) && SomeFree(w, t, u.tokens)
    ensures PoolFor(s, w, h, pool).Some?
    ensures var q := PoolFor(s, w, h, pool).value;
            Create(s, w, h, t, text, limits, pool, u, now).Some?
            <==> Obtain(s, w, q.master, q.version, limits, q.active, u.picks, u.spare, now).Row?
  {
    AlwaysPrepared(s, w, h, t, text, pool, u);
    FreshWhenFree(w, t, u.tokens);
    var q := PoolFor(s, w, h, pool).value;
    if Obtain(s, w, q.master, q.version, limits, q.active, u.picks, u.spare, now).Row? {
      ObtainedOpens(s, w, h, q, limits, u.picks, u.spare, now);
    }
    FinishExactly(s, w, h, t, limits, u, Prepare(s, w, h, t, text, u).value, q, now);
  }

  function Candidates(pool: Option<PoolState>): seq<int> {
    if pool == None then [] else pool.value.active
  }

  /** Some choices of the generator let the call make a row with this token. */
  ghost predicate Creatable(s: Suite, w: World, h: nat, t: Table, text: Text, limits: Limits, pool: Option<PoolState>,
                            pad: string, noise: string, token: string, now: int)
    requires h < |w.hosts| && PoolKnown(w, pool)
  {
    exists picks: seq<nat>, spare: seq<(Key, Key)> ::
      Create(s, w, h, t, text, limits, pool, Supply(picks, spare, pad, noise, [token]), now).Some?
  }

  /**
   In every good state a host can make a token exactly when its pool has a row at hand: it keeps
   a list that holds a selectable row, or gets a new one that does.
   */
  lemma CreatableExactly(s: Suite, w: World, h: nat, t: Table, text: Text, limits: Limits, pool: Option<PoolState>,
                         pad: string, noise: string, token: string, now: int)
    requires Lawful(s) && Inv(s, w) && h < |w.hosts| && PoolKnown(w, pool) && Fits(s, w, h, pool)
    requires Packs(s, t, text, pad) && !TokenTaken(w, t, token)
    ensures Creatable(s, w, h, t, text, limits, pool, pad, noise, token, now) <==> RowAtHand(w, limits, Candidates(pool), now)
  {
    AlwaysPrepared(s, w, h, t, text, pool, Supply([], [], pad, noise, [token]));
    var q := PoolFor(s, w, h, pool).value;
    ObtainableExactly(s, w, q.master, q.version, limits, q.active, now);
    forall picks: seq<nat>, spare: seq<(Key, Key)>
      ensures Create(s, w, h, t, text, limits, pool, Supply(picks, spare, pad, noise, [token]), now).Some?
              <==> Obtain(s, w, q.master, q.version, limits, q.active, picks, spare, now).Row?
    {
      assert token in [token];
      CreateSucceedsExactly(s, w, h, t, text, limits, pool, Supply(picks, spare, pad, noise, [token]), now);
    }
  }

  /** With positive limits the first draw of a new pool gives a row, whichever it is. */
  lemma NewPoolObtains(s: Suite, w: World, h: nat, q: PoolState, limits: Limits, picks: seq<nat>, spare: seq<(Key, Key)>, now: int)
    requires Lawful(s) && q.active == [] && picks != [] && spare != [] && w.nextDek !in w.deks && w.nextDek + 1 !in w.deks
    requires limits.minActive > 0 && limits.useCount > 0 && limits.period > 0
    ensures Obtain(s, w, q.master, q.version, limits, q.active, picks, spare, now).Row?
  {
    var (v1, v2) := spare[0];
    SealedTwice(s, w, q.master, q.version, v1, v2, limits.useCount, EndOfLife(now, limits.period));
    PositiveLimitsNeverEmpty(s, w, q.master, q.version, limits, [], v1, v2, now);
    FirstDrawCounts(s, w, q.master, q.version, limits, [], picks, spare, now);
  }

  /**
   In every good state, on every host, with positive limits, a call of a new Tokenizer succeeds
   for every draw that has a row choice, two spare values and a token nobody has.
   */
  lemma TokenizeAvailable(s: Suite, w: World, h: nat, t: Table, text: Text, dedup: bool, limits: Limits, u: Supply, now: int)
    requires Lawful(s) && Inv(s, w) && h < |w.hosts| && Packs(s, t, text, u.pad) && SomeFree(w, t, u.tokens)
    requires limits.minActive > 0 && limits.useCount > 0 && limits.period > 0 && u.picks != [] && u.spare != []
    ensures TokenizeWith(s, w, h, t, text, dedup, limits, None, u, now).Some?
    ensures Create(s, w, h, t, text, limits, None, u, now).Some?
  {
    CreateSucceedsExactly(s, w, h, t, text, limits, None, u, now);
    NewPoolObtains(s, w, h, PoolFor(s, w, h, None).value, limits, u.picks, u.spare, now);
    SearchAnswers(s, w, h, t, text);
  }

  lemma SearchAnswers(s: Suite, w: World, h: nat, t: Table, text: Text)
    requires Inv(s, w) && h < |w.hosts|
    ensures Search(s, w, h, t, text).Some?
  {
    ActiveDigestKnown(s, w, h);
  }

  // ---------------------------------------------------------------- a kept list that no draw gets past

  /** The pool of a first call that had to make its rows: two of them, one used once. */
  ghost predicate TwoRows(w: World, m: Made, limits: Limits, finish: int) {
    var a, b := w.nextDek, w.nextDek + 1;
    && m.pool.Some? && m.pool.value.active == [a, b] && a in m.w.deks && b in m.w.deks
    && m.w.deks[a].maxCounter == m.w.deks[b].maxCounter == limits.useCount
    && m.w.deks[a].counter + m.w.deks[b].counter == 1
    && m.w.deks[a].finish <= finish && m.w.deks[b].finish <= finish
  }

  lemma TwoSorted(a: int)
    ensures Sorted({a, a + 1}) == [a, a + 1]
  {
    var both, last := {a, a + 1}, {a + 1};
    assert a in both && a + 1 in both && MinOf(both) == a && both - {a} == last;
    assert a + 1 in last && MinOf(last) == a + 1 && last - {a + 1} == {};
    assert Sorted(last) == [a + 1] + Sorted({});
  }

  /** What the round of such a call ends with. */
  lemma FirstRound(s: Suite, w: World, key: Key, version: int, limits: Limits, picks: seq<nat>, spare: seq<(Key, Key)>, now: int)
    requires Lawful(s) && w.nextDek !in w.deks && w.nextDek + 1 !in w.deks && SelectableIds(w.deks, now) == {}
    requires limits.minActive > 0 && limits.useCount > 0 && limits.period > 0 && picks != [] && spare != []
    ensures var r, a, b := Obtain(s, w, key, version, limits, [], picks, spare, now), w.nextDek, w.nextDek + 1;
            && r.Row? && r.active == [a, b] && r.id in [a, b]
            && forall id | id in [a, b] ::
                 id in r.w.deks && r.w.deks[id].counter == 0 && r.w.deks[id].maxCounter == limits.useCount
                 && r.w.deks[id].finish == EndOfLife(now, limits.period)
  {
    var a, b, finish := w.nextDek, w.nextDek + 1, EndOfLife(now, limits.period);
    var (v1, v2) := spare[0];
    SealedTwice(s, w, key, version, v1, v2, limits.useCount, finish);
    TwoMore(s, w, key, version, v1, v2, limits.useCount, finish);
    var grown := AddDeks(s, w, key, version, [v1, v2], limits.useCount, finish).value;
    assert finish > now;
    assert forall id | id in w.deks :: !Selectable(w.deks[id], now) by {
      assert forall id | id in w.deks && Selectable(w.deks[id], now) :: id in SelectableIds(w.deks, now);
    }
    forall id | id in grown.deks
      ensures Selectable(grown.deks[id], now) <==> id == a || id == b
    {
      if id !in w.deks {
        assert grown.deks[id].counter == 0 && grown.deks[id].finish == finish;
      }
    }
    assert SelectableIds(grown.deks, now) == {a, b};
    TwoSorted(a);
    SortedEmpty(SelectableIds(w.deks, now));
    assert Enough(s, w, key, version, limits, [], v1, v2, now) == Some((grown, [a, b]));
    var id := [a, b][picks[0] % 2];
    assert Selectable(grown.deks[id], now);
  }

  /** The first call of a new Tokenizer where no row is selectable. */
  lemma FirstCall(s: Suite, w: World, h: nat, t: Table, text: Text, limits: Limits, u: Supply, now: int) returns (m: Made)
    requires Lawful(s) && Inv(s, w) && h < |w.hosts| && Packs(s, t, text, u.pad) && SomeFree(w, t, u.tokens)
    requires limits.minActive > 0 && limits.useCount > 0 && limits.period > 0 && u.picks != [] && u.spare != []
    requires SelectableIds(w.deks, now) == {}
    ensures Create(s, w, h, t, text, limits, None, u, now) == Some(m) && TwoRows(w, m, limits, EndOfLife(now, limits.period))
  {
    CreateSucceedsExactly(s, w, h, t, text, limits, None, u, now);
    var q := PoolFor(s, w, h, None).value;
    FirstRound(s, w, q.master, q.version, limits, u.picks, u.spare, now);
    m := Create(s, w, h, t, text, limits, None, u, now).value;
  }

  /** When the life of the two rows ends, the kept list is made anew exactly when it has too few uses. */
  lemma TwoRowsStick(w: World, m: Made, limits: Limits, finish: int)
    requires TwoRows(w, m, limits, finish) && limits.minActive > 0 && limits.useCount > 0 && limits.period > 0
    requires Known(m.w.deks, m.pool.value.active)
    ensures RowAtHand(m.w, limits, m.pool.value.active, finish) <==> limits.minActive >= 2 * limits.useCount
    ensures RowAtHand(m.w, limits, [], finish)
  {
    var a, b := w.nextDek, w.nextDek + 1;
    var deks := m.w.deks;
    assert [a, b][..1] == [a] && [a][..0] == [] && b in [a, b] && a in [a];
    assert Known(deks, [a]) && Unused(deks, [a]) == deks[a].maxCounter - deks[a].counter;
    assert Unused(deks, [a, b]) == 2 * limits.useCount - 1;
    assert forall id | id in [a, b] :: !Selectable(deks[id], finish);
    var ids := SelectableIds(deks, finish);
    SortedEmpty(ids);
    if ids != {} {
      var id := Pick(ids);
      assert id in Sorted(ids) && Selectable(deks[id], finish);
    }
  }

  /** A row made by the call keeps the state good and the pool in use. */
  lemma CreateKeeps(s: Suite, w: World, h: nat, t: Table, text: Text, limits: Limits, u: Supply, now: int, m: Made)
    requires Lawful(s) && Inv(s, w) && h < |w.hosts| && Create(s, w, h, t, text, limits, None, u, now) == Some(m)
    ensures Inv(s, m.w) && |m.w.hosts| == |w.hosts| && PoolKnown(m.w, m.pool) && Fits(s, m.w, h, m.pool)
    ensures forall token | !TokenTaken(w, t, token) && token !in u.tokens :: !TokenTaken(m.w, t, token)
  {
    var d := CreateIsInsert(s, w, h, t, text, limits, None, u, now);
    InsertKeeps(s, w, h, t, text, d, Env(now, limits.useCount, limits.period));
    FreshIsListed(w, t, u.tokens);
  }

  lemma {:induction false} FreshIsListed(w: World, t: Table, tokens: seq<string>)
    ensures FreshToken(w, t, tokens).Some? ==> FreshToken(w, t, tokens).value in tokens
  {
    if tokens != [] {
      FreshIsListed(w, t, tokens[1..]);
      assert forall token | token in tokens[1..] :: token in tokens;
    }
  }

  /**
   get_token around the moment at which the keys of its first tokenize call expire, in a good state
   without selectable rows: unless two fresh rows are too few for the minimum, no choice of the
   generator lets the second call end with a row, though it could in a new Tokenizer.
   */
  lemma SecondCallExactly(s: Suite, w: World, h: nat, t: Table, first: Text, second: Text, limits: Limits, u: Supply,
                          pad: string, noise: string, token: string, now: int, later: int) returns (m: Made)
    requires Lawful(s) && Inv(s, w) && h < |w.hosts| && SelectableIds(w.deks, now) == {} && later >= EndOfLife(now, limits.period)
    requires limits.minActive > 0 && limits.useCount > 0 && limits.period > 0 && u.picks != [] && u.spare != []
    requires Packs(s, t, first, u.pad) && SomeFree(w, t, u.tokens)
    requires Packs(s, t, second, pad) && !TokenTaken(w, t, token) && token !in u.tokens
    ensures Create(s, w, h, t, first, limits, None, u, now) == Some(m) && |m.w.hosts| == |w.hosts| && PoolKnown(m.w, m.pool)
    ensures Creatable(s, m.w, h, t, second, limits, m.pool, pad, noise, token, later) <==> limits.minActive >= 2 * limits.useCount
    ensures Creatable(s, m.w, h, t, second, limits, None, pad, noise, token, later)
  {
    m := FirstCall(s, w, h, t, first, limits, u, now);
    CreateKeeps(s, w, h, t, first, limits, u, now, m);
    TwoRowsStick(w, m, limits, later);
    CreatableExactly(s, m.w, h, t, second, limits, m.pool, pad, noise, token, later);
    CreatableExactly(s, m.w, h, t, second, limits, None, pad, noise, token, later);
  }
}
