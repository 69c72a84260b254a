/**
 What tokenizing does to the data keys, row by row: the rows it adds, the one it uses, and how the
 pool comes to that one.
 */
module KeyUse {
  import opened Basics
  import opened KeyState
  import opened DekPool
  import opened TokenService
  import L = Lifecycle

  // ---------------------------------------------------------------- new keys

  /** A key made now lives for whole days. */
  lemma LifeIsWholeDays(now: int, period: int)
    ensures L.EndOfLife(now, period) == now + 86400 * period
  {
  }

  /** Rows for the values, one after the other from the next free id on, and no other change. */
  predicate Added(s: Suite, deks: map<int, DekRow>, next: int, key: Key, version: int, values: seq<Key>, maxCounter: int, finish: int,
                  deks': map<int, DekRow>) {
    && (forall id | id in deks' && !(next <= id < next + |values|) :: id in deks && deks'[id] == deks[id])
    && (forall id | id in deks && !(next <= id < next + |values|) :: id in deks')
    && forall j: nat | j < |values| :: AddedAt(s, next, key, version, values, maxCounter, finish, deks', j)
  }

  predicate AddedAt(s: Suite, next: int, key: Key, version: int, values: seq<Key>, maxCounter: int, finish: int, deks': map<int, DekRow>, j: nat)
    requires j < |values|
  {
    next + j in deks' && NewKey(s, key, version, values[j], maxCounter, finish, deks'[next + j])
  }

  /** An unused row with the value encrypted under the key. */
  predicate NewKey(s: Suite, key: Key, version: int, value: Key, maxCounter: int, finish: int, row: DekRow) {
    s.seal(key, value) == Some(row.wrapped) && row == DekRow(row.wrapped, version, 0, maxCounter, finish)
  }

  lemma {:induction false} AddsInOrder(s: Suite, w: World, key: Key, version: int, values: seq<Key>, maxCounter: int, finish: int)
    requires L.AddDeks(s, w, key, version, values, maxCounter, finish).Some?
    ensures var w' := L.AddDeks(s, w, key, version, values, maxCounter, finish).value;
            && w' == w.(deks := w'.deks, nextDek := w.nextDek + |values|)
            && Added(s, w.deks, w.nextDek, key, version, values, maxCounter, finish, w'.deks)
    decreases |values|
  {
    if values != [] {
      var row := L.NewDek(s, key, version, values[0], maxCounter, finish).value;
      var first := L.AddDek(w, row);
      AddsInOrder(s, first, key, version, values[1..], maxCounter, finish);
      var w' := L.AddDeks(s, w, key, version, values, maxCounter, finish).value;
      forall j: nat | j < |values|
        ensures AddedAt(s, w.nextDek, key, version, values, maxCounter, finish, w'.deks, j)
      {
        if j > 0 {
          assert AddedAt(s, first.nextDek, key, version, values[1..], maxCounter, finish, w'.deks, j - 1);
        }
      }
    }
  }

  // ---------------------------------------------------------------- the key used

  /** One more use of a row that has uses and life left; with the last use its life ends. */
  predicate UsedOnce(row: DekRow, row': DekRow, now: int) {
    && row.counter < row.maxCounter && now < row.finish
    && row' == row.(counter := row.counter + 1, finish := row'.finish)
    && row'.finish == if row.counter + 1 == row.maxCounter then now else row.finish
  }

  /**
   Tokenizing adds rows under the active version, with the uses and the days that are configured,
   uses the row drawn once, which may be a new one, and leaves all others as they are.
   */
  lemma KeysAfterInsert(s: Suite, w: World, h: nat, t: Table, text: Text, d: L.Draw, env: L.Env) returns (key: Key, deks: map<int, DekRow>)
    requires h < |w.hosts| && L.Insert(s, w, h, t, text, d, env).Some?
    ensures var w' := L.Insert(s, w, h, t, text, d, env).value;
            && ActiveVersion(w.db).Some? && UsableKey(s, w, h, ActiveVersion(w.db).value) == Some(key)
            && Added(s, w.deks, w.nextDek, key, ActiveVersion(w.db).value, d.values, env.useCount, env.now + 86400 * env.period, deks)
            && w'.nextDek == w.nextDek + |d.values|
            && d.pick in deks && d.pick in w'.deks && w'.deks == deks[d.pick := w'.deks[d.pick]]
            && UsedOnce(deks[d.pick], w'.deks[d.pick], env.now)
  {
    var active, finish := ActiveVersion(w.db).value, L.EndOfLife(env.now, env.period);
    key := UsableKey(s, w, h, active).value;
    LifeIsWholeDays(env.now, env.period);
    AddsInOrder(s, w, key, active, d.values, env.useCount, finish);
    deks := L.AddDeks(s, w, key, active, d.values, env.useCount, finish).value.deks;
  }

  // ---------------------------------------------------------------- the pool

  /** The uses left on a list are those left on its rows. */
  lemma {:induction false} UnusedAdds(deks: map<int, DekRow>, a: seq<int>, b: seq<int>)
    requires Known(deks, a + b)
    ensures Known(deks, a) && Known(deks, b) && Unused(deks, a + b) == Unused(deks, a) + Unused(deks, b)
    decreases |b|
  {
    assert forall id | id in a :: id in a + b;
    assert forall id | id in b :: id in a + b;
    if b == [] {
      assert a + b == a;
    } else {
      assert (a + b)[..|a + b| - 1] == a + b[..|b| - 1];
      assert forall id | id in a + b[..|b| - 1] :: id in a + b;
      UnusedAdds(deks, a, b[..|b| - 1]);
    }
  }

  lemma UnusedOfOne(deks: map<int, DekRow>, id: int)
    requires id in deks
    ensures Unused(deks, []) == 0 && Unused(deks, [id]) == deks[id].maxCounter - deks[id].counter
  {
    assert [id][..0] == [];
  }

  /** Each selectable row of the list in force is drawn by some index. */
  lemma EveryRowCanBeDrawn(s: Suite, w: World, key: Key, version: int, limits: Limits, active: seq<int>, v1: Key, v2: Key, now: int, id: int)
    returns (pick: nat)
    requires Known(w.deks, active) && Enough(s, w, key, version, limits, active, v1, v2, now).Some?
    requires var (w', active') := Enough(s, w, key, version, limits, active, v1, v2, now).value;
             id in active' && w'.deks[id].counter < w'.deks[id].maxCounter && now < w'.deks[id].finish
    ensures var (w', active') := Enough(s, w, key, version, limits, active, v1, v2, now).value;
            Obtain(s, w, key, version, limits, active, [pick], [(v1, v2)], now) == Row(w', active', id)
  {
    var active' := Enough(s, w, key, version, limits, active, v1, v2, now).value.1;
    pick :| 0 <= pick < |active'| && active'[pick] == id;
    SmallIndex(pick, |active'|);
  }

  // ---------------------------------------------------------------- the token

  /** A new token is the first candidate that no row of the table has. */
  lemma {:induction false} FreshTokenExactly(w: World, t: Table, tokens: seq<string>, i: nat)
    requires i < |tokens| && forall j | 0 <= j < i :: exists id | id in w.TableOf(t).rows :: w.TableOf(t).rows[id].token == tokens[j]
    ensures FreshToken(w, t, tokens) == Some(tokens[i]) <== forall id | id in w.TableOf(t).rows :: w.TableOf(t).rows[id].token != tokens[i]
    decreases i
  {
    if i > 0 {
      assert L.TokenTaken(w, t, tokens[0]);
      assert tokens[1..][i - 1] == tokens[i];
      forall j | 0 <= j < i - 1
        ensures exists id | id in w.TableOf(t).rows :: w.TableOf(t).rows[id].token == tokens[1..][j]
      {
        assert tokens[1..][j] == tokens[j + 1];
      }
      FreshTokenExactly(w, t, tokens[1..], i - 1);
    }
  }

  /** There is none when all of them are taken. */
  lemma {:induction false} NoFreshToken(w: World, t: Table, tokens: seq<string>)
    requires forall j | 0 <= j < |tokens| :: exists id | id in w.TableOf(t).rows :: w.TableOf(t).rows[id].token == tokens[j]
    ensures FreshToken(w, t, tokens) == None
    decreases |tokens|
  {
    if tokens != [] {
      assert L.TokenTaken(w, t, tokens[0]);
      forall j | 0 <= j < |tokens| - 1
        ensures exists id | id in w.TableOf(t).rows :: w.TableOf(t).rows[id].token == tokens[1..][j]
      {
        assert tokens[1..][j] == tokens[j + 1];
      }
      NoFreshToken(w, t, tokens[1..]);
    }
  }
}
