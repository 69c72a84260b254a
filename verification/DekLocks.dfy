/**
 The use limits of data keys under interleaved sessions. A session fills its list, locks rows
 one at a time, uses them, and commits or aborts; the database keeps a row locked until then.
 Every interleaving of these steps is a run.
 */
module DekLocks {
  import opened Basics
  import opened KeyState
  import L = Lifecycle

  /**
   One open session: its list of candidates, its own copies of the rows it has locked or
   inserted, the encryptions not committed yet, and the row it has selected but not used.
   */
  datatype Session = Session(
    list: seq<int>,
    mine: map<int, DekRow>,
    added: set<int>,
    pending: map<int, nat>,
    chosen: Option<int>)

  /** `used` counts the committed encryptions under each row. */
  datatype State = State(rows: map<int, DekRow>, used: map<int, nat>, next: int, open: map<int, Session>)

  datatype Step =
    | Begin(sid: int)
    | Fill(sid: int, now: int)
    | Generate(sid: int, row: DekRow)
    | LockAndRefresh(sid: int, choice: nat, now: int)
    | Use(sid: int, now: int)
    | Commit(sid: int)
    | Abort(sid: int)

  function Count(uses: map<int, nat>, id: int): nat {
    if id in uses then uses[id] else 0
  }

  /** The rows a session sees: its own copies over the committed ones. */
  function View(st: State, ses: Session): map<int, DekRow> {
    st.rows + ses.mine
  }

  predicate LockedByOther(st: State, sid: int, id: int) {
    exists other | other in st.open && other != sid :: id in st.open[other].mine
  }

  function AllUses(a: map<int, nat>, b: map<int, nat>): map<int, nat> {
    map id | id in a.Keys + b.Keys :: Count(a, id) + Count(b, id)
  }

  /** lock_and_refresh of the candidate at `choice`, then the check of get_active_data_key. */
  function Lock(st: State, sid: int, choice: nat, now: int): Session
    requires sid in st.open
  {
    var ses := st.open[sid];
    if ses.list == [] then ses
    else
      var id := ses.list[choice % |ses.list|];
      if id !in View(st, ses) || LockedByOther(st, sid, id) then ses
      else
        var row := View(st, ses)[id];
        ses.(mine := ses.mine[id := row], chosen := if L.Selectable(row, now) then Some(id) else None)
  }

  /** use_dek of the selected row. */
  function UseChosen(ses: Session, now: int): Session {
    match ses.chosen
    case None => ses
    case Some(id) =>
      if id !in ses.mine then ses
      else
        ses.(mine := ses.mine[id := L.UseDek(ses.mine[id], now)],
             pending := ses.pending[id := Count(ses.pending, id) + 1],
             chosen := None)
  }

  function Next(st: State, step: Step): State {
    match step
    case Begin(sid) =>
      if sid in st.open then st else st.(open := st.open[sid := Session([], map[], {}, map[], None)])
    case Fill(sid, now) =>
      if sid !in st.open then st
      else
        var ses := st.open[sid];
        var ids := set id | id in View(st, ses) && L.Selectable(View(st, ses)[id], now);
        st.(open := st.open[sid := ses.(list := Sorted(ids))])
    case Generate(sid, row) =>
      if sid !in st.open then st
      else
        var ses := st.open[sid];
        st.(next := st.next + 1,
            open := st.open[sid := ses.(mine := ses.mine[st.next := row.(counter := 0)], added := ses.added + {st.next})])
    case LockAndRefresh(sid, choice, now) =>
      if sid !in st.open then st else st.(open := st.open[sid := Lock(st, sid, choice, now)])
    case Use(sid, now) =>
      if sid !in st.open then st else st.(open := st.open[sid := UseChosen(st.open[sid], now)])
    case Commit(sid) =>
      if sid !in st.open then st
      else
        var ses := st.open[sid];
        st.(rows := View(st, ses), used := AllUses(st.used, ses.pending), open := st.open - {sid})
    case Abort(sid) => st.(open := st.open - {sid})
  }

  function Run(st: State, steps: seq<Step>): State {
    if steps == [] then st else Next(Run(st, steps[..|steps| - 1]), steps[|steps| - 1])
  }

  // ---------------------------------------------------------------- the invariant

  /** The most a row may be used: never, when its limit is not positive. */
  function Budget(r: DekRow): nat {
    if r.maxCounter > 0 then r.maxCounter else 0
  }

  predicate RowsWithinBudget(st: State) {
    forall id | id in st.rows :: Count(st.used, id) == st.rows[id].counter <= Budget(st.rows[id])
  }

  predicate UsesAreOfRows(st: State) {
    && (forall id | id in st.used :: id in st.rows)
    && (forall id | id in st.rows :: id < st.next)
  }

  /** A session's copy is the committed row plus its own uses. */
  predicate CopyIsTrue(st: State, ses: Session, id: int)
    requires id in ses.mine
  {
    var row := ses.mine[id];
    && id < st.next
    && row.counter == Count(st.used, id) + Count(ses.pending, id) <= Budget(row)
    && (id in st.rows ==> row.maxCounter == st.rows[id].maxCounter)
    && (id in st.rows || id in ses.added)
  }

  predicate SessionOk(st: State, ses: Session) {
    && (forall id | id in ses.mine :: CopyIsTrue(st, ses, id))
    && (forall id | id in ses.pending :: id in ses.mine)
    && (forall id | id in ses.added :: id in ses.mine && id !in st.rows)
    && (ses.chosen.Some? ==> ses.chosen.value in ses.mine && ses.mine[ses.chosen.value].counter < ses.mine[ses.chosen.value].maxCounter)
  }

  /** No row is locked twice. */
  predicate Disjoint(st: State) {
    forall a, b | a in st.open && b in st.open && a != b :: st.open[a].mine.Keys !! st.open[b].mine.Keys
  }

  predicate Inv(st: State) {
    && RowsWithinBudget(st)
    && UsesAreOfRows(st)
    && (forall sid | sid in st.open :: SessionOk(st, st.open[sid]))
    && Disjoint(st)
  }

  // ---------------------------------------------------------------- every step keeps it

  /** A step that changes one session only, within the rows it may lock. */
  lemma OneSessionKeeps(st: State, sid: int, ses: Session, next: int)
    requires Inv(st) && next >= st.next
    requires SessionOk(st.(next := next), ses)
    requires forall id | id in ses.mine :: !LockedByOther(st, sid, id)
    ensures Inv(st.(next := next, open := st.open[sid := ses]))
  {
    var st' := st.(next := next, open := st.open[sid := ses]);
    forall a | a in st'.open
      ensures SessionOk(st', st'.open[a])
    {
      if a != sid {
        assert SessionOk(st, st.open[a]);
        assert forall id | id in st.open[a].mine :: CopyIsTrue(st, st.open[a], id);
      } else {
        assert forall id | id in ses.mine :: CopyIsTrue(st.(next := next), ses, id);
      }
    }
    forall a, b | a in st'.open && b in st'.open && a != b
      ensures st'.open[a].mine.Keys !! st'.open[b].mine.Keys
    {
      if a == sid || b == sid {
        var other := if a == sid then b else a;
        assert forall id | id in ses.mine :: id !in st.open[other].mine;
      }
    }
  }

  lemma LockedRowsAreOld(st: State, sid: int)
    requires Inv(st) && sid in st.open
    ensures st.next !in st.open[sid].mine
  {
    assert SessionOk(st, st.open[sid]);
    assert forall id | id in st.open[sid].mine :: CopyIsTrue(st, st.open[sid], id);
  }

  lemma OwnRowsUnlockedElsewhere(st: State, sid: int)
    requires Inv(st) && sid in st.open
    ensures forall id | id in st.open[sid].mine :: !LockedByOther(st, sid, id)
  {
    forall id | id in st.open[sid].mine
      ensures !LockedByOther(st, sid, id)
    {
      forall other | other in st.open && other != sid
        ensures id !in st.open[other].mine
      {
        assert st.open[sid].mine.Keys !! st.open[other].mine.Keys;
      }
    }
  }

  lemma GenerateKeeps(st: State, sid: int, row: DekRow)
    requires Inv(st) && sid in st.open
    ensures Inv(Next(st, Generate(sid, row)))
  {
    var ses := st.open[sid];
    var id0 := st.next;
    var ses' := ses.(mine := ses.mine[id0 := row.(counter := 0)], added := ses.added + {id0});
    OwnRowsUnlockedElsewhere(st, sid);
    assert SessionOk(st, ses);
    assert id0 !in ses.pending;
    forall id | id in ses'.mine
      ensures CopyIsTrue(st.(next := id0 + 1), ses', id)
    {
      if id != id0 {
        assert CopyIsTrue(st, ses, id);
      }
    }
    forall other | other in st.open
      ensures id0 !in st.open[other].mine
    {
      LockedRowsAreOld(st, other);
    }
    OneSessionKeeps(st, sid, ses', id0 + 1);
  }

  lemma LockKeeps(st: State, sid: int, choice: nat, now: int)
    requires Inv(st) && sid in st.open
    ensures Inv(Next(st, LockAndRefresh(sid, choice, now)))
  {
    var ses := st.open[sid];
    var ses' := Lock(st, sid, choice, now);
    OwnRowsUnlockedElsewhere(st, sid);
    assert SessionOk(st, ses);
    forall id | id in ses'.mine
      ensures CopyIsTrue(st, ses', id)
    {
      if id in ses.mine {
        assert CopyIsTrue(st, ses, id);
      }
    }
    OneSessionKeeps(st, sid, ses', st.next);
  }

  lemma UseKeeps(st: State, sid: int, now: int)
    requires Inv(st) && sid in st.open
    ensures Inv(Next(st, Use(sid, now)))
  {
    var ses := st.open[sid];
    var ses' := UseChosen(ses, now);
    OwnRowsUnlockedElsewhere(st, sid);
    assert SessionOk(st, ses);
    forall id | id in ses'.mine
      ensures CopyIsTrue(st, ses', id)
    {
      assert CopyIsTrue(st, ses, id);
    }
    OneSessionKeeps(st, sid, ses', st.next);
  }

  lemma CommitKeeps(st: State, sid: int)
    requires Inv(st) && sid in st.open
    ensures Inv(Next(st, Commit(sid)))
  {
    var ses := st.open[sid];
    var st' := Next(st, Commit(sid));
    assert SessionOk(st, ses);
    forall id | id in st'.rows
      ensures Count(st'.used, id) == st'.rows[id].counter <= Budget(st'.rows[id]) && id < st.next
    {
      if id in ses.mine {
        assert CopyIsTrue(st, ses, id);
      }
    }
    forall a | a in st'.open
      ensures SessionOk(st', st'.open[a])
    {
      OthersUnmoved(st, sid, a);
    }
    assert Disjoint(st') by {
      forall a, b | a in st'.open && b in st'.open && a != b
        ensures st'.open[a].mine.Keys !! st'.open[b].mine.Keys
      {
        assert a in st.open && b in st.open;
      }
    }
  }

  /** A commit does not touch what another session has locked. */
  lemma OthersUnmoved(st: State, sid: int, a: int)
    requires Inv(st) && sid in st.open && a in st.open && a != sid
    ensures SessionOk(Next(st, Commit(sid)), st.open[a])
  {
    var ses, other := st.open[sid], st.open[a];
    var st' := Next(st, Commit(sid));
    assert SessionOk(st, ses) && SessionOk(st, other);
    assert ses.mine.Keys !! other.mine.Keys;
    forall id | id in other.mine
      ensures CopyIsTrue(st', other, id) && (id in st'.rows <==> id in st.rows)
    {
      assert CopyIsTrue(st, other, id);
      assert id !in ses.mine;
    }
  }

  lemma AbortKeeps(st: State, sid: int)
    requires Inv(st)
    ensures Inv(Next(st, Abort(sid)))
  {
    var st' := Next(st, Abort(sid));
    forall a | a in st'.open
      ensures SessionOk(st', st'.open[a])
    {
      assert SessionOk(st, st.open[a]);
      assert forall id | id in st.open[a].mine :: CopyIsTrue(st, st.open[a], id);
    }
  }

  lemma NextKeeps(st: State, step: Step)
    requires Inv(st)
    ensures Inv(Next(st, step))
  {
    match step {
      case Begin(sid) =>
        if sid !in st.open {
          OneSessionKeeps(st, sid, Session([], map[], {}, map[], None), st.next);
        }
      case Fill(sid, now) =>
        if sid in st.open {
          var ses := Next(st, step).open[sid];
          OwnRowsUnlockedElsewhere(st, sid);
          assert SessionOk(st, st.open[sid]);
          assert forall id | id in ses.mine :: CopyIsTrue(st, st.open[sid], id);
          OneSessionKeeps(st, sid, ses, st.next);
        }
      case Generate(sid, row) =>
        if sid in st.open { GenerateKeeps(st, sid, row); }
      case LockAndRefresh(sid, choice, now) =>
        if sid in st.open { LockKeeps(st, sid, choice, now); }
      case Use(sid, now) =>
        if sid in st.open { UseKeeps(st, sid, now); }
      case Commit(sid) =>
        if sid in st.open { CommitKeeps(st, sid); }
      case Abort(sid) =>
        AbortKeeps(st, sid);
    }
  }

  lemma {:induction false} RunKeeps(st: State, steps: seq<Step>)
    requires Inv(st)
    ensures Inv(Run(st, steps))
  {
    if steps != [] {
      RunKeeps(st, steps[..|steps| - 1]);
      NextKeeps(Run(st, steps[..|steps| - 1]), steps[|steps| - 1]);
    }
  }

  // ---------------------------------------------------------------- what runs guarantee

  /** A table of unused rows with no session open. */
  predicate Initial(st: State) {
    && st.open == map[] && st.used == map[]
    && forall id | id in st.rows :: id < st.next && st.rows[id].counter == 0
  }

  /** Under every interleaving the committed encryptions equal the counter and stay in the budget. */
  lemma UsesStayInBudget(st: State, steps: seq<Step>, id: int)
    requires Initial(st) && id in Run(st, steps).rows
    ensures var end := Run(st, steps);
            Count(end.used, id) == end.rows[id].counter <= Budget(end.rows[id])
  {
    RunKeeps(st, steps);
  }

  /** Counting the open encryptions too: at most one session has any, and the budget covers them. */
  lemma OpenUsesStayInBudget(st: State, steps: seq<Step>, sid: int, id: int)
    requires Initial(st)
    requires sid in Run(st, steps).open && Count(Run(st, steps).open[sid].pending, id) > 0
    ensures var end := Run(st, steps);
            && id in end.open[sid].mine
            && Count(end.used, id) + Count(end.open[sid].pending, id) <= Budget(end.open[sid].mine[id])
            && (id in end.rows ==> Budget(end.rows[id]) == Budget(end.open[sid].mine[id]))
            && forall other | other in end.open && other != sid :: Count(end.open[other].pending, id) == 0
  {
    RunKeeps(st, steps);
    var end := Run(st, steps);
    assert SessionOk(end, end.open[sid]);
    assert CopyIsTrue(end, end.open[sid], id);
    forall other | other in end.open && other != sid
      ensures Count(end.open[other].pending, id) == 0
    {
      assert SessionOk(end, end.open[other]);
      assert end.open[sid].mine.Keys !! end.open[other].mine.Keys;
    }
  }

  /** A digest key row, whose limit is 0, is never selected and never used. */
  lemma DigestRowsNeverUsed(st: State, steps: seq<Step>, sid: int, id: int)
    requires Initial(st) && sid in Run(st, steps).open
    requires id in Run(st, steps).open[sid].mine && Run(st, steps).open[sid].mine[id].maxCounter <= 0
    ensures Run(st, steps).open[sid].chosen != Some(id)
    ensures Count(Run(st, steps).open[sid].pending, id) == 0
    ensures Run(st, steps).open[sid].mine[id].counter == 0
  {
    RunKeeps(st, steps);
    var end := Run(st, steps);
    assert SessionOk(end, end.open[sid]);
    assert CopyIsTrue(end, end.open[sid], id);
  }

  /** A row's limit never changes, and committed uses are never taken back. */
  lemma {:induction false} CommittedUsesStay(st: State, steps: seq<Step>, id: int)
    requires Inv(st) && id in st.rows
    ensures id in Run(st, steps).rows
    ensures Run(st, steps).rows[id].maxCounter == st.rows[id].maxCounter
    ensures Count(Run(st, steps).used, id) >= Count(st.used, id)
  {
    if steps != [] {
      var before, step := Run(st, steps[..|steps| - 1]), steps[|steps| - 1];
      CommittedUsesStay(st, steps[..|steps| - 1], id);
      RunKeeps(st, steps[..|steps| - 1]);
      if step.Commit? && step.sid in before.open {
        var ses := before.open[step.sid];
        assert SessionOk(before, ses);
        assert id in ses.mine ==> CopyIsTrue(before, ses, id);
      }
    }
  }

  // ---------------------------------------------------------------- the steps, told by the rows

  /** A list is filled with the rows a session sees that have a use and life left. */
  lemma FillExactly(st: State, sid: int, now: int, id: int)
    requires sid in st.open
    ensures var ses, st' := st.open[sid], Next(st, Fill(sid, now));
            && st' == st.(open := st.open[sid := ses.(list := st'.open[sid].list)])
            && (id in st'.open[sid].list <==>
                  && (id in ses.mine || id in st.rows)
                  && var row := if id in ses.mine then ses.mine[id] else st.rows[id]; row.counter < row.maxCounter && now < row.finish)
  {
  }

  /** A new row is unused, has a new id and belongs to the session alone. */
  lemma GenerateExactly(st: State, sid: int, row: DekRow)
    requires sid in st.open
    ensures var ses := st.open[sid];
            Next(st, Generate(sid, row)) == st.(
              next := st.next + 1,
              open := st.open[sid := ses.(mine := ses.mine[st.next := DekRow(row.wrapped, row.kek, 0, row.maxCounter, row.finish)],
                                          added := ses.added + {st.next})])
  {
  }

  /** Nobody else holds the row of the list that the choice falls on, which the session can see. */
  predicate CanLock(st: State, sid: int, choice: nat)
    requires sid in st.open
  {
    var list := st.open[sid].list;
    && list != []
    && (list[choice % |list|] in st.rows || list[choice % |list|] in st.open[sid].mine)
    && forall other | other in st.open && other != sid :: list[choice % |list|] !in st.open[other].mine
  }

  /** Locking takes the row as it is now, and selects it if it has a use and life left; else nothing happens. */
  lemma LockExactly(st: State, sid: int, choice: nat, now: int)
    requires sid in st.open
    ensures var ses, st' := st.open[sid], Next(st, LockAndRefresh(sid, choice, now));
            && st' == st.(open := st.open[sid := st'.open[sid]])
            && if !CanLock(st, sid, choice) then st'.open[sid] == ses
               else
                 var id := ses.list[choice % |ses.list|];
                 var row := if id in ses.mine then ses.mine[id] else st.rows[id];
                 st'.open[sid] == ses.(mine := ses.mine[id := row],
                                       chosen := if row.counter < row.maxCounter && now < row.finish then Some(id) else None)
  {
  }

  /** Using the selected row counts one use of the session's copy, to be committed. */
  lemma UseExactly(st: State, sid: int, now: int)
    requires sid in st.open && st.open[sid].chosen.Some? && st.open[sid].chosen.value in st.open[sid].mine
    ensures var ses, id := st.open[sid], st.open[sid].chosen.value;
            var row := ses.mine[id];
            Next(st, Use(sid, now)) == st.(open := st.open[sid := ses.(
              mine := ses.mine[id := row.(counter := row.counter + 1, finish := if row.counter + 1 < row.maxCounter then row.finish else now)],
              pending := ses.pending[id := (if id in ses.pending then ses.pending[id] else 0) + 1],
              chosen := None)])
  {
  }

  /** A commit stores the session's copies and counts its uses; an abort drops both. Either way it is over and its rows are free. */
  lemma EndsExactly(st: State, sid: int, id: int)
    requires sid in st.open
    ensures Next(st, Abort(sid)) == st.(open := st.open - {sid})
    ensures var ses, st' := st.open[sid], Next(st, Commit(sid));
            && st' == st.(rows := st'.rows, used := st'.used, open := st.open - {sid})
            && (id in st'.rows <==> id in st.rows || id in ses.mine)
            && (id in st'.rows ==> st'.rows[id] == if id in ses.mine then ses.mine[id] else st.rows[id])
            && Count(st'.used, id) == Count(st.used, id) + Count(ses.pending, id)
  {
  }
}
