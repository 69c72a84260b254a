/** What the lifecycle promises over whole runs: invariants of every reachable state, and readable tokens. */
module TokenSafety {
  import opened Basics
  import opened KeyState
  import opened Lifecycle
  import opened LifecycleSafety

  // ---------------------------------------------------------------- one call

  /** The calls of KeyAPI that change keys; the others change token rows. */
  predicate KeyCall(step: Step) {
    !step.DoRehash? && !step.DoTokenize? && !step.DoRemove?
  }

  lemma KeyCallKeeps(s: Suite, w: World, step: Step)
    requires Lawful(s) && Inv(s, w) && step.h < |w.hosts| && KeyCall(step)
    ensures Inv(s, Next(s, w, step)) && Stable(s, w, Next(s, w, step))
  {
    match step
    case DoGenerateKek(h, pw, p1, p2, p3) =>
      if GenerateKek(s, w, h, pw, p1, p2, p3).Some? { GenerateKeeps(s, w, h, pw, p1, p2, p3); }
    case DoAbortGenerateKek(h, pw, p1, p2, p3, done) => AbortedGenerateKeeps(s, w, h, pw, p1, p2, p3, done);
    case DoConfirm(h, pw, wanted) =>
      if ConfirmComponent(s, w, h, pw, wanted).Some? { ConfirmKeeps(s, w, h, pw, wanted); }
    case DoResetTarget(h, pw, v) =>
      if ResetTargetVersion(s, w, h, pw, v).Some? { ResetTargetKeeps(s, w, h, pw, v); }
    case DoSwitchKek(h, pw) =>
      if SwitchKek(s, w, h, pw).Some? { SwitchKekKeeps(s, w, h, pw); }
    case DoReencrypt(h, lo, hi) =>
      if ReencryptDeks(s, w, h, lo, hi).Some? { ReencryptKeeps(s, w, h, lo, hi); }
    case DoGenerateHmac(h, pw, value, finish) =>
      if GenerateHmac(s, w, h, pw, value, finish).Some? { GenerateHmacKeeps(s, w, h, pw, value, finish); }
    case DoSwitchHmac(h, pw) =>
      if SwitchHmac(s, w, h, pw).Some? { SwitchHmacKeeps(s, w, h, pw); }
    case DoCleanup(h, pw) =>
      if Cleanup(s, w, h, pw).Some? { CleanupKeeps(s, w, h, pw); }
    case DoAbortCleanup(h, pw, done) => AbortedCleanupKeeps(s, w, h, pw, done);
    case _ =>
  }

  lemma TokenizeKeeps(s: Suite, w: World, h: nat, t: Table, text: Text, dedup: bool, d: Draw, env: Env)
    requires Lawful(s) && Inv(s, w) && h < |w.hosts| && Tokenize(s, w, h, t, text, dedup, d, env).Some?
    ensures var w' := Tokenize(s, w, h, t, text, dedup, d, env).value.0; Inv(s, w') && Stable(s, w, w')
  {
    var w' := Tokenize(s, w, h, t, text, dedup, d, env).value.0;
    if Insert(s, w, h, t, text, d, env).Some? && w' == Insert(s, w, h, t, text, d, env).value {
      InsertKeeps(s, w, h, t, text, d, env);
    } else {
      assert w' == w;
    }
  }

  lemma TokenCallKeeps(s: Suite, w: World, step: Step)
    requires Lawful(s) && Inv(s, w) && step.h < |w.hosts| && !KeyCall(step)
    ensures Inv(s, Next(s, w, step)) && Stable(s, w, Next(s, w, step))
  {
    if step.DoRemove? {
      RemoveKeeps(s, w, step.t, step.token);
    } else if Next(s, w, step) == w {
      assert Stable(s, w, w);
    } else if step.DoRehash? {
      RehashKeeps(s, w, step.h, step.lo, step.hi);
    } else {
      TokenizeKeeps(s, w, step.h, step.t, step.text, step.dedup, step.draw, step.env);
    }
  }

  /** Every call, completed, refused or stopped half-way, keeps the invariant. */
  lemma NextKeeps(s: Suite, w: World, step: Step)
    requires Lawful(s) && Inv(s, w)
    ensures Inv(s, Next(s, w, step)) && Stable(s, w, Next(s, w, step))
  {
    if step.h < |w.hosts| {
      if KeyCall(step) {
        KeyCallKeeps(s, w, step);
      } else {
        TokenCallKeeps(s, w, step);
      }
    }
  }

  lemma KeyCallKeepsRows(s: Suite, w: World, step: Step)
    requires KeyCall(step)
    ensures Next(s, w, step).cards == w.cards && Next(s, w, step).vault == w.vault
  {
  }

  lemma FindTokenIs(rows: map<int, TokenRow>, token: string, id: int)
    requires DistinctTokens(rows) && id in rows && rows[id].token == token
    ensures FindToken(rows, token) == Some(id)
  {
    var ids := set i | i in rows && rows[i].token == token;
    forall i | i in ids
      ensures i == id
    {
      assert rows[i].token == rows[id].token;
    }
    assert ids == {id};
  }

  lemma FindTokenSound(rows: map<int, TokenRow>, token: string)
    requires FindToken(rows, token).Some?
    ensures FindToken(rows, token).value in rows && rows[FindToken(rows, token).value].token == token
  {
  }

  /** Removal takes the named row and no other; an unknown token takes nothing. */
  lemma RemoveTakesOne(s: Suite, w: World, t: Table, token: string)
    requires |w.hosts| > 0 && TokensInv(s, w, t)
    ensures var w' := Remove(w, t, token);
            && (forall u | u != t :: w'.TableOf(u) == w.TableOf(u))
            && w'.TableOf(t).rows == map id | id in w.TableOf(t).rows && w.TableOf(t).rows[id].token != token :: w.TableOf(t).rows[id]
  {
    var rows := w.TableOf(t).rows;
    if FindToken(rows, token).Some? {
      FindTokenSound(rows, token);
      var found := FindToken(rows, token).value;
      forall id | id in rows && rows[id].token == token
        ensures id == found
      {
      }
    } else {
      forall id | id in rows
        ensures rows[id].token != token
      {
        if rows[id].token == token {
          FindTokenIs(rows, token, id);
        }
      }
    }
  }

  /** Only removal takes a row away. */
  lemma RowStays(s: Suite, w: World, step: Step, t: Table, id: int)
    requires |w.hosts| > 0 && TokensInv(s, w, Card) && TokensInv(s, w, Vault) && id in w.TableOf(t).rows
    requires !(step.DoRemove? && step.t == t && step.token == w.TableOf(t).rows[id].token)
    ensures id in Next(s, w, step).TableOf(t).rows
  {
    if KeyCall(step) {
      KeyCallKeepsRows(s, w, step);
    } else if step.DoRemove? {
      assert TokensInv(s, w, step.t);
      RemoveTakesOne(s, w, step.t, step.token);
    } else if step.h < |w.hosts| && step.DoTokenize? {
      TokenizeAddsRows(s, w, step.h, step.t, step.text, step.dedup, step.draw, step.env);
    }
  }

  /** tokenize adds at most one row, under a new id and with an unused token. */
  lemma TokenizeAddsRows(s: Suite, w: World, h: nat, t: Table, text: Text, dedup: bool, d: Draw, env: Env)
    requires h < |w.hosts|
    ensures var next := Tokenize(s, w, h, t, text, dedup, d, env);
            next.Some? && next.value.0 != w ==>
              var w' := next.value.0;
              && (forall u | u != t :: w'.TableOf(u) == w.TableOf(u))
              && !TokenTaken(w, t, d.token) && next.value.1 == d.token
              && w.TableOf(t).next in w'.TableOf(t).rows
              && w'.TableOf(t).rows == w.TableOf(t).rows[w.TableOf(t).next := w'.TableOf(t).rows[w.TableOf(t).next]]
              && w'.TableOf(t).rows[w.TableOf(t).next].token == d.token
  {
  }

  /** One call other than the token's removal: every host reads the same text before and after. */
  lemma TokenStaysReadable(s: Suite, w: World, step: Step, t: Table, token: string)
    requires Lawful(s) && Inv(s, w) && FindToken(w.TableOf(t).rows, token).Some?
    requires !(step.DoRemove? && step.t == t && step.token == token)
    ensures var w' := Next(s, w, step);
            && FindToken(w'.TableOf(t).rows, token).Some?
            && |w'.hosts| == |w.hosts|
            && forall h | 0 <= h < |w.hosts| :: Detokenize(s, w', h, t, token) == Detokenize(s, w, h, t, token)
  {
    var w' := Next(s, w, step);
    var id := FindToken(w.TableOf(t).rows, token).value;
    FindTokenSound(w.TableOf(t).rows, token);
    NextKeeps(s, w, step);
    RowStays(s, w, step, t, id);
    assert TokensInv(s, w', t) && SameCiphertexts(w, w', t);
    FindTokenIs(w'.TableOf(t).rows, token, id);
    assert RowsInv(s, w, t);
    ReadRowFramed(s, w, w', t, w.TableOf(t).rows[id]);
  }

  // ---------------------------------------------------------------- whole runs

  /** Every state a run reaches satisfies the invariant. */
  lemma {:induction false} RunKeeps(s: Suite, w: World, steps: seq<Step>)
    requires Lawful(s) && Inv(s, w)
    ensures Inv(s, Run(s, w, steps)) && |Run(s, w, steps).hosts| == |w.hosts|
    decreases |steps|
  {
    if steps != [] {
      RunKeeps(s, w, steps[..|steps| - 1]);
      NextKeeps(s, Run(s, w, steps[..|steps| - 1]), steps[|steps| - 1]);
    }
  }

  predicate NeverRemoves(steps: seq<Step>, t: Table, token: string) {
    forall i | 0 <= i < |steps| :: !(steps[i].DoRemove? && steps[i].t == t && steps[i].token == token)
  }

  /** No run loses a token it does not remove: every host goes on reading the same text. */
  lemma {:induction false} TokensStayReadable(s: Suite, w: World, steps: seq<Step>, t: Table, token: string)
    requires Lawful(s) && Inv(s, w) && FindToken(w.TableOf(t).rows, token).Some?
    requires NeverRemoves(steps, t, token)
    ensures var w' := Run(s, w, steps);
            && FindToken(w'.TableOf(t).rows, token).Some?
            && |w'.hosts| == |w.hosts|
            && forall h | 0 <= h < |w.hosts| :: Detokenize(s, w', h, t, token) == Detokenize(s, w, h, t, token)
    decreases |steps|
  {
    if steps != [] {
      var before := steps[..|steps| - 1];
      TokensStayReadable(s, w, before, t, token);
      RunKeeps(s, w, before);
      TokenStaysReadable(s, Run(s, w, before), steps[|steps| - 1], t, token);
    }
  }

  /** In a good state every live token is readable, and every host reads it alike. */
  lemma LiveTokensReadable(s: Suite, w: World, t: Table, token: string, h: nat)
    requires Lawful(s) && Inv(s, w) && FindToken(w.TableOf(t).rows, token).Some? && h < |w.hosts|
    ensures Detokenize(s, w, h, t, token).Some?
    ensures Detokenize(s, w, h, t, token) == Detokenize(s, w, 0, t, token)
  {
    var id := FindToken(w.TableOf(t).rows, token).value;
    FindTokenSound(w.TableOf(t).rows, token);
    assert RowsInv(s, w, t);
    var row := w.TableOf(t).rows[id];
    assert Ready(s, w, w.deks[row.dek].kek);
    assert OpenDek(s, w, h, row.dek) == OpenDek(s, w, 0, row.dek);
  }

  /** A token just made reads back as its text. */
  lemma NewTokenReadsBack(s: Suite, w: World, h: nat, t: Table, text: Text, dedup: bool, d: Draw, env: Env)
    requires Lawful(s) && Inv(s, w) && h < |w.hosts|
    requires Insert(s, w, h, t, text, d, env).Some?
    ensures var w' := Insert(s, w, h, t, text, d, env).value;
            && FindToken(w'.TableOf(t).rows, d.token).Some?
            && |w'.hosts| == |w.hosts|
            && forall i | 0 <= i < |w.hosts| :: Detokenize(s, w', i, t, d.token) == Some(ReadsAs(t, text))
  {
    InsertKeeps(s, w, h, t, text, d, env);
    var w' := Insert(s, w, h, t, text, d, env).value;
    assert TokensInv(s, w', t);
    FindTokenIs(w'.TableOf(t).rows, d.token, w.TableOf(t).next);
  }

  /**
   The promise of the system: whatever run follows a tokenize call that made a new row, as long
   as it does not remove the token, every host detokenizes it to the text it was created from.
   */
  lemma DetokenizeUndoesTokenize(s: Suite, w: World, h: nat, t: Table, text: Text, dedup: bool, d: Draw, env: Env,
                                 steps: seq<Step>, i: nat)
    requires Lawful(s) && Inv(s, w) && h < |w.hosts| && i < |w.hosts|
    ensures var made := Tokenize(s, w, h, t, text, dedup, d, env);
            (dedup ==> Search(s, w, h, t, text) == Some("")) && made.Some? && NeverRemoves(steps, t, made.value.1) ==>
              var end := Run(s, made.value.0, steps);
              i < |end.hosts| && Detokenize(s, end, i, t, made.value.1) == Some(ReadsAs(t, text))
  {
    var made := Tokenize(s, w, h, t, text, dedup, d, env);
    if (dedup ==> Search(s, w, h, t, text) == Some("")) && made.Some? && NeverRemoves(steps, t, made.value.1) {
      InsertKeeps(s, w, h, t, text, d, env);
      NewTokenReadsBack(s, w, h, t, text, dedup, d, env);
      TokensStayReadable(s, made.value.0, steps, t, made.value.1);
    }
  }
}
