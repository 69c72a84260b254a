/**
 Deduplication of card numbers: over runs without rehash_tokens each number has at most one live
 row, and search finds it whatever digest version it was stored under.
 */
module Dedup {
  import opened Basics
  import opened KeyState
  import opened Lifecycle
  import opened LifecycleSafety
  import opened TokenSafety

  /** Texts at least this long get a keyed digest; shorter ones a random one. */
  const DIGEST_FROM: nat := 10

  // ---------------------------------------------------------------- digest keys

  /** A digest key is the content of its key row, on every host. */
  lemma HmacKeyIsDek(s: Suite, w: World, h: nat, v: int)
    requires Inv(s, w) && h < |w.hosts| && HmacId(v) in w.db
    ensures Number(w.db, HmacId(v)).Some? && HmacKey(s, w, h, v).Some?
    ensures var id := Number(w.db, HmacId(v)).value;
            OpenDek(s, w, h, id).Some? && HmacKey(s, w, h, v).value == OpenDek(s, w, h, id).value
    ensures HmacKey(s, w, h, v) == HmacKey(s, w, 0, v)
  {
    assert HmacId(v).HmacId?;
    var id := Number(w.db, HmacId(v)).value;
    assert Ready(s, w, w.deks[id].kek);
    assert UsableKey(s, w, h, w.deks[id].kek) == UsableKey(s, w, 0, w.deks[id].kek);
    assert OpenDek(s, w, h, id) == OpenDek(s, w, 0, id);
  }

  lemma LoadedAreNamed(s: Suite, w: World, h: nat)
    requires Inv(s, w) && h < |w.hosts|
    ensures forall v :: v in LoadedHmacs(s, w, h) <==> HmacId(v) in w.db
  {
    forall v
      ensures v in LoadedHmacs(s, w, h) <==> HmacId(v) in w.db
    {
      LoadedInDb(s, w, h, v);
      if HmacId(v) in w.db {
        HmacKeyIsDek(s, w, h, v);
      }
    }
  }

  /** No call changes or drops the name of a digest version that card rows use. */
  lemma UsedHmacsKept(s: Suite, w: World, step: Step, v: int)
    requires Inv(s, w) && HmacId(v) in w.db && HmacUsed(w, v)
    ensures HmacId(v) in Next(s, w, step).db && Next(s, w, step).db[HmacId(v)] == w.db[HmacId(v)]
  {
    if step.h < |w.hosts| {
      if step.DoGenerateHmac? {
        GenerateHmacKeepsNames(s, w, step.h, step.password, step.value, step.finish, v);
      } else if step.DoGenerateKek? {
        GenerateKekKeepsNames(s, w, step.h, step.password, step.p1, step.p2, step.p3, v);
      } else if step.DoTokenize? {
        TokenizeKeepsStores(s, w, step.h, step.t, step.text, step.dedup, step.draw, step.env);
      } else if step.DoCleanup? {
        CleanupKeepsUsedNames(s, w, step.h, step.password, v);
      } else {
        OthersKeepNames(s, w, step, v);
      }
    }
  }

  lemma OthersKeepNames(s: Suite, w: World, step: Step, v: int)
    requires HmacId(v) in w.db && !step.DoGenerateHmac? && !step.DoGenerateKek? && !step.DoTokenize? && !step.DoCleanup?
    ensures HmacId(v) in Next(s, w, step).db && Next(s, w, step).db[HmacId(v)] == w.db[HmacId(v)]
  {
  }

  lemma GenerateHmacKeepsNames(s: Suite, w: World, h: nat, password: string, value: Key, finish: int, v: int)
    requires Inv(s, w) && HmacId(v) in w.db && h < |w.hosts|
    ensures var next := GenerateHmac(s, w, h, password, value, finish);
            next.Some? ==> HmacId(v) in next.value.db && next.value.db[HmacId(v)] == w.db[HmacId(v)]
  {
    LoadedAreNamed(s, w, h);
    if HmacVersions(s, w, h).Some? {
      assert v in HmacVersions(s, w, h).value;
    }
  }

  lemma GenerateKekKeepsNames(s: Suite, w: World, h: nat, password: string, p1: string, p2: string, p3: string, v: int)
    requires HmacId(v) in w.db && h < |w.hosts|
    ensures var next := GenerateKek(s, w, h, password, p1, p2, p3);
            next.Some? ==> HmacId(v) in next.value.db && next.value.db[HmacId(v)] == w.db[HmacId(v)]
  {
    if PlanKek(s, w, h, password, p1, p2, p3).Some? {
      var code := NewControlCode(s, w.db, s.assemble(p1, p2, p3).value).value;
      NewRows(w.db, PlanKek(s, w, h, password, p1, p2, p3).value.0, p3, code);
    }
  }

  lemma CleanupKeepsUsedNames(s: Suite, w: World, h: nat, password: string, v: int)
    requires HmacId(v) in w.db && HmacUsed(w, v) && h < |w.hosts|
    ensures var next := Cleanup(s, w, h, password);
            next.Some? ==> HmacId(v) in next.value.db && next.value.db[HmacId(v)] == w.db[HmacId(v)]
  {
  }

  lemma UsedHmacKeysSame(s: Suite, w: World, step: Step, v: int)
    requires Lawful(s) && Inv(s, w) && HmacId(v) in w.db && HmacUsed(w, v)
    ensures var w' := Next(s, w, step);
            Inv(s, w') && HmacId(v) in w'.db && HmacKey(s, w', 0, v) == HmacKey(s, w, 0, v)
  {
    NextKeeps(s, w, step);
    UsedHmacsKept(s, w, step, v);
    HmacKeyIsDek(s, w, 0, v);
    HmacKeyIsDek(s, Next(s, w, step), 0, v);
  }

  // ---------------------------------------------------------------- the invariant

  function RowText(s: Suite, w: World, id: int): Text
    requires |w.hosts| > 0 && id in w.cards.rows && ReadRow(s, w, 0, Card, w.cards.rows[id]).Some?
  {
    ReadRow(s, w, 0, Card, w.cards.rows[id]).value
  }

  /** The row's digest version is known and, for a long text, its digest is the text's. */
  ghost predicate Findable(s: Suite, w: World, id: int)
    requires Inv(s, w) && id in w.cards.rows
  {
    var row := w.cards.rows[id];
    assert RowsInv(s, w, Card);
    && row.token != ""
    && HmacId(row.hmac) in w.db
    && HmacKey(s, w, 0, row.hmac).Some?
    && (|RowText(s, w, id)| >= DIGEST_FROM ==> row.digest == s.mac(HmacKey(s, w, 0, row.hmac).value, Latin(RowText(s, w, id))))
  }

  ghost predicate OneRowPerText(s: Suite, w: World)
    requires Inv(s, w)
  {
    assert RowsInv(s, w, Card);
    forall i, j | i in w.cards.rows && j in w.cards.rows &&
                  RowText(s, w, i) == RowText(s, w, j) && |RowText(s, w, i)| >= DIGEST_FROM :: i == j
  }

  ghost predicate DedupInv(s: Suite, w: World) {
    && Inv(s, w)
    && (forall id | id in w.cards.rows :: Findable(s, w, id))
    && OneRowPerText(s, w)
  }

  /**
   The calls the theorem is about: no rehash_tokens, and on the card table either a normalized
   card number with deduplication on or a shorter code with it off. Tokens are never empty.
   */
  predicate CardCall(step: Step) {
    && !step.DoRehash?
    && (step.DoTokenize? && step.t == Card ==>
          && step.draw.token != ""
          && (if step.dedup then AllDigits(step.text) else |step.text| < DIGEST_FROM))
  }

  // ---------------------------------------------------------------- search

  /** Some card row carries the digest of the text under some known version. */
  ghost predicate DigestStored(s: Suite, w: World, text: Text)
    requires |w.hosts| > 0
  {
    exists id, v :: Carries(s, w, text, id, v)
  }

  predicate Carries(s: Suite, w: World, text: Text, id: int, v: int)
    requires |w.hosts| > 0
  {
    && id in w.cards.rows && HmacId(v) in w.db && HmacKey(s, w, 0, v).Some?
    && w.cards.rows[id].digest == s.mac(HmacKey(s, w, 0, v).value, Latin(text))
  }

  /** A row whose digest is that of the text under some known version is found by search. */
  lemma SearchHits(s: Suite, w: World, h: nat, text: Text, id: int, v: int) returns (found: int, x: int)
    requires Inv(s, w) && h < |w.hosts| && Carries(s, w, text, id, v)
    ensures Carries(s, w, text, found, x)
    ensures Search(s, w, h, Card, text) == Some(w.cards.rows[found].token)
  {
    LoadedAreNamed(s, w, h);
    HmacKeyIsDek(s, w, h, v);
    var active := Number(w.db, HmacVersion).value;
    HmacKeyIsDek(s, w, h, active);
    var hits := Hits(s, w, h, Card, text, {active} + LoadedHmacs(s, w, h));
    assert v in hits by {
      DigestFound(w.cards.rows, Digest(s, w, h, v, text), id);
    }
    x := if active in hits then active else MinOf(hits);
    HmacKeyIsDek(s, w, h, x);
    found := FindDigest(w.cards.rows, Digest(s, w, h, x, text)).value;
  }

  lemma DigestFound(rows: map<int, TokenRow>, digest: string, id: int)
    requires id in rows && rows[id].digest == digest
    ensures FindDigest(rows, digest).Some?
  {
    var ids := set i | i in rows && rows[i].digest == digest;
    assert id in ids;
  }

  /** A version hits only by a row that carries its digest. */
  lemma HitCarries(s: Suite, w: World, h: nat, text: Text, versions: set<int>, v: int) returns (id: int)
    requires Inv(s, w) && h < |w.hosts| && HmacId(v) in w.db
    requires v in Hits(s, w, h, Card, text, versions)
    ensures Carries(s, w, text, id, v)
  {
    HmacKeyIsDek(s, w, h, v);
    id := FindDigest(w.cards.rows, Digest(s, w, h, v, text)).value;
  }

  /** Without a stored digest no version hits. */
  lemma NothingHits(s: Suite, w: World, h: nat, text: Text, versions: set<int>)
    requires Inv(s, w) && h < |w.hosts| && !DigestStored(s, w, text)
    requires forall v | v in versions :: HmacId(v) in w.db
    ensures Hits(s, w, h, Card, text, versions) == {}
  {
    if Hits(s, w, h, Card, text, versions) != {} {
      var v := Pick(Hits(s, w, h, Card, text, versions));
      var id := HitCarries(s, w, h, text, versions, v);
    }
  }

  /** Search comes back empty-handed exactly when no known version's digest of the text is stored. */
  lemma SearchMisses(s: Suite, w: World, h: nat, text: Text)
    requires Inv(s, w) && h < |w.hosts|
    requires forall id | id in w.cards.rows :: w.cards.rows[id].token != ""
    ensures Search(s, w, h, Card, text).Some?
    ensures Search(s, w, h, Card, text) == Some("") <==> !DigestStored(s, w, text)
  {
    var active := Number(w.db, HmacVersion).value;
    HmacKeyIsDek(s, w, h, active);
    if DigestStored(s, w, text) {
      var id, v :| Carries(s, w, text, id, v);
      var found, x := SearchHits(s, w, h, text, id, v);
    } else {
      LoadedAreNamed(s, w, h);
      NothingHits(s, w, h, text, {active} + LoadedHmacs(s, w, h));
    }
  }

  // ---------------------------------------------------------------- every call keeps it

  /** Without rehashing, a row that stays is the same row. */
  lemma RowUnchanged(s: Suite, w: World, step: Step, id: int)
    requires !step.DoRehash? && id in w.cards.rows && id in Next(s, w, step).cards.rows
    requires id < w.cards.next
    ensures Next(s, w, step).cards.rows[id] == w.cards.rows[id]
  {
    if KeyCall(step) {
      KeyCallKeepsRows(s, w, step);
    } else if step.h < |w.hosts| && step.DoTokenize? {
      TokenizeAddsRows(s, w, step.h, step.t, step.text, step.dedup, step.draw, step.env);
    }
  }

  lemma OldRowStaysFindable(s: Suite, w: World, step: Step, id: int)
    requires Lawful(s) && DedupInv(s, w) && !step.DoRehash?
    requires id in w.cards.rows && id in Next(s, w, step).cards.rows
    ensures var w' := Next(s, w, step);
            && Inv(s, w') && RowsInv(s, w, Card) && RowsInv(s, w', Card)
            && Findable(s, w', id) && RowText(s, w', id) == RowText(s, w, id)
  {
    var w' := Next(s, w, step);
    NextKeeps(s, w, step);
    assert RowsInv(s, w, Card);
    var row := w.cards.rows[id];
    RowUnchanged(s, w, step, id);
    ReadRowFramed(s, w, w', Card, row);
    assert Findable(s, w, id);
    assert HmacUsed(w, row.hmac);
    UsedHmacKeysSame(s, w, step, row.hmac);
  }

  /** Where a new card row comes from. */
  lemma NewRowOrigin(s: Suite, w: World, step: Step, id: int)
    requires Inv(s, w) && id !in w.cards.rows && id in Next(s, w, step).cards.rows
    ensures step.DoTokenize? && step.t == Card && step.h < |w.hosts| && id == w.cards.next
    ensures Insert(s, w, step.h, Card, step.text, step.draw, step.env) == Some(Next(s, w, step))
    ensures step.dedup ==> Search(s, w, step.h, Card, step.text) == Some("")
  {
    if KeyCall(step) {
      KeyCallKeepsRows(s, w, step);
    } else if step.h < |w.hosts| && step.DoTokenize? {
      TokenizeAddsRows(s, w, step.h, step.t, step.text, step.dedup, step.draw, step.env);
    }
  }

  /** A new row carries the active version's digest of its text. */
  lemma InsertedRow(s: Suite, w: World, h: nat, text: Text, d: Draw, env: Env)
    requires h < |w.hosts| && Insert(s, w, h, Card, text, d, env).Some?
    ensures var w' := Insert(s, w, h, Card, text, d, env).value;
            var hmac := Number(w.db, HmacVersion);
            && hmac.Some? && w'.db == w.db && w.cards.next in w'.cards.rows
            && var row := w'.cards.rows[w.cards.next];
               && row.token == d.token && row.hmac == hmac.value
               && Some(row.digest) == StoredDigest(s, w, h, hmac.value, text, d.noise)
  {
  }

  lemma NewRowIsFindable(s: Suite, w: World, h: nat, text: Text, d: Draw, env: Env)
    requires Lawful(s) && Inv(s, w) && h < |w.hosts| && Insert(s, w, h, Card, text, d, env).Some?
    requires d.token != "" && (AllDigits(text) || |text| < DIGEST_FROM)
    ensures var w' := Insert(s, w, h, Card, text, d, env).value;
            && Inv(s, w') && w.cards.next in w'.cards.rows && RowsInv(s, w', Card)
            && Findable(s, w', w.cards.next) && RowText(s, w', w.cards.next) == ReadsAs(Card, text)
  {
    var w' := Insert(s, w, h, Card, text, d, env).value;
    InsertKeeps(s, w, h, Card, text, d, env);
    InsertedRow(s, w, h, text, d, env);
    assert RowsInv(s, w', Card);
    var active := Number(w.db, HmacVersion).value;
    HmacKeyIsDek(s, w', 0, active);
    HmacKeyIsDek(s, w, h, active);
    HmacKeyIsDek(s, w, 0, active);
  }

  /** The text of a row with a long text is stored in digest form. */
  lemma LongRowCarries(s: Suite, w: World, id: int)
    requires DedupInv(s, w) && id in w.cards.rows && RowsInv(s, w, Card)
    requires |RowText(s, w, id)| >= DIGEST_FROM
    ensures Carries(s, w, RowText(s, w, id), id, w.cards.rows[id].hmac)
    ensures DigestStored(s, w, RowText(s, w, id))
  {
    assert Findable(s, w, id);
    assert Carries(s, w, RowText(s, w, id), id, w.cards.rows[id].hmac);
  }

  /** Every call of the card service keeps each number findable and stored once. */
  lemma NextKeepsDedup(s: Suite, w: World, step: Step)
    requires Lawful(s) && DedupInv(s, w) && CardCall(step)
    ensures DedupInv(s, Next(s, w, step))
  {
    var w' := Next(s, w, step);
    NextKeeps(s, w, step);
    assert RowsInv(s, w, Card) && RowsInv(s, w', Card);
    forall id | id in w'.cards.rows
      ensures Findable(s, w', id)
      ensures id in w.cards.rows ==> RowText(s, w', id) == RowText(s, w, id)
      ensures id !in w.cards.rows ==> id == w.cards.next && (|RowText(s, w', id)| >= DIGEST_FROM ==> !DigestStored(s, w, RowText(s, w', id)))
    {
      if id in w.cards.rows {
        OldRowStaysFindable(s, w, step, id);
      } else {
        NewRowOrigin(s, w, step, id);
        NewRowIsFindable(s, w, step.h, step.text, step.draw, step.env);
        NewRowIsFirst(s, w, step);
      }
    }
    forall i, j | i in w'.cards.rows && j in w'.cards.rows && RowText(s, w', i) == RowText(s, w', j) && |RowText(s, w', i)| >= DIGEST_FROM
      ensures i == j
    {
      if i in w.cards.rows {
        LongRowCarries(s, w, i);
      }
      if j in w.cards.rows {
        LongRowCarries(s, w, j);
      }
    }
  }

  lemma TokensNotEmpty(s: Suite, w: World)
    requires DedupInv(s, w)
    ensures forall id | id in w.cards.rows :: w.cards.rows[id].token != ""
  {
    forall id | id in w.cards.rows
      ensures w.cards.rows[id].token != ""
    {
      assert Findable(s, w, id);
    }
  }

  /** A long number is inserted only when no row carries a digest of it. */
  lemma NewRowIsFirst(s: Suite, w: World, step: Step)
    requires Lawful(s) && DedupInv(s, w) && CardCall(step)
    requires step.DoTokenize? && step.t == Card && step.h < |w.hosts|
    requires step.dedup ==> Search(s, w, step.h, Card, step.text) == Some("")
    ensures |ReadsAs(Card, step.text)| >= DIGEST_FROM ==> !DigestStored(s, w, ReadsAs(Card, step.text))
  {
    TokensNotEmpty(s, w);
    SearchMisses(s, w, step.h, step.text);
  }

  // ---------------------------------------------------------------- the theorems

  lemma {:induction false} RunKeepsDedup(s: Suite, w: World, steps: seq<Step>)
    requires Lawful(s) && DedupInv(s, w) && forall i | 0 <= i < |steps| :: CardCall(steps[i])
    ensures DedupInv(s, Run(s, w, steps))
    decreases |steps|
  {
    if steps != [] {
      RunKeepsDedup(s, w, steps[..|steps| - 1]);
      NextKeepsDedup(s, Run(s, w, steps[..|steps| - 1]), steps[|steps| - 1]);
    }
  }

  /** In every state of such a run two live rows never hold the same card number. */
  lemma OneLiveRowPerNumber(s: Suite, w: World, steps: seq<Step>, i: int, j: int)
    requires Lawful(s) && DedupInv(s, w) && forall k | 0 <= k < |steps| :: CardCall(steps[k])
    requires var r := Run(s, w, steps);
             && |r.hosts| > 0 && i in r.cards.rows && j in r.cards.rows
             && ReadRow(s, r, 0, Card, r.cards.rows[i]).Some?
             && ReadRow(s, r, 0, Card, r.cards.rows[i]) == ReadRow(s, r, 0, Card, r.cards.rows[j])
             && |ReadRow(s, r, 0, Card, r.cards.rows[i]).value| >= DIGEST_FROM
    ensures i == j
  {
    RunKeepsDedup(s, w, steps);
    var r := Run(s, w, steps);
    assert RowText(s, r, i) == RowText(s, r, j);
  }

  /** Every live number is found, on every host, and by its own row unless digests collide. */
  lemma LiveNumberIsFound(s: Suite, w: World, h: nat, id: int, text: Text)
    requires DedupInv(s, w) && h < |w.hosts| && id in w.cards.rows
    requires ReadRow(s, w, 0, Card, w.cards.rows[id]) == Some(text) && |text| >= DIGEST_FROM
    ensures Search(s, w, h, Card, text).Some? && Search(s, w, h, Card, text).value != ""
    ensures (forall j, v | Carries(s, w, text, j, v) :: j == id) ==> Search(s, w, h, Card, text) == Some(w.cards.rows[id].token)
  {
    assert RowsInv(s, w, Card);
    LongRowCarries(s, w, id);
    var found, x := SearchHits(s, w, h, text, id, w.cards.rows[id].hmac);
    assert Findable(s, w, found);
  }

  /** Tokenizing a live number again returns the token search finds and changes nothing. */
  lemma TokenizeAgain(s: Suite, w: World, h: nat, id: int, text: Text, d: Draw, env: Env)
    requires DedupInv(s, w) && h < |w.hosts| && id in w.cards.rows
    requires ReadRow(s, w, 0, Card, w.cards.rows[id]) == Some(text) && |text| >= DIGEST_FROM
    ensures Search(s, w, h, Card, text).Some?
    ensures Tokenize(s, w, h, Card, text, true, d, env) == Some((w, Search(s, w, h, Card, text).value))
  {
    LiveNumberIsFound(s, w, h, id, text);
  }

  // ---------------------------------------------------------------- what a returned token reads as

  /** Every row that carries a digest of the text holds the text: no other text shares it. */
  ghost predicate NoCollision(s: Suite, w: World, text: Text)
    requires |w.hosts| > 0
  {
    forall id, v | Carries(s, w, text, id, v) :: ReadRow(s, w, 0, Card, w.cards.rows[id]) == Some(text)
  }

  /** A token that search found reads back as the text. */
  lemma FoundTokenReadsBack(s: Suite, w: World, h: nat, text: Text)
    requires Lawful(s) && DedupInv(s, w) && h < |w.hosts| && NoCollision(s, w, text)
    requires Search(s, w, h, Card, text).Some? && Search(s, w, h, Card, text) != Some("")
    ensures var token := Search(s, w, h, Card, text).value;
            && FindToken(w.cards.rows, token).Some?
            && forall i | 0 <= i < |w.hosts| :: Detokenize(s, w, i, Card, token) == Some(text)
  {
    TokensNotEmpty(s, w);
    SearchMisses(s, w, h, text);
    var id, v :| Carries(s, w, text, id, v);
    var found, x := SearchHits(s, w, h, text, id, v);
    var token := w.cards.rows[found].token;
    assert TokensInv(s, w, Card);
    FindTokenIs(w.cards.rows, token, found);
    forall i | 0 <= i < |w.hosts|
      ensures Detokenize(s, w, i, Card, token) == Some(text)
    {
      LiveTokensReadable(s, w, Card, token, i);
    }
  }

  /** Found or new, the token tokenize returns reads back as what was tokenized, on every host. */
  lemma ReturnedTokenReadsBack(s: Suite, w: World, h: nat, text: Text, dedup: bool, d: Draw, env: Env)
    requires Lawful(s) && DedupInv(s, w) && h < |w.hosts| && NoCollision(s, w, text)
    requires CardCall(DoTokenize(h, Card, text, dedup, d, env)) && Tokenize(s, w, h, Card, text, dedup, d, env).Some?
    ensures var (w', token) := Tokenize(s, w, h, Card, text, dedup, d, env).value;
            && |w'.hosts| == |w.hosts| && FindToken(w'.cards.rows, token).Some?
            && forall i | 0 <= i < |w.hosts| :: Detokenize(s, w', i, Card, token) == Some(ReadsAs(Card, text))
  {
    if dedup && Search(s, w, h, Card, text) != Some("") {
      FoundTokenReadsBack(s, w, h, text);
      assert ReadsAs(Card, text) == text;
    } else {
      NewTokenReadsBack(s, w, h, Card, text, dedup, d, env);
    }
  }

  /**
   Over runs of the card service, unless two texts share a digest, every token tokenize returns,
   of a new row or of one it found, is read back by every host as what was tokenized, after any
   further run that does not remove the token.
   */
  lemma EveryTokenReadsBack(s: Suite, w0: World, before: seq<Step>, h: nat, text: Text, dedup: bool, d: Draw, env: Env,
                            after: seq<Step>, i: nat)
    requires Lawful(s) && DedupInv(s, w0) && h < |w0.hosts| && i < |w0.hosts|
    requires (forall k | 0 <= k < |before| :: CardCall(before[k])) && CardCall(DoTokenize(h, Card, text, dedup, d, env))
    ensures |Run(s, w0, before).hosts| == |w0.hosts|
    ensures var w := Run(s, w0, before);
            var made := Tokenize(s, w, h, Card, text, dedup, d, env);
            made.Some? && NoCollision(s, w, text) && NeverRemoves(after, Card, made.value.1) ==>
              var end := Run(s, made.value.0, after);
              i < |end.hosts| && Detokenize(s, end, i, Card, made.value.1) == Some(ReadsAs(Card, text))
  {
    RunKeeps(s, w0, before);
    RunKeepsDedup(s, w0, before);
    AfterwardsReadsBack(s, Run(s, w0, before), h, text, dedup, d, env, after, i);
  }

  lemma AfterwardsReadsBack(s: Suite, w: World, h: nat, text: Text, dedup: bool, d: Draw, env: Env, after: seq<Step>, i: nat)
    requires Lawful(s) && DedupInv(s, w) && h < |w.hosts| && i < |w.hosts| && CardCall(DoTokenize(h, Card, text, dedup, d, env))
    ensures var made := Tokenize(s, w, h, Card, text, dedup, d, env);
            made.Some? && NoCollision(s, w, text) && NeverRemoves(after, Card, made.value.1) ==>
              var end := Run(s, made.value.0, after);
              i < |end.hosts| && Detokenize(s, end, i, Card, made.value.1) == Some(ReadsAs(Card, text))
  {
    var made := Tokenize(s, w, h, Card, text, dedup, d, env);
    if made.Some? && NoCollision(s, w, text) && NeverRemoves(after, Card, made.value.1) {
      ReturnedTokenReadsBack(s, w, h, text, dedup, d, env);
      TokenizeKeeps(s, w, h, Card, text, dedup, d, env);
      TokensStayReadable(s, made.value.0, after, Card, made.value.1);
    }
  }

  // ---------------------------------------------------------------- where it stops

  /** A call that adds a row changes no digest key and no other row. */
  lemma OldRowsCarryTheSame(s: Suite, w: World, step: Step, text: Text)
    requires Lawful(s) && Inv(s, w) && step.DoTokenize? && Next(s, w, step).db == w.db
    requires forall id | id in w.cards.rows :: id in Next(s, w, step).cards.rows
    ensures |Next(s, w, step).hosts| == |w.hosts| > 0
    ensures forall v | HmacId(v) in w.db :: HmacKey(s, Next(s, w, step), 0, v) == HmacKey(s, w, 0, v)
    ensures forall id, v | id in w.cards.rows :: Carries(s, Next(s, w, step), text, id, v) <==> Carries(s, w, text, id, v)
  {
    var w' := Next(s, w, step);
    NextKeeps(s, w, step);
    forall v | HmacId(v) in w.db
      ensures HmacKey(s, w', 0, v) == HmacKey(s, w, 0, v)
    {
      HmacKeyIsDek(s, w, 0, v);
      HmacKeyIsDek(s, w', 0, v);
    }
    assert RowsInv(s, w, Card);
    forall id, v | id in w.cards.rows
      ensures Carries(s, w', text, id, v) <==> Carries(s, w, text, id, v)
    {
      RowUnchanged(s, w, step, id);
    }
  }

  /**
   Below ten characters there is no deduplication: a code just stored is found again exactly
   when the random digest it got happens to be a keyed digest of it.
   */
  lemma ShortTextIsNotFound(s: Suite, w: World, h: nat, text: Text, d: Draw, env: Env)
    requires Lawful(s) && DedupInv(s, w) && h < |w.hosts| && |text| < DIGEST_FROM && d.token != ""
    requires Insert(s, w, h, Card, text, d, env).Some? && !DigestStored(s, w, text)
    ensures var w' := Insert(s, w, h, Card, text, d, env).value;
            && |w'.hosts| == |w.hosts|
            && (Search(s, w', h, Card, text) != Some("") <==> ByChance(s, w, text, d.noise))
  {
    var w' := Insert(s, w, h, Card, text, d, env).value;
    var step := DoTokenize(h, Card, text, false, d, env);
    InsertedShort(s, w, h, text, d, env);
    NextKeepsDedup(s, w, step);
    TokensNotEmpty(s, w');
    SearchMisses(s, w', h, text);
    OldRowsCarryTheSame(s, w, step, text);
    OnlyTheNewRow(s, w, w', text, d.noise);
  }

  lemma InsertedShort(s: Suite, w: World, h: nat, text: Text, d: Draw, env: Env)
    requires h < |w.hosts| && Insert(s, w, h, Card, text, d, env).Some? && |text| < DIGEST_FROM
    requires w.cards.next !in w.cards.rows
    ensures var w' := Insert(s, w, h, Card, text, d, env).value;
            && Next(s, w, DoTokenize(h, Card, text, false, d, env)) == w' && w'.db == w.db
            && w'.cards.rows.Keys == w.cards.rows.Keys + {w.cards.next}
            && w'.cards.rows[w.cards.next].digest == d.noise
  {
    InsertedRow(s, w, h, text, d, env);
    TokenizeAddsRows(s, w, h, Card, text, false, d, env);
  }

  /** The digest of a short text that the given random digest happens to be. */
  ghost predicate ByChance(s: Suite, w: World, text: Text, noise: string)
    requires |w.hosts| > 0
  {
    exists v :: HmacId(v) in w.db && HmacKey(s, w, 0, v).Some? && noise == s.mac(HmacKey(s, w, 0, v).value, Latin(text))
  }

  lemma OnlyTheNewRow(s: Suite, w: World, w': World, text: Text, noise: string)
    requires |w.hosts| > 0 && |w'.hosts| > 0 && !DigestStored(s, w, text)
    requires w'.db == w.db && forall v | HmacId(v) in w.db :: HmacKey(s, w', 0, v) == HmacKey(s, w, 0, v)
    requires forall id, v | id in w.cards.rows :: Carries(s, w', text, id, v) <==> Carries(s, w, text, id, v)
    requires w'.cards.rows.Keys == w.cards.rows.Keys + {w.cards.next} && w'.cards.rows[w.cards.next].digest == noise
    ensures DigestStored(s, w', text) <==> ByChance(s, w, text, noise)
  {
    forall v
      ensures Carries(s, w', text, w.cards.next, v) <==>
              HmacId(v) in w.db && HmacKey(s, w, 0, v).Some? && noise == s.mac(HmacKey(s, w, 0, v).value, Latin(text))
    {
    }
    assert forall x, y | x in w.cards.rows :: !Carries(s, w', text, x, y);
  }

  /** The decrypted block of a row, which rehash_token digests as it is. */
  function RawBlock(s: Suite, w: World, id: int): Option<Bytes>
    requires |w.hosts| > 0 && id in w.cards.rows
  {
    match OpenDek(s, w, 0, w.cards.rows[id].dek)
    case None => None
    case Some(dek) => s.decrypt(Card, dek, w.cards.rows[id].crypted)
  }

  /** No known version digests the text to what the given digest version makes of the block. */
  ghost predicate Separate(s: Suite, w: World, version: int, block: Bytes, text: Text)
    requires |w.hosts| > 0
  {
    HmacKey(s, w, 0, version).Some? &&
    forall v | HmacId(v) in w.db && HmacKey(s, w, 0, v).Some? ::
      s.mac(HmacKey(s, w, 0, version).value, block) != s.mac(HmacKey(s, w, 0, v).value, Latin(text))
  }

  /** After a rehash of the range, row id does not lead a search to the text. */
  ghost predicate OutOfReach(s: Suite, w: World, lo: int, hi: int, text: Text, id: int)
    requires Inv(s, w) && id in w.cards.rows
  {
    var active := Number(w.db, HmacVersion).value;
    if id in StaleTokens(w, active, lo, hi) then RawBlock(s, w, id).Some? && Separate(s, w, active, RawBlock(s, w, id).value, text)
    else forall v :: !Carries(s, w, text, id, v)
  }

  /**
   What rehash_tokens leaves findable, told before the call: a search for a text then comes back
   empty exactly when no row off the range carries a digest of it and the digest of no converted
   row's packed block is one. (Padding.BlockIsNotText: the block is never the number itself.)
   */
  lemma RehashFindsExactly(s: Suite, w: World, h: nat, lo: int, hi: int, text: Text)
    requires Lawful(s) && DedupInv(s, w) && h < |w.hosts| && RehashTokens(s, w, h, lo, hi).Some?
    ensures Search(s, RehashTokens(s, w, h, lo, hi).value, h, Card, text) == Some("")
       <==> forall id | id in w.cards.rows :: OutOfReach(s, w, lo, hi, text, id)
  {
    var w' := RehashTokens(s, w, h, lo, hi).value;
    RehashKeeps(s, w, h, lo, hi);
    RehashKeepsKeys(s, w, h, lo, hi);
    TokensNotEmpty(s, w);
    assert forall j | j in w'.cards.rows :: w'.cards.rows[j].token == w.cards.rows[j].token;
    SearchMisses(s, w', h, text);
    forall id | id in w.cards.rows
      ensures OutOfReach(s, w, lo, hi, text, id) <==> forall v :: !Carries(s, w', text, id, v)
    {
      RehashedCarries(s, w, h, lo, hi, text, id);
    }
    assert DigestStored(s, w', text) <==> exists id, v :: id in w.cards.rows && Carries(s, w', text, id, v);
  }

  lemma RehashedCarries(s: Suite, w: World, h: nat, lo: int, hi: int, text: Text, id: int)
    requires Inv(s, w) && h < |w.hosts| && RehashTokens(s, w, h, lo, hi).Some? && id in w.cards.rows
    ensures |RehashTokens(s, w, h, lo, hi).value.hosts| > 0
    ensures OutOfReach(s, w, lo, hi, text, id) <==> forall v :: !Carries(s, RehashTokens(s, w, h, lo, hi).value, text, id, v)
  {
    var w' := RehashTokens(s, w, h, lo, hi).value;
    var active := Number(w.db, HmacVersion).value;
    RehashKeepsKeys(s, w, h, lo, hi);
    if id in StaleTokens(w, active, lo, hi) {
      RehashedDigest(s, w, h, lo, hi, id);
      forall v
        ensures Carries(s, w', text, id, v) <==>
                HmacId(v) in w.db && HmacKey(s, w, 0, v).Some?
                && s.mac(HmacKey(s, w, 0, active).value, RawBlock(s, w, id).value) == s.mac(HmacKey(s, w, 0, v).value, Latin(text))
      {
      }
    } else {
      assert w'.cards.rows[id] == w.cards.rows[id];
      assert forall v :: Carries(s, w', text, id, v) <==> Carries(s, w, text, id, v);
    }
  }

  /**
   A number in one rehashed row, which no other row leads to, is lost exactly when the digest of
   its packed block is not by chance a digest of the number: then it can be stored a second time.
   */
  lemma RehashLosesNumber(s: Suite, w: World, h: nat, lo: int, hi: int, id: int, text: Text)
    requires Lawful(s) && DedupInv(s, w) && h < |w.hosts| && RehashTokens(s, w, h, lo, hi).Some?
    requires id in w.cards.rows && id in StaleTokens(w, Number(w.db, HmacVersion).value, lo, hi)
    requires forall j | j in w.cards.rows && j != id :: OutOfReach(s, w, lo, hi, text, j)
    ensures RawBlock(s, w, id).Some?
    ensures Search(s, RehashTokens(s, w, h, lo, hi).value, h, Card, text) == Some("")
       <==> Separate(s, w, Number(w.db, HmacVersion).value, RawBlock(s, w, id).value, text)
  {
    RehashFindsExactly(s, w, h, lo, hi, text);
    RehashedDigest(s, w, h, lo, hi, id);
  }

  /** The digest a converted row ends up with, as every host computes it. */
  lemma RehashedDigest(s: Suite, w: World, h: nat, lo: int, hi: int, id: int)
    requires Inv(s, w) && h < |w.hosts|
    requires RehashTokens(s, w, h, lo, hi).Some?
    requires id in w.cards.rows && id in StaleTokens(w, Number(w.db, HmacVersion).value, lo, hi)
    ensures RawBlock(s, w, id).Some?
    ensures var active := Number(w.db, HmacVersion).value;
            HmacKey(s, w, 0, active).Some? &&
            RehashTokens(s, w, h, lo, hi).value.cards.rows[id].digest
            == s.mac(HmacKey(s, w, 0, active).value, RawBlock(s, w, id).value)
  {
    var row := w.cards.rows[id];
    assert RowsInv(s, w, Card);
    assert Ready(s, w, w.deks[row.dek].kek);
    assert OpenDek(s, w, h, row.dek) == OpenDek(s, w, 0, row.dek);
    HmacKeyIsDek(s, w, h, Number(w.db, HmacVersion).value);
  }

  lemma RehashKeepsKeys(s: Suite, w: World, h: nat, lo: int, hi: int)
    requires h < |w.hosts| && RehashTokens(s, w, h, lo, hi).Some?
    ensures var w' := RehashTokens(s, w, h, lo, hi).value;
            w'.db == w.db && |w'.hosts| == |w.hosts| && forall v :: HmacKey(s, w', 0, v) == HmacKey(s, w, 0, v)
  {
  }
}
