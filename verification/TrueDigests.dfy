/**
 Deduplication told by the digests themselves, for both tables: which row a search returns, which
 digest a new row gets, and that a token returned for a text stands for that text as long as the
 digest keys in use tell the stored texts apart.
 */
module TrueDigests {
  import opened Basics
  import opened KeyState
  import opened Lifecycle
  import opened LifecycleSafety
  import opened TokenSafety
  import Dedup

  // ---------------------------------------------------------------- which row a search returns

  /** The row carries the keyed digest of the whole text under a digest version in the config table. */
  predicate HasDigest(s: Suite, w: World, h: nat, t: Table, text: Text, id: int, v: int)
    requires h < |w.hosts|
  {
    && id in w.TableOf(t).rows && HmacId(v) in w.db && HmacKey(s, w, h, v).Some?
    && w.TableOf(t).rows[id].digest == s.mac(HmacKey(s, w, h, v).value, Latin(text))
  }

  /** The version comes before the other one in a search: the active one first, then ascending. */
  predicate Before(w: World, u: int, v: int) {
    u != v && (Some(u) == Number(w.db, HmacVersion) || (Some(v) != Number(w.db, HmacVersion) && u < v))
  }

  lemma HitExactly(s: Suite, w: World, h: nat, t: Table, text: Text, versions: set<int>, v: int)
    requires Inv(s, w) && h < |w.hosts| && v in versions && HmacId(v) in w.db
    ensures v in Hits(s, w, h, t, text, versions) <==> exists id :: HasDigest(s, w, h, t, text, id, v)
  {
    Dedup.HmacKeyIsDek(s, w, h, v);
    var rows, digest := w.TableOf(t).rows, s.mac(HmacKey(s, w, h, v).value, Latin(text));
    var ids := set id | id in rows && rows[id].digest == digest;
    if FindDigest(rows, digest).Some? {
      assert HasDigest(s, w, h, t, text, MinOf(ids), v);
    }
    forall id | HasDigest(s, w, h, t, text, id, v)
      ensures FindDigest(rows, digest).Some?
    {
      assert id in ids;
    }
  }

  /** The versions a search tries are those of the config table. */
  lemma TriedVersions(s: Suite, w: World, h: nat) returns (active: int, versions: set<int>)
    requires Inv(s, w) && h < |w.hosts|
    ensures Number(w.db, HmacVersion) == Some(active) && HmacKey(s, w, h, active).Some?
    ensures versions == {active} + LoadedHmacs(s, w, h) && forall v :: v in versions <==> HmacId(v) in w.db
  {
    active := Number(w.db, HmacVersion).value;
    versions := {active} + LoadedHmacs(s, w, h);
    Dedup.LoadedAreNamed(s, w, h);
    Dedup.HmacKeyIsDek(s, w, h, active);
  }

  lemma OldestRow(s: Suite, w: World, h: nat, t: Table, text: Text, v: int, j: int) returns (id: int)
    requires h < |w.hosts| && HasDigest(s, w, h, t, text, j, v)
    ensures HasDigest(s, w, h, t, text, id, v)
    ensures FindDigest(w.TableOf(t).rows, s.mac(HmacKey(s, w, h, v).value, Latin(text))) == Some(id)
    ensures forall i | HasDigest(s, w, h, t, text, i, v) :: id <= i
  {
    var rows, digest := w.TableOf(t).rows, s.mac(HmacKey(s, w, h, v).value, Latin(text));
    var ids := set i | i in rows && rows[i].digest == digest;
    assert j in ids;
    id := MinOf(ids);
    forall i | HasDigest(s, w, h, t, text, i, v)
      ensures id <= i
    {
      assert i in ids;
    }
  }

  /** A search for known versions and their hits. */
  lemma SearchByHits(s: Suite, w: World, h: nat, t: Table, text: Text, active: int, versions: set<int>)
    requires h < |w.hosts| && Number(w.db, HmacVersion) == Some(active) && HmacKey(s, w, h, active).Some?
    requires versions == {active} + LoadedHmacs(s, w, h)
    ensures var hits := Hits(s, w, h, t, text, versions);
            if hits == {} then Search(s, w, h, t, text) == Some("")
            else
              var v := if active in hits then active else MinOf(hits);
              && v in hits && HmacKey(s, w, h, v).Some?
              && var row := FindDigest(w.TableOf(t).rows, s.mac(HmacKey(s, w, h, v).value, Latin(text)));
                 row.Some? && row.value in w.TableOf(t).rows && Search(s, w, h, t, text) == Some(w.TableOf(t).rows[row.value].token)
  {
  }

  lemma HitsExactly(s: Suite, w: World, h: nat, t: Table, text: Text, versions: set<int>)
    requires Inv(s, w) && h < |w.hosts| && forall v :: v in versions <==> HmacId(v) in w.db
    ensures var hits := Hits(s, w, h, t, text, versions);
            && (forall u | u in hits :: HmacId(u) in w.db)
            && forall u | HmacId(u) in w.db :: u in hits <==> exists id :: HasDigest(s, w, h, t, text, id, u)
  {
    forall u | HmacId(u) in w.db
      ensures u in Hits(s, w, h, t, text, versions) <==> exists id :: HasDigest(s, w, h, t, text, id, u)
    {
      HitExactly(s, w, h, t, text, versions, u);
    }
  }

  /** What a search comes to, with the version that hits first. */
  lemma SearchUnfolds(s: Suite, w: World, h: nat, t: Table, text: Text) returns (hits: set<int>, v: int)
    requires Inv(s, w) && h < |w.hosts|
    ensures forall u | HmacId(u) in w.db :: u in hits <==> exists id :: HasDigest(s, w, h, t, text, id, u)
    ensures forall u | u in hits :: HmacId(u) in w.db
    ensures hits == {} ==> Search(s, w, h, t, text) == Some("")
    ensures hits != {} ==>
              && v in hits && HmacKey(s, w, h, v).Some? && (forall u | u in hits :: !Before(w, u, v))
              && var row := FindDigest(w.TableOf(t).rows, s.mac(HmacKey(s, w, h, v).value, Latin(text)));
                 row.Some? && row.value in w.TableOf(t).rows && Search(s, w, h, t, text) == Some(w.TableOf(t).rows[row.value].token)
  {
    var active, versions := TriedVersions(s, w, h);
    hits := Hits(s, w, h, t, text, versions);
    v := if hits == {} || active in hits then active else MinOf(hits);
    HitsExactly(s, w, h, t, text, versions);
    SearchByHits(s, w, h, t, text, active, versions);
  }

  /**
   A search that comes back with a token returns that of the oldest row with the digest of the whole
   text under the first version that has such a row.
   */
  lemma SearchReturns(s: Suite, w: World, h: nat, t: Table, text: Text) returns (id: int, v: int)
    requires Inv(s, w) && h < |w.hosts| && Search(s, w, h, t, text).Some? && Search(s, w, h, t, text) != Some("")
    ensures HasDigest(s, w, h, t, text, id, v) && Search(s, w, h, t, text) == Some(w.TableOf(t).rows[id].token)
    ensures forall j | HasDigest(s, w, h, t, text, j, v) :: id <= j
    ensures forall u, j | HmacId(u) in w.db && Before(w, u, v) :: !HasDigest(s, w, h, t, text, j, u)
  {
    var hits;
    hits, v := SearchUnfolds(s, w, h, t, text);
    var j :| HasDigest(s, w, h, t, text, j, v);
    id := OldestRow(s, w, h, t, text, v, j);
  }

  /** It never fails, and comes back empty exactly when no row has such a digest, unless a token is empty. */
  lemma SearchIsEmpty(s: Suite, w: World, h: nat, t: Table, text: Text)
    requires Inv(s, w) && h < |w.hosts| && forall id | id in w.TableOf(t).rows :: w.TableOf(t).rows[id].token != ""
    ensures Search(s, w, h, t, text).Some?
    ensures Search(s, w, h, t, text) == Some("") <==> forall id, v :: !HasDigest(s, w, h, t, text, id, v)
  {
    var hits, v := SearchUnfolds(s, w, h, t, text);
    if hits != {} {
      var j :| HasDigest(s, w, h, t, text, j, v);
    } else {
      forall id, u
        ensures !HasDigest(s, w, h, t, text, id, u)
      {
        if HmacId(u) in w.db {
          assert u !in hits;
        }
      }
    }
  }

  /** A token is looked up by the only row that has it; with none or with several the lookup fails. */
  lemma TokenRowExactly(rows: map<int, TokenRow>, token: string, id: int)
    ensures FindToken(rows, token) == Some(id) <==> id in rows && rows[id].token == token && forall j | j in rows && rows[j].token == token :: j == id
  {
    var ids := set i | i in rows && rows[i].token == token;
    if id in ids && forall j | j in ids :: j == id {
      assert ids == {id};
    }
    if |ids| == 1 {
      var only := Pick(ids);
      assert |ids - {only}| == 0 && ids - {only} == {};
      forall j | j in ids
        ensures j == only
      {
        assert j !in ids - {only};
      }
      assert MinOf(ids) == only;
      assert only in ids && rows[only].token == token;
      assert forall j | j in rows && rows[j].token == token :: j in ids;
    }
  }

  // ---------------------------------------------------------------- which digest a new row gets

  /**
   A new row: the active version and, for ten characters or more, its digest of the whole text; a
   shorter text gets the random one. Nothing else in the two tables changes.
   */
  lemma NewRowDigest(s: Suite, w: World, h: nat, t: Table, text: Text, d: Draw, env: Env)
    requires h < |w.hosts| && Insert(s, w, h, t, text, d, env).Some?
    ensures var w' := Insert(s, w, h, t, text, d, env).value;
            var active := Number(w.db, HmacVersion);
            && active.Some? && w'.db == w.db && w'.part1 == w.part1 && w'.hosts == w.hosts
            && (forall u | u != t :: w'.TableOf(u) == w.TableOf(u))
            && w.TableOf(t).next in w'.TableOf(t).rows
            && var row := w'.TableOf(t).rows[w.TableOf(t).next];
               && w'.TableOf(t) == TokenTable(w.TableOf(t).rows[w.TableOf(t).next := row], w.TableOf(t).next + 1)
               && row.token == d.token && row.dek == d.pick && row.hmac == active.value
               && (if |text| >= 10 then HmacKey(s, w, h, active.value).Some? && row.digest == s.mac(HmacKey(s, w, h, active.value).value, Latin(text))
                   else row.digest == d.noise)
  {
  }

  // ---------------------------------------------------------------- digests of whole texts, over runs

  /** The digest keys of the config table are among the given ones. */
  ghost predicate KeysAmong(s: Suite, w: World, keys: set<Bytes>)
    requires |w.hosts| > 0
  {
    forall v | HmacId(v) in w.db :: HmacKey(s, w, 0, v).Some? && HmacKey(s, w, 0, v).value in keys
  }

  /** A row with a long text carries the digest of the whole text under one of the keys. */
  ghost predicate Stamped(s: Suite, w: World, t: Table, keys: set<Bytes>, id: int)
    requires |w.hosts| > 0 && id in w.TableOf(t).rows
  {
    var row := w.TableOf(t).rows[id];
    ReadRow(s, w, 0, t, row).Some? && |ReadRow(s, w, 0, t, row).value| >= 10 ==>
      exists k | k in keys :: row.digest == s.mac(k, Latin(ReadRow(s, w, 0, t, row).value))
  }

  ghost predicate DigestsTrue(s: Suite, w: World, t: Table, keys: set<Bytes>) {
    Inv(s, w) && KeysAmong(s, w, keys) && forall id | id in w.TableOf(t).rows :: Stamped(s, w, t, keys, id)
  }

  /** No rehash_tokens on the card table, where only numbers or short codes are stored; new digest keys are among the given ones. */
  predicate KeepsDigests(step: Step, t: Table, keys: set<Bytes>) {
    && (t == Card ==> !step.DoRehash?)
    && (step.DoTokenize? && step.t == Card ==> AllDigits(step.text) || |step.text| < 10)
    && (step.DoGenerateHmac? ==> step.value in keys)
  }

  /** A digest version in the table after a call was there before, or is the one generate_hmac made. */
  lemma NamesComeFrom(s: Suite, w: World, step: Step, v: int)
    requires HmacId(v) in Next(s, w, step).db
    ensures || (HmacId(v) in w.db && Next(s, w, step).db[HmacId(v)] == w.db[HmacId(v)])
            || (step.DoGenerateHmac? && step.h < |w.hosts|
                && GenerateHmac(s, w, step.h, step.password, step.value, step.finish) == Some(Next(s, w, step))
                && Next(s, w, step).db[HmacId(v)] == ToText(w.nextDek))
  {
    if step.h < |w.hosts| {
      if step.DoGenerateKek? {
        KekKeepsNames(s, w, step.h, step.password, step.p1, step.p2, step.p3, v);
      } else if step.DoTokenize? {
        TokenizeKeepsStores(s, w, step.h, step.t, step.text, step.dedup, step.draw, step.env);
      } else if !step.DoGenerateHmac? {
        OthersAddNoName(s, w, step, v);
      }
    }
  }

  lemma KekKeepsNames(s: Suite, w: World, h: nat, password: string, p1: string, p2: string, p3: string, v: int)
    requires h < |w.hosts|
    ensures var next := GenerateKek(s, w, h, password, p1, p2, p3);
            next.Some? && HmacId(v) in next.value.db ==> HmacId(v) in w.db && next.value.db[HmacId(v)] == w.db[HmacId(v)]
  {
    if PlanKek(s, w, h, password, p1, p2, p3).Some? {
      var code := NewControlCode(s, w.db, s.assemble(p1, p2, p3).value).value;
      NewRows(w.db, PlanKek(s, w, h, password, p1, p2, p3).value.0, p3, code);
    }
  }

  lemma OthersAddNoName(s: Suite, w: World, step: Step, v: int)
    requires !step.DoGenerateHmac? && !step.DoGenerateKek? && !step.DoTokenize? && HmacId(v) in Next(s, w, step).db
    ensures HmacId(v) in w.db && Next(s, w, step).db[HmacId(v)] == w.db[HmacId(v)]
  {
  }

  /** The new digest key row opens to the value drawn. */
  lemma NewDigestKey(s: Suite, w: World, h: nat, password: string, value: Key, finish: int, w': World, v: int)
    requires Lawful(s) && Inv(s, w) && h < |w.hosts| && GenerateHmac(s, w, h, password, value, finish) == Some(w')
    requires HmacId(v) in w'.db && w'.db[HmacId(v)] == ToText(w.nextDek)
    ensures Inv(s, w') && HmacKey(s, w', 0, v) == Some(value)
  {
    GenerateHmacKeeps(s, w, h, password, value, finish);
    Dedup.HmacKeyIsDek(s, w', 0, v);
    var active := Authorize(s, w, h, Current, password).value.0;
    assert Present(w, active) && Ready(s, w, active);
    assert UsableKey(s, w, h, active) == UsableKey(s, w, 0, active);
    assert w'.deks[w.nextDek] == NewDek(s, UsableKey(s, w, h, active).value, active, value, 0, finish).value;
    assert MasterKey(s, w', 0, active) == MasterKey(s, w, 0, active);
  }

  lemma KeysStayAmong(s: Suite, w: World, step: Step, keys: set<Bytes>)
    requires Lawful(s) && Inv(s, w) && KeysAmong(s, w, keys) && (step.DoGenerateHmac? ==> step.value in keys)
    ensures Inv(s, Next(s, w, step)) && KeysAmong(s, Next(s, w, step), keys)
  {
    var w' := Next(s, w, step);
    NextKeeps(s, w, step);
    forall v | HmacId(v) in w'.db
      ensures HmacKey(s, w', 0, v).Some? && HmacKey(s, w', 0, v).value in keys
    {
      NamesComeFrom(s, w, step, v);
      Dedup.HmacKeyIsDek(s, w', 0, v);
      if HmacId(v) in w.db && w'.db[HmacId(v)] == w.db[HmacId(v)] {
        Dedup.HmacKeyIsDek(s, w, 0, v);
      } else {
        NewDigestKey(s, w, step.h, step.password, step.value, step.finish, w', v);
      }
    }
  }

  /** Where a row after a call comes from. */
  lemma RowComesFrom(s: Suite, w: World, step: Step, t: Table, id: int)
    requires Inv(s, w) && id in Next(s, w, step).TableOf(t).rows && (t == Card ==> !step.DoRehash?)
    ensures || (id in w.TableOf(t).rows && Next(s, w, step).TableOf(t).rows[id] == w.TableOf(t).rows[id])
            || (step.DoTokenize? && step.t == t && step.h < |w.hosts| && id == w.TableOf(t).next
                && Insert(s, w, step.h, t, step.text, step.draw, step.env) == Some(Next(s, w, step)))
  {
    if KeyCall(step) {
      KeyCallKeepsRows(s, w, step);
    } else if step.h < |w.hosts| && step.DoTokenize? {
      TokenizeAddsRows(s, w, step.h, step.t, step.text, step.dedup, step.draw, step.env);
    }
  }

  lemma RowStaysStamped(s: Suite, w: World, step: Step, t: Table, keys: set<Bytes>, id: int)
    requires Lawful(s) && DigestsTrue(s, w, t, keys) && KeepsDigests(step, t, keys)
    requires Inv(s, Next(s, w, step)) && Stable(s, w, Next(s, w, step)) && id in Next(s, w, step).TableOf(t).rows
    ensures Stamped(s, Next(s, w, step), t, keys, id)
  {
    var w' := Next(s, w, step);
    RowComesFrom(s, w, step, t, id);
    if id in w.TableOf(t).rows && w'.TableOf(t).rows[id] == w.TableOf(t).rows[id] {
      assert Stamped(s, w, t, keys, id) && RowsInv(s, w, t);
      ReadRowFramed(s, w, w', t, w.TableOf(t).rows[id]);
    } else {
      NewRowStamped(s, w, step.h, t, step.text, step.draw, step.env, keys);
    }
  }

  lemma NewRowStamped(s: Suite, w: World, h: nat, t: Table, text: Text, d: Draw, env: Env, keys: set<Bytes>)
    requires Lawful(s) && Inv(s, w) && KeysAmong(s, w, keys) && h < |w.hosts| && Insert(s, w, h, t, text, d, env).Some?
    requires t == Card ==> AllDigits(text) || |text| < 10
    ensures var w' := Insert(s, w, h, t, text, d, env).value;
            |w'.hosts| == |w.hosts| && w.TableOf(t).next in w'.TableOf(t).rows && Stamped(s, w', t, keys, w.TableOf(t).next)
  {
    InsertKeeps(s, w, h, t, text, d, env);
    NewRowDigest(s, w, h, t, text, d, env);
    var active := Number(w.db, HmacVersion).value;
    Dedup.HmacKeyIsDek(s, w, h, active);
    Dedup.HmacKeyIsDek(s, w, 0, active);
  }

  lemma NextKeepsDigests(s: Suite, w: World, step: Step, t: Table, keys: set<Bytes>)
    requires Lawful(s) && DigestsTrue(s, w, t, keys) && KeepsDigests(step, t, keys)
    ensures DigestsTrue(s, Next(s, w, step), t, keys)
  {
    NextKeeps(s, w, step);
    KeysStayAmong(s, w, step, keys);
    forall id | id in Next(s, w, step).TableOf(t).rows
      ensures Stamped(s, Next(s, w, step), t, keys, id)
    {
      RowStaysStamped(s, w, step, t, keys, id);
    }
  }

  /** Over every such run each long text carries the digest of the whole of it. */
  lemma {:induction false} RunKeepsDigests(s: Suite, w: World, steps: seq<Step>, t: Table, keys: set<Bytes>)
    requires Lawful(s) && DigestsTrue(s, w, t, keys) && forall i | 0 <= i < |steps| :: KeepsDigests(steps[i], t, keys)
    ensures DigestsTrue(s, Run(s, w, steps), t, keys)
    decreases |steps|
  {
    if steps != [] {
      RunKeepsDigests(s, w, steps[..|steps| - 1], t, keys);
      NextKeepsDigests(s, Run(s, w, steps[..|steps| - 1]), steps[|steps| - 1], t, keys);
    }
  }

  // ---------------------------------------------------------------- what a returned token stands for

  /** Under the keys no other stored text has a digest of the text, and no random digest is one. */
  ghost predicate TellsApart(s: Suite, w: World, t: Table, keys: set<Bytes>, text: Text, id: int)
    requires |w.hosts| > 0 && id in w.TableOf(t).rows
  {
    match ReadRow(s, w, 0, t, w.TableOf(t).rows[id])
    case None => true
    case Some(x) =>
      if |x| >= 10 then forall k1, k2 | k1 in keys && k2 in keys && s.mac(k1, Latin(x)) == s.mac(k2, Latin(text)) :: x == text
      else forall k | k in keys :: w.TableOf(t).rows[id].digest != s.mac(k, Latin(text))
  }

  ghost predicate AllToldApart(s: Suite, w: World, t: Table, keys: set<Bytes>, text: Text) {
    |w.hosts| > 0 && forall id | id in w.TableOf(t).rows :: TellsApart(s, w, t, keys, text, id)
  }

  /** A row with the digest of the text holds the text. */
  lemma DigestMeansText(s: Suite, w: World, h: nat, t: Table, keys: set<Bytes>, text: Text, id: int, v: int)
    requires DigestsTrue(s, w, t, keys) && AllToldApart(s, w, t, keys, text) && h < |w.hosts| && HasDigest(s, w, h, t, text, id, v)
    ensures ReadRow(s, w, 0, t, w.TableOf(t).rows[id]) == Some(text)
  {
    Dedup.HmacKeyIsDek(s, w, h, v);
    assert RowsInv(s, w, t) && Stamped(s, w, t, keys, id) && TellsApart(s, w, t, keys, text, id);
  }

  /** A token that search found, in either table, is read back by every host as the text searched for. */
  lemma FoundStandsForText(s: Suite, w: World, h: nat, t: Table, keys: set<Bytes>, text: Text)
    requires Lawful(s) && DigestsTrue(s, w, t, keys) && AllToldApart(s, w, t, keys, text) && h < |w.hosts|
    requires Search(s, w, h, t, text).Some? && Search(s, w, h, t, text) != Some("")
    ensures var token := Search(s, w, h, t, text).value;
            && FindToken(w.TableOf(t).rows, token).Some?
            && forall i | 0 <= i < |w.hosts| :: Detokenize(s, w, i, t, token) == Some(text)
  {
    var id, v := SearchReturns(s, w, h, t, text);
    DigestMeansText(s, w, h, t, keys, text, id, v);
    var token := w.TableOf(t).rows[id].token;
    assert TokensInv(s, w, t);
    FindTokenIs(w.TableOf(t).rows, token, id);
    forall i | 0 <= i < |w.hosts|
      ensures Detokenize(s, w, i, t, token) == Some(text)
    {
      LiveTokensReadable(s, w, t, token, i);
    }
  }

  /** Found or new, the token returned is read back by every host as what was tokenized. */
  lemma ReturnedStandsForText(s: Suite, w: World, h: nat, t: Table, keys: set<Bytes>, text: Text, dedup: bool, d: Draw, env: Env)
    requires Lawful(s) && DigestsTrue(s, w, t, keys) && AllToldApart(s, w, t, keys, text) && h < |w.hosts|
    requires (t == Card && dedup ==> AllDigits(text)) && Tokenize(s, w, h, t, text, dedup, d, env).Some?
    ensures var (w', token) := Tokenize(s, w, h, t, text, dedup, d, env).value;
            && |w'.hosts| == |w.hosts| && FindToken(w'.TableOf(t).rows, token).Some?
            && forall i | 0 <= i < |w.hosts| :: Detokenize(s, w', i, t, token) == Some(ReadsAs(t, text))
  {
    if dedup && Search(s, w, h, t, text) != Some("") {
      FoundStandsForText(s, w, h, t, keys, text);
    } else {
      NewTokenReadsBack(s, w, h, t, text, dedup, d, env);
    }
  }

  /**
   In both tables, over runs without rehash_tokens on this one: as long as the keys tell the stored
   texts apart from the text, every token tokenize returns, new or found, is read back by every host
   as that text, after any further run that does not remove it.
   */
  lemma EveryTokenStandsForText(s: Suite, w0: World, before: seq<Step>, h: nat, t: Table, keys: set<Bytes>, text: Text, dedup: bool,
                                d: Draw, env: Env, after: seq<Step>, i: nat)
    requires Lawful(s) && DigestsTrue(s, w0, t, keys) && h < |w0.hosts| && i < |w0.hosts| && (t == Card && dedup ==> AllDigits(text))
    requires forall n | 0 <= n < |before| :: KeepsDigests(before[n], t, keys)
    ensures |Run(s, w0, before).hosts| == |w0.hosts|
    ensures var w := Run(s, w0, before);
            var made := Tokenize(s, w, h, t, text, dedup, d, env);
            made.Some? && AllToldApart(s, w, t, keys, text) && NeverRemoves(after, t, made.value.1) ==>
              var end := Run(s, made.value.0, after);
              i < |end.hosts| && Detokenize(s, end, i, t, made.value.1) == Some(ReadsAs(t, text))
  {
    RunKeeps(s, w0, before);
    RunKeepsDigests(s, w0, before, t, keys);
    AfterwardsStandsForText(s, Run(s, w0, before), h, t, keys, text, dedup, d, env, after, i);
  }

  lemma AfterwardsStandsForText(s: Suite, w: World, h: nat, t: Table, keys: set<Bytes>, text: Text, dedup: bool,
                                d: Draw, env: Env, after: seq<Step>, i: nat)
    requires Lawful(s) && DigestsTrue(s, w, t, keys) && h < |w.hosts| && i < |w.hosts| && (t == Card && dedup ==> AllDigits(text))
    ensures var made := Tokenize(s, w, h, t, text, dedup, d, env);
            made.Some? && AllToldApart(s, w, t, keys, text) && NeverRemoves(after, t, made.value.1) ==>
              var end := Run(s, made.value.0, after);
              i < |end.hosts| && Detokenize(s, end, i, t, made.value.1) == Some(ReadsAs(t, text))
  {
    var made := Tokenize(s, w, h, t, text, dedup, d, env);
    if made.Some? && AllToldApart(s, w, t, keys, text) && NeverRemoves(after, t, made.value.1) {
      ReturnedStandsForText(s, w, h, t, keys, text, dedup, d, env);
      TokenizeKeeps(s, w, h, t, text, dedup, d, env);
      TokensStayReadable(s, made.value.0, after, t, made.value.1);
    }
  }
}
