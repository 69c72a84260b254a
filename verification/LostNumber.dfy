/**
 A number that rehash_tokens takes out of reach, from an installation on: stored, found, rehashed,
 not found any more and stored a second time.
 */
module LostNumber {
  import opened Basics
  import opened KeyState
  import opened Lifecycle
  import opened LifecycleSafety
  import opened TokenSafety
  import opened Dedup
  import opened DekPool
  import opened TokenService
  import opened Availability
  import opened Confirmation
  import opened CryptoSuite
  import opened EndToEnd
  import A = Aes
  import B = Base64
  import Installation
  import Rotation
  import H = Hex
  import P = Padding

  // ---------------------------------------------------------------- the steps, for any suite

  /** The settings and choices with which a row can be made for the text, under the one token given. */
  ghost predicate GoodChoice(s: Suite, w: World, text: Text, limits: Limits, u: Supply) {
    && limits.minActive > 0 && limits.useCount > 0 && limits.period > 0
    && Packs(s, Card, text, u.pad) && u.picks != [] && u.spare != []
    && |u.tokens| == 1 && u.tokens[0] != "" && !TokenTaken(w, Card, u.tokens[0])
  }

  /** A text that search does not find gets a row of its own, which every host reads as the text. */
  lemma StoresRow(s: Suite, w: World, text: Text, limits: Limits, u: Supply, now: int) returns (step: Step, w': World)
    requires Lawful(s) && Inv(s, w) && Search(s, w, 0, Card, text) == Some("") && GoodChoice(s, w, text, limits, u)
    ensures Next(s, w, step) == w' && Inv(s, w') && |w'.hosts| > 0 && (AllDigits(text) ==> CardCall(step))
    ensures w'.db == w.db && w'.part1 == w.part1 && NewRow(s, w, w', Card, u.tokens[0], text)
    ensures w'.cards.next == w.cards.next + 1 && Some(w'.cards.rows[w.cards.next].hmac) == Number(w.db, HmacVersion)
    ensures forall id | id in w.cards.rows :: ReadRow(s, w', 0, Card, w.cards.rows[id]) == ReadRow(s, w, 0, Card, w.cards.rows[id])
  {
    assert u.tokens[0] in u.tokens;
    Availability.TokenizeAvailable(s, w, 0, Card, text, true, limits, u, now);
    w' := Create(s, w, 0, Card, text, limits, None, u, now).value.w;
    var d := CreateIsInsert(s, w, 0, Card, text, limits, None, u, now);
    assert d.token == u.tokens[0] by {
      FreshIsFree(w, Card, u.tokens);
    }
    var env := Env(now, limits.useCount, limits.period);
    step := DoTokenize(0, Card, text, true, d, env);
    Inserted(s, w, text, d, env);
  }

  /** A row inserted beside the others. */
  lemma Inserted(s: Suite, w: World, text: Text, d: Draw, env: Env)
    requires Lawful(s) && Inv(s, w) && Search(s, w, 0, Card, text) == Some("") && Insert(s, w, 0, Card, text, d, env).Some?
    ensures var w' := Insert(s, w, 0, Card, text, d, env).value;
            && Next(s, w, DoTokenize(0, Card, text, true, d, env)) == w' && Inv(s, w') && |w'.hosts| > 0
            && w'.db == w.db && w'.part1 == w.part1 && NewRow(s, w, w', Card, d.token, text)
            && w'.cards.next == w.cards.next + 1 && Some(w'.cards.rows[w.cards.next].hmac) == Number(w.db, HmacVersion)
            && forall id | id in w.cards.rows :: ReadRow(s, w', 0, Card, w.cards.rows[id]) == ReadRow(s, w, 0, Card, w.cards.rows[id])
  {
    InsertKeeps(s, w, 0, Card, text, d, env);
    InsertedShape(s, w, text, d, env);
    OldRowsRead(s, w, Insert(s, w, 0, Card, text, d, env).value);
  }

  lemma InsertedShape(s: Suite, w: World, text: Text, d: Draw, env: Env)
    requires |w.hosts| > 0 && Search(s, w, 0, Card, text) == Some("") && Insert(s, w, 0, Card, text, d, env).Some?
    ensures var w' := Insert(s, w, 0, Card, text, d, env).value;
            && Next(s, w, DoTokenize(0, Card, text, true, d, env)) == w'
            && w'.db == w.db && w'.part1 == w.part1 && w'.cards.next == w.cards.next + 1 && w.cards.next in w'.cards.rows
            && Some(w'.cards.rows[w.cards.next].hmac) == Number(w.db, HmacVersion)
  {
    InsertedRow(s, w, 0, text, d, env);
    InsertedStores(s, w, text, d, env);
    ByInsert(s, w, text, d, env);
  }

  lemma InsertedStores(s: Suite, w: World, text: Text, d: Draw, env: Env)
    requires |w.hosts| > 0 && Insert(s, w, 0, Card, text, d, env).Some?
    ensures var w' := Insert(s, w, 0, Card, text, d, env).value;
            w'.part1 == w.part1 && w'.cards.next == w.cards.next + 1
  {
    var active, kek, finish, grown, row := ReserveIs(s, w, 0, Card, text, d, env);
  }

  lemma ByInsert(s: Suite, w: World, text: Text, d: Draw, env: Env)
    requires |w.hosts| > 0 && Search(s, w, 0, Card, text) == Some("") && Insert(s, w, 0, Card, text, d, env).Some?
    ensures Next(s, w, DoTokenize(0, Card, text, true, d, env)) == Insert(s, w, 0, Card, text, d, env).value
  {
  }

  lemma OldRowsRead(s: Suite, w: World, w': World)
    requires Inv(s, w) && SameDeks(s, w, w')
    ensures forall id | id in w.cards.rows :: ReadRow(s, w', 0, Card, w.cards.rows[id]) == ReadRow(s, w, 0, Card, w.cards.rows[id])
  {
    assert RowsInv(s, w, Card);
    forall id | id in w.cards.rows
      ensures ReadRow(s, w', 0, Card, w.cards.rows[id]) == ReadRow(s, w, 0, Card, w.cards.rows[id])
    {
      ReadRowFramed(s, w, w', Card, w.cards.rows[id]);
    }
  }

  lemma NothingFoundAtFirst(s: Suite, w: World, text: Text)
    requires Inv(s, w) && w.cards.rows == map[]
    ensures DedupInv(s, w) && Search(s, w, 0, Card, text) == Some("")
  {
    Dedup.SearchMisses(s, w, 0, text);
  }

  /** The digest versions of the state are the given ones. */
  ghost predicate Digests(w: World, versions: set<int>, active: int) {
    Number(w.db, HmacVersion) == Some(active) && active in versions && forall v :: HmacId(v) in w.db <==> v in versions
  }

  lemma DigestsAreKnown(s: Suite, w: World, versions: set<int>, active: int)
    requires Inv(s, w) && Digests(w, versions, active)
    ensures HmacVersions(s, w, 0) == Some(versions)
  {
    LoadedAreNamed(s, w, 0);
    var loaded := LoadedHmacs(s, w, 0);
    forall v
      ensures v in loaded <==> v in versions
    {
      assert v in loaded <==> HmacId(v) in w.db;
    }
    assert loaded == versions;
    assert {active} + loaded == versions;
  }

  /** generate_hmac by the owner of a part: version 1 after version 0. */
  lemma GeneratesDigest(s: Suite, w: World, password: string, key: Key, finish: int) returns (w': World)
    requires Lawful(s) && Inv(s, w) && OwnsPart1(w, password) && Digests(w, {0}, 0)
    ensures w' == Next(s, w, DoGenerateHmac(0, password, key, finish))
    ensures Inv(s, w') && w'.cards == w.cards && Digests(w', {0, 1}, 0) && OwnsPart1(w', password)
  {
    DigestsAreKnown(s, w, {0}, 0);
    OwnerIsLetIn(s, w, 0, password);
    w' := Named(s, w, password, key, finish, {0});
    OneMoreDigest(w, w', password, ToText(w.nextDek));
    NextKeeps(s, w, DoGenerateHmac(0, password, key, finish));
  }

  lemma OneMoreDigest(w: World, w': World, password: string, row: string)
    requires OwnsPart1(w, password) && Digests(w, {0}, 0)
    requires w'.part1 == w.part1 && w'.db == w.db[HmacId(NewHmacVersion({0})) := row]
    ensures Digests(w', {0, 1}, 0) && OwnsPart1(w', password)
  {
    assert NewHmacVersion({0}) == 1;
  }

  lemma Named(s: Suite, w: World, password: string, key: Key, finish: int, versions: set<int>) returns (w': World)
    requires Lawful(s) && |w.hosts| > 0 && Authorize(s, w, 0, Current, password).Some? && HmacVersions(s, w, 0) == Some(versions)
    requires UsableKey(s, w, 0, Authorize(s, w, 0, Current, password).value.0).Some?
    ensures w' == Next(s, w, DoGenerateHmac(0, password, key, finish))
    ensures w'.db == w.db[HmacId(NewHmacVersion(versions)) := ToText(w.nextDek)] && w'.cards == w.cards && w'.part1 == w.part1
  {
    assert s.seal(UsableKey(s, w, 0, Authorize(s, w, 0, Current, password).value.0).value, key).Some?;
    w' := Next(s, w, DoGenerateHmac(0, password, key, finish));
  }

  lemma SwitchesDigest(s: Suite, w: World, password: string) returns (w': World)
    requires Lawful(s) && Inv(s, w) && OwnsPart1(w, password) && Digests(w, {0, 1}, 0)
    ensures w' == Next(s, w, DoSwitchHmac(0, password))
    ensures Inv(s, w') && w'.cards == w.cards && Number(w'.db, HmacVersion) == Some(1)
  {
    DigestsAreKnown(s, w, {0, 1}, 0);
    OwnerIsLetIn(s, w, 0, password);
    w' := SwitchedTo(s, w, password, {0, 1});
    NextKeeps(s, w, DoSwitchHmac(0, password));
  }

  lemma SwitchedTo(s: Suite, w: World, password: string, versions: set<int>) returns (w': World)
    requires |w.hosts| > 0 && Authorize(s, w, 0, Current, password).Some? && HmacVersions(s, w, 0) == Some(versions)
    requires versions != {} && Number(w.db, HmacVersion) != Some(MaxOf(versions))
    ensures w' == Next(s, w, DoSwitchHmac(0, password))
    ensures w'.cards == w.cards && Number(w'.db, HmacVersion) == Some(MaxOf(versions))
  {
    w' := Next(s, w, DoSwitchHmac(0, password));
  }

  /** In a good state rehash_tokens never fails. */
  lemma RehashGoesThrough(s: Suite, w: World, h: nat, lo: int, hi: int)
    requires Inv(s, w) && h < |w.hosts|
    ensures RehashTokens(s, w, h, lo, hi).Some?
  {
    ActiveDigestKnown(s, w, h);
    var target := Number(w.db, HmacVersion).value;
    forall id | id in StaleTokens(w, target, lo, hi)
      ensures RehashRow(s, w, h, w.cards.rows[id], target).Some?
    {
      assert RowsInv(s, w, Card);
      var dek := w.cards.rows[id].dek;
      assert Ready(s, w, w.deks[dek].kek);
      assert OpenDek(s, w, h, dek) == OpenDek(s, w, 0, dek);
    }
  }

  /** The number's one row, alone in the table. */
  ghost predicate OnlyRow(s: Suite, w: World, id: int, token: string, text: Text) {
    && |w.hosts| > 0 && w.cards.rows.Keys == {id} && w.cards.next == id + 1 && w.cards.rows[id].token == token
    && ReadRow(s, w, 0, Card, w.cards.rows[id]) == Some(text)
  }

  /** A stored number, one digest switch and a rehash: the number is there, but not found. */
  lemma RehashHidesIt(s: Suite, w: World, id: int, token: string, text: Text) returns (w': World)
    requires Lawful(s) && DedupInv(s, w) && OnlyRow(s, w, id, token, text)
    requires Number(w.db, HmacVersion) != Some(w.cards.rows[id].hmac)
    requires RawBlock(s, w, id).Some? ==>
               Number(w.db, HmacVersion).Some? && Separate(s, w, Number(w.db, HmacVersion).value, RawBlock(s, w, id).value, text)
    ensures Next(s, w, DoRehash(0, id, id)) == w' && Inv(s, w') && OnlyRow(s, w', id, token, text)
    ensures Search(s, w', 0, Card, text) == Some("")
  {
    RehashGoesThrough(s, w, 0, id, id);
    RehashLosesNumber(s, w, 0, id, id, id, text);
    w' := RehashTokens(s, w, 0, id, id).value;
    RehashKeepsRow(s, w, id);
  }

  lemma RehashKeepsRow(s: Suite, w: World, id: int)
    requires Lawful(s) && Inv(s, w) && id in w.cards.rows && RehashTokens(s, w, 0, id, id).Some?
    ensures var w' := RehashTokens(s, w, 0, id, id).value;
            && Next(s, w, DoRehash(0, id, id)) == w' && Inv(s, w') && |w'.hosts| == |w.hosts|
            && w'.cards.next == w.cards.next && w'.cards.rows.Keys == w.cards.rows.Keys && w'.cards.rows[id].token == w.cards.rows[id].token
            && ReadRow(s, w', 0, Card, w'.cards.rows[id]) == ReadRow(s, w, 0, Card, w.cards.rows[id])
  {
    var w' := RehashTokens(s, w, 0, id, id).value;
    RehashKeeps(s, w, 0, id, id);
    RehashShape(s, w, id);
    assert RowsInv(s, w, Card);
    SameReading(s, w, w', Card, w.cards.rows[id], w'.cards.rows[id]);
  }

  lemma RehashShape(s: Suite, w: World, id: int)
    requires |w.hosts| > 0 && id in w.cards.rows && RehashTokens(s, w, 0, id, id).Some?
    ensures var w' := RehashTokens(s, w, 0, id, id).value;
            && Next(s, w, DoRehash(0, id, id)) == w' && |w'.hosts| == |w.hosts|
            && w'.cards.next == w.cards.next && w'.cards.rows.Keys == w.cards.rows.Keys
            && w'.cards.rows[id].token == w.cards.rows[id].token
            && w'.cards.rows[id].crypted == w.cards.rows[id].crypted && w'.cards.rows[id].dek == w.cards.rows[id].dek
  {
  }

  lemma SameReading(s: Suite, w: World, w': World, t: Table, row: TokenRow, row': TokenRow)
    requires Inv(s, w) && SameDeks(s, w, w') && row'.crypted == row.crypted && row'.dek == row.dek
    requires row.dek in w.deks
    ensures ReadRow(s, w', 0, t, row') == ReadRow(s, w, 0, t, row)
  {
    ReadRowFramed(s, w, w', t, row);
  }

  /** Stored from an empty table, the number has the table's one row. */
  lemma FirstRow(s: Suite, w: World, text: Text, limits: Limits, u: Supply, now: int) returns (step: Step, w': World)
    requires Lawful(s) && Inv(s, w) && w.cards == TokenTable(map[], 1) && AllDigits(text) && GoodChoice(s, w, text, limits, u)
    ensures Next(s, w, step) == w' && CardCall(step) && DedupInv(s, w') && OnlyRow(s, w', 1, u.tokens[0], text)
    ensures w'.db == w.db && w'.part1 == w.part1 && Some(w'.cards.rows[1].hmac) == Number(w.db, HmacVersion)
  {
    NothingFoundAtFirst(s, w, text);
    step, w' := StoresRow(s, w, text, limits, u, now);
    NextKeepsDedup(s, w, step);
    assert ReadsAs(Card, text) == text;
  }

  /** Key calls leave the number's row. */
  lemma OnlyRowStays(s: Suite, w: World, w': World, id: int, token: string, text: Text)
    requires Inv(s, w) && SameDeks(s, w, w') && w'.cards == w.cards && OnlyRow(s, w, id, token, text)
    ensures OnlyRow(s, w', id, token, text)
  {
    assert RowsInv(s, w, Card);
    SameReading(s, w, w', Card, w.cards.rows[id], w'.cards.rows[id]);
  }

  /** A number stored under version 0 and the digest version moved on. */
  lemma StoredAndMovedOn(s: Suite, w: World, password: string, key: Key, text: Text, limits: Limits, u: Supply, now: int)
    returns (step: Step, w': World)
    requires Lawful(s) && Inv(s, w) && w.cards == TokenTable(map[], 1) && AllDigits(text) && GoodChoice(s, w, text, limits, u)
    requires OwnsPart1(w, password) && Digests(w, {0}, 0)
    ensures w' == Run(s, w, [step, DoGenerateHmac(0, password, key, 0), DoSwitchHmac(0, password)])
    ensures CardCall(step) && DedupInv(s, w') && OnlyRow(s, w', 1, u.tokens[0], text)
    ensures Number(w'.db, HmacVersion) == Some(1) && w'.cards.rows[1].hmac == 0
  {
    var w1;
    step, w1 := FirstRow(s, w, text, limits, u, now);
    var w2 := GeneratesDigest(s, w1, password, key, 0);
    w' := SwitchesDigest(s, w2, password);
    Rotation.RunThree(s, w, step, DoGenerateHmac(0, password, key, 0), DoSwitchHmac(0, password));
    NextKeepsDedup(s, w1, DoGenerateHmac(0, password, key, 0));
    NextKeepsDedup(s, w2, DoSwitchHmac(0, password));
    NextKeeps(s, w1, DoGenerateHmac(0, password, key, 0));
    NextKeeps(s, w2, DoSwitchHmac(0, password));
    OnlyRowStays(s, w1, w2, 1, u.tokens[0], text);
    OnlyRowStays(s, w2, w', 1, u.tokens[0], text);
  }

  /** Not found any more, the number gets a second row beside the first. */
  lemma SecondRow(s: Suite, w: World, id: int, token: string, text: Text, limits: Limits, u: Supply, now: int) returns (step: Step, w': World)
    requires Lawful(s) && Inv(s, w) && OnlyRow(s, w, id, token, text) && Search(s, w, 0, Card, text) == Some("") && AllDigits(text)
    requires GoodChoice(s, w, text, limits, u)
    ensures Next(s, w, step) == w' && CardCall(step) && |w'.hosts| > 0
    ensures HoldsNumber(s, w', id, text) && HoldsNumber(s, w', id + 1, text)
  {
    step, w' := StoresRow(s, w, text, limits, u, now);
    assert ReadsAs(Card, text) == text;
  }

  /** Row 1 holds the number and is found; rehashed it is not found; then row 2 holds it as well. */
  ghost predicate LostAndTwice(s: Suite, w: World, lost: World, twice: World, number: Text) {
    && |w.hosts| > 0 && |lost.hosts| > 0 && |twice.hosts| > 0
    && HoldsNumber(s, w, 1, number) && Search(s, w, 0, Card, number) != Some("")
    && HoldsNumber(s, lost, 1, number) && Search(s, lost, 0, Card, number) == Some("")
    && HoldsNumber(s, twice, 1, number) && HoldsNumber(s, twice, 2, number)
  }

  /** The number's characters and its packed block never have the same digest. */
  ghost predicate TellsApart(s: Suite, text: Text) {
    forall w, token | Inv(s, w) && OnlyRow(s, w, 1, token, text) && RawBlock(s, w, 1).Some? ::
      Number(w.db, HmacVersion).Some? && Separate(s, w, Number(w.db, HmacVersion).value, RawBlock(s, w, 1).value, text)
  }

  /** Another token is free beside the only one in use. */
  lemma FreeBeside(s: Suite, w: World, w': World, token: string, text: Text, limits: Limits, u: Supply)
    requires GoodChoice(s, w, text, limits, u) && OnlyRow(s, w', 1, token, text) && u.tokens != [token]
    ensures GoodChoice(s, w', text, limits, u)
  {
  }

  lemma FoundThenLost(s: Suite, w: World, token: string, text: Text) returns (lost: World)
    requires Lawful(s) && DedupInv(s, w) && OnlyRow(s, w, 1, token, text) && |text| >= DIGEST_FROM && TellsApart(s, text)
    requires Number(w.db, HmacVersion) != Some(w.cards.rows[1].hmac)
    ensures Search(s, w, 0, Card, text) != Some("") && HoldsNumber(s, w, 1, text)
    ensures lost == Next(s, w, DoRehash(0, 1, 1)) && Inv(s, lost) && OnlyRow(s, lost, 1, token, text) && HoldsNumber(s, lost, 1, text)
    ensures Search(s, lost, 0, Card, text) == Some("")
  {
    LiveNumberIsFound(s, w, 0, 1, text);
    lost := RehashHidesIt(s, w, 1, token, text);
  }

  lemma LostThenTwice(s: Suite, w: World, token: string, start: World, text: Text, limits: Limits, u: Supply)
    returns (again: Step, lost: World, twice: World)
    requires Lawful(s) && DedupInv(s, w) && OnlyRow(s, w, 1, token, text) && |text| >= DIGEST_FROM && TellsApart(s, text)
    requires Number(w.db, HmacVersion) != Some(w.cards.rows[1].hmac) && AllDigits(text)
    requires GoodChoice(s, start, text, limits, u) && u.tokens != [token]
    ensures CardCall(again) && lost == Next(s, w, DoRehash(0, 1, 1)) && twice == Next(s, lost, again)
    ensures LostAndTwice(s, w, lost, twice, text)
  {
    lost := FoundThenLost(s, w, token, text);
    FreeBeside(s, start, lost, token, text, limits, u);
    again, twice := SecondRow(s, lost, 1, token, text, limits, u, 0);
  }

  /** The whole story, for any suite that tells the number from its block. */
  lemma Story(s: Suite, start: World, password: string, key: Key, text: Text, limits: Limits, u1: Supply, u2: Supply)
    returns (first: Step, again: Step, w: World, lost: World, twice: World)
    requires Lawful(s) && Inv(s, start) && start.cards == TokenTable(map[], 1) && AllDigits(text) && |text| >= DIGEST_FROM
    requires OwnsPart1(start, password) && Digests(start, {0}, 0) && TellsApart(s, text)
    requires GoodChoice(s, start, text, limits, u1) && GoodChoice(s, start, text, limits, u2) && u1.tokens != u2.tokens
    ensures CardCall(first) && CardCall(again)
    ensures w == Run(s, start, [first, DoGenerateHmac(0, password, key, 0), DoSwitchHmac(0, password)])
    ensures lost == Next(s, w, DoRehash(0, 1, 1)) && twice == Next(s, lost, again)
    ensures LostAndTwice(s, w, lost, twice, text)
  {
    first, w := StoredAndMovedOn(s, start, password, key, text, limits, u1, 0);
    again, lost, twice := LostThenTwice(s, w, u1.tokens[0], start, text, limits, u2);
  }

  // ---------------------------------------------------------------- an input

  /** A digest that is the end of its input, so that it tells short texts apart. */
  function ToySha(x: Bytes): A.Digest {
    (A.Repeat(32, 0) + x)[|x|..]
  }

  /** Under any key, HMAC over that digest ends in the text. */
  lemma ToyHmacEnds(hk: Bytes, text: Bytes)
    requires |text| == 16
    ensures A.Hmac(ToySha, hk, text)[16..] == text
  {
    var key := A.HmacKeyBlock(ToySha, hk);
    var x := A.XorBytes(key, A.Repeat(A.HMAC_BLOCK, 0x36)) + text;
    var inner := ToySha(x);
    assert inner[16..] == text;
    var y := A.XorBytes(key, A.Repeat(A.HMAC_BLOCK, 0x5c)) + inner;
    assert ToySha(y) == inner;
  }

  lemma ToyMacsDiffer(k1: Bytes, k2: Bytes, a: Bytes, b: Bytes)
    requires |a| == |b| == 16 && a != b
    ensures B.Encode(A.Hmac(ToySha, k1, a)) != B.Encode(A.Hmac(ToySha, k2, b))
  {
    ToyHmacEnds(k1, a);
    ToyHmacEnds(k2, b);
    B.DecodeEncode(A.Hmac(ToySha, k1, a));
    B.DecodeEncode(A.Hmac(ToySha, k2, b));
  }

  lemma ToySeparates(w: World, version: int, block: Bytes, text: Text)
    requires |w.hosts| > 0 && |block| == |text| == 16 && block != Latin(text)
    requires HmacKey(RealSuite(ToyCipher(), ToySha), w, 0, version).Some?
    ensures Separate(RealSuite(ToyCipher(), ToySha), w, version, block, text)
  {
    var s := RealSuite(ToyCipher(), ToySha);
    forall v | HmacId(v) in w.db && HmacKey(s, w, 0, v).Some?
      ensures s.mac(HmacKey(s, w, 0, version).value, block) != s.mac(HmacKey(s, w, 0, v).value, Latin(text))
    {
      ToyMacsDiffer(HmacKey(s, w, 0, version).value, HmacKey(s, w, 0, v).value, block, Latin(text));
    }
  }

  lemma FirstHexDigit(x: byte)
    ensures IsDigit(H.Digits(x, true)[0]) <==> x < 160
  {
  }

  /** The byte after a whole number of packed digits does not start with one. */
  lemma ByteAfterDigits(block: Bytes, n: nat)
    requires n < |block| && |DigitPrefix(P.HexText(block))| == 2 * n
    ensures block[n] >= 160
  {
    var hex := P.HexText(block);
    assert !IsDigit(hex[2 * n]);
    H.EncodeAt(block, true, n);
    FirstHexDigit(block[n]);
  }

  /** A block that unpacks to a number of 16 digits is not that number's characters. */
  lemma BlockOfNumber(block: Bytes, text: Text)
    requires P.BcdDecode(block) == Some(text) && |text| == 16 && AllDigits(text)
    ensures |block| == 16 && block != Latin(text)
  {
    ByteAfterDigits(block, 8);
    assert IsDigit(text[8]);
  }

  function Number16(): (n: Text)
    ensures |n| == 16 && AllDigits(n)
  {
    seq(16, i => '4')
  }

  /** The digest of the packed block tells itself apart from the number's, for the one row there is. */
  lemma ToyRowSeparates(w: World, id: int, token: string)
    requires Inv(RealSuite(ToyCipher(), ToySha), w) && OnlyRow(RealSuite(ToyCipher(), ToySha), w, id, token, Number16())
    requires RawBlock(RealSuite(ToyCipher(), ToySha), w, id).Some?
    ensures Number(w.db, HmacVersion).Some?
    ensures var s := RealSuite(ToyCipher(), ToySha);
            Separate(s, w, Number(w.db, HmacVersion).value, RawBlock(s, w, id).value, Number16())
  {
    var s := RealSuite(ToyCipher(), ToySha);
    ActiveDigestKnown(s, w, 0);
    var block := RawBlock(s, w, id).value;
    assert s.decode(Card, block) == Some(Number16());
    BlockOfNumber(block, Number16());
    ToySeparates(w, Number(w.db, HmacVersion).value, block, Number16());
  }

  lemma ToyInstallation(hmac: Key) returns (w: World)
    ensures w == Start(ToyCipher(), ToySha, ToySetup(hmac)) && Lawful(RealSuite(ToyCipher(), ToySha))
    ensures Inv(RealSuite(ToyCipher(), ToySha), w) && w.cards == TokenTable(map[], 1)
    ensures OwnsPart1(w, Zeros(64)) && Digests(w, {0}, 0)
  {
    ToyCipherIsLawful();
    StartIsGood(ToyCipher(), ToySha, ToySetup(hmac));
    w := Start(ToyCipher(), ToySha, ToySetup(hmac));
    StartOwner(ToyCipher(), ToySha, ToySetup(hmac));
  }

  lemma StartOwner(c: A.Cipher, sha: Bytes -> A.Digest, u: Setup)
    requires GoodSetup(u)
    ensures var w := Start(c, sha, u);
            OwnsPart1(w, u.p1) && Digests(w, {0}, 0) && w.cards == TokenTable(map[], 1)
  {
    var w := Start(c, sha, u);
    StartShape(c, sha, u);
    InstalledDigests(w.db, u.p3, u.phrase, w.db[ControlCode(0)], u.hmacRow);
  }

  lemma InstalledDigests(db: Config, part3: string, phrase: string, code: string, hmacRow: int)
    requires db == Installation.InitialConfig(part3, phrase, code, hmacRow)
    ensures Number(db, HmacVersion) == Some(0) && forall v :: HmacId(v) in db <==> v == 0
  {
    Installation.InitialConfigRows(part3, phrase, code, hmacRow);
  }

  function ToySupply(token: string): Supply {
    Supply([0], [(DefaultKey(), DefaultKey())], Zeros(15), "", [token])
  }

  lemma ToyChoice(w: World, token: string)
    requires token != "" && !TokenTaken(w, Card, token)
    ensures GoodChoice(RealSuite(ToyCipher(), ToySha), w, Number16(), Limits(1, 1, 1), ToySupply(token))
  {
    RealSuitePacks(ToyCipher(), ToySha, Card, Number16(), Zeros(15));
  }

  lemma ToyTellsApart()
    ensures TellsApart(RealSuite(ToyCipher(), ToySha), Number16())
  {
    var s := RealSuite(ToyCipher(), ToySha);
    forall w, token | Inv(s, w) && OnlyRow(s, w, 1, token, Number16()) && RawBlock(s, w, 1).Some?
      ensures Number(w.db, HmacVersion).Some? && Separate(s, w, Number(w.db, HmacVersion).value, RawBlock(s, w, 1).value, Number16())
    {
      ToyRowSeparates(w, 1, token);
    }
  }

  /**
   One input for what rehash_tokens breaks: from an installation a number is stored, the digest
   version moves on, and search finds the number; the row is rehashed, and search does not find
   it any more; tokenized again, the number is in two live rows.
   */
  lemma RehashedNumberStoredTwice(hmac: Key, key: Key) returns (first: Step, again: Step, w: World, lost: World, twice: World)
    ensures CardCall(first) && CardCall(again)
    ensures w == Run(RealSuite(ToyCipher(), ToySha), Start(ToyCipher(), ToySha, ToySetup(hmac)),
                     [first, DoGenerateHmac(0, Zeros(64), key, 0), DoSwitchHmac(0, Zeros(64))])
    ensures lost == Next(RealSuite(ToyCipher(), ToySha), w, DoRehash(0, 1, 1))
    ensures twice == Next(RealSuite(ToyCipher(), ToySha), lost, again)
    ensures LostAndTwice(RealSuite(ToyCipher(), ToySha), w, lost, twice, Number16())
  {
    var start := ToyInstallation(hmac);
    ToyChoice(start, "a");
    ToyChoice(start, "b");
    ToyTellsApart();
    first, again, w, lost, twice := Story(RealSuite(ToyCipher(), ToySha), start, Zeros(64), key, Number16(), Limits(1, 1, 1), ToySupply("a"), ToySupply("b"));
  }
}
