/**
 The promises of the lifecycle for the codecs the program runs with: from an installation,
 through any run, a card number goes in, survives any run, and comes out unchanged.
 */
module EndToEnd {
  import opened Basics
  import opened KeyState
  import opened Lifecycle
  import opened LifecycleSafety
  import opened TokenSafety
  import opened CryptoSuite
  import A = Aes
  import P = Padding
  import D = DekPool
  import H = Hex
  import I = Installation
  import U = Dedup
  import R = Rotation
  import N = Confirmation
  import T = TokenService
  import V = Availability
  import K = KeyProc
  import B = DriverRuns
  import S = ReplicatedSite
  import KC = KeeperCluster
  import W = TrueDigests

  /** 64 hexadecimal digits, as generate_kek draws them. */
  predicate IsPart(p: string) {
    |p| == 64 && H.AllHex(p)
  }

  /** What the installation script computes before it writes its rows. */
  datatype Setup = Setup(p1: string, p2: string, p3: string, phrase: string, hmac: Key, hosts: nat, hmacRow: int, finish: int)

  predicate GoodSetup(u: Setup) {
    IsPart(u.p1) && IsPart(u.p2) && IsPart(u.p3) && u.phrase != "" && A.Aligned(Latin(u.phrase)) && u.hosts > 0
  }

  function Master(sha: Bytes -> A.Digest, u: Setup): (key: Key)
    requires GoodSetup(u)
    ensures AssembleKek(sha, u.p1, u.p2, u.p3) == Some(key)
  {
    AssembleKek(sha, u.p1, u.p2, u.p3).value
  }

  /** The installed state. */
  function Start(c: A.Cipher, sha: Bytes -> A.Digest, u: Setup): World
    requires GoodSetup(u)
  {
    var key := Master(sha, u);
    var code := EncryptText(c, key, A.Ecb, Latin(u.phrase)).value;
    var wrapped := EncryptText(c, key, A.Ecb, u.hmac).value;
    I.Installed(I.InitialConfig(u.p3, u.phrase, code, u.hmacRow), u.p1, u.p2, u.hosts, u.hmacRow, wrapped, u.finish)
  }

  lemma StartIsGood(c: A.Cipher, sha: Bytes -> A.Digest, u: Setup)
    requires A.LawfulCipher(c) && GoodSetup(u)
    ensures Lawful(RealSuite(c, sha)) && Inv(RealSuite(c, sha), Start(c, sha, u))
  {
    RealSuiteIsLawful(c, sha);
    I.InstalledIsGood(RealSuite(c, sha), u.p1, u.p2, u.p3, u.phrase, u.hmac, u.hosts, u.hmacRow, u.finish);
  }

  /** A text made into a token after one run is read back after another, for any suite. */
  lemma Survives(s: Suite, w0: World, before: seq<Step>, h: nat, t: Table, text: Text, dedup: bool, d: Draw, env: Env, after: seq<Step>, i: nat)
    requires Lawful(s) && Inv(s, w0) && h < |w0.hosts| && i < |w0.hosts|
    ensures |Run(s, w0, before).hosts| == |w0.hosts|
    ensures var w := Run(s, w0, before);
            var made := Tokenize(s, w, h, t, text, dedup, d, env);
            (dedup ==> Search(s, w, h, t, text) == Some("")) && made.Some? && NeverRemoves(after, t, made.value.1) ==>
              var end := Run(s, made.value.0, after);
              i < |end.hosts| && Detokenize(s, end, i, t, made.value.1) == Some(ReadsAs(t, text))
  {
    RunKeeps(s, w0, before);
    DetokenizeUndoesTokenize(s, Run(s, w0, before), h, t, text, dedup, d, env, after, i);
  }

  /**
   From the installation, after any run, a token made for a text of decimal digits, or in the
   vault for any text of bytes, is read back by every host as that text after any further run
   that does not remove the token.
   */
  lemma TextSurvives(c: A.Cipher, sha: Bytes -> A.Digest, u: Setup, before: seq<Step>,
                     h: nat, t: Table, text: Text, dedup: bool, d: Draw, env: Env, after: seq<Step>, i: nat)
    requires A.LawfulCipher(c) && GoodSetup(u) && (t == Card ==> AllDigits(text)) && h < u.hosts && i < u.hosts
    ensures |Start(c, sha, u).hosts| == |Run(RealSuite(c, sha), Start(c, sha, u), before).hosts| == u.hosts
    ensures var s := RealSuite(c, sha);
            var w := Run(s, Start(c, sha, u), before);
            var made := Tokenize(s, w, h, t, text, dedup, d, env);
            (dedup ==> Search(s, w, h, t, text) == Some("")) && made.Some? && NeverRemoves(after, t, made.value.1) ==>
              var end := Run(s, made.value.0, after);
              i < |end.hosts| && Detokenize(s, end, i, t, made.value.1) == Some(text)
  {
    StartIsGood(c, sha, u);
    Survives(RealSuite(c, sha), Start(c, sha, u), before, h, t, text, dedup, d, env, after, i);
  }

  /** Card row id holds the number. */
  predicate HoldsNumber(s: Suite, w: World, id: int, number: Text)
    requires |w.hosts| > 0
  {
    id in w.cards.rows && ReadRow(s, w, 0, Card, w.cards.rows[id]) == Some(number)
  }

  /** From the installation, over runs of the card service, no card number is ever stored twice. */
  lemma NumbersStoredOnce(c: A.Cipher, sha: Bytes -> A.Digest, u: Setup, steps: seq<Step>, i: int, j: int, number: Text)
    requires A.LawfulCipher(c) && GoodSetup(u) && forall k | 0 <= k < |steps| :: U.CardCall(steps[k])
    requires |number| >= U.DIGEST_FROM
    ensures var s := RealSuite(c, sha);
            var r := Run(s, Start(c, sha, u), steps);
            |r.hosts| == u.hosts && (HoldsNumber(s, r, i, number) && HoldsNumber(s, r, j, number) ==> i == j)
  {
    var s := RealSuite(c, sha);
    var w := Start(c, sha, u);
    StartIsGood(c, sha, u);
    RunKeeps(s, w, steps);
    assert U.DedupInv(s, w);
    var r := Run(s, w, steps);
    if HoldsNumber(s, r, i, number) && HoldsNumber(s, r, j, number) {
      U.OneLiveRowPerNumber(s, w, steps, i, j);
    }
  }

  /**
   From the installation, over runs of the card service: every token returned for a card number,
   new or found, is read back as that number, unless another row has a digest of it.
   */
  lemma CardTokenReadsBack(c: A.Cipher, sha: Bytes -> A.Digest, u: Setup, before: seq<Step>,
                           h: nat, number: Text, d: Draw, env: Env, after: seq<Step>, i: nat)
    requires A.LawfulCipher(c) && GoodSetup(u) && AllDigits(number) && d.token != "" && h < u.hosts && i < u.hosts
    requires forall k | 0 <= k < |before| :: U.CardCall(before[k])
    ensures |Start(c, sha, u).hosts| == |Run(RealSuite(c, sha), Start(c, sha, u), before).hosts| == u.hosts
    ensures var s := RealSuite(c, sha);
            var w := Run(s, Start(c, sha, u), before);
            var made := Tokenize(s, w, h, Card, number, true, d, env);
            made.Some? && U.NoCollision(s, w, number) && NeverRemoves(after, Card, made.value.1) ==>
              var end := Run(s, made.value.0, after);
              i < |end.hosts| && Detokenize(s, end, i, Card, made.value.1) == Some(number)
  {
    StartIsGood(c, sha, u);
    FromDedup(RealSuite(c, sha), Start(c, sha, u), before, h, number, d, env, after, i);
  }

  /** For any suite, from a state without card rows. */
  lemma FromDedup(s: Suite, w0: World, before: seq<Step>, h: nat, number: Text, d: Draw, env: Env, after: seq<Step>, i: nat)
    requires Lawful(s) && Inv(s, w0) && w0.cards.rows == map[] && h < |w0.hosts| && i < |w0.hosts| && AllDigits(number) && d.token != ""
    requires forall k | 0 <= k < |before| :: U.CardCall(before[k])
    ensures |Run(s, w0, before).hosts| == |w0.hosts|
    ensures var w := Run(s, w0, before);
            var made := Tokenize(s, w, h, Card, number, true, d, env);
            made.Some? && U.NoCollision(s, w, number) && NeverRemoves(after, Card, made.value.1) ==>
              var end := Run(s, made.value.0, after);
              i < |end.hosts| && Detokenize(s, end, i, Card, made.value.1) == Some(number)
  {
    assert U.DedupInv(s, w0);
    assert ReadsAs(Card, number) == number;
    U.EveryTokenReadsBack(s, w0, before, h, number, true, d, env, after, i);
  }

  /**
   From the installation, for a card number or any vault text: as long as the digest keys, those made
   on the way and the installed one, tell the stored texts apart from the text, every token returned
   for it, new or found, is read back by every host as that text.
   */
  lemma TokenStandsForText(c: A.Cipher, sha: Bytes -> A.Digest, u: Setup, before: seq<Step>, h: nat, t: Table, keys: set<Bytes>,
                           text: Text, dedup: bool, d: Draw, env: Env, after: seq<Step>, i: nat)
    requires A.LawfulCipher(c) && GoodSetup(u) && u.hmac in keys && (t == Card ==> AllDigits(text)) && h < u.hosts && i < u.hosts
    requires forall n | 0 <= n < |before| :: W.KeepsDigests(before[n], t, keys)
    ensures |Start(c, sha, u).hosts| == |Run(RealSuite(c, sha), Start(c, sha, u), before).hosts| == u.hosts
    ensures var s := RealSuite(c, sha);
            var w := Run(s, Start(c, sha, u), before);
            var made := Tokenize(s, w, h, t, text, dedup, d, env);
            made.Some? && W.AllToldApart(s, w, t, keys, text) && NeverRemoves(after, t, made.value.1) ==>
              var end := Run(s, made.value.0, after);
              i < |end.hosts| && Detokenize(s, end, i, t, made.value.1) == Some(text)
  {
    StartIsGood(c, sha, u);
    StartDigests(c, sha, u, t, keys);
    assert ReadsAs(t, text) == text;
    W.EveryTokenStandsForText(RealSuite(c, sha), Start(c, sha, u), before, h, t, keys, text, dedup, d, env, after, i);
  }

  /** The one digest key of an installation is the installed one, and there are no rows. */
  lemma StartDigests(c: A.Cipher, sha: Bytes -> A.Digest, u: Setup, t: Table, keys: set<Bytes>)
    requires A.LawfulCipher(c) && GoodSetup(u) && u.hmac in keys
    ensures |Start(c, sha, u).hosts| == u.hosts && W.DigestsTrue(RealSuite(c, sha), Start(c, sha, u), t, keys)
  {
    StartIsGood(c, sha, u);
    var s, w := RealSuite(c, sha), Start(c, sha, u);
    var key := Master(sha, u);
    I.InitialConfigRows(u.p3, u.phrase, EncryptText(c, key, A.Ecb, Latin(u.phrase)).value, u.hmacRow);
    forall v | HmacId(v) in w.db
      ensures HmacKey(s, w, 0, v) == Some(u.hmac)
    {
      InstalledDigestKey(c, sha, u);
    }
  }

  lemma InstalledDigestKey(c: A.Cipher, sha: Bytes -> A.Digest, u: Setup)
    requires A.LawfulCipher(c) && GoodSetup(u)
    ensures |Start(c, sha, u).hosts| == u.hosts && HmacKey(RealSuite(c, sha), Start(c, sha, u), 0, 0) == Some(u.hmac)
  {
    var key := Master(sha, u);
    I.InitialConfigRows(u.p3, u.phrase, EncryptText(c, key, A.Ecb, Latin(u.phrase)).value, u.hmacRow);
    DecryptsText(c, key, A.Ecb, u.hmac);
  }

  /**
   From the installation, after any run, the re-encryption driver reads the version the server
   converts to, and finds a task exactly when the server can convert and a row is off that version.
   */
  lemma DriverServesTarget(c: A.Cipher, sha: Bytes -> A.Digest, u: Setup, steps: seq<Step>, h: nat)
    requires A.LawfulCipher(c) && GoodSetup(u) && h < u.hosts
    ensures var s := RealSuite(c, sha);
            var r := Run(s, Start(c, sha, u), steps);
            && |r.hosts| == u.hosts && K.DriverTarget(r.db).Some?
            && SwitchVersion(r.db) == (if Checked(r.db, K.DriverTarget(r.db).value) then K.DriverTarget(r.db) else None)
            && (B.FindTask(s, r, h).Some? <==> SwitchVersion(r.db).Some? && B.RowsOff(r, SwitchVersion(r.db).value) != {})
  {
    StartIsGood(c, sha, u);
    StartTarget(c, sha, u);
    B.TargetsAlwaysAgree(RealSuite(c, sha), Start(c, sha, u), steps);
    B.TaskExactly(RealSuite(c, sha), Start(c, sha, u), h, steps);
  }

  lemma StartTarget(c: A.Cipher, sha: Bytes -> A.Digest, u: Setup)
    requires GoodSetup(u)
    ensures B.TargetKnown(Start(c, sha, u).db) && |Start(c, sha, u).hosts| == u.hosts
  {
    I.InitialConfigRows(u.p3, u.phrase, EncryptText(c, Master(sha, u), A.Ecb, Latin(u.phrase)).value, u.hmacRow);
  }

  // ---------------------------------------------------------------- with replicated key keepers

  /** Each node holds part 1 of the installed version. */
  predicate Seeded(k: KC.Cluster, part: string) {
    KC.Healthy(k) && forall n | n in k.nodes :: S.PartId(0) in k.nodes[n].storage && k.nodes[n].storage[S.PartId(0)].data == part
  }

  lemma SeededIsInStep(c: A.Cipher, sha: Bytes -> A.Digest, u: Setup, k: KC.Cluster)
    requires GoodSetup(u) && Seeded(k, u.p1)
    ensures var x := S.Site(S.Bare(Start(c, sha, u)), k); S.Linked(x, Start(c, sha, u)) && S.InStep(x, Start(c, sha, u))
  {
    StartShape(c, sha, u);
    I.InitialConfigRows(u.p3, u.phrase, EncryptText(c, Master(sha, u), A.Ecb, Latin(u.phrase)).value, u.hmacRow);
    S.OnlyFrom(k, S.PartId(0), Some(u.p1));
  }

  /**
   From an installation whose key keepers all answer, over any calls served through any nodes: a
   number or vault text made into a token comes back unchanged on every host, whichever node it
   reads part 1 from, until the token is removed.
   */
  lemma TextSurvivesReplicated(c: A.Cipher, sha: Bytes -> A.Digest, u: Setup, k: KC.Cluster, before: seq<S.Call>, made: S.Call,
                               after: seq<S.Call>, h: nat, via: int)
    requires A.LawfulCipher(c) && GoodSetup(u) && Seeded(k, u.p1) && h < u.hosts
    requires made.Serve? && made.step.DoTokenize? && made.step.h < u.hosts && (made.step.t == Card ==> AllDigits(made.step.text))
    requires var s := RealSuite(c, sha);
             var x := S.SiteRun(s, S.Site(S.Bare(Start(c, sha, u)), k), before);
             && S.CalmRun(s, S.Site(S.Bare(Start(c, sha, u)), k), before) && S.Calm(s, x, made)
             && S.CalmRun(s, S.SiteNext(s, x, made), after) && via in S.SiteRun(s, S.SiteNext(s, x, made), after).keeper.nodes
    ensures var s := RealSuite(c, sha);
            var x := S.SiteRun(s, S.Site(S.Bare(Start(c, sha, u)), k), before);
            |S.View(x, made.via).hosts| == |S.View(S.SiteRun(s, S.SiteNext(s, x, made), after), via).hosts| == u.hosts
    ensures var s := RealSuite(c, sha);
            var x := S.SiteRun(s, S.Site(S.Bare(Start(c, sha, u)), k), before);
            var d := made.step;
            var next := Tokenize(s, S.View(x, made.via), d.h, d.t, d.text, d.dedup, d.draw, d.env);
            && next.Some? && (d.dedup ==> Search(s, S.View(x, made.via), d.h, d.t, d.text) == Some(""))
            && S.NeverAsksRemoval(after, d.t, next.value.1) ==>
              Detokenize(s, S.View(S.SiteRun(s, S.SiteNext(s, x, made), after), via), h, d.t, next.value.1) == Some(d.text)
  {
    StartIsGood(c, sha, u);
    StartHosts(c, sha, u);
    SeededIsInStep(c, sha, u, k);
    S.CalmTextSurvives(RealSuite(c, sha), S.Site(S.Bare(Start(c, sha, u)), k), Start(c, sha, u), before, made, after, h, via);
  }

  lemma StartHosts(c: A.Cipher, sha: Bytes -> A.Digest, u: Setup)
    requires GoodSetup(u)
    ensures |Start(c, sha, u).hosts| == u.hosts
  {
  }

  // ---------------------------------------------------------------- the service never locks up

  /** A packed text that the cipher takes. */
  lemma PackedFits(c: A.Cipher, t: Table, text: Text, pad: string, dek: Key)
    requires t == Card ==> 1 <= |text| <= P.BCD_DIGITS && AllDigits(text) && |pad| == P.BcdPadding(text) && H.AllHex(pad)
    ensures EncodeData(t, text, pad).Some?
    ensures EncryptText(c, dek, ModeOf(t), EncodeData(t, text, pad).value).Some?
  {
    if t == Card {
      P.BcdEncodes(text, pad);
    }
  }

  /**
   In every state that satisfies the invariant every host can still create a token: with positive
   limits, a call of a new Tokenizer succeeds for every draw with a row choice, two spare values
   and a token string nobody has.
   */
  lemma TokenizeAvailable(c: A.Cipher, sha: Bytes -> A.Digest, w: World, h: nat, t: Table, text: Text, dedup: bool,
                          limits: D.Limits, u: T.Supply, now: int)
    requires A.LawfulCipher(c) && h < |w.hosts|
    requires limits.minActive > 0 && limits.useCount > 0 && limits.period > 0 && u.picks != [] && u.spare != []
    requires t == Card ==> 1 <= |text| <= P.BCD_DIGITS && AllDigits(text) && |u.pad| == P.BcdPadding(text) && H.AllHex(u.pad)
    ensures var s := RealSuite(c, sha);
            Inv(s, w) && V.SomeFree(w, t, u.tokens) ==>
              && T.TokenizeWith(s, w, h, t, text, dedup, limits, None, u, now).Some?
              && T.Create(s, w, h, t, text, limits, None, u, now).Some?
  {
    var s := RealSuite(c, sha);
    if Inv(s, w) && V.SomeFree(w, t, u.tokens) {
      RealSuiteIsLawful(c, sha);
      RealSuitePacks(c, sha, t, text, u.pad);
      V.TokenizeAvailable(s, w, h, t, text, dedup, limits, u, now);
    }
  }

  lemma RealSuitePacks(c: A.Cipher, sha: Bytes -> A.Digest, t: Table, text: Text, pad: string)
    requires t == Card ==> 1 <= |text| <= P.BCD_DIGITS && AllDigits(text) && |pad| == P.BcdPadding(text) && H.AllHex(pad)
    ensures V.Packs(RealSuite(c, sha), t, text, pad)
  {
    forall dek: Key
      ensures EncodeData(t, text, pad).Some? && EncryptText(c, dek, ModeOf(t), EncodeData(t, text, pad).value).Some?
    {
      PackedFits(c, t, text, pad, dek);
    }
  }

  /**
   From an installation: when the first keys expire between the two tokenize calls of one get_token,
   the second call gets no row whatever is drawn, though a new Tokenizer would.
   */
  lemma SecondCallStuck(c: A.Cipher, sha: Bytes -> A.Digest, u: Setup, code: Text, number: Text, limits: D.Limits, p: T.Supply,
                        pad: string, noise: string, token: string, now: int, later: int) returns (m: T.Made)
    requires A.LawfulCipher(c) && GoodSetup(u) && later >= EndOfLife(now, limits.period)
    requires 0 < limits.minActive < 2 * limits.useCount && limits.period > 0 && p.picks != [] && p.spare != [] && p.tokens != []
    requires 1 <= |code| <= P.BCD_DIGITS && AllDigits(code) && |p.pad| == P.BcdPadding(code) && H.AllHex(p.pad)
    requires 1 <= |number| <= P.BCD_DIGITS && AllDigits(number) && |pad| == P.BcdPadding(number) && H.AllHex(pad) && token !in p.tokens
    ensures |Start(c, sha, u).hosts| == |m.w.hosts| == u.hosts && T.PoolKnown(m.w, m.pool)
    ensures var s := RealSuite(c, sha);
            && T.Create(s, Start(c, sha, u), 0, Card, code, limits, None, p, now) == Some(m)
            && !V.Creatable(s, m.w, 0, Card, number, limits, m.pool, pad, noise, token, later)
            && V.Creatable(s, m.w, 0, Card, number, limits, None, pad, noise, token, later)
  {
    RealSuiteIsLawful(c, sha);
    StartIsGood(c, sha, u);
    StartRows(c, sha, u, now);
    RealSuitePacks(c, sha, Card, code, p.pad);
    RealSuitePacks(c, sha, Card, number, pad);
    assert p.tokens[0] in p.tokens;
    m := V.SecondCallExactly(RealSuite(c, sha), Start(c, sha, u), 0, Card, code, number, limits, p, pad, noise, token, now, later);
  }

  /** An installed state has no token and no key that a pool could select. */
  lemma StartRows(c: A.Cipher, sha: Bytes -> A.Digest, u: Setup, now: int)
    requires GoodSetup(u)
    ensures |Start(c, sha, u).hosts| == u.hosts && D.SelectableIds(Start(c, sha, u).deks, now) == {}
    ensures forall token :: !TokenTaken(Start(c, sha, u), Card, token)
  {
  }

  /**
   From an installation: with a minimum of 0 the first call takes its random index modulo zero, and
   so it does when new keys have no use or no life.
   */
  lemma FirstCallDividesByZero(c: A.Cipher, sha: Bytes -> A.Digest, u: Setup, key: Key, limits: D.Limits,
                               picks: seq<nat>, spare: seq<(Key, Key)>, now: int)
    requires A.LawfulCipher(c) && GoodSetup(u) && (limits.minActive <= 0 || limits.useCount <= 0 || limits.period <= 0)
    requires picks != [] && spare != []
    ensures D.Obtain(RealSuite(c, sha), Start(c, sha, u), key, 0, limits, [], picks, spare, now) == D.NoRows
  {
    var s, w := RealSuite(c, sha), Start(c, sha, u);
    RealSuiteIsLawful(c, sha);
    StartIsGood(c, sha, u);
    StartRows(c, sha, u, now);
    D.SortedEmpty(D.SelectableIds(w.deks, now));
    D.SealedTwice(s, w, key, 0, spare[0].0, spare[0].1, limits.useCount, EndOfLife(now, limits.period));
    D.EmptyListExactly(s, w, key, 0, limits, [], spare[0].0, spare[0].1, now);
  }

  /** The laws are not empty: an installation with the toy cipher starts in a good state. */
  lemma SomeInstallationExists(sha: Bytes -> A.Digest, hmac: Key)
    ensures var u := Setup(Zeros(64), Zeros(64), Zeros(64), Zeros(16), hmac, 2, 1, 0);
            GoodSetup(u) && Inv(RealSuite(ToyCipher(), sha), Start(ToyCipher(), sha, u))
  {
    ToyCipherIsLawful();
    StartIsGood(ToyCipher(), sha, Setup(Zeros(64), Zeros(64), Zeros(64), Zeros(16), hmac, 2, 1, 0));
  }

  function Zeros(n: nat): (s: string)
    ensures |s| == n && forall i :: 0 <= i < n ==> s[i] == '0'
  {
    seq(n, i => '0')
  }

  // ---------------------------------------------------------------- a version named in vain

  function Repeated(c: char): (p: string)
    ensures |p| == 64 && forall i :: 0 <= i < 64 ==> p[i] == c
  {
    seq(64, i => c)
  }

  function NewParts(): (p: seq<string>)
    ensures R.Distinct(p) && IsPart(p[0]) && IsPart(p[1]) && IsPart(p[2])
  {
    var p := [Repeated('1'), Repeated('2'), Repeated('3')];
    assert p[0][0] == '1' && p[1][0] == '2' && p[2][0] == '3';
    p
  }

  function ToySetup(hmac: Key): (u: Setup)
    ensures GoodSetup(u)
  {
    Setup(Zeros(64), Zeros(64), Zeros(64), Zeros(16), hmac, 2, 1, 0)
  }

  /** In an installed state only version 0 is known and in the stores. */
  lemma StartShape(c: A.Cipher, sha: Bytes -> A.Digest, u: Setup)
    requires GoodSetup(u)
    ensures var w := Start(c, sha, u);
            && ActiveVersion(w.db) == Some(0) && LastVersion(w.db) == Some(0) && w.part1 == map[0 := u.p1]
            && |w.hosts| == u.hosts && ControlPhrase in w.db && w.db[ControlPhrase] == u.phrase
  {
    var code := EncryptText(c, Master(sha, u), A.Ecb, Latin(u.phrase)).value;
    var db := I.InitialConfig(u.p3, u.phrase, code, u.hmacRow);
    I.InitialConfigRows(u.p3, u.phrase, code, u.hmacRow);
    OneVersion(db, 0);
  }

  lemma OneVersion(db: Config, v: int)
    requires forall x :: Part3(x) in db <==> x == v
    ensures LastVersion(db) == Some(v)
  {
    InVersions(db);
    assert Versions(db) == {v};
  }

  /** What generate_kek needs of new parts, and of its caller. */
  lemma PartsAssemble(c: A.Cipher, sha: Bytes -> A.Digest, u: Setup, p1: string, p2: string, p3: string)
    requires GoodSetup(u) && IsPart(p1) && IsPart(p2) && IsPart(p3)
    ensures var s, db := RealSuite(c, sha), Start(c, sha, u).db;
            s.assemble(p1, p2, p3).Some? && NewControlCode(s, db, s.assemble(p1, p2, p3).value).Some?
    ensures N.OwnsPart1(Start(c, sha, u), u.p1)
  {
    StartShape(c, sha, u);
  }

  /** The owner of part 1 of an installation can generate version 1. */
  lemma StartPlans(c: A.Cipher, sha: Bytes -> A.Digest, u: Setup, p1: string, p2: string, p3: string)
    requires A.LawfulCipher(c) && GoodSetup(u) && IsPart(p1) && IsPart(p2) && IsPart(p3)
    ensures |Start(c, sha, u).hosts| == u.hosts
    ensures var plan := PlanKek(RealSuite(c, sha), Start(c, sha, u), 0, u.p1, p1, p2, p3); plan.Some? && plan.value.0 == 1
  {
    StartIsGood(c, sha, u);
    StartShape(c, sha, u);
    PartsAssemble(c, sha, u, p1, p2, p3);
    N.PlanGoesThrough(RealSuite(c, sha), Start(c, sha, u), 0, u.p1, [p1, p2, p3], 0);
  }

  /** From an installation: a version generated with part 1 as part 2 is confirmed by no run that does not generate it anew. */
  lemma EqualPartsUnconfirmed(c: A.Cipher, sha: Bytes -> A.Digest, u: Setup, x: string, y: string, steps: seq<Step>) returns (s: Suite, w: World)
    requires A.LawfulCipher(c) && GoodSetup(u) && IsPart(x) && IsPart(y)
    ensures s == RealSuite(c, sha) && w == Next(s, Start(c, sha, u), DoGenerateKek(0, u.p1, x, x, y))
    ensures Number(w.db, KekTargetVersion) == Some(1) && !N.Confirms(s, w, steps, 1)
  {
    StartIsGood(c, sha, u);
    StartPlans(c, sha, u, x, x, y);
    s := RealSuite(c, sha);
    w := N.EqualPartsUnconfirmed(s, Start(c, sha, u), 0, u.p1, x, x, y, 1, steps);
  }

  /**
   confirm_component asked for version 0 or 7 while version 1 is the target: the flag that goes
   up is that of version 1, and those of the version asked for stay as they are.
   */
  lemma ExplicitVersionIgnored(sha: Bytes -> A.Digest, hmac: Key, asked: int) returns (w: World)
    requires asked in {0, 7}
    ensures var s, p := RealSuite(ToyCipher(), sha), NewParts();
            && Next(s, Start(ToyCipher(), sha, ToySetup(hmac)), DoGenerateKek(0, Zeros(64), p[0], p[1], p[2])) == w
            && Number(w.db, KekTargetVersion) == Some(1) && !N.Raised(w.db, 1, 1)
            && var after := Next(s, w, DoConfirm(0, p[0], Some(asked)));
               N.Raised(after.db, 1, 1) && forall i :: N.Raised(after.db, asked, i) <==> N.Raised(w.db, asked, i)
  {
    var c, s, p, u := ToyCipher(), RealSuite(ToyCipher(), sha), NewParts(), ToySetup(hmac);
    ToyCipherIsLawful();
    StartIsGood(c, sha, u);
    StartShape(c, sha, u);
    PartsAssemble(c, sha, u, p[0], p[1], p[2]);
    w := N.NewTarget(s, Start(c, sha, u), 0, Zeros(64), p, 0);
    N.AskedForAnother(s, w, 0, 1, p, asked);
  }
}
