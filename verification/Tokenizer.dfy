/**
 Tokenizer: search, tokenize, detokenize and remove over the stores, proved to do what module
 Lifecycle says. The random choices of a call are its Supply.
 */
module TokenService {
  import opened Basics
  import opened KeyState
  import opened Storage
  import opened LoadedConfig
  import opened DekPool
  import L = Lifecycle

  datatype Supply = Supply(picks: seq<nat>, spare: seq<(Key, Key)>, pad: string, noise: string, tokens: seq<string>)

  // ---------------------------------------------------------------- specification of one call

  /** generate_token_string: the first candidate that no row has. */
  function FreshToken(w: World, t: Table, tokens: seq<string>): Option<string> {
    if tokens == [] then None
    else if L.TokenTaken(w, t, tokens[0]) then FreshToken(w, t, tokens[1..])
    else Some(tokens[0])
  }

  /** The pool of a Tokenizer: its key, and the list of candidates it keeps from call to call. */
  datatype PoolState = PoolState(master: Key, version: int, active: seq<int>)

  predicate PoolKnown(w: World, pool: Option<PoolState>) {
    pool.Some? ==> Known(w.deks, pool.value.active)
  }

  /** The pool, if there is one, works under the version that is active. */
  predicate Fits(s: Suite, w: World, h: nat, pool: Option<PoolState>)
    requires h < |w.hosts|
  {
    pool.Some? ==> ActiveVersion(w.db) == Some(pool.value.version) && UsableKey(s, w, h, pool.value.version) == Some(pool.value.master)
  }

  /** dek_pool(): the pool at hand, or a new one with an empty list under the active version. */
  function PoolFor(s: Suite, w: World, h: nat, pool: Option<PoolState>): (r: Option<PoolState>)
    requires h < |w.hosts|
    ensures pool == None && r.Some? ==> r.value.active == []
    ensures Fits(s, w, h, pool) ==> Fits(s, w, h, r)
  {
    if pool.Some? then pool
    else
      match ActiveVersion(w.db)
      case None => None
      case Some(version) =>
        match UsableKey(s, w, h, version)
        case None => None
        case Some(master) => Some(PoolState(master, version, []))
  }

  /** A new token: the state, its name and the pool afterwards. */
  datatype Made = Made(w: World, token: string, pool: Option<PoolState>)

  /** What a call may change: the data key rows and its own table. */
  predicate OnlyAdds(w: World, w': World, t: Table) {
    && w' == w.(deks := w'.deks, nextDek := w'.nextDek, cards := w'.cards, vault := w'.vault)
    && (if t == Card then w'.vault == w.vault else w'.cards == w.cards)
  }

  /** use_dek and what follows, for a packed text and its digest. */
  function Seal(s: Suite, w: World, h: nat, t: Table, block: Bytes, hmac: int, digest: string, id: int, token: Option<string>, now: int)
    : (r: Option<(World, string)>)
    requires h < |w.hosts| && id in w.deks
    ensures r.Some? ==> r.value.0.deks.Keys == w.deks.Keys && OnlyAdds(w, r.value.0, t)
  {
    match (OpenDek(s, w, h, id), token)
    case (Some(dek), Some(name)) =>
      (match s.encrypt(t, dek, block)
       case None => None
       case Some(crypted) => Some((L.StoreRow(w, t, TokenRow(name, crypted, id, hmac, digest), now), name)))
    case _ => None
  }

  /** What tokenize has at hand when it asks the pool for a key. */
  datatype Ticket = Ticket(hmac: int, digest: string, block: Bytes)

  function Prepare(s: Suite, w: World, h: nat, t: Table, text: Text, u: Supply): Option<Ticket>
    requires h < |w.hosts|
  {
    match (Number(w.db, HmacVersion), s.encode(t, text, u.pad))
    case (Some(hmac), Some(block)) =>
      (match L.StoredDigest(s, w, h, hmac, text, u.noise)
       case Some(digest) => Some(Ticket(hmac, digest, block))
       case None => None)
    case _ => None
  }

  /** tokenize once no duplicate was found, with the given supply and the pool of the calls before. */
  function Create(s: Suite, w: World, h: nat, t: Table, text: Text, limits: Limits, pool: Option<PoolState>, u: Supply, now: int)
    : (r: Option<Made>)
    requires h < |w.hosts| && PoolKnown(w, pool)
    ensures r.Some? ==> OnlyAdds(w, r.value.w, t) && PoolKnown(r.value.w, r.value.pool)
  {
    match (Prepare(s, w, h, t, text, u), PoolFor(s, w, h, pool))
    case (Some(p), Some(q)) => Finish(s, w, h, t, limits, u, p, q, now)
    case _ => None
  }

  function Finish(s: Suite, w: World, h: nat, t: Table, limits: Limits, u: Supply, p: Ticket, q: PoolState, now: int): (r: Option<Made>)
    requires h < |w.hosts| && Known(w.deks, q.active)
    ensures r.Some? ==> OnlyAdds(w, r.value.w, t) && PoolKnown(r.value.w, r.value.pool)
  {
    match Obtain(s, w, q.master, q.version, limits, q.active, u.picks, u.spare, now)
    case Row(grown, active, id) =>
      (match Seal(s, grown, h, t, p.block, p.hmac, p.digest, id, FreshToken(w, t, u.tokens), now)
       case None => None
       case Some((w', token)) => Some(Made(w', token, Some(q.(active := active)))))
    case _ => None
  }

  /** tokenize as a whole; a duplicate leaves the pool as it is. */
  function TokenizeWith(s: Suite, w: World, h: nat, t: Table, text: Text, dedup: bool, limits: Limits, pool: Option<PoolState>, u: Supply, now: int)
    : (r: Option<Made>)
    requires h < |w.hosts| && PoolKnown(w, pool)
    ensures r.Some? ==> OnlyAdds(w, r.value.w, t) && PoolKnown(r.value.w, r.value.pool)
  {
    match if dedup then L.Search(s, w, h, t, text) else Some("")
    case None => None
    case Some(token) =>
      if token != "" then Some(Made(w, token, pool)) else Create(s, w, h, t, text, limits, pool, u, now)
  }

  /** Every supply that lets a call succeed is one of the draws module Lifecycle ranges over. */
  lemma CreateIsInsert(s: Suite, w: World, h: nat, t: Table, text: Text, limits: Limits, pool: Option<PoolState>, u: Supply, now: int)
    returns (d: L.Draw)
    requires h < |w.hosts| && PoolKnown(w, pool) && Fits(s, w, h, pool)
    requires Create(s, w, h, t, text, limits, pool, u, now).Some?
    ensures var m := Create(s, w, h, t, text, limits, pool, u, now).value;
            && L.Insert(s, w, h, t, text, d, L.Env(now, limits.useCount, limits.period)) == Some(m.w) && d.token == m.token
            && Fits(s, m.w, h, m.pool)
  {
    var q := PoolFor(s, w, h, pool).value;
    var values := ObtainedIsDrawn(s, w, q.master, q.version, limits, q.active, u.picks, u.spare, now);
    var r := Obtain(s, w, q.master, q.version, limits, q.active, u.picks, u.spare, now);
    FreshIsFree(w, t, u.tokens);
    d := L.Draw(values, r.id, u.pad, u.noise, FreshToken(w, t, u.tokens).value);
    ReservedRow(s, w, h, t, text, d, L.Env(now, limits.useCount, limits.period), r.w);
    L.SameStoresSameKeys(s, w, Create(s, w, h, t, text, limits, pool, u, now).value.w);
  }

  /** The pool part of a lifecycle draw. */
  lemma ReservedRow(s: Suite, w: World, h: nat, t: Table, text: Text, d: L.Draw, env: L.Env, grown: World)
    requires h < |w.hosts| == |grown.hosts|
    requires Number(w.db, HmacVersion).Some? && ActiveVersion(w.db).Some? && s.encode(t, text, d.pad).Some?
    requires L.StoredDigest(s, w, h, Number(w.db, HmacVersion).value, text, d.noise).Some?
    requires UsableKey(s, w, h, ActiveVersion(w.db).value).Some?
    requires L.AddDeks(s, w, UsableKey(s, w, h, ActiveVersion(w.db).value).value, ActiveVersion(w.db).value, d.values,
                       env.useCount, L.EndOfLife(env.now, env.period)) == Some(grown)
    requires d.pick in grown.deks && L.Selectable(grown.deks[d.pick], env.now) && OpenDek(s, grown, h, d.pick).Some?
    requires s.encrypt(t, OpenDek(s, grown, h, d.pick).value, s.encode(t, text, d.pad).value).Some?
    ensures var hmac := Number(w.db, HmacVersion).value;
            L.Reserve(s, w, h, t, text, d, env)
            == Some((grown, TokenRow(d.token, s.encrypt(t, OpenDek(s, grown, h, d.pick).value, s.encode(t, text, d.pad).value).value,
                                     d.pick, hmac, L.StoredDigest(s, w, h, hmac, text, d.noise).value)))
  {
  }

  /** One call of a Tokenizer is a call of the lifecycle, and the pool still fits after it. */
  lemma TokenizeIsLifecycle(s: Suite, w: World, h: nat, t: Table, text: Text, dedup: bool, limits: Limits, pool: Option<PoolState>, u: Supply, now: int)
    returns (d: L.Draw)
    requires h < |w.hosts| && PoolKnown(w, pool) && Fits(s, w, h, pool)
    requires TokenizeWith(s, w, h, t, text, dedup, limits, pool, u, now).Some?
    ensures var m := TokenizeWith(s, w, h, t, text, dedup, limits, pool, u, now).value;
            && L.Tokenize(s, w, h, t, text, dedup, d, L.Env(now, limits.useCount, limits.period)) == Some((m.w, m.token))
            && Fits(s, m.w, h, m.pool)
  {
    d := L.Draw([], 0, "", "", "");
    if dedup && L.Search(s, w, h, t, text) != Some("") {
      return;
    }
    d := CreateIsInsert(s, w, h, t, text, limits, pool, u, now);
  }

  lemma {:induction false} FreshIsFree(w: World, t: Table, tokens: seq<string>)
    requires FreshToken(w, t, tokens).Some?
    ensures !L.TokenTaken(w, t, FreshToken(w, t, tokens).value)
  {
    if L.TokenTaken(w, t, tokens[0]) {
      FreshIsFree(w, t, tokens[1..]);
    }
  }

  // ---------------------------------------------------------------- the class

  class Tokenizer {
    const s: Suite
    const host: nat
    const store: Store
    const t: Table
    const limits: Limits
    var pool: Pool?

    ghost predicate Valid()
      reads this, store, pool
    {
      && host < |store.hosts|
      && (pool != null ==> pool.s == s && pool.store == store && pool.limits == limits && pool.Valid())
    }

    function Kept(): Option<PoolState>
      reads this, pool
    {
      if pool == null then None else Some(PoolState(pool.master, pool.version, pool.active))
    }

    constructor (s: Suite, host: nat, store: Store, t: Table, limits: Limits)
      requires host < |store.hosts|
      ensures Valid() && Kept() == None && pool == null
      ensures this.s == s && this.host == host && this.store == store && this.t == t && this.limits == limits
    {
      this.s, this.host, this.store, this.t, this.limits := s, host, store, t, limits;
      pool := null;
    }

    /** search: the digest versions are tried in turn, the active one first. */
    method Search(text: Text) returns (r: Option<string>)
      requires Valid()
      ensures r == L.Search(s, store.State(), host, t, text)
    {
      var tcfg := new TokenizerConfig(s, store.State(), host);
      var list := tcfg.GetHmacVersions(s, store.State(), host);
      if list == None {
        return None;
      }
      r := SearchIn(tcfg, list.value, text);
    }

    /** The loop of search. */
    method SearchIn(tcfg: TokenizerConfig, versions: seq<int>, text: Text) returns (r: Option<string>)
      requires host < |store.hosts| && tcfg.Mirrors(s, store.State(), host)
      requires InSearchOrder(s, store.State(), host, versions)
      ensures r == L.Search(s, store.State(), host, t, text)
    {
      ghost var w := store.State();
      var i := 0;
      while i < |versions|
        invariant 0 <= i <= |versions|
        invariant forall j | 0 <= j < i :: Misses(s, w, host, t, text, versions[j])
        modifies {}
      {
        var known, found := TryVersion(tcfg, versions[i], text);
        if !known {
          UnknownVersion(s, w, host, t, text, versions, i);
          return None;
        }
        if found.Some? {
          SearchHits(s, w, host, t, text, versions, i);
          return Some(store.State().TableOf(t).rows[found.value].token);
        }
        i := i + 1;
      }
      SearchMisses(s, w, host, t, text, versions);
      return Some("");
    }

    /** count_hmac and do_search for one version; an unknown version makes the program throw. */
    method TryVersion(tcfg: TokenizerConfig, version: int, text: Text) returns (known: bool, found: Option<int>)
      requires host < |store.hosts| && tcfg.Mirrors(s, store.State(), host)
      ensures known <==> HmacKey(s, store.State(), host, version).Some?
      ensures known ==> found == L.FindDigest(store.State().TableOf(t).rows, L.Digest(s, store.State(), host, version, text))
    {
      tcfg.QueriesAgree(s, store.State(), host, version, 1);
      if version !in tcfg.hmacs {
        return false, None;
      }
      var digest := s.mac(tcfg.hmacs[version], Latin(text));
      return true, L.FindDigest(store.State().TableOf(t).rows, digest);
    }

    /**
     tokenize; None where it throws: the transaction is rolled back, and the Tokenizer goes with
     its session, so that its pool is not used again.
     */
    method Tokenize(text: Text, dedup: bool, u: Supply, now: int) returns (r: Option<string>, ghost d: L.Draw)
      requires Valid()
      modifies this, store, pool
      ensures Valid() && (pool == null || pool == old(pool) || fresh(pool))
      ensures r.Some? ==> TokenizeWith(s, old(store.State()), host, t, text, dedup, limits, old(Kept()), u, now)
                          == Some(Made(store.State(), r.value, Kept()))
      ensures r == None ==> TokenizeWith(s, old(store.State()), host, t, text, dedup, limits, old(Kept()), u, now) == None
      ensures r == None ==> store.State() == old(store.State()) && pool == null
      ensures r.Some? && old(Fits(s, store.State(), host, Kept())) ==>
                && L.Tokenize(s, old(store.State()), host, t, text, dedup, d, L.Env(now, limits.useCount, limits.period))
                   == Some((store.State(), r.value))
                && Fits(s, store.State(), host, Kept())
    {
      ghost var w, kept := store.State(), Kept();
      d := L.Draw([], 0, "", "", "");
      var found := Some("");
      if dedup {
        found := Search(text);
      }
      if found == Some("") {
        r := Insert(text, u, now);
      } else {
        r := found;
        if r == None {
          pool := null;
        }
      }
      if r.Some? && Fits(s, w, host, kept) {
        d := TokenizeIsLifecycle(s, w, host, t, text, dedup, limits, kept, u, now);
      }
    }

    /** The part of tokenize that creates a row; when it throws, new keys are rolled back. */
    method Insert(text: Text, u: Supply, now: int) returns (r: Option<string>)
      requires Valid()
      modifies this, store, pool
      ensures Valid() && (pool == null || pool == old(pool) || fresh(pool))
      ensures r.Some? ==> Create(s, old(store.State()), host, t, text, limits, old(Kept()), u, now) == Some(Made(store.State(), r.value, Kept()))
      ensures r == None ==> Create(s, old(store.State()), host, t, text, limits, old(Kept()), u, now) == None
      ensures r == None ==> store.State() == old(store.State()) && pool == null
    {
      var deks, nextDek := store.deks, store.nextDek;
      var tcfg := new TokenizerConfig(s, store.State(), host);
      var ticket := PrepareTicket(tcfg, text, u);
      r := None;
      if ticket.Some? {
        var ready := TakePool(tcfg);
        if ready {
          r := FinishTicket(tcfg, ticket.value, u, now);
        }
      }
      if r == None {
        store.deks, store.nextDek, pool := deks, nextDek, null;
      }
    }

    /** dek_pool(): false when the active version gives no key. */
    method TakePool(tcfg: TokenizerConfig) returns (ok: bool)
      requires Valid() && tcfg.Mirrors(s, store.State(), host)
      modifies `pool
      ensures Valid() && (pool == null || pool == old(pool) || fresh(pool))
      ensures ok ==> pool != null
      ensures PoolFor(s, store.State(), host, old(Kept())) == if ok then Kept() else None
    {
      if pool != null {
        return true;
      }
      var version := Number(tcfg.params, KekVersion);
      if version == None {
        return false;
      }
      tcfg.QueriesAgree(s, store.State(), host, version.value, 1);
      var kek := tcfg.GetMasterKey(version.value);
      if kek == None {
        return false;
      }
      pool := new Pool(s, store, kek.value, version.value, limits);
      return true;
    }

    method PrepareTicket(tcfg: TokenizerConfig, text: Text, u: Supply) returns (r: Option<Ticket>)
      requires Valid() && tcfg.Mirrors(s, store.State(), host)
      ensures r == Prepare(s, store.State(), host, t, text, u)
    {
      var hmacVersion := Number(tcfg.params, HmacVersion);
      if hmacVersion == None {
        return None;
      }
      var digest := CountDigest(tcfg, text, hmacVersion.value, u.noise);
      var block := s.encode(t, text, u.pad);
      if digest == None || block == None {
        return None;
      }
      return Some(Ticket(hmacVersion.value, digest.value, block.value));
    }

    /** The key from the pool, the encrypted text under it, the new token and the row. */
    method FinishTicket(tcfg: TokenizerConfig, p: Ticket, u: Supply, now: int) returns (r: Option<string>)
      requires Valid() && tcfg.Mirrors(s, store.State(), host) && pool != null
      modifies store, pool
      ensures Valid()
      ensures r == None <==> Finish(s, old(store.State()), host, t, limits, u, p, old(Kept()).value, now) == None
      ensures r.Some? ==> Finish(s, old(store.State()), host, t, limits, u, p, old(Kept()).value, now) == Some(Made(store.State(), r.value, Kept()))
      ensures r == None ==> store.State() == old(store.State()).(deks := store.deks, nextDek := store.nextDek)
    {
      ghost var w := store.State();
      var id := pool.GetActiveDataKey(u.picks, u.spare, now);
      if id == None {
        return None;
      }
      L.SameStoresSameKeys(s, w, store.State());
      r := StoreUnder(tcfg, w, id.value, p, u, now);
    }

    /** The row under the key obtained. */
    method StoreUnder(tcfg: TokenizerConfig, ghost w: World, id: int, p: Ticket, u: Supply, now: int) returns (r: Option<string>)
      requires Valid() && host < |w.hosts| && tcfg.Mirrors(s, w, host) && id in store.deks
      requires store.cards == w.cards && store.vault == w.vault
      requires forall v :: UsableKey(s, store.State(), host, v) == UsableKey(s, w, host, v)
      modifies store
      ensures var o := Seal(s, old(store.State()), host, t, p.block, p.hmac, p.digest, id, FreshToken(w, t, u.tokens), now);
              && (r == None <==> o == None)
              && (r.Some? ==> o == Some((store.State(), r.value)))
      ensures r == None ==> store.State() == old(store.State())
      ensures store.deks.Keys == old(store.deks.Keys) && store.hosts == old(store.hosts)
    {
      var dek := DecryptDek(tcfg, w, id);
      if dek == None {
        return None;
      }
      var crypted := s.encrypt(t, dek.value, p.block);
      if crypted == None {
        return None;
      }
      var token := GenerateTokenString(w, u.tokens);
      if token == None {
        return None;
      }
      UseDek(id, now);
      Save(TokenRow(token.value, crypted.value, id, p.hmac, p.digest));
      return token;
    }

    /** The digest stored with a new row. */
    method CountDigest(tcfg: TokenizerConfig, text: Text, version: int, noise: string) returns (r: Option<string>)
      requires Valid() && tcfg.Mirrors(s, store.State(), host)
      ensures r == L.StoredDigest(s, store.State(), host, version, text, noise)
    {
      if |text| < 10 {
        return Some(noise);
      }
      tcfg.QueriesAgree(s, store.State(), host, version, 1);
      if version !in tcfg.hmacs {
        return None;
      }
      return Some(s.mac(tcfg.hmacs[version], Latin(text)));
    }

    /** decrypt_dek of a row, by the master keys loaded before the pool grew. */
    method DecryptDek(tcfg: TokenizerConfig, ghost w: World, id: int) returns (r: Option<Key>)
      requires Valid() && host < |w.hosts| && tcfg.Mirrors(s, w, host) && id in store.deks
      requires forall v :: UsableKey(s, store.State(), host, v) == UsableKey(s, w, host, v)
      ensures r == OpenDek(s, store.State(), host, id)
    {
      var row := store.deks[id];
      tcfg.QueriesAgree(s, w, host, row.kek, 1);
      var master := tcfg.GetMasterKey(row.kek);
      if master == None {
        return None;
      }
      var dek := s.open(master.value, row.wrapped);
      if dek == None || |dek.value| != 32 {
        return None;
      }
      return Some(dek.value);
    }

    /** generate_token_string over the candidates drawn. */
    method GenerateTokenString(ghost w: World, tokens: seq<string>) returns (r: Option<string>)
      requires store.cards == w.cards && store.vault == w.vault
      ensures r == FreshToken(w, t, tokens)
    {
      var i := 0;
      while i < |tokens|
        invariant 0 <= i <= |tokens|
        invariant FreshToken(w, t, tokens) == FreshToken(w, t, tokens[i..])
      {
        var count := |set id | id in store.State().TableOf(t).rows && store.State().TableOf(t).rows[id].token == tokens[i]|;
        assert store.State().TableOf(t) == w.TableOf(t);
        TakenIsCount(w, t, tokens[i]);
        assert tokens[i..][0] == tokens[i] && tokens[i..][1..] == tokens[i + 1..];
        if count == 0 {
          return Some(tokens[i]);
        }
        i := i + 1;
      }
      return None;
    }

    /** The counter part of use_dek. */
    method UseDek(id: int, now: int)
      requires id in store.deks
      modifies store`deks
      ensures store.deks == old(store.deks)[id := L.UseDek(old(store.deks)[id], now)]
    {
      var row := store.deks[id];
      row := row.(counter := row.counter + 1);
      if row.counter >= row.maxCounter {
        row := row.(finish := now);
      }
      store.deks := store.deks[id := row];
    }

    /** do_tokenize: the row goes into this tokenizer's table. */
    method Save(row: TokenRow)
      modifies store`cards, store`vault
      ensures var tt := old(store.State()).TableOf(t);
              store.State() == old(store.State()).WithTable(t, TokenTable(tt.rows[tt.next := row], tt.next + 1))
    {
      if t == Card {
        store.cards := TokenTable(store.cards.rows[store.cards.next := row], store.cards.next + 1);
      } else {
        store.vault := TokenTable(store.vault.rows[store.vault.next := row], store.vault.next + 1);
      }
    }

    method Detokenize(token: string) returns (r: Option<Text>)
      requires Valid()
      ensures r == L.Detokenize(s, store.State(), host, t, token)
    {
      var rows := store.State().TableOf(t).rows;
      var id := L.FindToken(rows, token);
      if id == None {
        return None;
      }
      var row := rows[id.value];
      var tcfg := new TokenizerConfig(s, store.State(), host);
      if row.dek !in store.deks {
        return None;
      }
      var dek := DecryptDek(tcfg, store.State(), row.dek);
      if dek == None {
        return None;
      }
      var data := s.decrypt(t, dek.value, row.crypted);
      if data == None {
        return None;
      }
      return s.decode(t, data.value);
    }

    /** remove_data_token: whether a row was there. */
    method Remove(token: string) returns (found: bool)
      modifies store`cards, store`vault
      ensures store.State() == L.Remove(old(store.State()), t, token)
      ensures found <==> L.FindToken(old(store.State()).TableOf(t).rows, token).Some?
    {
      var rows := store.State().TableOf(t).rows;
      var id := L.FindToken(rows, token);
      if id == None {
        return false;
      }
      if t == Card {
        store.cards := store.cards.(rows := rows - {id.value});
      } else {
        store.vault := store.vault.(rows := rows - {id.value});
      }
      return true;
    }
  }

  // ---------------------------------------------------------------- a card and its code

  /** The two new tokens of get_token; the first is "" without a code. */
  datatype Tokens = Tokens(w: World, cvnToken: string, cardToken: string)

  /** The code, if there is one, without deduplication. */
  function CodeFor(s: Suite, w: World, h: nat, cvn: Text, limits: Limits, pool: Option<PoolState>, u: Supply, now: int): (r: Option<Made>)
    requires h < |w.hosts| && PoolKnown(w, pool)
    ensures r.Some? ==> OnlyAdds(w, r.value.w, Card) && PoolKnown(r.value.w, r.value.pool)
  {
    if cvn == "" then Some(Made(w, "", pool)) else TokenizeWith(s, w, h, Card, cvn, false, limits, pool, u, now)
  }

  /** get_token: the code first, then the number with deduplication, from one Tokenizer. */
  function TokensFor(s: Suite, w: World, h: nat, cvn: Text, pan: Text, limits: Limits, pool: Option<PoolState>,
                     first: Supply, now1: int, second: Supply, now2: int): Option<Tokens>
    requires h < |w.hosts| && PoolKnown(w, pool)
  {
    match CodeFor(s, w, h, cvn, limits, pool, first, now1)
    case None => None
    case Some(m) =>
      match TokenizeWith(s, m.w, h, Card, pan, true, limits, m.pool, second, now2)
      case None => None
      case Some(n) => Some(Tokens(n.w, m.token, n.token))
  }

  /** The state after get_token is one that two lifecycle calls, or one, lead to. */
  lemma TokensAreSteps(s: Suite, w: World, h: nat, cvn: Text, pan: Text, limits: Limits, pool: Option<PoolState>,
                       first: Supply, now1: int, second: Supply, now2: int) returns (mid: World, d1: L.Draw, d2: L.Draw)
    requires h < |w.hosts| && PoolKnown(w, pool) && Fits(s, w, h, pool)
    requires TokensFor(s, w, h, cvn, pan, limits, pool, first, now1, second, now2).Some?
    ensures var r := TokensFor(s, w, h, cvn, pan, limits, pool, first, now1, second, now2).value;
            && |mid.hosts| == |w.hosts|
            && (if cvn == "" then mid == w && r.cvnToken == ""
                else L.Tokenize(s, w, h, Card, cvn, false, d1, L.Env(now1, limits.useCount, limits.period)) == Some((mid, r.cvnToken)))
            && L.Tokenize(s, mid, h, Card, pan, true, d2, L.Env(now2, limits.useCount, limits.period)) == Some((r.w, r.cardToken))
  {
    var m := CodeFor(s, w, h, cvn, limits, pool, first, now1).value;
    mid, d1 := m.w, L.Draw([], 0, "", "", "");
    if cvn != "" {
      d1 := TokenizeIsLifecycle(s, w, h, Card, cvn, false, limits, pool, first, now1);
    }
    d2 := TokenizeIsLifecycle(s, mid, h, Card, pan, true, limits, m.pool, second, now2);
  }

  /** CardCrypter: both tokens of a card come from one Tokenizer, in one transaction. */
  class CardCrypter {
    const tokenizer: Tokenizer

    constructor (tokenizer: Tokenizer)
      ensures this.tokenizer == tokenizer
    {
      this.tokenizer := tokenizer;
    }

    /** get_token; None where a call throws, and then neither token is stored. */
    method GetToken(cvn: Text, pan: Text, first: Supply, now1: int, second: Supply, now2: int) returns (r: Option<(string, string)>)
      requires tokenizer.Valid() && tokenizer.t == Card
      modifies tokenizer, tokenizer.store, tokenizer.pool
      ensures var o := old(TokensFor(tokenizer.s, tokenizer.store.State(), tokenizer.host, cvn, pan, tokenizer.limits, tokenizer.Kept(),
                                     first, now1, second, now2));
              && (r.Some? ==> o == Some(Tokens(tokenizer.store.State(), r.value.0, r.value.1)))
              && (r == None ==> o == None && tokenizer.store.State() == old(tokenizer.store.State()))
    {
      var store := tokenizer.store;
      var deks, nextDek, cards := store.deks, store.nextDek, store.cards;
      var cvnToken := GetCvnToken(cvn, first, now1);
      if cvnToken == None {
        return None;
      }
      var cardToken, _ := tokenizer.Tokenize(pan, true, second, now2);
      if cardToken == None {
        store.deks, store.nextDek, store.cards := deks, nextDek, cards;
        return None;
      }
      return Some((cvnToken.value, cardToken.value));
    }

    method GetCvnToken(cvn: Text, u: Supply, now: int) returns (r: Option<string>)
      requires tokenizer.Valid() && tokenizer.t == Card
      modifies tokenizer, tokenizer.store, tokenizer.pool
      ensures tokenizer.Valid() && (tokenizer.pool == null || tokenizer.pool == old(tokenizer.pool) || fresh(tokenizer.pool))
      ensures var o := old(CodeFor(tokenizer.s, tokenizer.store.State(), tokenizer.host, cvn, tokenizer.limits, tokenizer.Kept(), u, now));
              && (r.Some? ==> o == Some(Made(tokenizer.store.State(), r.value, tokenizer.Kept())))
              && (r == None ==> o == None && tokenizer.store.State() == old(tokenizer.store.State()))
    {
      if cvn == "" {
        return Some("");
      }
      ghost var d;
      r, d := tokenizer.Tokenize(cvn, false, u, now);
    }
  }

  // ---------------------------------------------------------------- helpers

  /** The version is known and no row has its digest of the text. */
  predicate Misses(s: Suite, w: World, h: nat, t: Table, text: Text, v: int)
    requires h < |w.hosts|
  {
    HmacKey(s, w, h, v).Some? && L.FindDigest(w.TableOf(t).rows, L.Digest(s, w, h, v, text)) == None
  }

  /** The digest versions in the order search tries them. */
  ghost predicate InSearchOrder(s: Suite, w: World, h: nat, versions: seq<int>)
    requires h < |w.hosts|
  {
    && versions != [] && Number(w.db, HmacVersion) == Some(versions[0])
    && (forall v :: v in versions <==> v == versions[0] || v in LoadedHmacs(s, w, h))
    && Ascending(versions[1..]) && versions[0] !in versions[1..]
  }

  /** The first version that hits is the one the specification picks. */
  lemma SearchHits(s: Suite, w: World, h: nat, t: Table, text: Text, versions: seq<int>, i: nat)
    requires h < |w.hosts| && InSearchOrder(s, w, h, versions) && i < |versions|
    requires forall j | 0 <= j < i :: Misses(s, w, h, t, text, versions[j])
    requires HmacKey(s, w, h, versions[i]).Some? && !Misses(s, w, h, t, text, versions[i])
    ensures L.Search(s, w, h, t, text)
         == Some(w.TableOf(t).rows[L.FindDigest(w.TableOf(t).rows, L.Digest(s, w, h, versions[i], text)).value].token)
  {
    var all := {versions[0]} + LoadedHmacs(s, w, h);
    var hits := L.Hits(s, w, h, t, text, all);
    assert versions[i] in versions && versions[i] in hits;
    forall v | v in hits
      ensures v in versions
    {
      assert v in all;
    }
    forall j | 0 <= j < i
      ensures versions[j] !in hits
    {
      assert Misses(s, w, h, t, text, versions[j]);
    }
    FirstHit(versions, hits, i);
    assert i > 0 ==> Misses(s, w, h, t, text, versions[0]);
  }

  /** Only the active version can be unknown, and it is the first that is tried. */
  lemma UnknownVersion(s: Suite, w: World, h: nat, t: Table, text: Text, versions: seq<int>, i: nat)
    requires h < |w.hosts| && InSearchOrder(s, w, h, versions) && i < |versions|
    requires HmacKey(s, w, h, versions[i]) == None
    ensures L.Search(s, w, h, t, text) == None
  {
    assert versions[i] in versions;
    assert versions[i] == versions[0];
  }

  lemma SearchMisses(s: Suite, w: World, h: nat, t: Table, text: Text, versions: seq<int>)
    requires h < |w.hosts| && InSearchOrder(s, w, h, versions)
    requires forall j | 0 <= j < |versions| :: Misses(s, w, h, t, text, versions[j])
    ensures L.Search(s, w, h, t, text) == Some("")
  {
    assert Misses(s, w, h, t, text, versions[0]);
    var hits := L.Hits(s, w, h, t, text, {versions[0]} + LoadedHmacs(s, w, h));
    forall v
      ensures v !in hits
    {
      assert v in versions ==> Misses(s, w, h, t, text, v);
    }
    assert hits == {};
  }

  /** The first position with a hit holds the active version or the least hit. */
  lemma FirstHit(versions: seq<int>, hits: set<int>, i: nat)
    requires i < |versions| && versions[i] in hits && forall j | 0 <= j < i :: versions[j] !in hits
    requires forall v | v in hits :: v in versions
    requires Ascending(versions[1..]) && versions[0] !in versions[1..]
    ensures versions[i] == if versions[0] in hits then versions[0] else MinOf(hits)
  {
    if i > 0 {
      var m := MinOf(hits);
      var j :| 0 <= j < |versions| && versions[j] == m;
      assert versions[1..][i - 1] == versions[i] && versions[1..][j - 1] == versions[j];
    }
  }

  lemma TakenIsCount(w: World, t: Table, token: string)
    ensures |set id | id in w.TableOf(t).rows && w.TableOf(t).rows[id].token == token| == 0 <==> !L.TokenTaken(w, t, token)
  {
    var ids := set id | id in w.TableOf(t).rows && w.TableOf(t).rows[id].token == token;
    if ids != {} {
      var id := Pick(ids);
    }
    if L.TokenTaken(w, t, token) {
      var id :| id in w.TableOf(t).rows && w.TableOf(t).rows[id].token == token;
      assert id in ids;
    }
  }
}
