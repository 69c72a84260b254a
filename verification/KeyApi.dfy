/** The stores a call works on: the session's tables, the key keeper and the hosts' XML items. */
module Storage {
  import opened Basics
  import opened KeyState

  class Store {
    var db: Config
    var part1: map<int, string>
    var hosts: seq<map<int, string>>
    var deks: map<int, DekRow>
    var nextDek: int
    var cards: TokenTable
    var vault: TokenTable

    constructor (w: World)
      ensures State() == w
    {
      db, part1, hosts, deks := w.db, w.part1, w.hosts, w.deks;
      nextDek, cards, vault := w.nextDek, w.cards, w.vault;
    }

    function State(): World
      reads this
    {
      World(db, part1, hosts, deks, nextDek, cards, vault)
    }
  }
}

/**
 KeyAPI, call by call. A call returns false where the program throws; the database is then as
 before, because the transaction is rolled back, but requests already answered keep their effect.
 Every call is proved to do what module Lifecycle says.
 */
module KeyService {
  import opened Basics
  import opened KeyState
  import opened Storage
  import opened LoadedConfig
  import L = Lifecycle

  class KeyApi {
    const s: Suite
    const host: nat
    const store: Store

    predicate Valid()
      reads store
    {
      host < |store.hosts|
    }

    constructor (s: Suite, host: nat, store: Store)
      requires host < |store.hosts|
      ensures Valid() && this.s == s && this.host == host && this.store == store
    {
      this.s, this.host, this.store := s, host, store;
    }

    method SetConfigParam(key: ConfigKey, value: string)
      modifies store`db
      ensures store.db == old(store.db)[key := value]
    {
      store.db := store.db[key := value];
    }

    method UnsetConfigParam(key: ConfigKey)
      modifies store`db
      ensures store.db == old(store.db) - {key}
    {
      store.db := store.db - {key};
    }

    /** kek_auth: the three parts are compared in turn. */
    method KekAuth(tcfg: TokenizerConfig, mode: L.Mode, password: string) returns (r: Option<(int, int)>)
      requires Valid() && tcfg.Mirrors(s, store.State(), host)
      ensures r == L.KekAuth(s, store.State(), host, mode, password)
    {
      if |password| != 64 {
        return None;
      }
      var version := VersionFor(tcfg, mode);
      if version == None {
        return None;
      }
      var i := ComponentNumber(tcfg, version.value, password);
      return if i == None then None else Some((version.value, i.value));
    }

    method VersionFor(tcfg: TokenizerConfig, mode: L.Mode) returns (version: Option<int>)
      requires Valid() && tcfg.Mirrors(s, store.State(), host)
      ensures version == L.AuthVersion(store.db, mode)
    {
      match mode {
        case Current => version := Number(tcfg.params, KekVersion);
        case Last => version := tcfg.GetLastVersion(s, store.State(), host);
        case _ => version := Number(tcfg.params, KekTargetVersion);
      }
    }

    /** The number of the first part that is the password, 0 for none; None when a part is missing. */
    method ComponentNumber(tcfg: TokenizerConfig, v: int, password: string) returns (r: Option<int>)
      requires Valid() && tcfg.Mirrors(s, store.State(), host)
      ensures r == None <==> MasterKey(s, store.State(), host, v) == None
      ensures r.Some? ==> 0 <= r.value <= 3 && (r.value > 0 ==> Component(s, store.State(), host, v, r.value) == Some(password))
      ensures r.Some? ==> forall j | 1 <= j <= (if r.value == 0 then 3 else r.value - 1) :: Component(s, store.State(), host, v, j) != Some(password)
    {
      var i := 1;
      while i <= 3
        invariant 1 <= i <= 4
        invariant i > 1 ==> MasterKey(s, store.State(), host, v).Some?
        invariant forall j | 1 <= j < i :: Component(s, store.State(), host, v, j) != Some(password)
      {
        tcfg.QueriesAgree(s, store.State(), host, v, i);
        var component := tcfg.GetComponent(v, i);
        if component == None {
          return None;
        }
        if component.value == password {
          return Some(i);
        }
        i := i + 1;
      }
      return Some(0);
    }

    /** The two assertions every caller makes on what kek_auth returned. */
    method Authorize(tcfg: TokenizerConfig, mode: L.Mode, password: string) returns (r: Option<int>)
      requires Valid() && tcfg.Mirrors(s, store.State(), host)
      ensures r.Some? <==> L.Authorize(s, store.State(), host, mode, password).Some?
      ensures r.Some? ==> r.value == L.Authorize(s, store.State(), host, mode, password).value.0
    {
      var auth := KekAuth(tcfg, mode, password);
      if auth == None || auth.value.0 < 0 || auth.value.1 < 1 || auth.value.1 > 3 {
        return None;
      }
      return Some(auth.value.0);
    }

    // ------------------------------------------------------------ KEK calls

    /** generate_kek; `answered` is the number of requests answered before one fails. */
    method GenerateKek(password: string, p1: string, p2: string, p3: string, answered: nat) returns (ok: bool)
      requires Valid()
      modifies store
      ensures ok <==> L.GenerateKek(s, old(store.State()), host, password, p1, p2, p3).Some? && answered > |old(store.hosts)|
      ensures ok ==> Some(store.State()) == L.GenerateKek(s, old(store.State()), host, password, p1, p2, p3)
      ensures !ok ==> store.State() == L.AbortedGenerateKek(s, old(store.State()), host, password, p1, p2, p3, answered)
    {
      ghost var w := store.State();
      var plan := PlanKek(password, p1, p2, p3);
      if plan == None {
        return false;
      }
      var (v, code) := plan.value;
      var saved := store.db;
      SetConfigParam(Part3(v), p3);
      SetConfigParam(ControlCode(v), code);
      SetConfigParam(PartCheck(v, 1), "0");
      SetConfigParam(PartCheck(v, 2), "0");
      SetConfigParam(PartCheck(v, 3), "0");
      SetConfigParam(KekTargetVersion, ToText(v));
      ok := SendParts(w, v, p1, p2, answered);
      if !ok {
        store.db := saved;
      }
    }

    /** generate_kek up to its first write: the new version and its control code. */
    method PlanKek(password: string, p1: string, p2: string, p3: string) returns (r: Option<(int, string)>)
      requires Valid()
      ensures r.Some? <==> L.PlanKek(s, store.State(), host, password, p1, p2, p3).Some?
      ensures r.Some? ==> L.PlanKek(s, store.State(), host, password, p1, p2, p3)
                          == Some((r.value.0, L.NewVersionRows(store.db, r.value.0, p3, r.value.1)))
    {
      var tcfg := new TokenizerConfig(s, store.State(), host);
      var auth := Authorize(tcfg, L.Current, password);
      if auth == None {
        return None;
      }
      var kek := s.assemble(p1, p2, p3);
      if kek == None || ControlPhrase !in tcfg.params {
        return None;
      }
      var code := s.seal(kek.value, Latin(tcfg.params[ControlPhrase]));
      if code == None {
        return None;
      }
      var last := tcfg.GetLastVersion(s, store.State(), host);
      if last == None {
        return None;
      }
      return Some((last.value + 1, code.value));
    }

    /** One answered request: what the key keeper or a host does with it. */
    method Perform(e: L.Effect)
      modifies store`part1, store`hosts
      ensures store.State() == L.Apply(old(store.State()), e)
    {
      match e
      case PutPart1(v, part) => store.part1 := store.part1[v := part];
      case PutPart2(h, v, part) =>
        if h < |store.hosts| {
          store.hosts := store.hosts[h := store.hosts[h][v := part]];
        }
      case KeepPart1(v) => store.part1 := map x | x in store.part1 && x == v :: store.part1[x];
      case KeepPart2(h, v) =>
        if h < |store.hosts| {
          store.hosts := store.hosts[h := KeepOnly(store.hosts[h], v)];
        }
    }

    /** Request k of a list, the ones before it having been answered. */
    method PerformNext(ghost w: World, ghost es: seq<L.Effect>, ghost k: nat, e: L.Effect)
      requires k < |es| && es[k] == e
      requires store.State() == L.ApplyAll(w, es[..k]).(db := store.db)
      modifies store`part1, store`hosts
      ensures store.State() == L.ApplyAll(w, es[..k + 1]).(db := store.db)
      ensures |store.hosts| == old(|store.hosts|)
    {
      OneMoreEffect(w, es, k, store.db);
      Perform(e);
    }

    /** The requests of generate_kek: the key keeper first, then each host. */
    method SendParts(ghost w: World, v: int, p1: string, p2: string, answered: nat) returns (ok: bool)
      requires store.State() == w.(db := store.db)
      modifies store`part1, store`hosts
      ensures ok <==> answered > |w.hosts|
      ensures var es := L.GenerateEffects(v, p1, p2, |w.hosts|);
              store.State() == L.ApplyAll(w, if answered < |es| then es[..answered] else es).(db := store.db)
    {
      ghost var es := L.GenerateEffects(v, p1, p2, |w.hosts|);
      GenerateEffectAt(v, p1, p2, |w.hosts|);
      assert es[..0] == [];
      if answered == 0 {
        return false;
      }
      PerformNext(w, es, 0, L.PutPart1(v, p1));
      var i := 0;
      while i < |store.hosts|
        invariant 0 <= i <= |store.hosts| == |w.hosts| && i < answered
        invariant store.State() == L.ApplyAll(w, es[..i + 1]).(db := store.db)
      {
        if answered == i + 1 {
          return false;
        }
        PerformNext(w, es, i + 1, L.PutPart2(i, v, p2));
        i := i + 1;
      }
      assert es[..i + 1] == es;
      return true;
    }

    method ConfirmComponent(password: string, wanted: Option<int>) returns (ok: bool)
      requires Valid()
      modifies store`db
      ensures ok <==> L.ConfirmComponent(s, old(store.State()), host, password, wanted).Some?
      ensures store.State() == L.OrElse(L.ConfirmComponent(s, old(store.State()), host, password, wanted), old(store.State()))
    {
      var tcfg := new TokenizerConfig(s, store.State(), host);
      var mode := L.Target;
      if wanted.Some? {
        mode := L.Custom(wanted.value);
      }
      var auth := KekAuth(tcfg, mode, password);
      if auth == None || auth.value.0 < 0 || auth.value.1 < 1 || auth.value.1 > 3 {
        return false;
      }
      SetConfigParam(PartCheck(auth.value.0, auth.value.1), "1");
      return true;
    }

    method ResetTargetVersion(password: string, wanted: int) returns (ok: bool)
      requires Valid()
      modifies store`db
      ensures ok <==> L.ResetTargetVersion(s, old(store.State()), host, password, wanted).Some?
      ensures store.State() == L.OrElse(L.ResetTargetVersion(s, old(store.State()), host, password, wanted), old(store.State()))
    {
      var tcfg := new TokenizerConfig(s, store.State(), host);
      var auth := Authorize(tcfg, L.Current, password);
      var valid := KekValid(tcfg, store.State(), wanted);
      if auth == None || !valid || !Checked(tcfg.params, wanted) {
        return false;
      }
      SetConfigParam(KekTargetVersion, ToText(wanted));
      return true;
    }

    method SwitchKek(password: string) returns (ok: bool)
      requires Valid()
      modifies store`db
      ensures ok <==> L.SwitchKek(s, old(store.State()), host, password).Some?
      ensures store.State() == L.OrElse(L.SwitchKek(s, old(store.State()), host, password), old(store.State()))
    {
      var tcfg := new TokenizerConfig(s, store.State(), host);
      var auth := Authorize(tcfg, L.Target, password);
      if auth == None {
        return false;
      }
      var v, active := auth.value, Number(tcfg.params, KekVersion);
      var valid := KekValid(tcfg, store.State(), v);
      if active == None || active.value == v || !valid || !Checked(tcfg.params, v) {
        return false;
      }
      SetConfigParam(KekVersion, ToText(v));
      return true;
    }

    // ------------------------------------------------------------ batches

    /** get_master_key: the assembled key of a valid version. */
    method MasterKeyOf(tcfg: TokenizerConfig, ghost w: World, v: int) returns (r: Option<Key>)
      requires host < |w.hosts| && tcfg.Mirrors(s, w, host)
      ensures r == UsableKey(s, w, host, v)
    {
      tcfg.QueriesAgree(s, w, host, v, 1);
      r := tcfg.GetMasterKey(v);
    }

    /** is_kek_valid */
    method KekValid(tcfg: TokenizerConfig, ghost w: World, v: int) returns (ok: bool)
      requires host < |w.hosts| && tcfg.Mirrors(s, w, host)
      ensures ok <==> IsKekValid(s, w, host, v)
    {
      tcfg.QueriesAgree(s, w, host, v, 1);
      ok := tcfg.IsValid(v);
    }

    /** reencrypt_dek, for a row already read; None where it throws. */
    method ReencryptDek(tcfg: TokenizerConfig, ghost w: World, row: DekRow, target: int) returns (r: Option<DekRow>)
      requires host < |w.hosts| && tcfg.Mirrors(s, w, host)
      ensures r == L.ReencryptRow(s, w, host, row, target)
    {
      var from := MasterKeyOf(tcfg, w, row.kek);
      if from == None {
        return None;
      }
      var to := MasterKeyOf(tcfg, w, target);
      if to == None {
        return None;
      }
      var dek := s.open(from.value, row.wrapped);
      if dek == None {
        return None;
      }
      var wrapped := s.seal(to.value, dek.value);
      if wrapped == None {
        return None;
      }
      return Some(row.(wrapped := wrapped.value, kek := target));
    }

    /** reencrypt_deks: the number of converted rows. */
    method ReencryptDeks(lo: int, hi: int) returns (r: Option<nat>)
      requires Valid()
      modifies store`deks
      ensures r.Some? <==> L.ReencryptDeks(s, old(store.State()), host, lo, hi).Some?
      ensures r.Some? ==> Some((store.State(), r.value)) == L.ReencryptDeks(s, old(store.State()), host, lo, hi)
      ensures r == None ==> store.State() == old(store.State())
    {
      ghost var w := store.State();
      var tcfg := new TokenizerConfig(s, store.State(), host);
      var version := SwitchVersion(tcfg.params);
      if version == None {
        return None;
      }
      var target := version.value;
      var saved := store.deks;
      var batch := set id | id in saved && lo <= id <= hi && saved[id].kek != target;
      assert batch == L.OffTarget(w, target, lo, hi);
      r := ConvertBatch(tcfg, w, batch, target);
      if r == None {
        store.deks := saved;
      } else {
        ConvertAll(s, w, host, lo, hi);
      }
    }

    /** The loop of reencrypt_deks. */
    method ConvertBatch(tcfg: TokenizerConfig, ghost w: World, batch: set<int>, target: int) returns (r: Option<nat>)
      requires host < |w.hosts| && tcfg.Mirrors(s, w, host)
      requires store.deks == w.deks && batch <= w.deks.Keys
      modifies store`deks
      ensures r.Some? <==> forall id | id in batch :: L.ReencryptRow(s, w, host, w.deks[id], target).Some?
      ensures r.Some? ==> r.value == |batch| && store.deks == Converted(s, w, host, batch, target)
    {
      var rs, converted := batch, 0;
      while rs != {}
        invariant rs <= batch
        invariant converted == |batch| - |rs|
        invariant store.deks == Converted(s, w, host, batch - rs, target)
        invariant forall id | id in batch - rs :: L.ReencryptRow(s, w, host, w.deks[id], target).Some?
        decreases |rs|
      {
        ghost var some := Pick(rs);
        var id :| id in rs;
        var ok := ConvertNext(tcfg, w, batch - rs, target, id);
        if !ok {
          return None;
        }
        assert batch - (rs - {id}) == batch - rs + {id};
        rs := rs - {id};
        converted := converted + 1;
      }
      assert batch - rs == batch;
      return Some(converted);
    }

    /** One row more than those done; false where it throws. */
    method ConvertNext(tcfg: TokenizerConfig, ghost w: World, ghost done: set<int>, target: int, id: int) returns (ok: bool)
      requires host < |w.hosts| && tcfg.Mirrors(s, w, host)
      requires id in w.deks && id !in done && store.deks == Converted(s, w, host, done, target)
      modifies store`deks
      ensures ok <==> L.ReencryptRow(s, w, host, w.deks[id], target).Some?
      ensures ok ==> store.deks == Converted(s, w, host, done + {id}, target)
    {
      ConvertOne(s, w, host, done, target, id);
      var row := ReencryptDek(tcfg, w, store.deks[id], target);
      if row == None {
        return false;
      }
      store.deks := store.deks[id := row.value];
      return true;
    }

    /** rehash_token; None where it throws. */
    method RehashToken(tcfg: TokenizerConfig, ghost w: World, row: TokenRow, target: int) returns (r: Option<TokenRow>)
      requires host < |w.hosts| && tcfg.Mirrors(s, w, host) && store.deks == w.deks
      ensures r == L.RehashRow(s, w, host, row, target)
    {
      if row.dek !in store.deks {
        return None;
      }
      var dataKey := store.deks[row.dek];
      tcfg.QueriesAgree(s, w, host, dataKey.kek, 1);
      tcfg.QueriesAgree(s, w, host, target, 1);
      var master := tcfg.GetMasterKey(dataKey.kek);
      if master == None {
        return None;
      }
      var dek := s.open(master.value, dataKey.wrapped);
      if dek == None || |dek.value| != 32 {
        return None;
      }
      var data := s.decrypt(Card, dek.value, row.crypted);
      if data == None || target !in tcfg.hmacs {
        return None;
      }
      return Some(row.(digest := s.mac(tcfg.hmacs[target], data.value), hmac := target));
    }

    method RehashTokens(lo: int, hi: int) returns (ok: bool)
      requires Valid()
      modifies store`cards
      ensures ok <==> L.RehashTokens(s, old(store.State()), host, lo, hi).Some?
      ensures store.State() == L.OrElse(L.RehashTokens(s, old(store.State()), host, lo, hi), old(store.State()))
    {
      ghost var w := store.State();
      var tcfg := new TokenizerConfig(s, store.State(), host);
      var version := Number(tcfg.params, HmacVersion);
      if version == None {
        return false;
      }
      var target := version.value;
      var saved := store.cards;
      var batch := set id | id in saved.rows && lo <= id <= hi && saved.rows[id].hmac != target;
      assert batch == L.StaleTokens(w, target, lo, hi);
      ok := RehashBatch(tcfg, w, batch, target);
      if !ok {
        store.cards := saved;
      } else {
        RehashAll(s, w, host, lo, hi);
      }
    }

    /** The loop of rehash_tokens. */
    method RehashBatch(tcfg: TokenizerConfig, ghost w: World, batch: set<int>, target: int) returns (ok: bool)
      requires host < |w.hosts| && tcfg.Mirrors(s, w, host)
      requires store.deks == w.deks && store.cards == w.cards && batch <= w.cards.rows.Keys
      modifies store`cards
      ensures ok <==> forall id | id in batch :: L.RehashRow(s, w, host, w.cards.rows[id], target).Some?
      ensures ok ==> store.cards == w.cards.(rows := Rehashed(s, w, host, batch, target))
    {
      var rs := batch;
      while rs != {}
        invariant rs <= batch
        invariant store.cards == w.cards.(rows := Rehashed(s, w, host, batch - rs, target))
        invariant forall id | id in batch - rs :: L.RehashRow(s, w, host, w.cards.rows[id], target).Some?
        decreases |rs|
      {
        ghost var some := Pick(rs);
        var id :| id in rs;
        RehashOne(s, w, host, batch - rs, target, id);
        var row := RehashToken(tcfg, w, store.cards.rows[id], target);
        if row == None {
          return false;
        }
        store.cards := store.cards.(rows := store.cards.rows[id := row.value]);
        assert batch - (rs - {id}) == batch - rs + {id};
        rs := rs - {id};
      }
      assert batch - rs == batch;
      return true;
    }

    // ------------------------------------------------------------ digest keys

    /** The largest of get_hmac_versions, by std::max_element. */
    method LastHmacVersion(tcfg: TokenizerConfig) returns (r: Option<int>)
      requires Valid() && tcfg.Mirrors(s, store.State(), host)
      ensures r == LastHmac(s, store.State(), host)
    {
      var versions := tcfg.GetHmacVersions(s, store.State(), host);
      if versions == None {
        return None;
      }
      var last := LastOf(versions.value, HmacVersions(s, store.State(), host).value);
      return Some(last);
    }

    method GenerateHmac(password: string, value: Key, finish: int) returns (ok: bool)
      requires Valid()
      modifies store`db, store`deks, store`nextDek
      ensures ok <==> L.GenerateHmac(s, old(store.State()), host, password, value, finish).Some?
      ensures store.State() == L.OrElse(L.GenerateHmac(s, old(store.State()), host, password, value, finish), old(store.State()))
    {
      PlanIsGenerateHmac(s, store.State(), host, password, value, finish);
      var plan := PlanHmac(password, value, finish);
      if plan == None {
        return false;
      }
      var id := store.nextDek;
      store.deks := store.deks[id := plan.value.0];
      store.nextDek := id + 1;
      SetConfigParam(HmacId(plan.value.1), ToText(id));
      return true;
    }

    /** generate_hmac up to its first write: the key row and the version it is for. */
    method PlanHmac(password: string, value: Key, finish: int) returns (r: Option<(DekRow, int)>)
      requires Valid()
      ensures r == HmacPlan(s, store.State(), host, password, value, finish)
    {
      var tcfg := new TokenizerConfig(s, store.State(), host);
      var auth := Authorize(tcfg, L.Current, password);
      if auth == None {
        return None;
      }
      var last := LastHmacVersion(tcfg);
      var master := MasterKeyOf(tcfg, store.State(), auth.value);
      return HmacRow(s, auth.value, last, master, value, finish);
    }

    method SwitchHmac(password: string) returns (ok: bool)
      requires Valid()
      modifies store`db
      ensures ok <==> L.SwitchHmac(s, old(store.State()), host, password).Some?
      ensures store.State() == L.OrElse(L.SwitchHmac(s, old(store.State()), host, password), old(store.State()))
    {
      var tcfg := new TokenizerConfig(s, store.State(), host);
      var auth := Authorize(tcfg, L.Current, password);
      if auth == None {
        return false;
      }
      var last := LastHmacVersion(tcfg);
      if last == None || Number(tcfg.params, HmacVersion) == last {
        return false;
      }
      SetConfigParam(HmacVersion, ToText(last.value));
      return true;
    }

    // ------------------------------------------------------------ cleanup

    /** cleanup; `answered` is the number of requests answered before one fails. */
    method Cleanup(password: string, answered: nat) returns (ok: bool)
      requires Valid()
      modifies store
      ensures ok <==> L.Cleanup(s, old(store.State()), host, password).Some? && answered > |old(store.hosts)|
      ensures ok ==> Some(store.State()) == L.Cleanup(s, old(store.State()), host, password)
      ensures !ok ==> store.State() == L.AbortedCleanup(s, old(store.State()), host, password, answered)
    {
      ghost var w := store.State();
      var tcfg := new TokenizerConfig(s, store.State(), host);
      var saved := store.db;
      var kept := PurgeOthers(tcfg, w, password);
      if kept == None {
        return false;
      }
      var v := kept.value;
      var sent := SendCleanup(w, v, answered);
      if !sent {
        store.db := saved;
        return false;
      }
      ghost var swept := store.State().(db := saved);
      assert swept == L.ApplyAll(w, L.CleanupEffects(v, |w.hosts|));
      tcfg.Reload(s, store.State().(db := saved), host);
      ok := PurgeHmacs(tcfg, swept);
      if !ok {
        store.db := saved;
      }
    }

    /** cleanup up to its first request, with the other versions' rows gone; None leaves the rows. */
    method PurgeOthers(tcfg: TokenizerConfig, ghost w: World, password: string) returns (r: Option<int>)
      requires Valid() && store.State() == w && tcfg.Mirrors(s, w, host)
      modifies store`db
      ensures r == L.PlanCleanup(s, w, host, password)
      ensures store.db == if r.Some? then L.PurgeKeks(w.db, Versions(w.db) - {r.value}) else w.db
    {
      var saved := store.db;
      r := VersionToKeep(tcfg, password);
      if r.Some? {
        tcfg.ValidNamed(s, w, host);
        var unused := PurgeKeks(w, tcfg.valid.Keys, r.value);
        if !unused {
          store.db := saved;
          r := None;
        }
      }
    }

    /** The assertions of cleanup: the caller is authorized and no other version is the target. */
    method VersionToKeep(tcfg: TokenizerConfig, password: string) returns (r: Option<int>)
      requires Valid() && tcfg.Mirrors(s, store.State(), host)
      ensures r == KeptBy(s, store.State(), host, password)
    {
      var auth := Authorize(tcfg, L.Current, password);
      if auth == None {
        return None;
      }
      var target := Number(tcfg.params, KekTargetVersion);
      if target.Some? && target.value != auth.value {
        return None;
      }
      return auth;
    }

    /** The first loop of cleanup: false as soon as a version is still in use. */
    method PurgeKeks(ghost w: World, versions: set<int>, v: int) returns (ok: bool)
      requires store.State() == w && versions == Versions(w.db)
      modifies store`db
      ensures ok <==> forall x | x in versions && x != v :: !L.KekUsed(w, x)
      ensures ok ==> store.db == L.PurgeKeks(w.db, versions - {v})
    {
      var todo := versions;
      while todo != {}
        invariant todo <= versions
        invariant forall x | x in versions - todo && x != v :: !L.KekUsed(w, x)
        invariant store.db == L.PurgeKeks(w.db, versions - todo - {v})
        decreases |todo|
      {
        var x :| x in todo;
        ghost var done := versions - todo - {v};
        todo := todo - {x};
        if x == v {
          assert versions - todo - {v} == done;
          continue;
        }
        var useCount := KekUseCount(w, x);
        if useCount != 0 {
          return false;
        }
        PurgeVersion(x);
        PurgeOneMore(w.db, done, x);
        assert versions - todo - {v} == done + {x};
      }
      assert versions - todo - {v} == versions - {v};
      return true;
    }

    /** get_kek_use_counts, for one version. */
    method KekUseCount(ghost w: World, v: int) returns (n: nat)
      requires store.deks == w.deks
      ensures n == 0 <==> !L.KekUsed(w, v)
    {
      n := |set id | id in store.deks && store.deks[id].kek == v|;
      CountIsUse(w, v);
    }

    /** get_hmac_use_counts, for one version. */
    method HmacUseCount(ghost w: World, v: int) returns (n: nat)
      requires store.cards == w.cards
      ensures n == 0 <==> !L.HmacUsed(w, v)
    {
      n := |set id | id in store.cards.rows && store.cards.rows[id].hmac == v|;
      HmacCountIsUse(w, v);
    }

    /** The rows of one version. */
    method PurgeVersion(x: int)
      modifies store`db
      ensures store.db == old(store.db) - VersionRows(x)
    {
      UnsetConfigParam(Part3(x));
      UnsetConfigParam(ControlCode(x));
      UnsetConfigParam(PartCheck(x, 1));
      UnsetConfigParam(PartCheck(x, 2));
      UnsetConfigParam(PartCheck(x, 3));
    }

    /** The requests of cleanup_kek. */
    method SendCleanup(ghost w: World, v: int, answered: nat) returns (ok: bool)
      requires store.State() == w.(db := store.db)
      modifies store`part1, store`hosts
      ensures ok <==> answered > |w.hosts|
      ensures var es := L.CleanupEffects(v, |w.hosts|);
              store.State() == L.ApplyAll(w, if answered < |es| then es[..answered] else es).(db := store.db)
    {
      ghost var es := L.CleanupEffects(v, |w.hosts|);
      CleanupEffectAt(v, |w.hosts|);
      assert es[..0] == [];
      if answered == 0 {
        return false;
      }
      PerformNext(w, es, 0, L.KeepPart1(v));
      var i := 0;
      while i < |store.hosts|
        invariant 0 <= i <= |store.hosts| == |w.hosts| && i < answered
        invariant store.State() == L.ApplyAll(w, es[..i + 1]).(db := store.db)
      {
        if answered == i + 1 {
          return false;
        }
        PerformNext(w, es, i + 1, L.KeepPart2(i, v));
        i := i + 1;
      }
      assert es[..i + 1] == es;
      return true;
    }

    /** The second loop of cleanup: digest versions no card row uses. */
    method PurgeHmacs(tcfg: TokenizerConfig, ghost swept: World) returns (ok: bool)
      requires host < |swept.hosts| && tcfg.Mirrors(s, swept, host)
      requires store.State() == swept.(db := store.db)
      modifies store`db
      ensures ok <==> L.UnusedHmacs(s, swept, host).Some?
      ensures ok ==> store.db == L.PurgeHmacs(old(store.db), L.UnusedHmacs(s, swept, host).value)
    {
      var active := Number(tcfg.params, HmacVersion);
      if active == None {
        return false;
      }
      tcfg.LoadedNamed(s, swept, host);
      PurgeUnused(tcfg.hmacs.Keys, active.value, swept);
      return true;
    }

    method PurgeUnused(versions: set<int>, active: int, ghost swept: World)
      requires store.State() == swept.(db := store.db)
      modifies store`db
      ensures store.db == L.PurgeHmacs(old(store.db), set v | v in versions && v != active && !L.HmacUsed(swept, v))
    {
      var todo := versions;
      ghost var db0, unused := store.db, set v | v in versions && v != active && !L.HmacUsed(swept, v);
      while todo != {}
        invariant todo <= versions
        invariant store.db == L.PurgeHmacs(db0, unused - todo)
        decreases |todo|
      {
        ghost var some := Pick(todo);
        var v :| v in todo;
        ghost var done := unused - todo;
        todo := todo - {v};
        var useCount := HmacUseCount(swept, v);
        if v == active || useCount > 0 {
          assert unused - todo == done;
        } else {
          UnsetConfigParam(HmacId(v));
          PurgeOneHmac(db0, done, v);
          assert unused - todo == done + {v};
        }
      }
      assert unused - todo == unused;
    }
  }

  // -------------------------------------------------------------- helpers

  /** The last version by std::max_element. */
  method LastOf(versions: seq<int>, ghost all: set<int>) returns (last: int)
    requires versions != [] && all != {} && forall v :: v in versions <==> v in all
    ensures last == MaxOf(all)
  {
    last := versions[0];
    var i := 1;
    while i < |versions|
      invariant 1 <= i <= |versions|
      invariant last in versions && forall j :: 0 <= j < i ==> versions[j] <= last
    {
      if last < versions[i] {
        last := versions[i];
      }
      i := i + 1;
    }
    assert MaxOf(all) in versions;
  }

  function LastHmac(s: Suite, w: World, h: nat): Option<int>
    requires h < |w.hosts|
  {
    match HmacVersions(s, w, h)
    case None => None
    case Some(versions) => if versions == {} then None else Some(MaxOf(versions))
  }

  /** The version a cleanup would keep, before it looks at the others. */
  function KeptBy(s: Suite, w: World, h: nat, password: string): Option<int>
    requires h < |w.hosts|
  {
    match L.Authorize(s, w, h, L.Current, password)
    case None => None
    case Some((v, _)) =>
      var target := Number(w.db, KekTargetVersion);
      if target.Some? && target.value != v then None else Some(v)
  }

  /** The row generate_hmac adds and the version it names it by. */
  function HmacPlan(s: Suite, w: World, h: nat, password: string, value: Key, finish: int): Option<(DekRow, int)>
    requires h < |w.hosts|
  {
    match L.Authorize(s, w, h, L.Current, password)
    case None => None
    case Some((v, _)) => HmacRow(s, v, LastHmac(s, w, h), UsableKey(s, w, h, v), value, finish)
  }

  function HmacRow(s: Suite, v: int, last: Option<int>, master: Option<Key>, value: Key, finish: int): Option<(DekRow, int)> {
    if last == None || master == None then None
    else
      match L.NewDek(s, master.value, v, value, 0, finish)
      case None => None
      case Some(row) => Some((row, last.value + 1))
  }

  lemma PlanIsGenerateHmac(s: Suite, w: World, h: nat, password: string, value: Key, finish: int)
    requires h < |w.hosts|
    ensures L.GenerateHmac(s, w, h, password, value, finish) ==
            match HmacPlan(s, w, h, password, value, finish)
            case None => None
            case Some((row, v)) => Some(L.AddDek(w, row).(db := w.db[HmacId(v) := ToText(w.nextDek)]))
  {
  }

  /** One more request of a list answered, whatever the uncommitted rows are. */
  lemma OneMoreEffect(w: World, es: seq<L.Effect>, k: nat, db: Config)
    requires k < |es|
    ensures L.ApplyAll(w, es[..k + 1]).(db := db) == L.Apply(L.ApplyAll(w, es[..k]).(db := db), es[k])
  {
    assert es[..k + 1][..k] == es[..k];
  }

  lemma GenerateEffectAt(v: int, p1: string, p2: string, hosts: nat)
    ensures var es := L.GenerateEffects(v, p1, p2, hosts);
            |es| == hosts + 1 && es[0] == L.PutPart1(v, p1) && forall i | 0 <= i < hosts :: es[i + 1] == L.PutPart2(i, v, p2)
  {
  }

  lemma CleanupEffectAt(v: int, hosts: nat)
    ensures var es := L.CleanupEffects(v, hosts);
            |es| == hosts + 1 && es[0] == L.KeepPart1(v) && forall i | 0 <= i < hosts :: es[i + 1] == L.KeepPart2(i, v)
  {
  }

  lemma CountIsUse(w: World, v: int)
    ensures |set id | id in w.deks && w.deks[id].kek == v| == 0 <==> !L.KekUsed(w, v)
  {
    var ids := set id | id in w.deks && w.deks[id].kek == v;
    if ids != {} {
      var id := Pick(ids);
    }
    if L.KekUsed(w, v) {
      var id :| id in w.deks && w.deks[id].kek == v;
      assert id in ids;
    }
  }

  lemma HmacCountIsUse(w: World, v: int)
    ensures |set id | id in w.cards.rows && w.cards.rows[id].hmac == v| == 0 <==> !L.HmacUsed(w, v)
  {
    var ids := set id | id in w.cards.rows && w.cards.rows[id].hmac == v;
    if ids != {} {
      var id := Pick(ids);
    }
    if L.HmacUsed(w, v) {
      var id :| id in w.cards.rows && w.cards.rows[id].hmac == v;
      assert id in ids;
    }
  }

  function VersionRows(x: int): set<ConfigKey> {
    {Part3(x), ControlCode(x), PartCheck(x, 1), PartCheck(x, 2), PartCheck(x, 3)}
  }

  lemma PurgeOneMore(db: Config, versions: set<int>, x: int)
    ensures L.PurgeKeks(db, versions) - VersionRows(x) == L.PurgeKeks(db, versions + {x})
  {
    forall key | key in db
      ensures L.KekRow(key, versions + {x}) <==> L.KekRow(key, versions) || key in VersionRows(x)
    {
    }
  }

  lemma PurgeOneHmac(db: Config, versions: set<int>, v: int)
    ensures L.PurgeHmacs(db, versions) - {HmacId(v)} == L.PurgeHmacs(db, versions + {v})
  {
  }

  // -------------------------------------------------------------- batches in progress

  /** The key rows once the rows in `done` are converted. */
  function Converted(s: Suite, w: World, h: nat, done: set<int>, target: int): map<int, DekRow>
    requires h < |w.hosts|
  {
    map id | id in w.deks ::
      if id in done then L.OrElse(L.ReencryptRow(s, w, h, w.deks[id], target), w.deks[id]) else w.deks[id]
  }

  lemma ConvertOne(s: Suite, w: World, h: nat, done: set<int>, target: int, id: int)
    requires h < |w.hosts| && id in w.deks && id !in done
    ensures Converted(s, w, h, done, target)[id] == w.deks[id]
    ensures L.ReencryptRow(s, w, h, w.deks[id], target).Some? ==>
              Converted(s, w, h, done, target)[id := L.ReencryptRow(s, w, h, w.deks[id], target).value]
              == Converted(s, w, h, done + {id}, target)
  {
  }

  lemma ConvertAll(s: Suite, w: World, h: nat, lo: int, hi: int)
    requires h < |w.hosts| && L.ReencryptDeks(s, w, h, lo, hi).Some?
    ensures var target := SwitchVersion(w.db).value;
            var batch := L.OffTarget(w, target, lo, hi);
            L.ReencryptDeks(s, w, h, lo, hi).value == (w.(deks := Converted(s, w, h, batch, target)), |batch|)
  {
    var target := SwitchVersion(w.db).value;
    var batch := L.OffTarget(w, target, lo, hi);
    var deks := L.ReencryptDeks(s, w, h, lo, hi).value.0.deks;
    forall id | id in w.deks
      ensures deks[id] == Converted(s, w, h, batch, target)[id]
    {
    }
    assert deks == Converted(s, w, h, batch, target);
  }

  /** The card rows once the rows in `done` are rehashed. */
  function Rehashed(s: Suite, w: World, h: nat, done: set<int>, target: int): map<int, TokenRow>
    requires h < |w.hosts|
  {
    map id | id in w.cards.rows ::
      if id in done then L.OrElse(L.RehashRow(s, w, h, w.cards.rows[id], target), w.cards.rows[id]) else w.cards.rows[id]
  }

  lemma RehashOne(s: Suite, w: World, h: nat, done: set<int>, target: int, id: int)
    requires h < |w.hosts| && id in w.cards.rows && id !in done
    ensures Rehashed(s, w, h, done, target)[id] == w.cards.rows[id]
    ensures L.RehashRow(s, w, h, w.cards.rows[id], target).Some? ==>
              Rehashed(s, w, h, done, target)[id := L.RehashRow(s, w, h, w.cards.rows[id], target).value]
              == Rehashed(s, w, h, done + {id}, target)
  {
  }

  lemma RehashAll(s: Suite, w: World, h: nat, lo: int, hi: int)
    requires h < |w.hosts| && L.RehashTokens(s, w, h, lo, hi).Some?
    ensures var target := Number(w.db, HmacVersion).value;
            L.RehashTokens(s, w, h, lo, hi).value
            == w.(cards := w.cards.(rows := Rehashed(s, w, h, L.StaleTokens(w, target, lo, hi), target)))
  {
  }
}
