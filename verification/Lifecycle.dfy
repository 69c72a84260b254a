/**
 The calls of KeyAPI and Tokenizer as functions from one state to the next. None means that
 the call throws: the wrapper then rolls the transaction back and the database is unchanged.
 */
module Lifecycle {
  import opened Basics
  import opened KeyState

  // ---------------------------------------------------------------- effects outside the database

  /** What a call does to the key keeper and to the hosts, in the order of the requests. */
  datatype Effect =
    | PutPart1(version: int, part: string)
    | PutPart2(host: nat, version: int, part: string)
    | KeepPart1(version: int)
    | KeepPart2(host: nat, version: int)

  function Apply(w: World, e: Effect): (r: World)
    ensures r == w.(part1 := r.part1, hosts := r.hosts) && |r.hosts| == |w.hosts|
  {
    match e
    case PutPart1(v, part) => w.(part1 := w.part1[v := part])
    case PutPart2(h, v, part) =>
      if h < |w.hosts| then w.(hosts := w.hosts[h := w.hosts[h][v := part]]) else w
    case KeepPart1(v) => w.(part1 := map x | x in w.part1 && x == v :: w.part1[x])
    case KeepPart2(h, v) =>
      if h < |w.hosts| then w.(hosts := w.hosts[h := KeepOnly(w.hosts[h], v)]) else w
  }

  function ApplyAll(w: World, es: seq<Effect>): (r: World)
    ensures r == w.(part1 := r.part1, hosts := r.hosts) && |r.hosts| == |w.hosts|
  {
    if es == [] then w else Apply(ApplyAll(w, es[..|es| - 1]), es[|es| - 1])
  }

  /** generate_kek sends part 1 to the key keeper, then part 2 to each host. */
  function GenerateEffects(v: int, p1: string, p2: string, hosts: nat): seq<Effect> {
    [PutPart1(v, p1)] + seq(hosts, h requires 0 <= h < hosts => PutPart2(h, v, p2))
  }

  /** cleanup_kek asks the key keeper, then each host, to keep one version only. */
  function CleanupEffects(v: int, hosts: nat): seq<Effect> {
    [KeepPart1(v)] + seq(hosts, h requires 0 <= h < hosts => KeepPart2(h, v))
  }

  // ---------------------------------------------------------------- authorization

  datatype Mode = Current | Last | Target | Custom(wanted: int)

  /** The version kek_auth looks at. The custom version is read from the target like the others. */
  function AuthVersion(db: Config, mode: Mode): Option<int> {
    match mode
    case Current => ActiveVersion(db)
    case Last => LastVersion(db)
    case Target => Number(db, KekTargetVersion)
    case Custom(_) => Number(db, KekTargetVersion)
  }

  /** kek_auth: the version and the number of the part presented, 0 when it is none of the three. */
  function KekAuth(s: Suite, w: World, h: nat, mode: Mode, password: string): Option<(int, int)>
    requires h < |w.hosts|
  {
    if |password| != 64 then None
    else
      match AuthVersion(w.db, mode)
      case None => None
      case Some(v) =>
        if MasterKey(s, w, h, v) == None then None
        else if Component(s, w, h, v, 1) == Some(password) then Some((v, 1))
        else if Component(s, w, h, v, 2) == Some(password) then Some((v, 2))
        else if Component(s, w, h, v, 3) == Some(password) then Some((v, 3))
        else Some((v, 0))
  }

  /** kek_auth followed by the two assertions every caller makes. */
  function Authorize(s: Suite, w: World, h: nat, mode: Mode, password: string): Option<(int, int)>
    requires h < |w.hosts|
  {
    match KekAuth(s, w, h, mode, password)
    case None => None
    case Some((v, i)) => if v >= 0 && 1 <= i <= 3 then Some((v, i)) else None
  }

  // ---------------------------------------------------------------- KEK calls

  /** The database rows of a new, unconfirmed version that becomes the target. */
  function NewVersionRows(db: Config, v: int, part3: string, code: string): Config {
    db[Part3(v) := part3][ControlCode(v) := code]
      [PartCheck(v, 1) := "0"][PartCheck(v, 2) := "0"][PartCheck(v, 3) := "0"]
      [KekTargetVersion := ToText(v)]
  }

  /** The control code of a key, from the stored control phrase. */
  function NewControlCode(s: Suite, db: Config, key: Key): Option<string> {
    if ControlPhrase in db then s.seal(key, Latin(db[ControlPhrase])) else None
  }

  /** generate_kek up to its first request: the new version and the rows it is going to commit. */
  function PlanKek(s: Suite, w: World, h: nat, password: string, p1: string, p2: string, p3: string): Option<(int, Config)>
    requires h < |w.hosts|
  {
    match Authorize(s, w, h, Current, password)
    case None => None
    case Some(_) =>
      match s.assemble(p1, p2, p3)
      case None => None
      case Some(key) =>
        match NewControlCode(s, w.db, key)
        case None => None
        case Some(code) =>
          match LastVersion(w.db)
          case None => None
          case Some(last) => Some((last + 1, NewVersionRows(w.db, last + 1, p3, code)))
  }

  function GenerateKek(s: Suite, w: World, h: nat, password: string, p1: string, p2: string, p3: string): Option<World>
    requires h < |w.hosts|
  {
    match PlanKek(s, w, h, password, p1, p2, p3)
    case None => None
    case Some((v, db)) => Some(ApplyAll(w, GenerateEffects(v, p1, p2, |w.hosts|)).(db := db))
  }

  /** generate_kek stopped after its first `done` requests: they stay, the rows do not. */
  function AbortedGenerateKek(s: Suite, w: World, h: nat, password: string, p1: string, p2: string, p3: string, done: nat): World
    requires h < |w.hosts|
  {
    match PlanKek(s, w, h, password, p1, p2, p3)
    case None => w
    case Some((v, _)) =>
      var es := GenerateEffects(v, p1, p2, |w.hosts|);
      ApplyAll(w, if done < |es| then es[..done] else es)
  }

  function ConfirmComponent(s: Suite, w: World, h: nat, password: string, wanted: Option<int>): Option<World>
    requires h < |w.hosts|
  {
    var mode := if wanted.Some? then Custom(wanted.value) else Target;
    match Authorize(s, w, h, mode, password)
    case None => None
    case Some((v, i)) => Some(w.(db := w.db[PartCheck(v, i) := "1"]))
  }

  function ResetTargetVersion(s: Suite, w: World, h: nat, password: string, wanted: int): Option<World>
    requires h < |w.hosts|
  {
    if Authorize(s, w, h, Current, password).Some? && IsKekValid(s, w, h, wanted) && Checked(w.db, wanted)
    then Some(w.(db := w.db[KekTargetVersion := ToText(wanted)]))
    else None
  }

  function SwitchKek(s: Suite, w: World, h: nat, password: string): Option<World>
    requires h < |w.hosts|
  {
    match Authorize(s, w, h, Target, password)
    case None => None
    case Some((v, _)) =>
      if ActiveVersion(w.db).Some? && ActiveVersion(w.db).value != v && IsKekValid(s, w, h, v) && Checked(w.db, v)
      then Some(w.(db := w.db[KekVersion := ToText(v)]))
      else None
  }

  // ---------------------------------------------------------------- re-encryption

  /** reencrypt_dek: the row with its key moved under the target version. */
  function ReencryptRow(s: Suite, w: World, h: nat, row: DekRow, target: int): Option<DekRow>
    requires h < |w.hosts|
  {
    match UsableKey(s, w, h, row.kek)
    case None => None
    case Some(from) =>
      match UsableKey(s, w, h, target)
      case None => None
      case Some(to) =>
        match s.open(from, row.wrapped)
        case None => None
        case Some(dek) =>
          match s.seal(to, dek)
          case None => None
          case Some(wrapped) => Some(row.(wrapped := wrapped, kek := target))
  }

  /** The rows of a batch: in the id range and not yet on the target. */
  function OffTarget(w: World, target: int, lo: int, hi: int): set<int> {
    set id | id in w.deks && lo <= id <= hi && w.deks[id].kek != target
  }

  /** reencrypt_deks: the new state and the number of converted rows. */
  function ReencryptDeks(s: Suite, w: World, h: nat, lo: int, hi: int): Option<(World, nat)>
    requires h < |w.hosts|
  {
    match SwitchVersion(w.db)
    case None => None
    case Some(target) =>
      var batch := OffTarget(w, target, lo, hi);
      if forall id | id in batch :: ReencryptRow(s, w, h, w.deks[id], target).Some? then
        Some((w.(deks := map id | id in w.deks ::
                          if id in batch then ReencryptRow(s, w, h, w.deks[id], target).value else w.deks[id]),
              |batch|))
      else None
  }

  // ---------------------------------------------------------------- digest keys

  /** A fresh row for a key value encrypted under the active version. */
  function NewDek(s: Suite, key: Key, version: int, value: Key, maxCounter: int, finish: int): Option<DekRow> {
    match s.seal(key, value)
    case None => None
    case Some(wrapped) => Some(DekRow(wrapped, version, 0, maxCounter, finish))
  }

  function AddDek(w: World, row: DekRow): World {
    w.(deks := w.deks[w.nextDek := row], nextDek := w.nextDek + 1)
  }

  function NewHmacVersion(versions: set<int>): int {
    if versions == {} then 0 else MaxOf(versions) + 1
  }

  /** generate_hmac: a key row that no pool ever selects, named by the next digest version. */
  function GenerateHmac(s: Suite, w: World, h: nat, password: string, value: Key, finish: int): Option<World>
    requires h < |w.hosts|
  {
    match Authorize(s, w, h, Current, password)
    case None => None
    case Some((v, _)) =>
      match (HmacVersions(s, w, h), UsableKey(s, w, h, v))
      case (Some(versions), Some(key)) =>
        (match NewDek(s, key, v, value, 0, finish)
         case None => None
         case Some(row) =>
           Some(AddDek(w, row).(db := w.db[HmacId(NewHmacVersion(versions)) := ToText(w.nextDek)])))
      case _ => None
  }

  function SwitchHmac(s: Suite, w: World, h: nat, password: string): Option<World>
    requires h < |w.hosts|
  {
    match (Authorize(s, w, h, Current, password), HmacVersions(s, w, h))
    case (Some(_), Some(versions)) =>
      if versions == {} || Number(w.db, HmacVersion) == Some(MaxOf(versions)) then None
      else Some(w.(db := w.db[HmacVersion := ToText(MaxOf(versions))]))
    case _ => None
  }

  // ---------------------------------------------------------------- cleanup

  /** The rows of a KEK version that cleanup deletes. */
  predicate KekRow(key: ConfigKey, versions: set<int>) {
    match key
    case Part3(v) => v in versions
    case ControlCode(v) => v in versions
    case PartCheck(v, i) => v in versions && 1 <= i <= 3
    case _ => false
  }

  function PurgeKeks(db: Config, versions: set<int>): Config {
    map key | key in db && !KekRow(key, versions) :: db[key]
  }

  function PurgeHmacs(db: Config, versions: set<int>): Config {
    map key | key in db && !(key.HmacId? && key.version in versions) :: db[key]
  }

  predicate KekUsed(w: World, v: int) {
    exists id | id in w.deks :: w.deks[id].kek == v
  }

  /** get_hmac_use_counts looks at the card tokens only. */
  predicate HmacUsed(w: World, v: int) {
    exists id | id in w.cards.rows :: w.cards.rows[id].hmac == v
  }

  /** cleanup up to its first request: the version to keep, which must be the target too. */
  function PlanCleanup(s: Suite, w: World, h: nat, password: string): Option<int>
    requires h < |w.hosts|
  {
    match Authorize(s, w, h, Current, password)
    case None => None
    case Some((v, _)) =>
      var target := if Number(w.db, KekTargetVersion).Some? then Number(w.db, KekTargetVersion).value else v;
      if target == v && forall x | x in Versions(w.db) && x != v :: !KekUsed(w, x) then Some(v) else None
  }

  /** The digest versions cleanup drops; w already lacks the purged key parts. */
  function UnusedHmacs(s: Suite, w: World, h: nat): Option<set<int>>
    requires h < |w.hosts|
  {
    match Number(w.db, HmacVersion)
    case None => None
    case Some(active) => Some(set v | v in LoadedHmacs(s, w, h) && v != active && !HmacUsed(w, v))
  }

  function Cleanup(s: Suite, w: World, h: nat, password: string): Option<World>
    requires h < |w.hosts|
  {
    match PlanCleanup(s, w, h, password)
    case None => None
    case Some(v) =>
      var swept := ApplyAll(w, CleanupEffects(v, |w.hosts|));
      match UnusedHmacs(s, swept, h)
      case None => None
      case Some(unused) =>
        Some(swept.(db := PurgeHmacs(PurgeKeks(w.db, Versions(w.db) - {v}), unused)))
  }

  /** cleanup stopped after its first `done` requests. */
  function AbortedCleanup(s: Suite, w: World, h: nat, password: string, done: nat): World
    requires h < |w.hosts|
  {
    match PlanCleanup(s, w, h, password)
    case None => w
    case Some(v) =>
      var es := CleanupEffects(v, |w.hosts|);
      ApplyAll(w, if done < |es| then es[..done] else es)
  }

  // ---------------------------------------------------------------- rehashing

  /** rehash_token digests the decrypted block as it is, without decoding it. */
  function RehashRow(s: Suite, w: World, h: nat, row: TokenRow, target: int): Option<TokenRow>
    requires h < |w.hosts|
  {
    match (OpenDek(s, w, h, row.dek), HmacKey(s, w, h, target))
    case (Some(dek), Some(key)) =>
      (match s.decrypt(Card, dek, row.crypted)
       case None => None
       case Some(data) => Some(row.(digest := s.mac(key, data), hmac := target)))
    case _ => None
  }

  function StaleTokens(w: World, target: int, lo: int, hi: int): set<int> {
    set id | id in w.cards.rows && lo <= id <= hi && w.cards.rows[id].hmac != target
  }

  function RehashTokens(s: Suite, w: World, h: nat, lo: int, hi: int): Option<World>
    requires h < |w.hosts|
  {
    match Number(w.db, HmacVersion)
    case None => None
    case Some(target) =>
      var batch := StaleTokens(w, target, lo, hi);
      if forall id | id in batch :: RehashRow(s, w, h, w.cards.rows[id], target).Some? then
        Some(w.(cards := w.cards.(rows := map id | id in w.cards.rows ::
                  if id in batch then RehashRow(s, w, h, w.cards.rows[id], target).value else w.cards.rows[id])))
      else None
  }

  // ---------------------------------------------------------------- tokens

  /** The one row with this token string, as query.one() returns it. */
  function FindToken(rows: map<int, TokenRow>, token: string): Option<int> {
    var ids := set id | id in rows && rows[id].token == token;
    if |ids| == 1 then Some(MinOf(ids)) else None
  }

  /** do_search: the oldest row with this digest. */
  function FindDigest(rows: map<int, TokenRow>, digest: string): Option<int> {
    var ids := set id | id in rows && rows[id].digest == digest;
    if ids == {} then None else Some(MinOf(ids))
  }

  /** The rows that some of the given digest versions finds for a text. */
  function Hits(s: Suite, w: World, h: nat, t: Table, text: Text, versions: set<int>): set<int>
    requires h < |w.hosts|
  {
    set v | v in versions && HmacKey(s, w, h, v).Some? &&
            FindDigest(w.TableOf(t).rows, s.mac(HmacKey(s, w, h, v).value, Latin(text))).Some? :: v
  }

  /** The digest of a text under one version. */
  function Digest(s: Suite, w: World, h: nat, v: int, text: Text): string
    requires h < |w.hosts| && HmacKey(s, w, h, v).Some?
  {
    s.mac(HmacKey(s, w, h, v).value, Latin(text))
  }

  /**
   Tokenizer.search: the active digest version first, then the others in ascending order; the
   result is the token found, "" when there is none, and None when the active key is missing.
   */
  function Search(s: Suite, w: World, h: nat, t: Table, text: Text): Option<string>
    requires h < |w.hosts|
  {
    match Number(w.db, HmacVersion)
    case None => None
    case Some(active) =>
      if HmacKey(s, w, h, active) == None then None
      else
        var hits := Hits(s, w, h, t, text, {active} + LoadedHmacs(s, w, h));
        if hits == {} then Some("")
        else
          var v := if active in hits then active else MinOf(hits);
          var rows := w.TableOf(t).rows;
          Some(rows[FindDigest(rows, Digest(s, w, h, v, text)).value].token)
  }

  /** The random choices of one tokenize call. */
  datatype Draw = Draw(
    values: seq<Key>,    // values of the data keys the pool adds first: none, or two in each round
    pick: int,           // the row finally selected
    pad: string,         // padding digits
    noise: string,       // the digest stored for a text shorter than 10 characters
    token: string)       // the new token string

  /** The settings and the clock a call sees. */
  datatype Env = Env(now: int, useCount: int, period: int)

  /** The finish time of a data key made now: the configured days later. */
  function EndOfLife(now: int, period: int): int {
    now + period * 24 * 3600
  }

  /** generate_new_data_key for each value in turn. */
  function AddDeks(s: Suite, w: World, key: Key, version: int, values: seq<Key>, maxCounter: int, finish: int): (r: Option<World>)
    ensures r.Some? ==> r.value == w.(deks := r.value.deks, nextDek := r.value.nextDek)
    decreases |values|
  {
    if values == [] then Some(w)
    else
      match NewDek(s, key, version, values[0], maxCounter, finish)
      case None => None
      case Some(row) => AddDeks(s, AddDek(w, row), key, version, values[1..], maxCounter, finish)
  }

  predicate Selectable(row: DekRow, now: int) {
    row.counter < row.maxCounter && row.finish > now
  }

  /** use_dek: one more use of the row, which ends its life when the budget is spent. */
  function UseDek(row: DekRow, now: int): DekRow {
    row.(counter := row.counter + 1, finish := if row.counter + 1 >= row.maxCounter then now else row.finish)
  }

  /** The digest stored with a new row; a short text gets a random one. */
  function StoredDigest(s: Suite, w: World, h: nat, version: int, text: Text, noise: string): Option<string>
    requires h < |w.hosts|
  {
    if |text| < 10 then Some(noise)
    else if HmacKey(s, w, h, version) == None then None
    else Some(Digest(s, w, h, version, text))
  }

  /** The pool as the draw leaves it and the encrypted row, not yet stored. */
  function Reserve(s: Suite, w: World, h: nat, t: Table, text: Text, d: Draw, env: Env): Option<(World, TokenRow)>
    requires h < |w.hosts|
  {
    match (Number(w.db, HmacVersion), ActiveVersion(w.db), s.encode(t, text, d.pad))
    case (Some(hmac), Some(active), Some(block)) =>
      (match (StoredDigest(s, w, h, hmac, text, d.noise), UsableKey(s, w, h, active))
       case (Some(digest), Some(kek)) =>
         (match AddDeks(s, w, kek, active, d.values, env.useCount, EndOfLife(env.now, env.period))
          case None => None
          case Some(grown) =>
            if d.pick !in grown.deks || !Selectable(grown.deks[d.pick], env.now) then None
            else
              match OpenDek(s, grown, h, d.pick)
              case None => None
              case Some(dek) =>
                match s.encrypt(t, dek, block)
                case None => None
                case Some(crypted) => Some((grown, TokenRow(d.token, crypted, d.pick, hmac, digest))))
       case _ => None)
    case _ => None
  }

  /** Stores a row and counts the use of its key. */
  function StoreRow(w: World, t: Table, row: TokenRow, now: int): World
    requires row.dek in w.deks
  {
    var tt := w.TableOf(t);
    w.(deks := w.deks[row.dek := UseDek(w.deks[row.dek], now)])
     .WithTable(t, TokenTable(tt.rows[tt.next := row], tt.next + 1))
  }

  predicate TokenTaken(w: World, t: Table, token: string) {
    exists id | id in w.TableOf(t).rows :: w.TableOf(t).rows[id].token == token
  }

  /** tokenize once no duplicate was found. */
  function Insert(s: Suite, w: World, h: nat, t: Table, text: Text, d: Draw, env: Env): Option<World>
    requires h < |w.hosts|
  {
    match Reserve(s, w, h, t, text, d, env)
    case None => None
    case Some((grown, row)) => if TokenTaken(w, t, d.token) then None else Some(StoreRow(grown, t, row, env.now))
  }

  /** tokenize: the new state and the token returned. */
  function Tokenize(s: Suite, w: World, h: nat, t: Table, text: Text, dedup: bool, d: Draw, env: Env): Option<(World, string)>
    requires h < |w.hosts|
  {
    var found := if dedup then Search(s, w, h, t, text) else Some("");
    match found
    case None => None
    case Some(token) =>
      if token != "" then Some((w, token))
      else
        match Insert(s, w, h, t, text, d, env)
        case None => None
        case Some(w') => Some((w', d.token))
  }

  /** The text of one row. */
  function ReadRow(s: Suite, w: World, h: nat, t: Table, row: TokenRow): Option<Text>
    requires h < |w.hosts|
  {
    match OpenDek(s, w, h, row.dek)
    case None => None
    case Some(dek) =>
      match s.decrypt(t, dek, row.crypted)
      case None => None
      case Some(block) => s.decode(t, block)
  }

  function Detokenize(s: Suite, w: World, h: nat, t: Table, token: string): Option<Text>
    requires h < |w.hosts|
  {
    match FindToken(w.TableOf(t).rows, token)
    case None => None
    case Some(id) => ReadRow(s, w, h, t, w.TableOf(t).rows[id])
  }

  /** remove_data_token: the row and nothing else goes; an unknown token changes nothing. */
  function Remove(w: World, t: Table, token: string): World {
    match FindToken(w.TableOf(t).rows, token)
    case None => w
    case Some(id) => w.WithTable(t, w.TableOf(t).(rows := w.TableOf(t).rows - {id}))
  }

  // ---------------------------------------------------------------- runs

  /** One call, on the host that serves it. */
  datatype Step =
    | DoGenerateKek(h: nat, password: string, p1: string, p2: string, p3: string)
    | DoAbortGenerateKek(h: nat, password: string, p1: string, p2: string, p3: string, done: nat)
    | DoConfirm(h: nat, password: string, wanted: Option<int>)
    | DoResetTarget(h: nat, password: string, version: int)
    | DoSwitchKek(h: nat, password: string)
    | DoReencrypt(h: nat, lo: int, hi: int)
    | DoGenerateHmac(h: nat, password: string, value: Key, finish: int)
    | DoSwitchHmac(h: nat, password: string)
    | DoCleanup(h: nat, password: string)
    | DoAbortCleanup(h: nat, password: string, done: nat)
    | DoRehash(h: nat, lo: int, hi: int)
    | DoTokenize(h: nat, t: Table, text: Text, dedup: bool, draw: Draw, env: Env)
    | DoRemove(h: nat, t: Table, token: string)

  function OrElse<T>(o: Option<T>, w: T): T {
    if o.Some? then o.value else w
  }

  /** The state after a call; a call that throws leaves it as it was. */
  function Next(s: Suite, w: World, step: Step): World {
    if step.h >= |w.hosts| then w
    else
      match step
      case DoGenerateKek(h, pw, p1, p2, p3) => OrElse(GenerateKek(s, w, h, pw, p1, p2, p3), w)
      case DoAbortGenerateKek(h, pw, p1, p2, p3, done) => AbortedGenerateKek(s, w, h, pw, p1, p2, p3, done)
      case DoConfirm(h, pw, wanted) => OrElse(ConfirmComponent(s, w, h, pw, wanted), w)
      case DoResetTarget(h, pw, v) => OrElse(ResetTargetVersion(s, w, h, pw, v), w)
      case DoSwitchKek(h, pw) => OrElse(SwitchKek(s, w, h, pw), w)
      case DoReencrypt(h, lo, hi) =>
        (match ReencryptDeks(s, w, h, lo, hi) case None => w case Some((w', _)) => w')
      case DoGenerateHmac(h, pw, value, finish) => OrElse(GenerateHmac(s, w, h, pw, value, finish), w)
      case DoSwitchHmac(h, pw) => OrElse(SwitchHmac(s, w, h, pw), w)
      case DoCleanup(h, pw) => OrElse(Cleanup(s, w, h, pw), w)
      case DoAbortCleanup(h, pw, done) => AbortedCleanup(s, w, h, pw, done)
      case DoRehash(h, lo, hi) => OrElse(RehashTokens(s, w, h, lo, hi), w)
      case DoTokenize(h, t, text, dedup, draw, env) =>
        (match Tokenize(s, w, h, t, text, dedup, draw, env) case None => w case Some((w', _)) => w')
      case DoRemove(h, t, token) => Remove(w, t, token)
  }

  function Run(s: Suite, w: World, steps: seq<Step>): World {
    if steps == [] then w else Next(s, Run(s, w, steps[..|steps| - 1]), steps[|steps| - 1])
  }

  // ---------------------------------------------------------------- what depends on what

  /** Keys depend on the config table and the key stores alone. */
  lemma SameStoresSameKeys(s: Suite, w: World, w': World)
    requires w'.db == w.db && w'.part1 == w.part1 && w'.hosts == w.hosts
    ensures forall h, v | 0 <= h < |w.hosts| :: UsableKey(s, w', h, v) == UsableKey(s, w, h, v)
  {
    forall h, v | 0 <= h < |w.hosts|
      ensures UsableKey(s, w', h, v) == UsableKey(s, w, h, v)
    {
      assert MasterKey(s, w', h, v) == MasterKey(s, w, h, v);
    }
  }

  /** tokenize touches neither. */
  lemma TokenizeKeepsStores(s: Suite, w: World, h: nat, t: Table, text: Text, dedup: bool, d: Draw, env: Env)
    requires h < |w.hosts|
    ensures var next := Tokenize(s, w, h, t, text, dedup, d, env);
            next.Some? ==> next.value.0.db == w.db && next.value.0.part1 == w.part1 && next.value.0.hosts == w.hosts
  {
  }
}
