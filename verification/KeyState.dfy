/**
 The state the key lifecycle works on: the config table, the key parts kept outside the
 database, the data key rows and the token rows; and what one host reads out of it
 (class TokenizerConfig of the program).
 */
module KeyState {
  import opened Basics

  /** A 256-bit key. */
  type Key = k: Bytes | |k| == 32 witness seq(32, i => 0)

  /** Which of the two token tables a tokenizer works on. */
  datatype Table = Card | Vault

  /**
   The cryptographic operations the lifecycle is built from. The proofs use nothing about
   them but Lawful below; RealSuite, in module CryptoSuite, builds a suite out of the codec loops.
   */
  datatype Suite = Suite(
    /** The master key of three hex parts; None when a part is malformed. */
    assemble: (string, string, string) -> Option<Key>,
    /** Key material encrypted under a key, as stored; None for a size the cipher refuses. */
    seal: (Key, Bytes) -> Option<string>,
    open: (Key, string) -> Option<Bytes>,
    /** A plain text packed for encryption with the given random padding digits. */
    encode: (Table, Text, string) -> Option<Bytes>,
    decode: (Table, Bytes) -> Option<Text>,
    encrypt: (Table, Key, Bytes) -> Option<string>,
    decrypt: (Table, Key, string) -> Option<Bytes>,
    /** The keyed digest used to find duplicates. */
    mac: (Bytes, Bytes) -> string)

  /** The longest prefix of s made of decimal digits. */
  function DigitPrefix(s: Text): (p: Text)
    ensures AllDigits(p) && p <= s
    ensures |p| < |s| ==> !IsDigit(s[|p|])
    ensures AllDigits(s) ==> p == s
  {
    if s == "" || !IsDigit(s[0]) then ""
    else
      var rest: Text := s[1..];
      [s[0]] + DigitPrefix(rest)
  }

  /** What a stored text is read back as: card mode keeps its leading digits only. */
  function ReadsAs(t: Table, text: Text): Text {
    if t == Vault then text else DigitPrefix(text)
  }

  ghost predicate Lawful(s: Suite) {
    && (forall k: Key, x: Bytes :: s.seal(k, x).Some? ==> s.open(k, s.seal(k, x).value) == Some(x))
    && (forall k: Key, x: Bytes :: |x| == 32 ==> s.seal(k, x).Some?)
    && (forall t, x: Text, pad :: s.encode(t, x, pad).Some? ==> s.decode(t, s.encode(t, x, pad).value) == Some(ReadsAs(t, x)))
    && (forall t, k: Key, b: Bytes :: s.encrypt(t, k, b).Some? ==> s.decrypt(t, k, s.encrypt(t, k, b).value) == Some(b))
    && (forall p1, p3 :: s.assemble(p1, "", p3) == None)
  }

  // ---------------------------------------------------------------- stored state

  /** The keys of t_config; ConfigNames gives their spelling. */
  datatype ConfigKey =
    | KekVersion
    | KekTargetVersion
    | ControlPhrase
    | Part3(version: int)
    | ControlCode(version: int)
    | PartCheck(version: int, part: int)
    | HmacVersion
    | HmacId(version: int)

  type Config = map<ConfigKey, string>

  datatype DekRow = DekRow(wrapped: string, kek: int, counter: int, maxCounter: int, finish: int)

  datatype TokenRow = TokenRow(token: string, crypted: string, dek: int, hmac: int, digest: string)

  /** A table of token rows by id, with its auto-increment value. */
  datatype TokenTable = TokenTable(rows: map<int, TokenRow>, next: int)

  /** part1 is the key keeper's store and hosts[h] the part 2 items of host h. */
  datatype World = World(
    db: Config,
    part1: map<int, string>,
    hosts: seq<map<int, string>>,
    deks: map<int, DekRow>,
    nextDek: int,
    cards: TokenTable,
    vault: TokenTable)
  {
    function TableOf(t: Table): TokenTable {
      if t == Card then cards else vault
    }

    function WithTable(t: Table, tt: TokenTable): World {
      if t == Card then this.(cards := tt) else this.(vault := tt)
    }
  }

  function Number(db: Config, key: ConfigKey): Option<int> {
    if key in db then ParseInt(db[key]) else None
  }

  /** The versions that have a part 3 in the database, complete or not. */
  function Versions(db: Config): set<int> {
    set key | key in db && key.Part3? :: key.version
  }

  // ---------------------------------------------------------------- the view of host h

  /** The assembled key of a version; None when one of its parts is missing or malformed. */
  function MasterKey(s: Suite, w: World, h: nat, v: int): Option<Key>
    requires h < |w.hosts|
  {
    if Part3(v) in w.db && v in w.part1 && v in w.hosts[h]
    then s.assemble(w.part1[v], w.hosts[h][v], w.db[Part3(v)])
    else None
  }

  /** check_kek: the key encrypts the control phrase to the stored control code. */
  predicate CheckKek(s: Suite, db: Config, v: int, key: Key) {
    && ControlPhrase in db
    && ControlCode(v) in db
    && s.seal(key, Latin(db[ControlPhrase])) == Some(db[ControlCode(v)])
  }

  /** get_master_key: the assembled key if it is also valid. */
  function UsableKey(s: Suite, w: World, h: nat, v: int): Option<Key>
    requires h < |w.hosts|
  {
    match MasterKey(s, w, h, v)
    case Some(key) => if CheckKek(s, w.db, v, key) then Some(key) else None
    case None => None
  }

  predicate IsKekValid(s: Suite, w: World, h: nat, v: int)
    requires h < |w.hosts|
  {
    UsableKey(s, w, h, v).Some?
  }

  /** is_version_checked; a missing flag makes the program throw, which callers see as a refusal. */
  predicate Checked(db: Config, v: int) {
    forall i :: 1 <= i <= 3 ==> PartCheck(v, i) in db && db[PartCheck(v, i)] == "1"
  }

  function ActiveVersion(db: Config): Option<int> {
    Number(db, KekVersion)
  }

  /** get_last_version: None when there is no version at all. */
  function LastVersion(db: Config): Option<int> {
    if Versions(db) == {} then None else Some(MaxOf(Versions(db)))
  }

  /** get_switch_version: the target if there is one, else the active version, which is read first; must be checked. */
  function SwitchVersion(db: Config): Option<int> {
    var version := if KekTargetVersion in db && ActiveVersion(db).Some? then Number(db, KekTargetVersion) else ActiveVersion(db);
    if version.Some? && Checked(db, version.value) then version else None
  }

  /** get_master_key_component: the parts are known exactly for the assembled versions. */
  function Component(s: Suite, w: World, h: nat, v: int, i: int): Option<string>
    requires h < |w.hosts|
  {
    if MasterKey(s, w, h, v) == None then None
    else if i == 2 then Some(w.hosts[h][v])
    else if i == 3 then Some(w.db[Part3(v)])
    else Some(w.part1[v])
  }

  /** One entry of load_hmac_keys; it does not ask for a valid master key, only an assembled one. */
  function HmacKey(s: Suite, w: World, h: nat, v: int): Option<Bytes>
    requires h < |w.hosts|
  {
    match Number(w.db, HmacId(v))
    case None => None
    case Some(id) =>
      if id !in w.deks then None
      else
        match MasterKey(s, w, h, w.deks[id].kek)
        case None => None
        case Some(key) => s.open(key, w.deks[id].wrapped)
  }

  /** The versions of the loaded digest keys. */
  function LoadedHmacs(s: Suite, w: World, h: nat): set<int>
    requires h < |w.hosts|
  {
    set key | key in w.db && key.HmacId? && HmacKey(s, w, h, key.version).Some? :: key.version
  }

  /** get_hmac_versions as a set: the active version and the loaded ones; None when none is active. */
  function HmacVersions(s: Suite, w: World, h: nat): Option<set<int>>
    requires h < |w.hosts|
  {
    match Number(w.db, HmacVersion)
    case None => None
    case Some(active) => Some({active} + LoadedHmacs(s, w, h))
  }

  /** The data key of a row, as detokenization obtains it. */
  function OpenDek(s: Suite, w: World, h: nat, id: int): Option<Key>
    requires h < |w.hosts|
  {
    if id !in w.deks then None
    else
      match UsableKey(s, w, h, w.deks[id].kek)
      case None => None
      case Some(kek) =>
        match s.open(kek, w.deks[id].wrapped)
        case None => None
        case Some(dek) => if |dek| == 32 then Some(dek) else None
  }
}
