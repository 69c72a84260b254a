/**
 The key lifecycle with part 1 in a cluster of key keepers instead of one store: each call is
 served by a host that reads, and writes, part 1 at one of the nodes, while the nodes push and
 fetch. When the cluster acts as the one store of module Lifecycle, and what that gives.
 */
module ReplicatedSite {
  import opened Basics
  import opened KeyState
  import opened Lifecycle
  import opened LifecycleSafety
  import opened TokenSafety
  import opened KeyViews
  import opened KeeperWire
  import N = KeyKeeperNode
  import K = KeeperCluster
  import R = KeeperRuns

  // ---------------------------------------------------------------- the site

  /** The item of the key keeper that holds part 1 of a version. */
  function PartId(v: int): string {
    "KEK_VER" + ToText(v) + "_PART1"
  }

  lemma PartIdInjective(u: int, v: int)
    ensures PartId(u) == PartId(v) ==> u == v
  {
    if PartId(u) == PartId(v) {
      assert forall x :: PartId(x)[7..|PartId(x)| - 6] == ToText(x);
      assert ParseInt(ToText(u)) == ParseInt(ToText(v));
    }
  }

  /** All but part 1, and the nodes that hold part 1. */
  datatype Site = Site(world: World, keeper: K.Cluster)

  function Bare(w: World): World {
    w.(part1 := map[])
  }

  /** What a host that reads this node sees of the known versions. */
  function PartsAt(db: Config, st: Storage): map<int, string> {
    map v | v in Versions(db) && PartId(v) in st :: st[PartId(v)].data
  }

  function View(x: Site, via: int): World {
    x.world.(part1 := if via in x.keeper.nodes then PartsAt(x.world.db, x.keeper.nodes[via].storage) else map[])
  }

  // ---------------------------------------------------------------- requests for part 1

  /** What generate_kek and cleanup ask of the key keeper. */
  datatype Request = Put(version: int, part: string) | Keep(version: int)

  function PutOf(plan: Option<(int, Config)>, p1: string): Option<Request> {
    if plan.Some? then Some(Put(plan.value.0, p1)) else None
  }

  function KeepOf(plan: Option<int>): Option<Request> {
    if plan.Some? then Some(Keep(plan.value)) else None
  }

  /** The request a call gets to make; it is the first of its requests. */
  function RequestOf(s: Suite, w: World, step: Step): Option<Request> {
    if step.h >= |w.hosts| then None
    else
      match step
      case DoGenerateKek(h, pw, p1, p2, p3) => PutOf(PlanKek(s, w, h, pw, p1, p2, p3), p1)
      case DoAbortGenerateKek(h, pw, p1, p2, p3, done) => if done == 0 then None else PutOf(PlanKek(s, w, h, pw, p1, p2, p3), p1)
      case DoCleanup(h, pw) => KeepOf(PlanCleanup(s, w, h, pw))
      case DoAbortCleanup(h, pw, done) => if done == 0 then None else KeepOf(PlanCleanup(s, w, h, pw))
      case _ => None
  }

  /** The same as a call of the node: a plain set or a cleanup. */
  function KeeperCall(req: Request, via: int, answers: set<string>, now: real): K.Step {
    match req
    case Put(v, part) => K.DoSet(via, map["id" := PartId(v), "data" := part], ["data", "id"], answers, now)
    case Keep(v) => K.DoCleanup(via, map["id" := PartId(v)], answers, now)
  }

  predicate Accepts(c: K.Cluster, req: Request, via: int, now: real) {
    && via in c.nodes && now >= 0.0
    && match req
       case Put(v, part) => N.SetResult(c.nodes[via].storage, map["id" := PartId(v), "data" := part], ["data", "id"], now).Some?
       case Keep(v) => N.CleanupResult(c.nodes[via].storage, map["id" := PartId(v)]).Some?
  }

  // ---------------------------------------------------------------- steps

  /** A call of the service through one node, or something the nodes do among themselves. */
  datatype Call =
    | Serve(step: Step, via: int, answers: set<string>, now: real)
    | Replicate(among: K.Step)

  /** A refused request ends the call before it has changed anything. */
  ghost function Served(s: Suite, x: Site, step: Step, via: int, answers: set<string>, now: real): Site {
    match RequestOf(s, View(x, via), step)
    case None => Site(Bare(Next(s, View(x, via), step)), x.keeper)
    case Some(req) =>
      if !Accepts(x.keeper, req, via, now) then x
      else Site(Bare(Next(s, View(x, via), step)), K.Next(x.keeper, KeeperCall(req, via, answers, now)))
  }

  ghost function SiteNext(s: Suite, x: Site, call: Call): Site {
    match call
    case Serve(step, via, answers, now) => Served(s, x, step, via, answers, now)
    case Replicate(among) => x.(keeper := K.Next(x.keeper, among))
  }

  ghost function SiteRun(s: Suite, x: Site, calls: seq<Call>): Site {
    if calls == [] then x else SiteNext(s, SiteRun(s, x, calls[..|calls| - 1]), calls[|calls| - 1])
  }

  // ---------------------------------------------------------------- one part, many copies

  /** Whoever holds the id holds this part; with None, nobody holds it. */
  ghost predicate Only(c: K.Cluster, id: string, part: Option<string>) {
    forall data: string | part == None || part == Some(data) :: R.Agreed(c, id, data)
  }

  ghost predicate BringsOnly(c: K.Cluster, step: K.Step, id: string, part: Option<string>) {
    forall data: string | part == None || part == Some(data) :: R.BringsNoOther(c, step, id, data)
  }

  lemma OnlyMeans(c: K.Cluster, id: string, part: Option<string>, n: int)
    requires Only(c, id, part) && n in c.nodes && id in c.nodes[n].storage
    ensures part == Some(c.nodes[n].storage[id].data)
  {
    var data := c.nodes[n].storage[id].data;
    var other := data + "0";
    assert data != other;
    assert !R.Agreed(c, id, other) by {
      assert !R.Carries(c.nodes[n].storage, id, other);
    }
    if part.Some? {
      assert R.Agreed(c, id, part.value);
      assert R.Carries(c.nodes[n].storage, id, part.value);
    }
  }

  /** An id no node can store. */
  lemma NeverStored(c: K.Cluster, id: string, part: Option<string>)
    requires K.Healthy(c) && !IdFormat(id)
    ensures Only(c, id, part)
  {
    forall n | n in c.nodes
      ensures id !in c.nodes[n].storage
    {
      assert K.NodeHealthy(c.nodes[n]);
    }
  }

  lemma NextOnly(c: K.Cluster, step: K.Step, id: string, part: Option<string>)
    requires K.Healthy(c) && Only(c, id, part) && BringsOnly(c, step, id, part)
    ensures Only(K.Next(c, step), id, part)
  {
    if IdFormat(id) {
      forall data: string | part == None || part == Some(data)
        ensures R.Agreed(K.Next(c, step), id, data)
      {
        assert R.Agreed(c, id, data) && R.BringsNoOther(c, step, id, data);
        R.NextAgrees(c, step, id, data);
      }
    } else {
      K.NextHealthy(c, step);
      NeverStored(K.Next(c, step), id, part);
    }
  }

  /** A request leaves the parts of other versions as they agreed; a cleanup also that of its own. */
  lemma RequestKeepsOnly(c: K.Cluster, req: Request, via: int, answers: set<string>, now: real, u: int, part: Option<string>)
    requires K.Healthy(c) && Accepts(c, req, via, now) && Only(c, PartId(u), part)
    requires req.Put? ==> Clock(now) && u != req.version
    ensures Only(K.Next(c, KeeperCall(req, via, answers, now)), PartId(u), part)
  {
    var step := KeeperCall(req, via, answers, now);
    forall data: string | part == None || part == Some(data)
      ensures R.BringsNoOther(c, step, PartId(u), data)
    {
      assert R.Agreed(c, PartId(u), data);
      if req.Put? {
        PutIsPlain(c, req.version, req.part, via, now);
        PartIdInjective(u, req.version);
        assert R.Carries(c.nodes[via].storage, PartId(u), data);
      }
    }
    NextOnly(c, step, PartId(u), part);
  }

  lemma PutIsPlain(c: K.Cluster, v: int, part: string, via: int, now: real)
    requires Accepts(c, Put(v, part), via, now) && Clock(now)
    ensures N.SetResult(c.nodes[via].storage, map["id" := PartId(v), "data" := part], ["data", "id"], now)
            == Some(c.nodes[via].storage[PartId(v) := Info(part, now, now)])
  {
    assert IdVersion("data") == None && IdVersion("id") == None;
    K.PlainSetStores(c.nodes[via].storage, map["id" := PartId(v), "data" := part], ["data", "id"], now);
  }

  // ---------------------------------------------------------------- what a call does to the one store

  predicate PartsStay(w: World, w': World) {
    w'.part1 == w.part1 && forall key | key in w.db.Keys + w'.db.Keys && key.Part3? :: key in w.db && key in w'.db
  }

  lemma StoppedAtOnce(s: Suite, w: World, step: Step)
    requires step.h < |w.hosts| && ((step.DoAbortGenerateKek? && step.done == 0) || (step.DoAbortCleanup? && step.done == 0))
    ensures Next(s, w, step) == w
  {
    if step.DoAbortGenerateKek? {
      var plan := PlanKek(s, w, step.h, step.password, step.p1, step.p2, step.p3);
      if plan.Some? {
        assert GenerateEffects(plan.value.0, step.p1, step.p2, |w.hosts|)[..0] == [];
      }
    } else {
      var plan := PlanCleanup(s, w, step.h, step.password);
      if plan.Some? {
        assert CleanupEffects(plan.value, |w.hosts|)[..0] == [];
      }
    }
  }

  lemma OtherCallsKeepParts(s: Suite, w: World, step: Step)
    requires step.h < |w.hosts| && !step.DoGenerateKek? && !step.DoAbortGenerateKek? && !step.DoCleanup? && !step.DoAbortCleanup?
    ensures PartsStay(w, Next(s, w, step))
  {
    if step.DoTokenize? {
      TokenizeKeepsStores(s, w, step.h, step.t, step.text, step.dedup, step.draw, step.env);
    }
  }

  /** Without a request part 1 and the known versions stay. */
  lemma NoRequestKeepsParts(s: Suite, w: World, step: Step)
    requires RequestOf(s, w, step) == None
    ensures Next(s, w, step).part1 == w.part1
    ensures forall v :: Part3(v) in Next(s, w, step).db <==> Part3(v) in w.db
  {
    if step.h < |w.hosts| {
      match step
      case DoGenerateKek(_, _, _, _, _) =>
      case DoCleanup(_, _) =>
      case DoAbortGenerateKek(_, _, _, _, _, done) => if done == 0 { StoppedAtOnce(s, w, step); }
      case DoAbortCleanup(_, _, done) => if done == 0 { StoppedAtOnce(s, w, step); }
      case _ =>
        OtherCallsKeepParts(s, w, step);
        assert forall v :: Part3(v) in Next(s, w, step).db || Part3(v) in w.db ==> Part3(v) in w.db.Keys + Next(s, w, step).db.Keys;
    }
  }

  /** A new part, under a number the database does not know before a completed call. */
  predicate PutDone(w: World, w': World, v: int, part: string, known: bool) {
    && Part3(v) !in w.db && w'.part1 == w.part1[v := part]
    && w'.db.Keys >= w.db.Keys && forall key | key in w'.db && key.Part3? && key !in w.db :: known && key.version == v
  }

  lemma PutParts(s: Suite, w: World, step: Step, v: int, part: string)
    requires |w.hosts| > 0 && RequestOf(s, w, step) == Some(Put(v, part))
    ensures PutDone(w, Next(s, w, step), v, part, step.DoGenerateKek?)
  {
    if step.DoGenerateKek? {
      CompletedPut(s, w, step.h, step.password, step.p1, step.p2, step.p3);
    } else {
      StoppedPut(s, w, step.h, step.password, step.p1, step.p2, step.p3, step.done);
    }
  }

  lemma CompletedPut(s: Suite, w: World, h: nat, password: string, p1: string, p2: string, p3: string)
    requires h < |w.hosts| && PlanKek(s, w, h, password, p1, p2, p3).Some?
    ensures PutDone(w, GenerateKek(s, w, h, password, p1, p2, p3).value, PlanKek(s, w, h, password, p1, p2, p3).value.0, p1, true)
  {
    PlanIsAbove(s, w, h, password, p1, p2, p3);
    GenerateMakesReady(s, w, h, password, p1, p2, p3);
    NewRows(w.db, PlanKek(s, w, h, password, p1, p2, p3).value.0, p3, NewControlCode(s, w.db, s.assemble(p1, p2, p3).value).value);
  }

  lemma StoppedPut(s: Suite, w: World, h: nat, password: string, p1: string, p2: string, p3: string, done: nat)
    requires h < |w.hosts| && PlanKek(s, w, h, password, p1, p2, p3).Some? && done > 0
    ensures PutDone(w, AbortedGenerateKek(s, w, h, password, p1, p2, p3, done), PlanKek(s, w, h, password, p1, p2, p3).value.0, p1, false)
  {
    PlanIsAbove(s, w, h, password, p1, p2, p3);
    var v := PlanKek(s, w, h, password, p1, p2, p3).value.0;
    var es := GenerateEffects(v, p1, p2, |w.hosts|);
    var k := if done < |es| then done else |es|;
    assert es[..|es|] == es;
    GeneratePrefix(w, v, p1, p2, k);
  }

  /** Only the part of v is left, and when the call is completed only this version is known. */
  predicate KeepDone(w: World, w': World, v: int, completed: bool) {
    && SamePart(w, w', v) && (forall u | u in w'.part1 :: u == v)
    && forall key | key in w'.db && key.Part3? :: key in w.db && (completed ==> key.version == v)
  }

  lemma KeepParts(s: Suite, w: World, step: Step, v: int)
    requires Inv(s, w) && RequestOf(s, w, step) == Some(Keep(v))
    ensures KeepDone(w, Next(s, w, step), v, step.DoCleanup?)
  {
    if step.DoCleanup? {
      CompletedKeep(s, w, step.h, step.password, v);
    } else {
      var es := CleanupEffects(v, |w.hosts|);
      var k := if step.done < |es| then step.done else |es|;
      assert es[..|es|] == es;
      CleanupPrefix(w, v, k);
    }
  }

  lemma CompletedKeep(s: Suite, w: World, h: nat, password: string, v: int)
    requires Inv(s, w) && h < |w.hosts| && PlanCleanup(s, w, h, password) == Some(v)
    ensures Cleanup(s, w, h, password).Some? && KeepDone(w, Cleanup(s, w, h, password).value, v, true)
  {
    assert Number(w.db, HmacVersion).Some?;
    var n, unused := CleanupIs(s, w, h, password);
    var db := PurgeHmacs(PurgeKeks(w.db, Versions(w.db) - {v}), unused);
    InVersions(w.db);
    forall key | key in db && key.Part3?
      ensures key in w.db && key.version == v
    {
      assert Part3(key.version) == key;
    }
  }

  // ---------------------------------------------------------------- the cluster as one store

  function PartOf(w: World, v: int): Option<string> {
    if v in w.part1 then Some(w.part1[v]) else None
  }

  /** The parts of the versions w knows are the only ones of their ids. */
  ghost predicate PartsAgree(c: K.Cluster, w: World) {
    forall v | Part3(v) in w.db :: Only(c, PartId(v), PartOf(w, v))
  }

  /** The site is the state w with part 1 spread out: of a known version no node holds any other part. */
  ghost predicate Linked(x: Site, w: World) {
    && x.world == Bare(w) && K.Healthy(x.keeper)
    && PartsAgree(x.keeper, w)
  }

  /** The node holds the part of every known version. */
  predicate UpToDate(x: Site, w: World, via: int) {
    via in x.keeper.nodes && forall v | v in w.part1 && Part3(v) in w.db :: PartId(v) in x.keeper.nodes[via].storage
  }

  /** A call through such a node sees the one store. */
  lemma ViewIsTwin(x: Site, w: World, via: int)
    requires Linked(x, w) && UpToDate(x, w, via)
    ensures Twins(View(x, via), w)
  {
    InVersions(w.db);
    forall v | Part3(v) in w.db
      ensures SamePart(View(x, via), w, v)
    {
      assert Only(x.keeper, PartId(v), PartOf(w, v));
      if PartId(v) in x.keeper.nodes[via].storage {
        OnlyMeans(x.keeper, PartId(v), PartOf(w, v), via);
      }
    }
  }

  lemma SameRequest(s: Suite, w1: World, w2: World, step: Step)
    requires Twins(w1, w2)
    ensures RequestOf(s, w1, step) == RequestOf(s, w2, step)
  {
    if step.h < |w1.hosts| {
      match step
      case DoGenerateKek(h, pw, p1, p2, p3) => SamePlan(s, w1, w2, h, pw, p1, p2, p3);
      case DoAbortGenerateKek(h, pw, p1, p2, p3, _) => SamePlan(s, w1, w2, h, pw, p1, p2, p3);
      case DoCleanup(h, pw) => SameCleanupPlan(s, w1, w2, h, pw);
      case DoAbortCleanup(h, pw, _) => SameCleanupPlan(s, w1, w2, h, pw);
      case _ =>
    }
  }

  /** The call of the one store that a call of the site stands for, if any. */
  predicate Counts(s: Suite, x: Site, w: World, call: Call) {
    && call.Serve? && (UpToDate(x, w, call.via) || call.step.DoRemove?)
    && var req := RequestOf(s, View(x, call.via), call.step);
       req.Some? ==> Accepts(x.keeper, req.value, call.via, call.now)
  }

  function Follow(s: Suite, x: Site, w: World, call: Call): World {
    if Counts(s, x, w, call) then Next(s, w, call.step) else w
  }

  /** What is asked of the replicas when part 1 of version v was sent by a completed generate_kek. */
  ghost predicate PutSettles(c: K.Cluster, v: int, part: string) {
    Only(c, PartId(v), Some(part))
  }

  /** And when cleanup was stopped after its request to keep v: the other known parts are gone. */
  ghost predicate KeepSettles(c: K.Cluster, db: Config, v: int) {
    forall u | Part3(u) in db && u != v :: Only(c, PartId(u), None)
  }

  ghost predicate RequestSettles(s: Suite, x: Site, call: Call)
    requires call.Serve?
  {
    var c := SiteNext(s, x, call).keeper;
    match RequestOf(s, View(x, call.via), call.step)
    case Some(Put(v, part)) => Clock(call.now) && (call.step.DoGenerateKek? ==> PutSettles(c, v, part))
    case Some(Keep(v)) => call.step.DoAbortCleanup? ==> KeepSettles(c, x.world.db, v)
    case None => true
  }

  /**
   The conditions: a call that changes something, a removal excepted, is served through an
   up-to-date node; no node is left with another part of a new version, or with a swept part of a
   known one; and nothing else brings another part of a known version into the cluster.
   */
  ghost predicate Orderly(s: Suite, x: Site, w: World, call: Call) {
    match call
    case Serve(_, _, _, _) => if Counts(s, x, w, call) then RequestSettles(s, x, call) else SiteNext(s, x, call) == x
    case Replicate(among) => forall v | Part3(v) in w.db :: BringsOnly(x.keeper, among, PartId(v), PartOf(w, v))
  }

  lemma ReplicateKeepsLinked(s: Suite, x: Site, w: World, among: K.Step)
    requires Linked(x, w) && Orderly(s, x, w, Replicate(among))
    ensures Linked(SiteNext(s, x, Replicate(among)), w)
  {
    K.NextHealthy(x.keeper, among);
    forall v | Part3(v) in w.db
      ensures Only(K.Next(x.keeper, among), PartId(v), PartOf(w, v))
    {
      NextOnly(x.keeper, among, PartId(v), PartOf(w, v));
    }
  }

  lemma RemovalKeepsLinked(s: Suite, x: Site, w: World, call: Call)
    requires Linked(x, w) && call.Serve? && call.step.DoRemove?
    ensures Linked(SiteNext(s, x, call), Next(s, w, call.step))
  {
    SameRemove(s, View(x, call.via), w, call.step);
    NoRequestKeepsParts(s, w, call.step);
  }

  lemma NoRequestKeepsLinked(s: Suite, x: Site, w: World, call: Call)
    requires Linked(x, w) && call.Serve? && UpToDate(x, w, call.via) && RequestOf(s, View(x, call.via), call.step) == None
    ensures Linked(SiteNext(s, x, call), Next(s, w, call.step))
  {
    var view := View(x, call.via);
    ViewIsTwin(x, w, call.via);
    SameRequest(s, view, w, call.step);
    SameCalls(s, view, w, call.step);
    NoRequestKeepsParts(s, w, call.step);
  }

  lemma PutAgrees(c: K.Cluster, req: Request, via: int, answers: set<string>, now: real, w: World, w': World, known: bool)
    requires K.Healthy(c) && PartsAgree(c, w) && req.Put? && Accepts(c, req, via, now) && Clock(now)
    requires PutDone(w, w', req.version, req.part, known)
    requires known ==> PutSettles(K.Next(c, KeeperCall(req, via, answers, now)), req.version, req.part)
    ensures PartsAgree(K.Next(c, KeeperCall(req, via, answers, now)), w')
  {
    forall u | Part3(u) in w'.db
      ensures Only(K.Next(c, KeeperCall(req, via, answers, now)), PartId(u), PartOf(w', u))
    {
      if u != req.version {
        assert Part3(u) in w.db;
        RequestKeepsOnly(c, req, via, answers, now, u, PartOf(w, u));
      }
    }
  }

  lemma KeepAgrees(c: K.Cluster, req: Request, via: int, answers: set<string>, now: real, w: World, w': World, completed: bool)
    requires K.Healthy(c) && PartsAgree(c, w) && req.Keep? && Accepts(c, req, via, now)
    requires KeepDone(w, w', req.version, completed)
    requires !completed ==> KeepSettles(K.Next(c, KeeperCall(req, via, answers, now)), w.db, req.version)
    ensures PartsAgree(K.Next(c, KeeperCall(req, via, answers, now)), w')
  {
    forall u | Part3(u) in w'.db
      ensures Only(K.Next(c, KeeperCall(req, via, answers, now)), PartId(u), PartOf(w', u))
    {
      assert Part3(u) in w.db;
      RequestKeepsOnly(c, req, via, answers, now, u, PartOf(w, u));
    }
  }

  /** A call that makes its request, seen from the one store. */
  lemma RequestIs(s: Suite, x: Site, w: World, call: Call, req: Request)
    requires Linked(x, w) && call.Serve? && UpToDate(x, w, call.via)
    requires RequestOf(s, View(x, call.via), call.step) == Some(req) && Accepts(x.keeper, req, call.via, call.now)
    ensures RequestOf(s, w, call.step) == Some(req)
    ensures SiteNext(s, x, call) == Site(Bare(Next(s, w, call.step)), K.Next(x.keeper, KeeperCall(req, call.via, call.answers, call.now)))
    ensures K.Healthy(K.Next(x.keeper, KeeperCall(req, call.via, call.answers, call.now)))
  {
    ViewIsTwin(x, w, call.via);
    SameRequest(s, View(x, call.via), w, call.step);
    SameCalls(s, View(x, call.via), w, call.step);
    K.NextHealthy(x.keeper, KeeperCall(req, call.via, call.answers, call.now));
  }

  lemma PutKeepsLinked(s: Suite, x: Site, w: World, call: Call, req: Request)
    requires Linked(x, w) && Inv(s, w) && call.Serve? && UpToDate(x, w, call.via) && RequestSettles(s, x, call)
    requires RequestOf(s, View(x, call.via), call.step) == Some(req) && Accepts(x.keeper, req, call.via, call.now)
    requires req.Put?
    ensures Linked(SiteNext(s, x, call), Next(s, w, call.step))
  {
    RequestIs(s, x, w, call, req);
    PutParts(s, w, call.step, req.version, req.part);
    PutAgrees(x.keeper, req, call.via, call.answers, call.now, w, Next(s, w, call.step), call.step.DoGenerateKek?);
  }

  lemma KeepKeepsLinked(s: Suite, x: Site, w: World, call: Call, req: Request)
    requires Linked(x, w) && Inv(s, w) && call.Serve? && UpToDate(x, w, call.via) && RequestSettles(s, x, call)
    requires RequestOf(s, View(x, call.via), call.step) == Some(req) && Accepts(x.keeper, req, call.via, call.now)
    requires req.Keep?
    ensures Linked(SiteNext(s, x, call), Next(s, w, call.step))
  {
    RequestIs(s, x, w, call, req);
    KeepParts(s, w, call.step, req.version);
    KeepAgrees(x.keeper, req, call.via, call.answers, call.now, w, Next(s, w, call.step), call.step.DoCleanup?);
  }

  lemma ServeKeepsLinked(s: Suite, x: Site, w: World, call: Call)
    requires Linked(x, w) && Inv(s, w) && Counts(s, x, w, call) && RequestSettles(s, x, call)
    ensures Linked(SiteNext(s, x, call), Next(s, w, call.step))
  {
    var req := RequestOf(s, View(x, call.via), call.step);
    if call.step.DoRemove? {
      RemovalKeepsLinked(s, x, w, call);
    } else if req == None {
      NoRequestKeepsLinked(s, x, w, call);
    } else if req.value.Put? {
      PutKeepsLinked(s, x, w, call, req.value);
    } else {
      KeepKeepsLinked(s, x, w, call, req.value);
    }
  }

  lemma NextLinked(s: Suite, x: Site, w: World, call: Call)
    requires Linked(x, w) && Inv(s, w) && Orderly(s, x, w, call)
    ensures Linked(SiteNext(s, x, call), Follow(s, x, w, call))
  {
    if call.Replicate? {
      ReplicateKeepsLinked(s, x, w, call.among);
    } else if Counts(s, x, w, call) {
      ServeKeepsLinked(s, x, w, call);
    }
  }

  // ---------------------------------------------------------------- whole runs

  /** The calls of the one store that the calls of a run stand for. */
  ghost function Followed(s: Suite, x: Site, w: World, calls: seq<Call>): seq<Step> {
    if calls == [] then []
    else
      var before, call := calls[..|calls| - 1], calls[|calls| - 1];
      var steps := Followed(s, x, w, before);
      if Counts(s, SiteRun(s, x, before), Run(s, w, steps), call) then steps + [call.step] else steps
  }

  /** The call after `before` is orderly in the states it meets. */
  ghost predicate OrderlyAfter(s: Suite, x: Site, w: World, before: seq<Call>, call: Call) {
    Orderly(s, SiteRun(s, x, before), Run(s, w, Followed(s, x, w, before)), call)
  }

  ghost predicate OrderlyRun(s: Suite, x: Site, w: World, calls: seq<Call>) {
    Throughout((before, call) => OrderlyAfter(s, x, w, before, call), calls)
  }

  /** What holds of every call after those before it, for one call less and one call more. */
  ghost predicate Throughout<T>(holds: (seq<T>, T) -> bool, calls: seq<T>) {
    forall i: nat | i < |calls| :: holds(calls[..i], calls[i])
  }

  lemma OneCallMore<T>(holds: (seq<T>, T) -> bool, calls: seq<T>)
    requires calls != []
    ensures Throughout(holds, calls) <==> Throughout(holds, calls[..|calls| - 1]) && holds(calls[..|calls| - 1], calls[|calls| - 1])
  {
    var before := calls[..|calls| - 1];
    forall i: nat | i < |before|
      ensures holds(before[..i], before[i]) <==> holds(calls[..i], calls[i])
    {
      assert before[..i] == calls[..i];
    }
  }

  lemma OrderlyMore(s: Suite, x: Site, w: World, calls: seq<Call>)
    requires calls != []
    ensures var before := calls[..|calls| - 1];
            OrderlyRun(s, x, w, calls) <==> OrderlyRun(s, x, w, before) && OrderlyAfter(s, x, w, before, calls[|calls| - 1])
  {
    OneCallMore((before, call) => OrderlyAfter(s, x, w, before, call), calls);
  }

  lemma FollowedNext(s: Suite, x: Site, w: World, calls: seq<Call>)
    requires calls != []
    ensures var before, call := calls[..|calls| - 1], calls[|calls| - 1];
            Run(s, w, Followed(s, x, w, calls)) == Follow(s, SiteRun(s, x, before), Run(s, w, Followed(s, x, w, before)), call)
  {
    var before, call := calls[..|calls| - 1], calls[|calls| - 1];
    var steps := Followed(s, x, w, before);
    if Counts(s, SiteRun(s, x, before), Run(s, w, steps), call) {
      assert (steps + [call.step])[..|steps|] == steps;
    }
  }

  /** One more call of a run. */
  lemma LastLinked(s: Suite, x: Site, w: World, calls: seq<Call>)
    requires Lawful(s) && Inv(s, w) && calls != []
    requires var before := calls[..|calls| - 1];
             Linked(SiteRun(s, x, before), Run(s, w, Followed(s, x, w, before))) && OrderlyAfter(s, x, w, before, calls[|calls| - 1])
    ensures Linked(SiteRun(s, x, calls), Run(s, w, Followed(s, x, w, calls)))
  {
    var before := calls[..|calls| - 1];
    RunKeeps(s, w, Followed(s, x, w, before));
    NextLinked(s, SiteRun(s, x, before), Run(s, w, Followed(s, x, w, before)), calls[|calls| - 1]);
    FollowedNext(s, x, w, calls);
  }

  /** Over any orderly run the cluster acts as the one store. */
  lemma {:induction false} ReplicasActAsOne(s: Suite, x: Site, w: World, calls: seq<Call>)
    requires Lawful(s) && Inv(s, w) && Linked(x, w) && OrderlyRun(s, x, w, calls)
    ensures Linked(SiteRun(s, x, calls), Run(s, w, Followed(s, x, w, calls)))
    decreases |calls|
  {
    if calls != [] {
      OrderlyMore(s, x, w, calls);
      ReplicasActAsOne(s, x, w, calls[..|calls| - 1]);
      LastLinked(s, x, w, calls);
    }
  }

  predicate NeverAsksRemoval(calls: seq<Call>, t: Table, token: string) {
    forall i | 0 <= i < |calls| && calls[i].Serve? :: !(calls[i].step.DoRemove? && calls[i].step.t == t && calls[i].step.token == token)
  }

  lemma {:induction false} FollowedNeverRemoves(s: Suite, x: Site, w: World, calls: seq<Call>, t: Table, token: string)
    requires NeverAsksRemoval(calls, t, token)
    ensures NeverRemoves(Followed(s, x, w, calls), t, token)
    decreases |calls|
  {
    if calls != [] {
      FollowedNeverRemoves(s, x, w, calls[..|calls| - 1], t, token);
    }
  }

  /** The version whose part 1 a token needs. */
  function VersionOfToken(w: World, t: Table, token: string): Option<int> {
    match FindToken(w.TableOf(t).rows, token)
    case None => None
    case Some(id) =>
      var dek := w.TableOf(t).rows[id].dek;
      if dek in w.deks then Some(w.deks[dek].kek) else None
  }

  predicate HoldsPart(x: Site, via: int, v: int) {
    via in x.keeper.nodes && PartId(v) in x.keeper.nodes[via].storage
  }

  /** A node that holds the part of a version gives its key, another one none. */
  lemma KeyThroughNode(s: Suite, x: Site, w: World, h: nat, via: int, v: int)
    requires Linked(x, w) && h < |w.hosts| && Present(w, v)
    ensures |View(x, via).hosts| == |w.hosts|
    ensures UsableKey(s, View(x, via), h, v) == if HoldsPart(x, via, v) then UsableKey(s, w, h, v) else None
  {
    var view := View(x, via);
    InVersions(w.db);
    assert Only(x.keeper, PartId(v), PartOf(w, v));
    if HoldsPart(x, via, v) {
      OnlyMeans(x.keeper, PartId(v), PartOf(w, v), via);
      assert MasterKey(s, view, h, v) == MasterKey(s, w, h, v);
    } else {
      assert MasterKey(s, view, h, v) == None;
    }
  }

  lemma RowThroughNode(s: Suite, x: Site, w: World, h: nat, via: int, t: Table, row: TokenRow)
    requires Linked(x, w) && h < |w.hosts| && row.dek in w.deks && Present(w, w.deks[row.dek].kek)
    ensures |View(x, via).hosts| == |w.hosts|
    ensures ReadRow(s, View(x, via), h, t, row) == if HoldsPart(x, via, w.deks[row.dek].kek) then ReadRow(s, w, h, t, row) else None
  {
    KeyThroughNode(s, x, w, h, via, w.deks[row.dek].kek);
  }

  lemma LiveRow(s: Suite, w: World, t: Table, id: int)
    requires Inv(s, w) && id in w.TableOf(t).rows
    ensures var dek := w.TableOf(t).rows[id].dek; dek in w.deks && Present(w, w.deks[dek].kek)
  {
    assert RowsInv(s, w, t);
  }

  /** Through a node a token reads as in the one store, or not at all when the node lacks the part. */
  lemma ReadThroughNode(s: Suite, x: Site, w: World, h: nat, via: int, t: Table, token: string)
    requires Inv(s, w) && Linked(x, w) && h < |w.hosts| && FindToken(w.TableOf(t).rows, token).Some?
    ensures VersionOfToken(x.world, t, token).Some? && |View(x, via).hosts| == |w.hosts|
    ensures Detokenize(s, View(x, via), h, t, token)
            == if HoldsPart(x, via, VersionOfToken(x.world, t, token).value) then Detokenize(s, w, h, t, token) else None
  {
    var id := FindToken(w.TableOf(t).rows, token).value;
    FindTokenSound(w.TableOf(t).rows, token);
    LiveRow(s, w, t, id);
    assert View(x, via).TableOf(t) == w.TableOf(t) && x.world.TableOf(t) == w.TableOf(t);
    RowThroughNode(s, x, w, h, via, t, w.TableOf(t).rows[id]);
  }

  /**
   The promise of the system with replicated key keepers: after an orderly run that does not remove
   the token, every host that reads part 1 at a node which holds that of the row's version reads
   the text the token stood for at the start; through any other node it gets an error, never
   another text.
   */
  lemma TokensReadOnEveryNode(s: Suite, x: Site, w: World, calls: seq<Call>, h: nat, via: int, t: Table, token: string)
    requires Lawful(s) && Inv(s, w) && Linked(x, w) && OrderlyRun(s, x, w, calls) && h < |w.hosts|
    requires FindToken(w.TableOf(t).rows, token).Some? && NeverAsksRemoval(calls, t, token)
    ensures var end := SiteRun(s, x, calls);
            && |View(end, via).hosts| == |w.hosts| && VersionOfToken(end.world, t, token).Some?
            && Detokenize(s, View(end, via), h, t, token)
               == if HoldsPart(end, via, VersionOfToken(end.world, t, token).value) then Detokenize(s, w, h, t, token) else None
  {
    var steps := Followed(s, x, w, calls);
    ReplicasActAsOne(s, x, w, calls);
    RunKeeps(s, w, steps);
    FollowedNeverRemoves(s, x, w, calls, t, token);
    TokensStayReadable(s, w, steps, t, token);
    ReadThroughNode(s, SiteRun(s, x, calls), Run(s, w, steps), h, via, t, token);
  }

  /** A token made through an up-to-date node reads back as its text through every node that holds the part. */
  lemma TextReadOnEveryNode(s: Suite, x: Site, w: World, made: Call, calls: seq<Call>, h: nat, via: int)
    requires Lawful(s) && Inv(s, w) && Linked(x, w) && h < |w.hosts|
    requires made.Serve? && made.step.DoTokenize? && made.step.h < |w.hosts| && UpToDate(x, w, made.via)
    requires OrderlyRun(s, SiteNext(s, x, made), Next(s, w, made.step), calls)
    ensures |View(x, made.via).hosts| == |w.hosts|
    ensures var d := made.step;
            var next := Tokenize(s, View(x, made.via), d.h, d.t, d.text, d.dedup, d.draw, d.env);
            && next.Some? && (d.dedup ==> Search(s, View(x, made.via), d.h, d.t, d.text) == Some(""))
            && NeverAsksRemoval(calls, d.t, next.value.1) ==>
              var end := SiteRun(s, SiteNext(s, x, made), calls);
              && |View(end, via).hosts| == |w.hosts| && VersionOfToken(end.world, d.t, next.value.1).Some?
              && Detokenize(s, View(end, via), h, d.t, next.value.1)
                 == if HoldsPart(end, via, VersionOfToken(end.world, d.t, next.value.1).value) then Some(ReadsAs(d.t, d.text)) else None
  {
    var d, view := made.step, View(x, made.via);
    ViewIsTwin(x, w, made.via);
    SameMade(s, view, w, d);
    SameSearch(s, view, w, d.h, d.t, d.text);
    if Tokenize(s, w, d.h, d.t, d.text, d.dedup, d.draw, d.env).Some? && (d.dedup ==> Search(s, w, d.h, d.t, d.text) == Some("")) {
      var (w', token) := Tokenize(s, w, d.h, d.t, d.text, d.dedup, d.draw, d.env).value;
      NewTokenReadsBack(s, w, d.h, d.t, d.text, d.dedup, d.draw, d.env);
      NextKeeps(s, w, d);
      NextLinked(s, x, w, made);
      if NeverAsksRemoval(calls, d.t, token) {
        TokensReadOnEveryNode(s, SiteNext(s, x, made), Next(s, w, d), calls, h, via, d.t, token);
      }
    }
  }

  // ---------------------------------------------------------------- a cluster in which everyone answers

  /** Every node is up to date. */
  predicate InStep(x: Site, w: World) {
    forall n | n in x.keeper.nodes :: UpToDate(x, w, n)
  }

  /** All other nodes are behind answering peers, and there is room for one more item. */
  predicate AllAnswer(c: K.Cluster, via: int, answers: set<string>) {
    && via in c.nodes && |c.nodes[via].storage| < MAX_ITEMS
    && forall n | n in c.nodes && n != via :: K.Addressed(c, c.nodes[via].peers, answers, n)
  }

  /** A call through a node whose request, if it makes one, everyone hears of, at a time of the clock; or a fetch. */
  predicate Calm(s: Suite, x: Site, call: Call) {
    match call
    case Serve(step, via, answers, now) =>
      via in x.keeper.nodes && (RequestOf(s, View(x, via), step).Some? ==> Clock(now) && AllAnswer(x.keeper, via, answers))
    case Replicate(among) => among.DoFetch?
  }

  predicate SameData(a: Storage, b: Storage) {
    a.Keys == b.Keys && forall id | id in a :: a[id].data == b[id].data
  }

  lemma StillAddressed(c: K.Cluster, mid: K.Cluster, uris: seq<string>, answers: set<string>, n: int)
    requires mid.address == c.address && mid.nodes.Keys == c.nodes.Keys && K.Addressed(c, uris, answers, n)
    ensures K.Addressed(mid, uris, answers, n)
  {
    var uri :| uri in uris && K.Reached(c, uri, answers) && c.address[uri] == n;
    assert K.Reached(mid, uri, answers);
  }

  /** A change that everyone gets. */
  lemma EveryoneGets(c: K.Cluster, via: int, st: Storage, answers: set<string>, now: real)
    requires AllAnswer(c, via, answers) && K.Sound(st) && |st| <= MAX_ITEMS
    ensures var end := K.Changed(c, via, st, answers, now);
            end.nodes.Keys == c.nodes.Keys && forall n | n in end.nodes :: SameData(end.nodes[n].storage, st)
  {
    K.SoundListing(st);
    var uris := c.nodes[via].peers;
    var mid := c.(nodes := c.nodes[via := c.nodes[via].(storage := st)]);
    K.PushDelivers(mid, st, uris, answers, now);
    forall n | n in c.nodes && n != via
      ensures K.Addressed(mid, uris, answers, n)
    {
      StillAddressed(c, mid, uris, answers, n);
    }
    SpreadIsSame(mid, K.Changed(c, via, st, answers, now), via, st, uris, answers, now);
  }

  lemma SpreadIsSame(mid: K.Cluster, end: K.Cluster, via: int, st: Storage, uris: seq<string>, answers: set<string>, now: real)
    requires K.Sound(st) && via in mid.nodes && mid.nodes[via].storage == st && K.SpreadTo(mid, end, st, uris, answers, now)
    requires forall n | n in mid.nodes && n != via :: K.Addressed(mid, uris, answers, n)
    ensures end.nodes.Keys == mid.nodes.Keys && forall n | n in end.nodes :: SameData(end.nodes[n].storage, st)
  {
  }

  /** What the request leaves at its node. */
  function Left(c: K.Cluster, req: Request, via: int, now: real): Storage
    requires Accepts(c, req, via, now)
  {
    var st := c.nodes[via].storage;
    match req
    case Put(v, part) => st[PartId(v) := Info(part, now, now)]
    case Keep(v) => map[PartId(v) := st[PartId(v)]]
  }

  lemma LeftIsSound(c: K.Cluster, req: Request, via: int, now: real)
    requires K.Healthy(c) && Accepts(c, req, via, now) && |c.nodes[via].storage| < MAX_ITEMS
    ensures K.Sound(Left(c, req, via, now)) && |Left(c, req, via, now)| <= MAX_ITEMS
  {
    var st := c.nodes[via].storage;
    assert K.NodeHealthy(c.nodes[via]);
    if req.Put? {
      K.OneMoreItem(st, PartId(req.version), Info(req.part, now, now));
    } else {
      assert (map[PartId(req.version) := st[PartId(req.version)]]).Keys == {PartId(req.version)};
    }
  }

  lemma SetChanges(c: K.Cluster, m: int, params: Params, order: seq<string>, answers: set<string>, now: real, st: Storage)
    requires m in c.nodes && now >= 0.0 && N.SetResult(c.nodes[m].storage, params, order, now) == Some(st)
    ensures K.Next(c, K.DoSet(m, params, order, answers, now)) == K.Changed(c, m, st, answers, now)
  {
  }

  lemma CleanupChanges(c: K.Cluster, m: int, params: Params, answers: set<string>, now: real, st: Storage)
    requires m in c.nodes && now >= 0.0 && N.CleanupResult(c.nodes[m].storage, params) == Some(st)
    ensures K.Next(c, K.DoCleanup(m, params, answers, now)) == K.Changed(c, m, st, answers, now)
  {
  }

  lemma RequestChanges(c: K.Cluster, req: Request, via: int, answers: set<string>, now: real)
    requires Accepts(c, req, via, now) && Clock(now)
    ensures K.Next(c, KeeperCall(req, via, answers, now)) == K.Changed(c, via, Left(c, req, via, now), answers, now)
  {
    match req
    case Put(v, part) =>
      PutIsPlain(c, v, part, via, now);
      SetChanges(c, via, map["id" := PartId(v), "data" := part], ["data", "id"], answers, now, Left(c, req, via, now));
    case Keep(v) =>
      CleanupChanges(c, via, map["id" := PartId(v)], answers, now, Left(c, req, via, now));
  }

  lemma RequestReachesAll(c: K.Cluster, req: Request, via: int, answers: set<string>, now: real)
    requires K.Healthy(c) && AllAnswer(c, via, answers) && Accepts(c, req, via, now) && Clock(now)
    ensures var end := K.Next(c, KeeperCall(req, via, answers, now));
            end.nodes.Keys == c.nodes.Keys && forall n | n in end.nodes :: SameData(end.nodes[n].storage, Left(c, req, via, now))
  {
    LeftIsSound(c, req, via, now);
    RequestChanges(c, req, via, answers, now);
    EveryoneGets(c, via, Left(c, req, via, now), answers, now);
  }

  lemma OnlyFrom(c: K.Cluster, id: string, part: Option<string>)
    requires forall n | n in c.nodes && id in c.nodes[n].storage :: part == Some(c.nodes[n].storage[id].data)
    ensures Only(c, id, part)
  {
    forall data: string | part == None || part == Some(data)
      ensures R.Agreed(c, id, data)
    {
      assert forall n | n in c.nodes :: R.Carries(c.nodes[n].storage, id, data);
    }
  }

  /** What everyone has after a request settles it. */
  lemma SameDataSettles(end: K.Cluster, c: K.Cluster, req: Request, via: int, now: real, db: Config)
    requires Accepts(c, req, via, now) && forall n | n in end.nodes :: SameData(end.nodes[n].storage, Left(c, req, via, now))
    ensures req.Put? ==> PutSettles(end, req.version, req.part)
    ensures req.Keep? ==> KeepSettles(end, db, req.version)
  {
    if req.Put? {
      OnlyFrom(end, PartId(req.version), Some(req.part));
    } else {
      forall u | Part3(u) in db && u != req.version
        ensures Only(end, PartId(u), None)
      {
        PartIdInjective(u, req.version);
        OnlyFrom(end, PartId(u), None);
      }
    }
  }

  /** And leaves everyone with the parts of the versions known then. */
  lemma SameDataInStep(end: K.Cluster, x: Site, req: Request, via: int, now: real, w: World, w': World)
    requires Accepts(x.keeper, req, via, now) && UpToDate(x, w, via)
    requires forall n | n in end.nodes :: SameData(end.nodes[n].storage, Left(x.keeper, req, via, now))
    requires match req
             case Put(v, part) => exists known :: PutDone(w, w', v, part, known)
             case Keep(v) => exists completed :: KeepDone(w, w', v, completed)
    ensures InStep(Site(Bare(w'), end), w')
  {
    forall n, u | n in end.nodes && u in w'.part1 && Part3(u) in w'.db
      ensures PartId(u) in end.nodes[n].storage
    {
      assert SameData(end.nodes[n].storage, Left(x.keeper, req, via, now));
      if u != req.version {
        assert u in w.part1 && Part3(u) in w.db;
      }
    }
  }

  /** A request in such a cluster. */
  lemma CalmRequest(s: Suite, x: Site, w: World, call: Call, req: Request)
    requires Inv(s, w) && Linked(x, w) && InStep(x, w) && call.Serve? && Calm(s, x, call)
    requires RequestOf(s, View(x, call.via), call.step) == Some(req) && Accepts(x.keeper, req, call.via, call.now)
    ensures RequestSettles(s, x, call) && InStep(SiteNext(s, x, call), Next(s, w, call.step))
  {
    var end := K.Next(x.keeper, KeeperCall(req, call.via, call.answers, call.now));
    assert UpToDate(x, w, call.via);
    RequestIs(s, x, w, call, req);
    RequestReachesAll(x.keeper, req, call.via, call.answers, call.now);
    SameDataSettles(end, x.keeper, req, call.via, call.now, x.world.db);
    if req.Put? {
      PutParts(s, w, call.step, req.version, req.part);
    } else {
      KeepParts(s, w, call.step, req.version);
    }
    SameDataInStep(end, x, req, call.via, call.now, w, Next(s, w, call.step));
  }

  lemma CalmFetch(s: Suite, x: Site, w: World, among: K.Step)
    requires Linked(x, w) && InStep(x, w) && among.DoFetch?
    ensures Orderly(s, x, w, Replicate(among)) && InStep(SiteNext(s, x, Replicate(among)), w)
  {
    if among.me in x.keeper.nodes && among.now >= 0.0 {
      K.FetchIs(x.keeper, among.me, among.answers, among.now);
      K.FetchedAt(x.keeper, among.me, among.answers, among.now);
      var end := K.Next(x.keeper, among);
      forall n | n in end.nodes
        ensures UpToDate(Site(x.world, end), w, n)
      {
        assert UpToDate(x, w, n);
      }
    }
  }

  lemma CalmServe(s: Suite, x: Site, w: World, call: Call)
    requires Inv(s, w) && Linked(x, w) && InStep(x, w) && call.Serve? && Calm(s, x, call)
    ensures Orderly(s, x, w, call) && InStep(SiteNext(s, x, call), Follow(s, x, w, call))
  {
    assert UpToDate(x, w, call.via);
    var req := RequestOf(s, View(x, call.via), call.step);
    if req == None {
      ViewIsTwin(x, w, call.via);
      SameRequest(s, View(x, call.via), w, call.step);
      NoRequestKeepsParts(s, w, call.step);
      StillInStep(x, w, SiteNext(s, x, call), Next(s, w, call.step));
    } else if Accepts(x.keeper, req.value, call.via, call.now) {
      CalmRequest(s, x, w, call, req.value);
    }
  }

  lemma StillInStep(x: Site, w: World, end: Site, w': World)
    requires InStep(x, w) && end.keeper == x.keeper && w'.part1 == w.part1 && forall v :: Part3(v) in w'.db <==> Part3(v) in w.db
    ensures InStep(end, w')
  {
    forall n | n in end.keeper.nodes
      ensures UpToDate(end, w', n)
    {
      assert UpToDate(x, w, n);
    }
  }

  ghost predicate CalmRun(s: Suite, x: Site, calls: seq<Call>) {
    Throughout((before, call) => Calm(s, SiteRun(s, x, before), call), calls)
  }

  lemma CalmMore(s: Suite, x: Site, calls: seq<Call>)
    requires calls != []
    ensures var before := calls[..|calls| - 1];
            CalmRun(s, x, calls) <==> CalmRun(s, x, before) && Calm(s, SiteRun(s, x, before), calls[|calls| - 1])
  {
    OneCallMore((before, call) => Calm(s, SiteRun(s, x, before), call), calls);
  }

  lemma LastCalm(s: Suite, x: Site, w: World, calls: seq<Call>)
    requires Lawful(s) && Inv(s, w) && Linked(x, w) && calls != []
    requires var before := calls[..|calls| - 1];
             && OrderlyRun(s, x, w, before) && InStep(SiteRun(s, x, before), Run(s, w, Followed(s, x, w, before)))
             && Calm(s, SiteRun(s, x, before), calls[|calls| - 1])
    ensures OrderlyAfter(s, x, w, calls[..|calls| - 1], calls[|calls| - 1])
    ensures InStep(SiteRun(s, x, calls), Run(s, w, Followed(s, x, w, calls)))
  {
    var before := calls[..|calls| - 1];
    ReplicasActAsOne(s, x, w, before);
    RunKeeps(s, w, Followed(s, x, w, before));
    CalmStep(s, SiteRun(s, x, before), Run(s, w, Followed(s, x, w, before)), calls[|calls| - 1]);
    FollowedNext(s, x, w, calls);
  }

  /** Where everyone answers all conditions hold, and every node stays up to date. */
  lemma {:induction false} CalmRunIsOrderly(s: Suite, x: Site, w: World, calls: seq<Call>)
    requires Lawful(s) && Inv(s, w) && Linked(x, w) && InStep(x, w) && CalmRun(s, x, calls)
    ensures OrderlyRun(s, x, w, calls) && InStep(SiteRun(s, x, calls), Run(s, w, Followed(s, x, w, calls)))
    decreases |calls|
  {
    if calls != [] {
      CalmMore(s, x, calls);
      CalmRunIsOrderly(s, x, w, calls[..|calls| - 1]);
      LastCalm(s, x, w, calls);
      OrderlyMore(s, x, w, calls);
    }
  }

  lemma CalmStep(s: Suite, x: Site, w: World, call: Call)
    requires Inv(s, w) && Linked(x, w) && InStep(x, w) && Calm(s, x, call)
    ensures Orderly(s, x, w, call) && InStep(SiteNext(s, x, call), Follow(s, x, w, call))
  {
    if call.Serve? {
      CalmServe(s, x, w, call);
    } else {
      CalmFetch(s, x, w, call.among);
    }
  }

  /** Then every live token that no call removes reads the same on every host through every node. */
  lemma CalmTokensReadable(s: Suite, x: Site, w: World, calls: seq<Call>, h: nat, via: int, t: Table, token: string)
    requires Lawful(s) && Inv(s, w) && Linked(x, w) && InStep(x, w) && CalmRun(s, x, calls) && h < |w.hosts|
    requires FindToken(w.TableOf(t).rows, token).Some? && NeverAsksRemoval(calls, t, token) && via in SiteRun(s, x, calls).keeper.nodes
    ensures |View(SiteRun(s, x, calls), via).hosts| == |w.hosts|
    ensures Detokenize(s, w, h, t, token).Some? && Detokenize(s, View(SiteRun(s, x, calls), via), h, t, token) == Detokenize(s, w, h, t, token)
  {
    CalmRunIsOrderly(s, x, w, calls);
    TokensReadOnEveryNode(s, x, w, calls, h, via, t, token);
    ReplicasActAsOne(s, x, w, calls);
    LiveTokensReadable(s, w, t, token, h);
    var end, r := SiteRun(s, x, calls), Run(s, w, Followed(s, x, w, calls));
    RunKeeps(s, w, Followed(s, x, w, calls));
    FollowedNeverRemoves(s, x, w, calls, t, token);
    TokensStayReadable(s, w, Followed(s, x, w, calls), t, token);
    NeededPartIsHeld(s, end, r, via, t, token);
  }

  lemma NeededPartIsHeld(s: Suite, x: Site, w: World, via: int, t: Table, token: string)
    requires Inv(s, w) && Linked(x, w) && UpToDate(x, w, via) && FindToken(w.TableOf(t).rows, token).Some?
    ensures VersionOfToken(x.world, t, token).Some? && HoldsPart(x, via, VersionOfToken(x.world, t, token).value)
  {
    var id := FindToken(w.TableOf(t).rows, token).value;
    FindTokenSound(w.TableOf(t).rows, token);
    LiveRow(s, w, t, id);
    assert x.world.TableOf(t) == w.TableOf(t);
  }

  /** And a text made into a token through any node comes back through every node. */
  lemma CalmTextReadable(s: Suite, x: Site, w: World, made: Call, calls: seq<Call>, h: nat, via: int)
    requires Lawful(s) && Inv(s, w) && Linked(x, w) && InStep(x, w) && h < |w.hosts|
    requires made.Serve? && made.step.DoTokenize? && made.step.h < |w.hosts| && Calm(s, x, made)
    requires CalmRun(s, SiteNext(s, x, made), calls) && via in SiteRun(s, SiteNext(s, x, made), calls).keeper.nodes
    ensures |View(x, made.via).hosts| == |View(SiteRun(s, SiteNext(s, x, made), calls), via).hosts| == |w.hosts|
    ensures var d := made.step;
            var next := Tokenize(s, View(x, made.via), d.h, d.t, d.text, d.dedup, d.draw, d.env);
            && next.Some? && (d.dedup ==> Search(s, View(x, made.via), d.h, d.t, d.text) == Some(""))
            && NeverAsksRemoval(calls, d.t, next.value.1) ==>
              Detokenize(s, View(SiteRun(s, SiteNext(s, x, made), calls), via), h, d.t, next.value.1) == Some(ReadsAs(d.t, d.text))
  {
    var d, x' := made.step, SiteNext(s, x, made);
    assert UpToDate(x, w, made.via);
    ViewIsTwin(x, w, made.via);
    SameMade(s, View(x, made.via), w, d);
    SameSearch(s, View(x, made.via), w, d.h, d.t, d.text);
    AfterTokenize(s, x, w, made);
    ViewHosts(s, x', Next(s, w, d), calls, via);
    if Tokenize(s, w, d.h, d.t, d.text, d.dedup, d.draw, d.env).Some? && (d.dedup ==> Search(s, w, d.h, d.t, d.text) == Some("")) {
      var (w', token) := Tokenize(s, w, d.h, d.t, d.text, d.dedup, d.draw, d.env).value;
      NewTokenReadsBack(s, w, d.h, d.t, d.text, d.dedup, d.draw, d.env);
      if NeverAsksRemoval(calls, d.t, token) {
        CalmTokensReadable(s, x', Next(s, w, d), calls, h, via, d.t, token);
      }
    }
  }

  lemma TokenizeFollows(s: Suite, x: Site, w: World, made: Call)
    requires made.Serve? && made.step.DoTokenize? && UpToDate(x, w, made.via)
    ensures Follow(s, x, w, made) == Next(s, w, made.step)
  {
    assert RequestOf(s, View(x, made.via), made.step) == None;
  }

  lemma AfterTokenize(s: Suite, x: Site, w: World, made: Call)
    requires Lawful(s) && Inv(s, w) && Linked(x, w) && InStep(x, w)
    requires made.Serve? && made.step.DoTokenize? && Calm(s, x, made)
    ensures var w' := Next(s, w, made.step);
            Inv(s, w') && |w'.hosts| == |w.hosts| && Linked(SiteNext(s, x, made), w') && InStep(SiteNext(s, x, made), w')
  {
    TokenizeFollows(s, x, w, made);
    NextKeeps(s, w, made.step);
    CalmServe(s, x, w, made);
    NextLinked(s, x, w, made);
  }

  lemma ViewHosts(s: Suite, x: Site, w: World, calls: seq<Call>, via: int)
    requires Lawful(s) && Inv(s, w) && Linked(x, w) && InStep(x, w) && CalmRun(s, x, calls)
    ensures |View(SiteRun(s, x, calls), via).hosts| == |w.hosts|
  {
    CalmRunIsOrderly(s, x, w, calls);
    ReplicasActAsOne(s, x, w, calls);
    RunKeeps(s, w, Followed(s, x, w, calls));
  }

  /** The same after any such run. */
  lemma CalmTextSurvives(s: Suite, x0: Site, w0: World, before: seq<Call>, made: Call, after: seq<Call>, h: nat, via: int)
    requires Lawful(s) && Inv(s, w0) && Linked(x0, w0) && InStep(x0, w0) && h < |w0.hosts|
    requires var x := SiteRun(s, x0, before);
             && CalmRun(s, x0, before) && Calm(s, x, made) && CalmRun(s, SiteNext(s, x, made), after)
             && made.Serve? && made.step.DoTokenize? && made.step.h < |w0.hosts|
             && via in SiteRun(s, SiteNext(s, x, made), after).keeper.nodes
    ensures var x := SiteRun(s, x0, before);
            |View(x, made.via).hosts| == |View(SiteRun(s, SiteNext(s, x, made), after), via).hosts| == |w0.hosts|
    ensures var x := SiteRun(s, x0, before);
            var d := made.step;
            var next := Tokenize(s, View(x, made.via), d.h, d.t, d.text, d.dedup, d.draw, d.env);
            && next.Some? && (d.dedup ==> Search(s, View(x, made.via), d.h, d.t, d.text) == Some(""))
            && NeverAsksRemoval(after, d.t, next.value.1) ==>
              Detokenize(s, View(SiteRun(s, SiteNext(s, x, made), after), via), h, d.t, next.value.1) == Some(ReadsAs(d.t, d.text))
  {
    var w := Run(s, w0, Followed(s, x0, w0, before));
    CalmRunIsOrderly(s, x0, w0, before);
    ReplicasActAsOne(s, x0, w0, before);
    RunKeeps(s, w0, Followed(s, x0, w0, before));
    CalmTextReadable(s, SiteRun(s, x0, before), w, made, after, h, via);
  }
}
