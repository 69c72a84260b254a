/**
 What whole runs of a cluster keep: when the newest item wins, that times stay whole milliseconds,
 and when a key part survives the merging of replicas.
 */
module KeeperRuns {
  import opened Basics
  import opened KeeperWire
  import opened KeyKeeperNode
  import opened KeeperCluster

  // ---------------------------------------------------------------- which item wins

  /** The exact condition for a fetch to set no stored creation time back. */
  lemma NewestWinsAt(c: Cluster, m: int, answers: set<string>, now: real)
    requires Healthy(c) && m in c.nodes && now >= 0.0
    ensures var me, after := c.nodes[m], Next(c, DoFetch(m, answers, now)).nodes[m];
            && me.storage.Keys <= after.storage.Keys
            && ((forall id | id in me.storage :: after.storage[id].created >= me.storage[id].created)
                <==> LastOffersNotOlder(me.appId, me.storage, me.peers, Replies(c, me.peers, answers)))
  {
    var me := c.nodes[m];
    FetchedAt(c, m, answers, now);
    RepliesCarryNoAddress(c, m, answers);
    NewestWinsExactly(me.appId, me.peers, me.storage, me.peers, Replies(c, me.peers, answers), now);
  }

  /** It is the condition in every reachable state. */
  lemma NewestWinsAfterAnyRun(c: Cluster, steps: seq<Step>, m: int, answers: set<string>, now: real)
    requires Healthy(c) && m in Run(c, steps).nodes && now >= 0.0
    ensures var before := Run(c, steps);
            var me, after := before.nodes[m], Next(before, DoFetch(m, answers, now)).nodes[m];
            && me.storage.Keys <= after.storage.Keys
            && ((forall id | id in me.storage :: after.storage[id].created >= me.storage[id].created)
                <==> LastOffersNotOlder(me.appId, me.storage, me.peers, Replies(before, me.peers, answers)))
  {
    RunHealthy(c, steps);
    NewestWinsAt(Run(c, steps), m, answers, now);
  }

  lemma RepliesCarryNoAddress(c: Cluster, m: int, answers: set<string>)
    requires Healthy(c) && m in c.nodes
    ensures var replies := Replies(c, c.nodes[m].peers, answers);
            forall uri | uri in replies :: NoAddressIds(c.nodes[m].peers, replies[uri].items)
  {
    var me, replies := c.nodes[m], Replies(c, c.nodes[m].peers, answers);
    RepliesSound(c, me.peers, answers);
    assert NodeHealthy(me);
    forall uri | uri in replies
      ensures NoAddressIds(me.peers, replies[uri].items)
    {
      assert Sound(replies[uri].items);
    }
  }

  // ---------------------------------------------------------------- whole milliseconds

  /** What the receiver of a snapshot can hold of it: its data, its times rounded, whatever its size. */
  predicate IsCopy(got: Storage, st: Storage)
    requires Sound(st)
  {
    forall id | id in got :: id in st && got[id].data == st[id].data && got[id].created == Rounded(st[id].created)
  }

  lemma WrittenIsCopy(st: Storage, before: Storage, now: real)
    requires Sound(st) && Timed(ListOf(st))
    ensures var params := Encode(ListOf(st));
            var got := Written(before, params, OrderOf(params.Keys), false, now);
            got.Some? && IsCopy(got.value, st)
  {
    SoundListing(st);
    var list, params := ListOf(st), Encode(ListOf(st));
    var versions := IdVersions(params, OrderOf(params.Keys));
    VersionsAre(list, OrderOf(params.Keys));
    ReadAllIs(list, versions, now);
    var got := ReadAll(params, versions, map[], now).value;
    forall id | id in got
      ensures id in st && got[id].data == st[id].data && got[id].created == Rounded(st[id].created)
    {
      var v :| v in versions && list[v].0 == id;
      assert st[list[v].0] == list[v].1;
    }
  }

  /** Every node of the second cluster has its old store or a copy of the snapshot. */
  predicate OldOrCopy(c: Cluster, end: Cluster, st: Storage)
    requires Sound(st)
  {
    && end.address == c.address && end.nodes.Keys == c.nodes.Keys
    && forall n | n in c.nodes ::
         && end.nodes[n] == c.nodes[n].(storage := end.nodes[n].storage)
         && (end.nodes[n].storage == c.nodes[n].storage || IsCopy(end.nodes[n].storage, st))
  }

  lemma DeliverCopies(c: Cluster, mid: Cluster, st: Storage, uri: string, answers: set<string>, now: real)
    requires Sound(st) && Timed(ListOf(st)) && OldOrCopy(c, mid, st)
    ensures OldOrCopy(c, Deliver(mid, uri, Encode(ListOf(st)), answers, now), st)
  {
    if Reached(mid, uri, answers) {
      WrittenIsCopy(st, mid.nodes[mid.address[uri]].storage, now);
    }
  }

  lemma {:induction false} PushCopies(c: Cluster, st: Storage, uris: seq<string>, answers: set<string>, now: real)
    requires Sound(st) && Timed(ListOf(st))
    ensures OldOrCopy(c, Push(c, uris, Encode(ListOf(st)), answers, now), st)
  {
    if uris != [] {
      var front, uri := uris[..|uris| - 1], uris[|uris| - 1];
      PushCopies(c, st, front, answers, now);
      DeliverCopies(c, Push(c, front, Encode(ListOf(st)), answers, now), st, uri, answers, now);
    }
  }

  /** What a call that left `st` at node `me` makes of the others. */
  lemma ChangedCopies(c: Cluster, me: int, st: Storage, answers: set<string>, now: real)
    requires me in c.nodes && Sound(st)
    ensures OldOrCopy(c.(nodes := c.nodes[me := c.nodes[me].(storage := st)]), Changed(c, me, st, answers, now), st)
  {
    SoundListing(st);
    PushCopies(c.(nodes := c.nodes[me := c.nodes[me].(storage := st)]), st, c.nodes[me].peers, answers, now);
  }

  /** All times in the cluster are whole milliseconds. */
  predicate ClockCluster(c: Cluster) {
    forall n | n in c.nodes :: AllClock(c.nodes[n].storage)
  }

  /** The times a request names are whole milliseconds. */
  predicate WholeTimes(params: Params) {
    forall key | key in params && ParseTs(params[key]).Some? :: Clock(ParseTs(params[key]).value)
  }

  /** A set as clients send it, at a time of the clock, or a write whose times are whole milliseconds. */
  predicate TimedStep(step: Step) {
    match step
    case DoSet(_, _, order, _, now) => Clock(now) && forall key | key in order :: IdVersion(key) == None
    case DoWrite(_, params, _, _) => WholeTimes(params)
    case _ => true
  }

  lemma RoundedIsClock(ts: real)
    requires ts >= 0.0
    ensures Clock(Rounded(ts))
  {
    assert Rounded(ts) * 1000.0 == Millis(ts) as real;
    assert Millis(Rounded(ts)) == Millis(ts);
  }

  lemma CopyIsClock(got: Storage, st: Storage)
    requires Sound(st) && IsCopy(got, st)
    ensures AllClock(got)
  {
    forall id | id in got
      ensures Clock(got[id].created)
    {
      RoundedIsClock(st[id].created);
    }
  }

  lemma ChangedClock(c: Cluster, me: int, st: Storage, answers: set<string>, now: real)
    requires ClockCluster(c) && me in c.nodes && Sound(st) && AllClock(st)
    ensures ClockCluster(Changed(c, me, st, answers, now))
  {
    ChangedCopies(c, me, st, answers, now);
    var end := Changed(c, me, st, answers, now);
    forall n | n in end.nodes
      ensures AllClock(end.nodes[n].storage)
    {
      if IsCopy(end.nodes[n].storage, st) {
        CopyIsClock(end.nodes[n].storage, st);
      }
    }
  }

  lemma {:induction false} ReadAllClock(params: Params, versions: seq<int>, start: Storage, now: real)
    requires WholeTimes(params) && AllClock(start) && ReadAll(params, versions, start, now).Some?
    ensures AllClock(ReadAll(params, versions, start, now).value)
  {
    if versions != [] {
      ReadAllClock(params, versions[..|versions| - 1], start, now);
    }
  }

  lemma {:induction false} FetchedClock(appId: string, peers: seq<string>, st: Storage, uris: seq<string>, replies: map<string, Reply>, now: real)
    requires AllClock(st) && forall uri | uri in replies :: AllClock(replies[uri].items)
    ensures AllClock(Fetched(appId, peers, st, uris, replies, now))
  {
    if uris != [] {
      FetchedClock(appId, peers, st, uris[..|uris| - 1], replies, now);
    }
  }

  lemma SentIsClock(st: Storage)
    requires Sound(st)
    ensures AllClock(Sent(st))
  {
    forall id | id in st
      ensures Clock(Sent(st)[id].created)
    {
      RoundedIsClock(st[id].created);
    }
  }

  lemma SetIsClock(st: Storage, params: Params, order: seq<string>, now: real)
    requires AllClock(st) && Clock(now) && (forall key | key in order :: IdVersion(key) == None) && SetResult(st, params, order, now).Some?
    ensures AllClock(SetResult(st, params, order, now).value)
  {
    PlainSetStores(st, params, order, now);
  }

  lemma FetchKeepsClock(c: Cluster, m: int, answers: set<string>, now: real)
    requires Healthy(c) && ClockCluster(c) && m in c.nodes && now >= 0.0
    ensures ClockCluster(Next(c, DoFetch(m, answers, now)))
  {
    var me, replies := c.nodes[m], Replies(c, c.nodes[m].peers, answers);
    forall uri | uri in replies
      ensures AllClock(replies[uri].items)
    {
      var n := c.address[uri];
      assert n in c.nodes;
      assert NodeHealthy(c.nodes[n]);
      SentIsClock(c.nodes[n].storage);
    }
    FetchedClock(me.appId, me.peers, me.storage, me.peers, replies, now);
  }

  lemma NextKeepsClock(c: Cluster, step: Step)
    requires Healthy(c) && ClockCluster(c) && TimedStep(step)
    ensures ClockCluster(Next(c, step))
  {
    if step.me in c.nodes && step.now >= 0.0 {
      var me := c.nodes[step.me];
      assert NodeHealthy(me);
      match step {
        case DoSet(m, params, order, answers, now) =>
          if SetResult(me.storage, params, order, now).Some? {
            SetIsClock(me.storage, params, order, now);
            WrittenSound(me.storage, params["create_ts" := FormatTs(now)], order, true, now);
            ChangedClock(c, m, SetResult(me.storage, params, order, now).value, answers, now);
          }
        case DoUnset(m, params, answers, now) =>
          if UnsetResult(me.storage, params).Some? {
            ChangedClock(c, m, UnsetResult(me.storage, params).value, answers, now);
          }
        case DoCleanup(m, params, answers, now) =>
          if CleanupResult(me.storage, params).Some? {
            ChangedClock(c, m, CleanupResult(me.storage, params).value, answers, now);
          }
        case DoWrite(m, params, order, now) =>
          if Written(me.storage, params, order, false, now).Some? {
            ReadAllClock(params, IdVersions(params, order), map[], now);
          }
        case DoFetch(m, answers, now) => FetchKeepsClock(c, m, answers, now);
      }
    }
  }

  /** Over any such run all times stay whole milliseconds, so that snapshots arrive unchanged. */
  lemma {:induction false} RunKeepsClock(c: Cluster, steps: seq<Step>)
    requires Healthy(c) && ClockCluster(c) && forall i | 0 <= i < |steps| :: TimedStep(steps[i])
    ensures ClockCluster(Run(c, steps))
  {
    if steps != [] {
      RunKeepsClock(c, steps[..|steps| - 1]);
      RunHealthy(c, steps[..|steps| - 1]);
      NextKeepsClock(Run(c, steps[..|steps| - 1]), steps[|steps| - 1]);
    }
  }

  // ---------------------------------------------------------------- a part that survives

  /** The node behind the address is another one and holds the id with other data. */
  predicate Contradicts(c: Cluster, m: int, uri: string, id: string)
    requires m in c.nodes && id in c.nodes[m].storage
  {
    && uri in c.address && c.address[uri] in c.nodes
    && var peer := c.nodes[c.address[uri]];
       peer.appId != c.nodes[m].appId && id in peer.storage && peer.storage[id].data != c.nodes[m].storage[id].data
  }

  /** What a fetch makes of the data of one item. */
  lemma FetchedData(c: Cluster, m: int, answers: set<string>, now: real, id: string)
    requires Healthy(c) && m in c.nodes && id in c.nodes[m].storage && now >= 0.0
    ensures var me, after := c.nodes[m], Next(c, DoFetch(m, answers, now)).nodes[m].storage;
            var last := LastOffer(me.appId, me.peers, Replies(c, me.peers, answers), id);
            && id in after
            && (after[id].data == me.storage[id].data <==> (last.Some? ==> last.value.data == me.storage[id].data))
  {
    var me := c.nodes[m];
    FetchedAt(c, m, answers, now);
    RepliesCarryNoAddress(c, m, answers);
    DataSurvivesExactly(me.appId, me.peers, me.storage, me.peers, Replies(c, me.peers, answers), now, id);
  }

  /** The data of an item outlives a fetch, whichever peers answer it. */
  ghost predicate OutlivesFetches(c: Cluster, m: int, id: string, now: real)
    requires m in c.nodes && id in c.nodes[m].storage
  {
    forall answers: set<string> ::
      var after := Next(c, DoFetch(m, answers, now)).nodes[m].storage;
      id in after && after[id].data == c.nodes[m].storage[id].data
  }

  /**
   A key part outlives every fetch at a node exactly when no other node on its peer list holds
   the id with other data: one stale replica is enough to lose it.
   */
  lemma OutlivesExactly(c: Cluster, m: int, id: string, now: real)
    requires Healthy(c) && m in c.nodes && id in c.nodes[m].storage && now >= 0.0
    ensures OutlivesFetches(c, m, id, now) <==> forall uri | uri in c.nodes[m].peers :: !Contradicts(c, m, uri, id)
  {
    var me := c.nodes[m];
    if uri :| uri in me.peers && Contradicts(c, m, uri, id) {
      OnlyOneAnswers(c, m, uri, id);
      FetchedData(c, m, {uri}, now, id);
    } else {
      forall answers: set<string>
        ensures var after := Next(c, DoFetch(m, answers, now)).nodes[m].storage;
                id in after && after[id].data == me.storage[id].data
      {
        FetchedData(c, m, answers, now, id);
        NoOfferContradicts(c, m, answers, id);
      }
    }
  }

  lemma OnlyOneAnswers(c: Cluster, m: int, uri: string, id: string)
    requires m in c.nodes && id in c.nodes[m].storage && uri in c.nodes[m].peers && Contradicts(c, m, uri, id)
    ensures var last := LastOffer(c.nodes[m].appId, c.nodes[m].peers, Replies(c, c.nodes[m].peers, {uri}), id);
            last.Some? && last.value.data != c.nodes[m].storage[id].data
  {
    var me, replies := c.nodes[m], Replies(c, c.nodes[m].peers, {uri});
    assert Offers(me.appId, replies, uri, id);
    forall other | other in me.peers && Offers(me.appId, replies, other, id)
      ensures other == uri
    {
    }
  }

  lemma NoOfferContradicts(c: Cluster, m: int, answers: set<string>, id: string)
    requires m in c.nodes && id in c.nodes[m].storage && forall uri | uri in c.nodes[m].peers :: !Contradicts(c, m, uri, id)
    ensures var last := LastOffer(c.nodes[m].appId, c.nodes[m].peers, Replies(c, c.nodes[m].peers, answers), id);
            last.Some? ==> last.value.data == c.nodes[m].storage[id].data
  {
  }

  predicate Carries(st: Storage, id: string, data: string) {
    id in st ==> st[id].data == data
  }

  /** No node holds the id with other data. */
  predicate Agreed(c: Cluster, id: string, data: string) {
    forall n | n in c.nodes :: Carries(c.nodes[n].storage, id, data)
  }

  /** The call brings no other data of the id into the cluster. */
  ghost predicate BringsNoOther(c: Cluster, step: Step, id: string, data: string) {
    step.me in c.nodes && step.now >= 0.0 ==>
      var st := c.nodes[step.me].storage;
      match step
      case DoSet(_, params, order, _, now) =>
        SetResult(st, params, order, now).Some? ==> Carries(SetResult(st, params, order, now).value, id, data)
      case DoWrite(_, params, order, now) =>
        Written(st, params, order, false, now).Some? ==> Carries(Written(st, params, order, false, now).value, id, data)
      case _ => true
  }

  ghost predicate RunBringsNoOther(c: Cluster, steps: seq<Step>, id: string, data: string) {
    forall i | 0 <= i < |steps| :: BringsNoOther(Run(c, steps[..i]), steps[i], id, data)
  }

  lemma ChangedAgrees(c: Cluster, me: int, st: Storage, answers: set<string>, now: real, id: string, data: string)
    requires Agreed(c, id, data) && me in c.nodes && Sound(st) && Carries(st, id, data)
    ensures Agreed(Changed(c, me, st, answers, now), id, data)
  {
    ChangedCopies(c, me, st, answers, now);
  }

  lemma {:induction false} FetchedCarries(appId: string, peers: seq<string>, st: Storage, uris: seq<string>, replies: map<string, Reply>, now: real,
                                          id: string, data: string)
    requires id !in peers && Carries(st, id, data) && forall uri | uri in replies :: Carries(replies[uri].items, id, data)
    ensures Carries(Fetched(appId, peers, st, uris, replies, now), id, data)
  {
    if uris != [] {
      FetchedCarries(appId, peers, st, uris[..|uris| - 1], replies, now, id, data);
    }
  }

  lemma FetchAgrees(c: Cluster, m: int, answers: set<string>, now: real, id: string, data: string)
    requires Healthy(c) && Agreed(c, id, data) && IdFormat(id) && m in c.nodes && now >= 0.0
    ensures Agreed(Next(c, DoFetch(m, answers, now)), id, data)
  {
    var me, replies := c.nodes[m], Replies(c, c.nodes[m].peers, answers);
    assert NodeHealthy(me);
    forall uri | uri in replies
      ensures Carries(replies[uri].items, id, data)
    {
      var n := c.address[uri];
      assert n in c.nodes;
      assert Carries(c.nodes[n].storage, id, data);
    }
    FetchedCarries(me.appId, me.peers, me.storage, me.peers, replies, now, id, data);
  }

  lemma NextAgrees(c: Cluster, step: Step, id: string, data: string)
    requires Healthy(c) && Agreed(c, id, data) && IdFormat(id) && BringsNoOther(c, step, id, data)
    ensures Agreed(Next(c, step), id, data)
  {
    if step.me in c.nodes && step.now >= 0.0 {
      var me := c.nodes[step.me];
      assert NodeHealthy(me) && Carries(me.storage, id, data);
      match step {
        case DoSet(m, params, order, answers, now) =>
          if SetResult(me.storage, params, order, now).Some? {
            WrittenSound(me.storage, params["create_ts" := FormatTs(now)], order, true, now);
            ChangedAgrees(c, m, SetResult(me.storage, params, order, now).value, answers, now, id, data);
          }
        case DoUnset(m, params, answers, now) =>
          if UnsetResult(me.storage, params).Some? {
            ChangedAgrees(c, m, UnsetResult(me.storage, params).value, answers, now, id, data);
          }
        case DoCleanup(m, params, answers, now) =>
          if CleanupResult(me.storage, params).Some? {
            ChangedAgrees(c, m, CleanupResult(me.storage, params).value, answers, now, id, data);
          }
        case DoWrite(m, params, order, now) =>
        case DoFetch(m, answers, now) => FetchAgrees(c, m, answers, now, id, data);
      }
    }
  }

  /**
   While no call brings in other data of an id on which the replicas agree, they go on agreeing:
   whichever node holds the part in any state of the run, it holds this data.
   */
  lemma {:induction false} RunAgrees(c: Cluster, steps: seq<Step>, id: string, data: string)
    requires Healthy(c) && Agreed(c, id, data) && IdFormat(id) && RunBringsNoOther(c, steps, id, data)
    ensures Agreed(Run(c, steps), id, data)
  {
    if steps != [] {
      var before := steps[..|steps| - 1];
      forall i | 0 <= i < |before|
        ensures BringsNoOther(Run(c, before[..i]), before[i], id, data)
      {
        assert before[..i] == steps[..i];
      }
      RunAgrees(c, before, id, data);
      RunHealthy(c, before);
      NextAgrees(Run(c, before), steps[|steps| - 1], id, data);
    }
  }

  // ---------------------------------------------------------------- a part that does not

  /** Two nodes that know each other, with the given stores. */
  function TwoNodes(first: Storage, second: Storage): Cluster {
    Cluster(map[1 := Node("a", first, ["to/2"]), 2 := Node("b", second, ["to/1"])], map["to/1" := 1, "to/2" := 2])
  }

  function Only(id: string, data: string, now: real): Storage {
    map[id := Info(data, now, now)]
  }

  lemma {:induction false} NobodyAnswers(c: Cluster, uris: seq<string>, st: Storage, now: real)
    requires Timed(ListOf(st))
    ensures Push(c, uris, Encode(ListOf(st)), {}, now) == c
  {
    if uris != [] {
      NobodyAnswers(c, uris[..|uris| - 1], st, now);
    }
  }

  /** A set of one item as the program's clients send it. */
  predicate PlainSet(params: Params, order: seq<string>, id: string) {
    && "id" in params && params["id"] == id && IdFormat(id) && "data" in params && DataFormat(params["data"])
    && forall key | key in order :: IdVersion(key) == None
  }

  lemma SetAlone(c: Cluster, me: int, id: string, params: Params, order: seq<string>, now: real)
    requires me in c.nodes && c.nodes[me].storage == map[] && PlainSet(params, order, id) && Clock(now)
    ensures Next(c, DoSet(me, params, order, {}, now)) == c.(nodes := c.nodes[me := c.nodes[me].(storage := Only(id, params["data"], now))])
  {
    PlainSetStores(map[], params, order, now);
    assert map[][id := Info(params["data"], now, now)] == Only(id, params["data"], now);
    ChangedAlone(c, me, Only(id, params["data"], now), now);
  }

  lemma ChangedAlone(c: Cluster, me: int, st: Storage, now: real)
    requires me in c.nodes
    ensures Changed(c, me, st, {}, now) == c.(nodes := c.nodes[me := c.nodes[me].(storage := st)])
  {
    var c' := c.(nodes := c.nodes[me := c.nodes[me].(storage := st)]);
    if Timed(ListOf(st)) {
      NobodyAnswers(c', c.nodes[me].peers, st, now);
    }
  }

  lemma WithStorage(first: Storage, second: Storage, st: Storage)
    ensures var c := TwoNodes(first, second);
            && c.(nodes := c.nodes[1 := c.nodes[1].(storage := st)]) == TwoNodes(st, second)
            && c.(nodes := c.nodes[2 := c.nodes[2].(storage := st)]) == TwoNodes(first, st)
  {
    var c := TwoNodes(first, second);
    assert c.nodes[1 := c.nodes[1].(storage := st)] == TwoNodes(st, second).nodes;
    assert c.nodes[2 := c.nodes[2].(storage := st)] == TwoNodes(first, st).nodes;
  }

  lemma SecondFetches(first: Storage, second: Storage, id: string, now: real)
    requires id in first && IdFormat(id) && now >= 0.0
    ensures var end := Next(TwoNodes(first, second), DoFetch(2, {"to/1"}, now));
            2 in end.nodes && id in end.nodes[2].storage && end.nodes[2].storage[id].data == first[id].data
  {
    var c := TwoNodes(first, second);
    var uris := c.nodes[2].peers;
    assert uris == ["to/1"] && uris[..0] == [] && c.address["to/1"] == 1;
    var replies := Replies(c, uris, {"to/1"});
    assert ReplyOf(replies, "to/1") == Reply("a", Sent(first));
    assert Fetched("b", uris, second, [], replies, now) == second;
    assert Fetched("b", uris, second, uris, replies, now) == Updated(uris, second, Sent(first), now);
    assert "to/1"[2] == '/' && id !in uris;
  }

  /**
   What the merge can cost: part 1 of an abandoned generate_kek is left at one node; the retry,
   at another, stores the new part; the next fetch there brings the old one back.
   */
  lemma StalePartComesBack(id: string, left: Params, retry: Params, order: seq<string>)
    requires PlainSet(left, order, id) && PlainSet(retry, order, id)
    ensures var abandoned := Next(TwoNodes(map[], map[]), DoSet(1, left, order, {}, 1.0));
            var retried := Next(abandoned, DoSet(2, retry, order, {}, 2.0));
            var end := Next(retried, DoFetch(2, {"to/1"}, 3.0));
            && retried == TwoNodes(Only(id, left["data"], 1.0), Only(id, retry["data"], 2.0))
            && 2 in end.nodes && id in end.nodes[2].storage && end.nodes[2].storage[id].data == left["data"]
  {
    var first, second := Only(id, left["data"], 1.0), Only(id, retry["data"], 2.0);
    SetAlone(TwoNodes(map[], map[]), 1, id, left, order, 1.0);
    WithStorage(map[], map[], first);
    SetAlone(TwoNodes(first, map[]), 2, id, retry, order, 2.0);
    WithStorage(first, map[], second);
    SecondFetches(first, second, id, 3.0);
  }

  /** Such sets exist: those generate_kek sends for part 1 of version 1. */
  lemma SomePlainSet(data: string)
    requires DataFormat(data)
    ensures PlainSet(map["id" := "KEK_VER1_PART1", "data" := data], ["data", "id"], "KEK_VER1_PART1")
  {
    assert IdVersion("data") == None && IdVersion("id") == None;
  }
}
