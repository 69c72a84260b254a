/** One key keeper node: its store, its peers and the calls it serves. Replies of peers are inputs. */
module KeyKeeperNode {
  import opened Basics
  import opened KeeperWire

  /** What a peer answered; a peer that fails counts as an empty answer without a name. */
  datatype Reply = Reply(appId: string, items: Storage)

  const NO_REPLY := Reply("", map[])

  // ---------------------------------------------------------------- specification

  /** apply_update for one item; the id is looked up among the peer addresses. */
  function Applied(peers: seq<string>, st: Storage, id: string, item: Info, now: real): Info {
    if id !in peers then item.(updated := now)
    else
      var mine := if id in st then st[id] else Info("", 0.0, 0.0);
      if mine.created < item.created then item.(updated := now) else mine
  }

  function Updated(peers: seq<string>, st: Storage, items: Storage, now: real): Storage {
    map id | id in st.Keys + items.Keys :: if id in items then Applied(peers, st, id, items[id], now) else st[id]
  }

  function ReplyOf(replies: map<string, Reply>, uri: string): Reply {
    if uri in replies then replies[uri] else NO_REPLY
  }

  /** The storage after fetch_data went through the addresses. */
  function Fetched(appId: string, peers: seq<string>, st: Storage, uris: seq<string>, replies: map<string, Reply>, now: real): Storage {
    if uris == [] then st
    else
      var before := Fetched(appId, peers, st, uris[..|uris| - 1], replies, now);
      var reply := ReplyOf(replies, uris[|uris| - 1]);
      if reply.appId == appId then before else Updated(peers, before, reply.items, now)
  }

  /** The addresses fetch_data keeps: those that do not answer with the node's own name. */
  function Others(appId: string, uris: seq<string>, replies: map<string, Reply>): seq<string> {
    if uris == [] then []
    else
      var rest := Others(appId, uris[..|uris| - 1], replies);
      if ReplyOf(replies, uris[|uris| - 1]).appId == appId then rest else rest + [uris[|uris| - 1]]
  }

  // ---------------------------------------------------------------- what a fetch amounts to

  datatype Item = Item(data: string, created: real)

  /** The part of a store that replicates. */
  function Core(st: Storage): map<string, Item> {
    map id | id in st :: Item(st[id].data, st[id].created)
  }

  /** The union of the answers of the others, later peers winning. */
  function PeerWins(appId: string, st: Storage, uris: seq<string>, replies: map<string, Reply>): map<string, Item> {
    if uris == [] then Core(st)
    else
      var before := PeerWins(appId, st, uris[..|uris| - 1], replies);
      var reply := ReplyOf(replies, uris[|uris| - 1]);
      if reply.appId == appId then before else before + Core(reply.items)
  }

  /** No stored id looks like a peer address. */
  predicate NoAddressIds(peers: seq<string>, items: Storage) {
    forall id | id in items :: id !in peers
  }

  /**
   fetch_data is the left-to-right union in which the peer wins, and drops no id, as long as no
   answered id is a peer address.
   */
  lemma {:induction false} FetchIsUnion(appId: string, peers: seq<string>, st: Storage, uris: seq<string>, replies: map<string, Reply>, now: real)
    requires forall uri | uri in replies :: NoAddressIds(peers, replies[uri].items)
    ensures Core(Fetched(appId, peers, st, uris, replies, now)) == PeerWins(appId, st, uris, replies)
    ensures st.Keys <= Fetched(appId, peers, st, uris, replies, now).Keys
  {
    if uris != [] {
      var front, uri := uris[..|uris| - 1], uris[|uris| - 1];
      FetchIsUnion(appId, peers, st, front, replies, now);
      CoreUpdated(peers, Fetched(appId, peers, st, front, replies, now), ReplyOf(replies, uri).items, now);
    }
  }

  lemma CoreUpdated(peers: seq<string>, st: Storage, items: Storage, now: real)
    requires NoAddressIds(peers, items)
    ensures Core(Updated(peers, st, items, now)) == Core(st) + Core(items)
  {
  }

  /** The address answers, not as the node itself, and holds the id. */
  predicate Offers(appId: string, replies: map<string, Reply>, uri: string, id: string) {
    ReplyOf(replies, uri).appId != appId && id in ReplyOf(replies, uri).items
  }

  /** What the last of the addresses that offers the id says of it. */
  function LastOffer(appId: string, uris: seq<string>, replies: map<string, Reply>, id: string): (r: Option<Item>)
    ensures r == None <==> forall uri | uri in uris :: !Offers(appId, replies, uri, id)
    ensures r.Some? ==> exists uri | uri in uris :: Offers(appId, replies, uri, id) && Core(ReplyOf(replies, uri).items)[id] == r.value
  {
    if uris == [] then None
    else
      var front, last := uris[..|uris| - 1], uris[|uris| - 1];
      assert uris == front + [last];
      if Offers(appId, replies, last, id) then Some(Core(ReplyOf(replies, last).items)[id]) else LastOffer(appId, front, replies, id)
  }

  /** An id ends up with what its last offer says, or with what the node had. */
  lemma {:induction false} LastOfferWins(appId: string, st: Storage, uris: seq<string>, replies: map<string, Reply>, id: string)
    ensures id in PeerWins(appId, st, uris, replies) <==> id in st || LastOffer(appId, uris, replies, id).Some?
    ensures id in PeerWins(appId, st, uris, replies) ==>
              PeerWins(appId, st, uris, replies)[id]
              == if LastOffer(appId, uris, replies, id).Some? then LastOffer(appId, uris, replies, id).value else Core(st)[id]
  {
    if uris != [] {
      LastOfferWins(appId, st, uris[..|uris| - 1], replies, id);
    }
  }

  /** No offer that comes last is older than what the node holds. */
  ghost predicate LastOffersNotOlder(appId: string, st: Storage, uris: seq<string>, replies: map<string, Reply>) {
    forall id | id in st && LastOffer(appId, uris, replies, id).Some? :: LastOffer(appId, uris, replies, id).value.created >= st[id].created
  }

  /**
   When the newest wins: a fetch makes no stored creation time fall exactly when, for every id
   the node holds, the last answering peer that holds it has it from no earlier a time.
   */
  lemma NewestWinsExactly(appId: string, peers: seq<string>, st: Storage, uris: seq<string>, replies: map<string, Reply>, now: real)
    requires forall uri | uri in replies :: NoAddressIds(peers, replies[uri].items)
    ensures st.Keys <= Fetched(appId, peers, st, uris, replies, now).Keys
    ensures (forall id | id in st :: Fetched(appId, peers, st, uris, replies, now)[id].created >= st[id].created)
       <==> LastOffersNotOlder(appId, st, uris, replies)
  {
    FetchIsUnion(appId, peers, st, uris, replies, now);
    var after := Fetched(appId, peers, st, uris, replies, now);
    forall id | id in st
      ensures after[id].created >= st[id].created
              <==> (LastOffer(appId, uris, replies, id).Some? ==> LastOffer(appId, uris, replies, id).value.created >= st[id].created)
    {
      LastOfferWins(appId, st, uris, replies, id);
      assert Core(after)[id].created == after[id].created && Core(st)[id].created == st[id].created;
    }
    if forall id | id in st :: after[id].created >= st[id].created {
      assert LastOffersNotOlder(appId, st, uris, replies);
    }
  }

  /** An item keeps its data through a fetch exactly when its last offer, if any, has the same data. */
  lemma DataSurvivesExactly(appId: string, peers: seq<string>, st: Storage, uris: seq<string>, replies: map<string, Reply>, now: real, id: string)
    requires forall uri | uri in replies :: NoAddressIds(peers, replies[uri].items)
    requires id in st
    ensures id in Fetched(appId, peers, st, uris, replies, now)
    ensures Fetched(appId, peers, st, uris, replies, now)[id].data == st[id].data
       <==> (LastOffer(appId, uris, replies, id).Some? ==> LastOffer(appId, uris, replies, id).value.data == st[id].data)
  {
    FetchIsUnion(appId, peers, st, uris, replies, now);
    LastOfferWins(appId, st, uris, replies, id);
    var after := Fetched(appId, peers, st, uris, replies, now);
    assert Core(after)[id].data == after[id].data && Core(st)[id].data == st[id].data;
  }

  /** An older item of a peer replaces a newer one of the node. */
  lemma OlderItemWins(peers: seq<string>, now: real)
    requires "KEK_VER1_PART1" !in peers
    ensures var st := map["KEK_VER1_PART1" := Info("new", 2.0, 2.0)];
            var items := map["KEK_VER1_PART1" := Info("old", 1.0, 1.0)];
            Updated(peers, st, items, now)["KEK_VER1_PART1"].data == "old"
  {
  }

  /** Exactly the node's own addresses go. */
  lemma {:induction false} OnlyOwnAddressesGo(appId: string, uris: seq<string>, replies: map<string, Reply>, uri: string)
    ensures uri in Others(appId, uris, replies) <==> uri in uris && ReplyOf(replies, uri).appId != appId
  {
    if uris != [] {
      var front, last := uris[..|uris| - 1], uris[|uris| - 1];
      assert uris == front + [last];
      OnlyOwnAddressesGo(appId, front, replies, uri);
    }
  }

  lemma {:induction false} NoneOwn(appId: string, uris: seq<string>, replies: map<string, Reply>)
    requires forall uri | uri in uris :: ReplyOf(replies, uri).appId != appId
    ensures Others(appId, uris, replies) == uris
  {
    if uris != [] {
      var front, last := uris[..|uris| - 1], uris[|uris| - 1];
      assert uris == front + [last] && last in uris;
      assert forall uri | uri in front :: uri in uris;
      NoneOwn(appId, front, replies);
    }
  }

  /** One more item taken over. */
  lemma UpdateOne(peers: seq<string>, st: Storage, items: Storage, todo: set<string>, id: string, now: real)
    requires todo <= items.Keys && id in todo
    ensures var before := Updated(peers, st, items - todo, now);
            Updated(peers, st, items - (todo - {id}), now) == before[id := Applied(peers, before, id, items[id], now)]
  {
  }

  lemma NoneUpdated(peers: seq<string>, st: Storage, items: Storage, now: real)
    ensures Updated(peers, st, items - items.Keys, now) == st
  {
    assert items - items.Keys == map[];
  }

  /** A listing of the items not in `todo`. */
  predicate Collected(list: Listing, snapshot: Storage, todo: set<string>) {
    && todo <= snapshot.Keys
    && (forall i, j :: 0 <= i < j < |list| ==> list[i].0 != list[j].0)
    && (forall i :: 0 <= i < |list| ==> list[i].0 in snapshot && list[i].0 !in todo && list[i].1 == snapshot[list[i].0])
    && (forall id | id in snapshot && id !in todo :: exists i :: 0 <= i < |list| && list[i].0 == id)
  }

  lemma CollectOne(list: Listing, snapshot: Storage, todo: set<string>, id: string)
    requires Collected(list, snapshot, todo) && id in todo
    ensures Collected(list + [(id, snapshot[id])], snapshot, todo - {id})
  {
    var more := list + [(id, snapshot[id])];
    forall x | x in snapshot && x !in todo - {id}
      ensures exists i :: 0 <= i < |more| && more[i].0 == x
    {
      if x == id {
        assert more[|list|].0 == x;
      } else {
        var i :| 0 <= i < |list| && list[i].0 == x;
        assert more[i].0 == x;
      }
    }
  }

  // ---------------------------------------------------------------- the node

  class KeyKeeper {
    const appId: string
    const refreshInterval: real
    var storage: Storage
    var peerUris: seq<string>
    var lastFetchTime: real

    constructor (appId: string, refreshInterval: real, peerUris: seq<string>)
      ensures storage == map[] && this.peerUris == peerUris && lastFetchTime == 0.0
      ensures this.appId == appId && this.refreshInterval == refreshInterval
    {
      this.appId, this.refreshInterval, this.peerUris := appId, refreshInterval, peerUris;
      storage, lastFetchTime := map[], 0.0;
    }

    /** do_write: the store is replaced only when every item is accepted. */
    method DoWrite(params: Params, order: seq<string>, update: bool, now: real) returns (r: Option<Storage>)
      modifies `storage
      ensures r == Written(old(storage), params, order, update, now)
      ensures storage == if r.Some? then r.value else old(storage)
    {
      var snapshot: Storage := map[];
      if update {
        snapshot := storage;
      }
      var versions := FindIdVersions(params, order);
      r := ReadVersions(params, versions, snapshot, now);
      if r.Some? {
        storage := r.value;
      }
    }

    /** The loop of do_write. */
    static method ReadVersions(params: Params, versions: seq<int>, start: Storage, now: real) returns (r: Option<Storage>)
      ensures r == ReadAll(params, versions, start, now)
    {
      var snapshot := start;
      var i := 0;
      while i < |versions|
        invariant 0 <= i <= |versions|
        invariant ReadAll(params, versions[..i], start, now) == Some(snapshot)
      {
        assert versions[..i + 1][..i] == versions[..i];
        var item := ReadItem(params, versions[i], now);
        if item == None {
          RejectedStays(params, versions, start, now, i);
          return None;
        }
        snapshot := snapshot[item.value.0 := item.value.1];
        i := i + 1;
      }
      assert versions[..i] == versions;
      return Some(snapshot);
    }

    /** set: None when a parameter is rejected, else the snapshot to push. */
    method Set(params: Params, order: seq<string>, now: real) returns (r: Option<Storage>)
      requires now >= 0.0
      modifies `storage
      ensures r == SetResult(old(storage), params, order, now)
      ensures storage == if r.Some? then r.value else old(storage)
    {
      if "id" !in params || !IdFormat(params["id"]) || "data" !in params || !DataFormat(params["data"]) {
        return None;
      }
      var fixedParams := params["create_ts" := FormatTs(now)];
      r := DoWrite(fixedParams, order, true, now);
    }

    method Unset(params: Params) returns (r: Option<Storage>)
      modifies `storage
      ensures r == UnsetResult(old(storage), params)
      ensures storage == if r.Some? then r.value else old(storage)
    {
      if "id" !in params || !IdFormat(params["id"]) || params["id"] !in storage {
        return None;
      }
      storage := storage - {params["id"]};
      return Some(storage);
    }

    method Cleanup(params: Params) returns (r: Option<Storage>)
      modifies `storage
      ensures r == CleanupResult(old(storage), params)
      ensures storage == if r.Some? then r.value else old(storage)
    {
      if "id" !in params || !IdFormat(params["id"]) || params["id"] !in storage {
        return None;
      }
      storage := map[params["id"] := storage[params["id"]]];
      return Some(storage);
    }

    /** The requests of push_to_peers: the same parameters to every peer in turn. */
    method PushToPeers(snapshot: Storage) returns (sent: seq<(string, Params)>, ghost list: Listing)
      requires forall id | id in snapshot :: snapshot[id].created >= 0.0
      ensures Listed(list, snapshot) && Timed(list)
      ensures |sent| == |peerUris|
      ensures forall i :: 0 <= i < |sent| ==> sent[i] == (peerUris[i], Encode(list))
    {
      var params: Params;
      params, list := CraftParams(snapshot);
      sent := [];
      var i := 0;
      while i < |peerUris|
        invariant 0 <= i == |sent| <= |peerUris|
        invariant forall j :: 0 <= j < i ==> sent[j] == (peerUris[j], params)
      {
        sent := sent + [(peerUris[i], params)];
        i := i + 1;
      }
    }

    method CraftParams(snapshot: Storage) returns (params: Params, ghost list: Listing)
      requires forall id | id in snapshot :: snapshot[id].created >= 0.0
      ensures Listed(list, snapshot) && Timed(list) && params == Encode(list)
    {
      params, list := map[], [];
      var todo, c := snapshot.Keys, 0;
      while todo != {}
        invariant c == |list| && Timed(list) && Collected(list, snapshot, todo)
        invariant params == Encode(list)
        decreases |todo|
      {
        var id :| id in todo;
        CollectOne(list, snapshot, todo, id);
        EncodeMore(list, id, snapshot[id]);
        list := list + [(id, snapshot[id])];
        params := params[IdKey(c) := id][DataKey(c) := snapshot[id].data][TsKey(c) := FormatTs(snapshot[id].created)];
        todo := todo - {id};
        c := c + 1;
      }
    }

    method ApplyItem(id: string, item: Info, now: real)
      modifies `storage
      ensures storage == old(storage)[id := Applied(peerUris, old(storage), id, item, now)]
    {
      if id !in peerUris {
        storage := storage[id := item.(updated := now)];
      } else {
        if id !in storage {
          storage := storage[id := Info("", 0.0, 0.0)];
        }
        if storage[id].created < item.created {
          storage := storage[id := item.(updated := now)];
        }
      }
    }

    method ApplyUpdate(items: Storage, now: real)
      modifies `storage
      ensures storage == Updated(peerUris, old(storage), items, now)
    {
      ghost var st := storage;
      var todo := items.Keys;
      NoneUpdated(peerUris, st, items, now);
      while todo != {}
        invariant todo <= items.Keys
        invariant storage == Updated(peerUris, st, items - todo, now)
        decreases |todo|
      {
        var id :| id in todo;
        ApplyNext(st, items, todo, id, now);
        todo := todo - {id};
      }
      assert items - todo == items;
    }

    /** One item more than those done. */
    method ApplyNext(ghost st: Storage, items: Storage, ghost todo: set<string>, id: string, now: real)
      requires todo <= items.Keys && id in todo && storage == Updated(peerUris, st, items - todo, now)
      modifies `storage
      ensures storage == Updated(peerUris, st, items - (todo - {id}), now)
    {
      UpdateOne(peerUris, st, items, todo, id, now);
      ApplyItem(id, items[id], now);
    }

    /** fetch_data, given what each address answers. */
    method FetchData(replies: map<string, Reply>, now: real)
      modifies `storage, `peerUris
      ensures storage == Fetched(appId, old(peerUris), old(storage), old(peerUris), replies, now)
      ensures peerUris == Others(appId, old(peerUris), replies)
    {
      ghost var st := storage;
      var uris := peerUris;
      var selfUris: set<string> := {};
      var i := 0;
      while i < |uris|
        invariant 0 <= i <= |uris| && peerUris == uris
        invariant storage == Fetched(appId, uris, st, uris[..i], replies, now)
        invariant forall uri :: uri in selfUris <==> uri in uris[..i] && ReplyOf(replies, uri).appId == appId
      {
        assert uris[..i + 1][..i] == uris[..i] && uris[..i + 1] == uris[..i] + [uris[i]];
        var reply := ReplyOf(replies, uris[i]);
        if reply.appId == appId {
          selfUris := selfUris + {uris[i]};
        } else {
          ApplyUpdate(reply.items, now);
        }
        i := i + 1;
      }
      assert uris[..i] == uris;
      if selfUris != {} {
        var newPeers := Without(uris, selfUris, replies);
        peerUris := newPeers;
      } else {
        NoneOwn(appId, uris, replies);
      }
    }

    method Without(uris: seq<string>, selfUris: set<string>, ghost replies: map<string, Reply>) returns (kept: seq<string>)
      requires forall uri :: uri in selfUris <==> uri in uris && ReplyOf(replies, uri).appId == appId
      ensures kept == Others(appId, uris, replies)
    {
      kept := [];
      var i := 0;
      while i < |uris|
        invariant 0 <= i <= |uris|
        invariant kept == Others(appId, uris[..i], replies)
      {
        assert uris[..i + 1][..i] == uris[..i] && uris[i] in uris;
        if uris[i] !in selfUris {
          kept := kept + [uris[i]];
        }
        i := i + 1;
      }
      assert uris[..i] == uris;
    }

    /** update_data_if_needed; the two clock readings count as one. */
    method UpdateDataIfNeeded(replies: map<string, Reply>, now: real)
      modifies `storage, `peerUris, `lastFetchTime
      ensures now - old(lastFetchTime) < refreshInterval ==> storage == old(storage) && peerUris == old(peerUris) && lastFetchTime == old(lastFetchTime)
      ensures now - old(lastFetchTime) >= refreshInterval ==>
                && lastFetchTime == now
                && storage == Fetched(appId, old(peerUris), old(storage), old(peerUris), replies, now)
                && peerUris == Others(appId, old(peerUris), replies)
    {
      if now - lastFetchTime >= refreshInterval {
        lastFetchTime := now;
        FetchData(replies, now);
      }
    }
  }

  // ---------------------------------------------------------------- results of the calls

  function SetResult(st: Storage, params: Params, order: seq<string>, now: real): Option<Storage>
    requires now >= 0.0
  {
    if "id" !in params || !IdFormat(params["id"]) || "data" !in params || !DataFormat(params["data"]) then None
    else Written(st, params["create_ts" := FormatTs(now)], order, true, now)
  }

  function UnsetResult(st: Storage, params: Params): Option<Storage> {
    if "id" !in params || !IdFormat(params["id"]) || params["id"] !in st then None else Some(st - {params["id"]})
  }

  function CleanupResult(st: Storage, params: Params): Option<Storage> {
    if "id" !in params || !IdFormat(params["id"]) || params["id"] !in st then None
    else Some(map[params["id"] := st[params["id"]]])
  }
}

/** The nodes together: which calls spread to whom, over every run and failure pattern. */
module KeeperCluster {
  import opened Basics
  import opened KeeperWire
  import opened KeyKeeperNode

  datatype Node = Node(appId: string, storage: Storage, peers: seq<string>)

  /** Nodes by number, and the node behind each address. */
  datatype Cluster = Cluster(nodes: map<int, Node>, address: map<string, int>)

  /** A snapshot in some order. */
  ghost function ListOf(st: Storage): (list: Listing)
    ensures Listed(list, st) && |list| == |st|
    decreases |st|
  {
    if st == map[] then []
    else
      var id :| id in st;
      var rest := ListOf(st - {id});
      var list := rest + [(id, st[id])];
      ListOneMore(st, id, rest);
      list
  }

  lemma ListOneMore(st: Storage, id: string, rest: Listing)
    requires id in st && Listed(rest, st - {id})
    ensures Listed(rest + [(id, st[id])], st)
    ensures |st - {id}| == |st| - 1
  {
    var list := rest + [(id, st[id])];
    forall x | x in st
      ensures exists i :: 0 <= i < |list| && list[i].0 == x
    {
      if x == id {
        assert list[|rest|].0 == x;
      } else {
        assert x in st - {id};
        var i :| 0 <= i < |rest| && rest[i].0 == x;
        assert list[i].0 == x;
      }
    }
    assert (st - {id}).Keys == st.Keys - {id};
  }

  /** The keys of a dictionary in some order. */
  ghost function OrderOf(keys: set<string>): (order: seq<string>)
    ensures forall key :: key in order <==> key in keys
    ensures forall i, j :: 0 <= i < j < |order| ==> order[i] != order[j]
    decreases |keys|
  {
    if keys == {} then []
    else
      var key :| key in keys;
      OrderOf(keys - {key}) + [key]
  }

  // ---------------------------------------------------------------- steps

  predicate Reached(c: Cluster, uri: string, answers: set<string>) {
    uri in answers && uri in c.address && c.address[uri] in c.nodes
  }

  /** One write request; a rejected or lost one changes nothing. */
  ghost function Deliver(c: Cluster, uri: string, params: Params, answers: set<string>, now: real): Cluster {
    if !Reached(c, uri, answers) then c
    else
      var to := c.address[uri];
      match Written(c.nodes[to].storage, params, OrderOf(params.Keys), false, now)
      case None => c
      case Some(st) => c.(nodes := c.nodes[to := c.nodes[to].(storage := st)])
  }

  ghost function Push(c: Cluster, uris: seq<string>, params: Params, answers: set<string>, now: real): Cluster {
    if uris == [] then c
    else Deliver(Push(c, uris[..|uris| - 1], params, answers, now), uris[|uris| - 1], params, answers, now)
  }

  /** A call that changed node `me`, followed by the push. */
  ghost function Changed(c: Cluster, me: int, st: Storage, answers: set<string>, now: real): Cluster
    requires me in c.nodes
  {
    var c' := c.(nodes := c.nodes[me := c.nodes[me].(storage := st)]);
    if Timed(ListOf(st)) then Push(c', c.nodes[me].peers, Encode(ListOf(st)), answers, now) else c'
  }

  /** What a node answers to "read": times go through format_ts. */
  function Sent(st: Storage): Storage {
    map id | id in st :: Info(st[id].data, if st[id].created >= 0.0 then Rounded(st[id].created) else st[id].created, st[id].updated)
  }

  function Replies(c: Cluster, uris: seq<string>, answers: set<string>): map<string, Reply> {
    map uri | uri in uris && Reached(c, uri, answers) ::
      Reply(c.nodes[c.address[uri]].appId, Sent(c.nodes[c.address[uri]].storage))
  }

  datatype Step =
    | DoSet(me: int, params: Params, order: seq<string>, answers: set<string>, now: real)
    | DoUnset(me: int, params: Params, answers: set<string>, now: real)
    | DoCleanup(me: int, params: Params, answers: set<string>, now: real)
    | DoWrite(me: int, params: Params, order: seq<string>, now: real)
    | DoFetch(me: int, answers: set<string>, now: real)

  ghost function Next(c: Cluster, step: Step): Cluster {
    if step.me !in c.nodes || step.now < 0.0 then c
    else
      var me := c.nodes[step.me];
      match step
      case DoSet(m, params, order, answers, now) =>
        (match SetResult(me.storage, params, order, now) case None => c case Some(st) => Changed(c, m, st, answers, now))
      case DoUnset(m, params, answers, now) =>
        (match UnsetResult(me.storage, params) case None => c case Some(st) => Changed(c, m, st, answers, now))
      case DoCleanup(m, params, answers, now) =>
        (match CleanupResult(me.storage, params) case None => c case Some(st) => Changed(c, m, st, answers, now))
      case DoWrite(m, params, order, now) =>
        (match Written(me.storage, params, order, false, now)
         case None => c
         case Some(st) => c.(nodes := c.nodes[m := me.(storage := st)]))
      case DoFetch(m, answers, now) =>
        var replies := Replies(c, me.peers, answers);
        c.(nodes := c.nodes[m := me.(storage := Fetched(me.appId, me.peers, me.storage, me.peers, replies, now),
                                     peers := Others(me.appId, me.peers, replies))])
  }

  ghost function Run(c: Cluster, steps: seq<Step>): Cluster {
    if steps == [] then c else Next(Run(c, steps[..|steps| - 1]), steps[|steps| - 1])
  }

  // ---------------------------------------------------------------- one push

  predicate Sound(st: Storage) {
    forall id | id in st :: IdFormat(id) && DataFormat(st[id].data) && st[id].created >= 0.0
  }

  lemma SoundListing(st: Storage)
    requires Sound(st)
    ensures WellFormed(ListOf(st)) && Timed(ListOf(st))
  {
    var list := ListOf(st);
    forall i | 0 <= i < |list|
      ensures IdFormat(list[i].0) && DataFormat(list[i].1.data) && list[i].1.created >= 0.0
    {
      assert list[i].0 in st;
    }
  }

  /** Some answering address on the list belongs to node n. */
  predicate Addressed(c: Cluster, uris: seq<string>, answers: set<string>, n: int) {
    exists uri | uri in uris :: Reached(c, uri, answers) && c.address[uri] == n
  }

  lemma AddressedOneMore(c: Cluster, front: seq<string>, uri: string, answers: set<string>, n: int)
    ensures Addressed(c, front + [uri], answers, n) <==> Addressed(c, front, answers, n) || (Reached(c, uri, answers) && c.address[uri] == n)
  {
    var uris := front + [uri];
    assert uri in uris && forall u | u in front :: u in uris;
  }

  /** One delivered snapshot. */
  lemma DeliverIs(c: Cluster, st: Storage, uri: string, answers: set<string>, now: real)
    requires Sound(st) && |st| <= MAX_ITEMS && Timed(ListOf(st))
    ensures Deliver(c, uri, Encode(ListOf(st)), answers, now)
         == if Reached(c, uri, answers) then c.(nodes := c.nodes[c.address[uri] := c.nodes[c.address[uri]].(storage := ArrivedAll(st, now))]) else c
  {
    if Reached(c, uri, answers) {
      SoundListing(st);
      var params := Encode(ListOf(st));
      DecodeEncode(st, ListOf(st), OrderOf(params.Keys), c.nodes[c.address[uri]].storage, now);
    }
  }

  /** The nodes behind the answering addresses have the snapshot, the others what they had. */
  predicate SpreadTo(c: Cluster, end: Cluster, st: Storage, uris: seq<string>, answers: set<string>, now: real)
    requires Sound(st)
  {
    && end.address == c.address && end.nodes.Keys == c.nodes.Keys
    && (forall n | n in c.nodes :: end.nodes[n] ==
          (if Addressed(c, uris, answers, n) then c.nodes[n].(storage := ArrivedAll(st, now)) else c.nodes[n]))
  }

  lemma SpreadOneMore(c: Cluster, mid: Cluster, st: Storage, front: seq<string>, uri: string, answers: set<string>, now: real)
    requires Sound(st) && SpreadTo(c, mid, st, front, answers, now)
    ensures var end := if Reached(mid, uri, answers)
                       then mid.(nodes := mid.nodes[mid.address[uri] := mid.nodes[mid.address[uri]].(storage := ArrivedAll(st, now))])
                       else mid;
            SpreadTo(c, end, st, front + [uri], answers, now)
  {
    assert Reached(mid, uri, answers) <==> Reached(c, uri, answers);
    forall n
      ensures Addressed(c, front + [uri], answers, n) <==> Addressed(c, front, answers, n) || (Reached(c, uri, answers) && c.address[uri] == n)
    {
      AddressedOneMore(c, front, uri, answers, n);
    }
  }

  lemma {:induction false} PushDelivers(c: Cluster, st: Storage, uris: seq<string>, answers: set<string>, now: real)
    requires Sound(st) && |st| <= MAX_ITEMS
    requires Timed(ListOf(st))
    ensures SpreadTo(c, Push(c, uris, Encode(ListOf(st)), answers, now), st, uris, answers, now)
  {
    if uris != [] {
      var front, uri := uris[..|uris| - 1], uris[|uris| - 1];
      assert uris == front + [uri];
      var params := Encode(ListOf(st));
      PushDelivers(c, st, front, answers, now);
      DeliverIs(Push(c, front, params, answers, now), st, uri, answers, now);
      SpreadOneMore(c, Push(c, front, params, answers, now), st, front, uri, answers, now);
    }
  }

  predicate AllClock(st: Storage) {
    forall id | id in st :: Clock(st[id].created)
  }

  /** A store arrives with the same ids, data and times exactly when its times are whole milliseconds. */
  lemma ArrivesUnchanged(st: Storage, now: real)
    requires Sound(st)
    ensures Core(ArrivedAll(st, now)) == Core(st) <==> AllClock(st)
  {
    var a, b := Core(ArrivedAll(st, now)), Core(st);
    forall id | id in st
      ensures a[id] == b[id] <==> Clock(st[id].created)
    {
    }
    if a == b {
      forall id | id in st
        ensures Clock(st[id].created)
      {
        assert a[id] == b[id];
      }
    }
  }

  /**
   After a set, unset or cleanup at one node that no other step overlaps: every peer that
   answers holds the initiator's ids, data and creation times, and every node that does not is
   as before, for any number of peers and any failure pattern.
   */
  lemma ChangeSpreads(c: Cluster, me: int, st: Storage, answers: set<string>, now: real, uri: string)
    requires me in c.nodes && Sound(st) && AllClock(st) && |st| <= MAX_ITEMS
    ensures var end := Changed(c, me, st, answers, now);
            && end.nodes.Keys == c.nodes.Keys && end.address == c.address
            && Core(end.nodes[me].storage) == Core(st)
            && (uri in c.nodes[me].peers && Reached(c, uri, answers) ==> Core(end.nodes[c.address[uri]].storage) == Core(st))
            && (forall n | n in c.nodes && n != me :: !Addressed(c, c.nodes[me].peers, answers, n) ==> end.nodes[n] == c.nodes[n])
  {
    SoundListing(st);
    var c' := c.(nodes := c.nodes[me := c.nodes[me].(storage := st)]);
    PushDelivers(c', st, c.nodes[me].peers, answers, now);
    ArrivesUnchanged(st, now);
    SpreadShows(c, c', Changed(c, me, st, answers, now), me, st, answers, now, uri);
  }

  lemma SpreadShows(c: Cluster, c': Cluster, end: Cluster, me: int, st: Storage, answers: set<string>, now: real, uri: string)
    requires me in c.nodes && Sound(st) && Core(ArrivedAll(st, now)) == Core(st)
    requires c' == c.(nodes := c.nodes[me := c.nodes[me].(storage := st)])
    requires SpreadTo(c', end, st, c.nodes[me].peers, answers, now)
    ensures end.nodes.Keys == c.nodes.Keys && end.address == c.address && Core(end.nodes[me].storage) == Core(st)
    ensures uri in c.nodes[me].peers && Reached(c, uri, answers) ==> Core(end.nodes[c.address[uri]].storage) == Core(st)
    ensures forall n | n in c.nodes && n != me :: !Addressed(c, c.nodes[me].peers, answers, n) ==> end.nodes[n] == c.nodes[n]
  {
    forall n
      ensures Addressed(c', c.nodes[me].peers, answers, n) <==> Addressed(c, c.nodes[me].peers, answers, n)
    {
    }
  }

  lemma {:induction false} NoneNumbered(order: seq<string>)
    requires forall key | key in order :: IdVersion(key) == None
    ensures NumberedIds(order) == []
  {
    if order != [] {
      assert order[|order| - 1] in order;
      assert forall key | key in order[..|order| - 1] :: key in order;
      NoneNumbered(order[..|order| - 1]);
    }
  }

  /** A plain set, without numbered parameters, stores one item with the time of the clock. */
  lemma PlainSetStores(st: Storage, params: Params, order: seq<string>, now: real)
    requires Clock(now) && "id" in params && IdFormat(params["id"]) && "data" in params && DataFormat(params["data"])
    requires forall key | key in order :: IdVersion(key) == None
    ensures SetResult(st, params, order, now) == Some(st[params["id"] := Info(params["data"], now, now)])
  {
    var sent := params["create_ts" := FormatTs(now)];
    NoneNumbered(order);
    assert IdVersions(sent, order) == [-1];
    assert "id" + Suffix(-1) == "id" && "data" + Suffix(-1) == "data" && "create_ts" + Suffix(-1) == "create_ts";
    ParseFormatTs(now);
    assert ReadItem(sent, -1, now) == Some((params["id"], Info(params["data"], now, now)));
    assert [-1][..0] == [];
    assert ReadAll(sent, [-1], st, now) == Some(st[params["id"] := Info(params["data"], now, now)]);
  }

  /**
   A set, also one that carries numbered items, leaves its result at the node and the same, its
   times rounded to milliseconds, at every peer that answers; the other nodes stay.
   */
  lemma SetSpreads(c: Cluster, me: int, params: Params, order: seq<string>, answers: set<string>, now: real, st: Storage, n: int)
    requires me in c.nodes && n in c.nodes && Sound(c.nodes[me].storage) && now >= 0.0
    requires SetResult(c.nodes[me].storage, params, order, now) == Some(st) && |st| <= MAX_ITEMS
    ensures Sound(st)
    ensures var end := Next(c, DoSet(me, params, order, answers, now));
            && end.nodes.Keys == c.nodes.Keys && end.address == c.address
            && end.nodes[n] == if Addressed(c, c.nodes[me].peers, answers, n) then c.nodes[n].(storage := ArrivedAll(st, now))
                               else if n == me then c.nodes[n].(storage := st) else c.nodes[n]
  {
    WrittenSound(c.nodes[me].storage, params["create_ts" := FormatTs(now)], order, true, now);
    SoundListing(st);
    var c' := c.(nodes := c.nodes[me := c.nodes[me].(storage := st)]);
    PushDelivers(c', st, c.nodes[me].peers, answers, now);
    assert Addressed(c', c.nodes[me].peers, answers, n) <==> Addressed(c, c.nodes[me].peers, answers, n);
  }

  /** A plain set at one node shows, and shows the same, at that node and at every peer that answers. */
  lemma PlainSetSpreads(c: Cluster, me: int, params: Params, order: seq<string>, answers: set<string>, now: real, uri: string)
    requires me in c.nodes && Sound(c.nodes[me].storage) && AllClock(c.nodes[me].storage) && |c.nodes[me].storage| < MAX_ITEMS
    requires Clock(now) && "id" in params && IdFormat(params["id"]) && "data" in params && DataFormat(params["data"])
    requires forall key | key in order :: IdVersion(key) == None
    requires uri in c.nodes[me].peers && Reached(c, uri, answers)
    ensures SpreadFrom(c, Next(c, DoSet(me, params, order, answers, now)), me,
                       c.nodes[me].storage[params["id"] := Info(params["data"], now, now)], answers, uri)
  {
    var before := c.nodes[me].storage;
    var id, item := params["id"], Info(params["data"], now, now);
    PlainSetStores(before, params, order, now);
    OneMoreItem(before, id, item);
    ChangeSpreads(c, me, before[id := item], answers, now, uri);
  }

  /** What a call that left `st` at one node has done when it returns, seen from an answering peer. */
  predicate SpreadFrom(c: Cluster, end: Cluster, me: int, st: Storage, answers: set<string>, uri: string)
    requires me in c.nodes && uri in c.nodes[me].peers && Reached(c, uri, answers)
  {
    && end.nodes.Keys == c.nodes.Keys && end.address == c.address
    && Core(end.nodes[me].storage) == Core(st) && Core(end.nodes[c.address[uri]].storage) == Core(st)
    && (forall n | n in c.nodes && n != me :: !Addressed(c, c.nodes[me].peers, answers, n) ==> end.nodes[n] == c.nodes[n])
  }

  /** unset takes the item away at the node and at every peer that answers. */
  lemma UnsetSpreads(c: Cluster, me: int, params: Params, answers: set<string>, now: real, uri: string)
    requires me in c.nodes && Sound(c.nodes[me].storage) && AllClock(c.nodes[me].storage) && |c.nodes[me].storage| <= MAX_ITEMS
    requires now >= 0.0 && "id" in params && IdFormat(params["id"]) && params["id"] in c.nodes[me].storage
    requires uri in c.nodes[me].peers && Reached(c, uri, answers)
    ensures SpreadFrom(c, Next(c, DoUnset(me, params, answers, now)), me, c.nodes[me].storage - {params["id"]}, answers, uri)
  {
    var st := c.nodes[me].storage;
    assert (st - {params["id"]}).Keys <= st.Keys;
    SubsetSize((st - {params["id"]}).Keys, st.Keys);
    ChangeSpreads(c, me, st - {params["id"]}, answers, now, uri);
  }

  /** cleanup leaves the one item at the node and at every peer that answers. */
  lemma CleanupSpreads(c: Cluster, me: int, params: Params, answers: set<string>, now: real, uri: string)
    requires me in c.nodes && Sound(c.nodes[me].storage) && AllClock(c.nodes[me].storage)
    requires now >= 0.0 && "id" in params && IdFormat(params["id"]) && params["id"] in c.nodes[me].storage
    requires uri in c.nodes[me].peers && Reached(c, uri, answers)
    ensures SpreadFrom(c, Next(c, DoCleanup(me, params, answers, now)), me,
                       map[params["id"] := c.nodes[me].storage[params["id"]]], answers, uri)
  {
    var st := c.nodes[me].storage;
    OneItem(st, params["id"]);
    ChangeSpreads(c, me, map[params["id"] := st[params["id"]]], answers, now, uri);
  }

  lemma OneItem(st: Storage, id: string)
    requires Sound(st) && AllClock(st) && id in st
    ensures var one: Storage := map[id := st[id]]; Sound(one) && AllClock(one) && |one| <= MAX_ITEMS
  {
    var one: Storage := map[id := st[id]];
    assert one.Keys == {id};
  }

  lemma {:induction false} SubsetSize(a: set<string>, b: set<string>)
    requires a <= b
    ensures |a| <= |b|
    decreases |a|
  {
    if a != {} {
      var x := Pick(a);
      SubsetSize(a - {x}, b - {x});
    }
  }

  lemma OneMoreItem(st: Storage, id: string, item: Info)
    ensures |st[id := item]| <= |st| + 1
  {
    assert st[id := item].Keys == st.Keys + {id};
    assert id !in st ==> |st.Keys + {id}| == |st.Keys| + 1;
    assert id in st ==> st.Keys + {id} == st.Keys;
  }

  // ---------------------------------------------------------------- runs

  /** Every stored entry is well formed, and peer addresses are no ids: they hold a slash, say. */
  predicate Healthy(c: Cluster) {
    forall n | n in c.nodes :: NodeHealthy(c.nodes[n])
  }

  predicate NodeHealthy(node: Node) {
    Sound(node.storage) && forall uri | uri in node.peers :: !IdFormat(uri)
  }

  lemma {:induction false} ReadAllSound(params: Params, versions: seq<int>, start: Storage, now: real)
    requires Sound(start) && ReadAll(params, versions, start, now).Some?
    ensures Sound(ReadAll(params, versions, start, now).value)
  {
    if versions != [] {
      ReadAllSound(params, versions[..|versions| - 1], start, now);
    }
  }

  lemma WrittenSound(st: Storage, params: Params, order: seq<string>, update: bool, now: real)
    requires Sound(st) && Written(st, params, order, update, now).Some?
    ensures Sound(Written(st, params, order, update, now).value)
  {
    ReadAllSound(params, IdVersions(params, order), if update then st else map[], now);
  }

  lemma {:induction false} FetchedSound(appId: string, peers: seq<string>, st: Storage, uris: seq<string>, replies: map<string, Reply>, now: real)
    requires Sound(st)
    requires forall uri | uri in replies :: Sound(replies[uri].items)
    requires forall uri | uri in peers :: !IdFormat(uri)
    ensures Sound(Fetched(appId, peers, st, uris, replies, now))
  {
    if uris != [] {
      FetchedSound(appId, peers, st, uris[..|uris| - 1], replies, now);
    }
  }

  lemma {:induction false} PushHealthy(c: Cluster, uris: seq<string>, params: Params, answers: set<string>, now: real)
    requires Healthy(c)
    ensures Healthy(Push(c, uris, params, answers, now))
  {
    if uris != [] {
      var front, uri := uris[..|uris| - 1], uris[|uris| - 1];
      PushHealthy(c, front, params, answers, now);
      var mid := Push(c, front, params, answers, now);
      if Reached(mid, uri, answers) {
        var n := mid.address[uri];
        assert n in mid.nodes;
        var to := mid.nodes[n];
        assert NodeHealthy(to);
        if Written(to.storage, params, OrderOf(params.Keys), false, now).Some? {
          WrittenSound(to.storage, params, OrderOf(params.Keys), false, now);
        }
      }
    }
  }

  lemma ChangedHealthy(c: Cluster, me: int, st: Storage, answers: set<string>, now: real)
    requires Healthy(c) && me in c.nodes && Sound(st)
    ensures Healthy(Changed(c, me, st, answers, now))
  {
    var c' := c.(nodes := c.nodes[me := c.nodes[me].(storage := st)]);
    assert Healthy(c');
    if Timed(ListOf(st)) {
      PushHealthy(c', c.nodes[me].peers, Encode(ListOf(st)), answers, now);
    }
  }

  lemma NextHealthy(c: Cluster, step: Step)
    requires Healthy(c)
    ensures Healthy(Next(c, step))
  {
    if step.me in c.nodes && step.now >= 0.0 {
      var me := c.nodes[step.me];
      match step {
        case DoSet(m, params, order, answers, now) =>
          if SetResult(me.storage, params, order, now).Some? {
            WrittenSound(me.storage, params["create_ts" := FormatTs(now)], order, true, now);
            ChangedHealthy(c, m, SetResult(me.storage, params, order, now).value, answers, now);
          }
        case DoUnset(m, params, answers, now) =>
          if UnsetResult(me.storage, params).Some? {
            ChangedHealthy(c, m, UnsetResult(me.storage, params).value, answers, now);
          }
        case DoCleanup(m, params, answers, now) =>
          if CleanupResult(me.storage, params).Some? {
            ChangedHealthy(c, m, CleanupResult(me.storage, params).value, answers, now);
          }
        case DoWrite(m, params, order, now) =>
          if Written(me.storage, params, order, false, now).Some? {
            WrittenSound(me.storage, params, order, false, now);
          }
        case DoFetch(m, answers, now) =>
          var replies := Replies(c, me.peers, answers);
          RepliesSound(c, me.peers, answers);
          FetchedSound(me.appId, me.peers, me.storage, me.peers, replies, now);
          forall uri | uri in Others(me.appId, me.peers, replies)
            ensures !IdFormat(uri)
          {
            OnlyOwnAddressesGo(me.appId, me.peers, replies, uri);
          }
      }
    }
  }

  lemma RepliesSound(c: Cluster, uris: seq<string>, answers: set<string>)
    requires Healthy(c)
    ensures forall uri | uri in Replies(c, uris, answers) :: Sound(Replies(c, uris, answers)[uri].items)
  {
    forall uri | uri in Replies(c, uris, answers)
      ensures Sound(Replies(c, uris, answers)[uri].items)
    {
      var n := c.address[uri];
      assert n in c.nodes;
      var st := c.nodes[n].storage;
      assert NodeHealthy(c.nodes[n]);
      assert forall id | id in Sent(st) :: id in st;
    }
  }

  lemma {:induction false} RunHealthy(c: Cluster, steps: seq<Step>)
    requires Healthy(c)
    ensures Healthy(Run(c, steps))
  {
    if steps != [] {
      RunHealthy(c, steps[..|steps| - 1]);
      NextHealthy(Run(c, steps[..|steps| - 1]), steps[|steps| - 1]);
    }
  }

  /** A fetch as a step. */
  lemma FetchedAt(c: Cluster, m: int, answers: set<string>, now: real)
    requires m in c.nodes && now >= 0.0
    ensures var me, replies := c.nodes[m], Replies(c, c.nodes[m].peers, answers);
            var end := Next(c, DoFetch(m, answers, now));
            && end == c.(nodes := c.nodes[m := end.nodes[m]])
            && end.nodes[m] == me.(storage := Fetched(me.appId, me.peers, me.storage, me.peers, replies, now),
                                   peers := Others(me.appId, me.peers, replies))
  {
  }

  lemma FetchIs(c: Cluster, m: int, answers: set<string>, now: real)
    requires Healthy(c) && m in c.nodes && now >= 0.0
    ensures var me, replies := c.nodes[m], Replies(c, c.nodes[m].peers, answers);
            var after := Next(c, DoFetch(m, answers, now)).nodes[m];
            && Core(after.storage) == PeerWins(me.appId, me.storage, me.peers, replies)
            && me.storage.Keys <= after.storage.Keys
            && after.peers == Others(me.appId, me.peers, replies)
  {
    FetchedAt(c, m, answers, now);
    var me, replies := c.nodes[m], Replies(c, c.nodes[m].peers, answers);
    RepliesSound(c, me.peers, answers);
    assert NodeHealthy(me);
    forall uri | uri in replies
      ensures NoAddressIds(me.peers, replies[uri].items)
    {
      assert Sound(replies[uri].items);
    }
    FetchIsUnion(me.appId, me.peers, me.storage, me.peers, replies, now);
  }

  /**
   In every state a run reaches, a fetch at a node is the left-to-right union of its store with
   those of its answering peers that are not itself, the peer winning; it drops no id, and takes
   from the peer list exactly the addresses that answer with the node's own name.
   */
  lemma FetchAfterAnyRun(c: Cluster, steps: seq<Step>, m: int, answers: set<string>, now: real)
    requires Healthy(c) && m in Run(c, steps).nodes && now >= 0.0
    ensures var before := Run(c, steps);
            var me, replies := before.nodes[m], Replies(before, before.nodes[m].peers, answers);
            var after := Next(before, DoFetch(m, answers, now)).nodes[m];
            && Core(after.storage) == PeerWins(me.appId, me.storage, me.peers, replies)
            && me.storage.Keys <= after.storage.Keys
            && (forall uri :: uri in after.peers <==> uri in me.peers && ReplyOf(replies, uri).appId != me.appId)
  {
    RunHealthy(c, steps);
    var before := Run(c, steps);
    FetchIs(before, m, answers, now);
    var me, replies := before.nodes[m], Replies(before, before.nodes[m].peers, answers);
    forall uri
      ensures uri in Others(me.appId, me.peers, replies) <==> uri in me.peers && ReplyOf(replies, uri).appId != me.appId
    {
      OnlyOwnAddressesGo(me.appId, me.peers, replies, uri);
    }
  }
}
