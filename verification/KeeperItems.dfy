/** What a key keeper takes for an id, for data and for a time, at the limits; and when it says an item was updated. */
module KeeperItems {
  import opened Basics
  import opened KeeperWire
  import opened KeyKeeperNode
  import C = KeeperCluster

  // ---------------------------------------------------------------- formats

  function Copies(c: char, n: nat): (s: string)
    ensures |s| == n && forall i :: 0 <= i < n ==> s[i] == c
  {
    seq(n, i => c)
  }

  /** An id is one to forty letters, digits and underscores, by their codes. */
  lemma IdsAre(s: string)
    ensures IdFormat(s) <==> 0 < |s| < 41 && forall i | 0 <= i < |s| ::
              var code := s[i] as int; 48 <= code <= 57 || 65 <= code <= 90 || code == 95 || 97 <= code <= 122
  {
  }

  /** Forty are allowed and forty-one are not; for data the limit is 2000, none at all are enough, and a line feed is refused. */
  lemma AtTheLimits(c: char)
    requires c == '_' || c == 'z' || c == '0'
    ensures IdFormat(Copies(c, 40)) && !IdFormat(Copies(c, 41)) && IdFormat(Copies(c, 1)) && !IdFormat("")
    ensures DataFormat(Copies(c, 2000)) && !DataFormat(Copies(c, 2001)) && DataFormat("")
    ensures DataFormat(" ~") && !DataFormat("\n") && !IdFormat("a-b")
  {
    assert "a-b"[1] == '-';
    assert "\n"[0] as int == 10;
  }

  /** A numbered id is "id_" and one to nine digits, with the number they stand for. */
  lemma NumberedExactly(d: string)
    ensures IdVersion("id_" + d) == if 1 <= |d| <= 9 && AllDigits(d) then Some(ParseNat(d)) else None
  {
    assert ("id_" + d)[..3] == "id_" && ("id_" + d)[3..] == d;
  }

  lemma OthersAreNotNumbered(key: string)
    requires !("id_" <= key)
    ensures IdVersion(key) == None
  {
  }

  // ---------------------------------------------------------------- times

  /** The time kept is a whole number of milliseconds, no more than half of one away. */
  lemma RoundedIsNearest(ts: real)
    requires ts >= 0.0
    ensures Rounded(ts) == Millis(ts) as real / 1000.0
    ensures -0.0005 <= Rounded(ts) - ts <= 0.0005
  {
    var m := Millis(ts) as real;
    assert m <= ts * 1000.0 + 0.5 < m + 1.0;
  }

  /** Twelve seconds and five milliseconds, as text. */
  lemma KnownTime()
    ensures FormatTs(12.005) == "12.005"
  {
    assert Millis(12.005) == 12005;
    TwelveIs();
    assert ThreeDigits(5) == "005";
    assert "12" + "." + "005" == "12.005";
  }

  lemma TwelveIs()
    ensures Decimal(12) == "12"
  {
    assert Decimal(1) == "1";
  }

  /** Without a fraction, with one, and with an exponent. */
  lemma KnownNumerals()
    ensures ParseTs("7") == Some(7.0) && ParseTs("7.5") == Some(7.5) && ParseTs("7e2") == Some(700.0) && ParseTs("seven") == None
  {
    var d, f, e, x := "7", "7.5", "7e2", "seven";
    assert d[..0] == "" && ParseNat("7") == 7 && ParseNat("") == 0;
    FirstIs(d, 'e', 'E', 1);
    FirstIs(d, '.', '.', 1);
    assert d[..1] == "7";
    FirstIs(f, 'e', 'E', 3);
    FirstIs(f, '.', '.', 1);
    assert f[..1] == "7" && f[2..] == "5" && "5"[..0] == "" && ParseNat("5") == 5 && Pow10(1) == 10 * Pow10(0);
    FirstIs(e, 'e', 'E', 1);
    assert e[..1] == "7" && e[2..] == "2" && "2"[..0] == "" && ParseNat("2") == 2 && Pow10(2) == 100;
    FirstIs(x, 'e', 'E', 1);
    assert x[..1] == "s";
    FirstIs("s", '.', '.', 1);
    assert "s"[..1] == "s" && !IsDigit("s"[0]);
  }

  // ---------------------------------------------------------------- updates

  /** An item taken over has the time of the update; an id that is a peer address is taken over only if it is newer. */
  lemma TakenOver(peers: seq<string>, st: Storage, items: Storage, now: real, id: string)
    ensures id in Updated(peers, st, items, now) <==> id in st || id in items
    ensures id in st && id !in items ==> Updated(peers, st, items, now)[id] == st[id]
    ensures id in items && id !in peers ==> Updated(peers, st, items, now)[id] == Info(items[id].data, items[id].created, now)
    ensures id in items && id in peers && id in st ==>
              Updated(peers, st, items, now)[id]
              == if items[id].created > st[id].created then Info(items[id].data, items[id].created, now) else st[id]
    ensures id in items && id in peers && id !in st ==>
              Updated(peers, st, items, now)[id]
              == if items[id].created > 0.0 then Info(items[id].data, items[id].created, now) else Info("", 0.0, 0.0)
  {
  }

  /** After a fetch an item has the data and the times of its last offer, taken over now, or is as it was. */
  lemma {:induction false} FetchedItem(appId: string, peers: seq<string>, st: Storage, uris: seq<string>, replies: map<string, Reply>, now: real, id: string)
    requires id !in peers
    ensures id in Fetched(appId, peers, st, uris, replies, now) <==> id in st || LastOffer(appId, uris, replies, id).Some?
    ensures id in Fetched(appId, peers, st, uris, replies, now) ==>
              Fetched(appId, peers, st, uris, replies, now)[id]
              == match LastOffer(appId, uris, replies, id)
                 case Some(item) => Info(item.data, item.created, now)
                 case None => st[id]
  {
    if uris != [] {
      var front, last := uris[..|uris| - 1], uris[|uris| - 1];
      FetchedItem(appId, peers, st, front, replies, now, id);
      var reply := ReplyOf(replies, last);
      if reply.appId != appId {
        TakenOver(peers, Fetched(appId, peers, st, front, replies, now), reply.items, now, id);
      }
    }
  }

  /** What a node hears in a fetch: of each address that answers, the name of the node behind it and its items, their times in milliseconds. */
  lemma RepliesAre(c: C.Cluster, uris: seq<string>, answers: set<string>, uri: string)
    ensures uri in C.Replies(c, uris, answers) <==> uri in uris && uri in answers && uri in c.address && c.address[uri] in c.nodes
    ensures uri in C.Replies(c, uris, answers) ==>
              var node, reply := c.nodes[c.address[uri]], C.Replies(c, uris, answers)[uri];
              && reply.appId == node.appId && reply.items.Keys == node.storage.Keys
              && forall id | id in node.storage && node.storage[id].created >= 0.0 ::
                   reply.items[id].data == node.storage[id].data && reply.items[id].created == Rounded(node.storage[id].created)
  {
  }

  // ---------------------------------------------------------------- reading parameters

  /** Item n of a request is taken exactly when its id, data and time are all there and in order; it is updated now. */
  lemma ItemReadExactly(params: Params, n: nat, now: real)
    ensures var i, d, t := "id_" + Decimal(n), "data_" + Decimal(n), "create_ts_" + Decimal(n);
            && (ReadItem(params, n, now).Some? <==>
                  i in params && d in params && t in params && IdFormat(params[i]) && DataFormat(params[d]) && ParseTs(params[t]).Some?)
            && (ReadItem(params, n, now).Some? ==>
                  ReadItem(params, n, now).value == (params[i], Info(params[d], ParseTs(params[t]).value, now)))
  {
    KeyNames(n);
  }

  /** A plain id is read before the numbered ones, and those in the order of the dictionary. */
  lemma PlainIdFirst(params: Params, order: seq<string>, key: string)
    ensures IdVersions(params, []) == if "id" in params then [-1] else []
    ensures IdVersions(params, order + [key]) == IdVersions(params, order) + if IdVersion(key).Some? then [IdVersion(key).value] else []
  {
    assert (order + [key])[..|order|] == order;
  }
}
