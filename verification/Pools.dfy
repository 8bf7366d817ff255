/**
 Destinations and scan pools: the routing scan, the retrying read with fallback
 and the write of storage/router/pool.go, over a network of key-value servers
 whose commands may fail.
 */
module Pools {
  import opened Prelude
  import Ranges

  datatype Destination = Destination(scheme: string, host: string)

  datatype Rule = Rule(range: Ranges.Range, dest: Destination)

  datatype Error = NotRoutable | NotFound | PoolNotFound | ConnectionError

  const BLOCK_GET_RETRIES: nat := 3

  /******* Servers *******/

  // What the server at each host holds.
  type Stores = map<string, map<Bytes, Bytes>>

  function Server(stores: Stores, host: string): map<Bytes, Bytes> {
    if host in stores then stores[host] else map[]
  }

  predicate Holds(stores: Stores, host: string, key: Bytes) {
    key in Server(stores, host)
  }

  function Put(stores: Stores, host: string, key: Bytes, data: Bytes): Stores {
    stores[host := Server(stores, host)[key := data]]
  }

  datatype Reply = Data(data: Bytes) | Nil | Failed

  function ReplyOf(stores: Stores, host: string, key: Bytes): Reply {
    if Holds(stores, host, key) then Data(Server(stores, host)[key]) else Nil
  }

  class Network {
    var stores: Stores
    ghost var commands: nat
    ghost var faults: nat

    constructor (stores: Stores)
      ensures this.stores == stores && commands == 0 && faults == 0
    {
      this.stores := stores;
      commands, faults := 0, 0;
    }

    method Get(host: string, key: Bytes) returns (reply: Reply)
      modifies this
      ensures stores == old(stores) && commands == old(commands) + 1
      ensures reply == Failed || reply == ReplyOf(stores, host, key)
      ensures faults == old(faults) + if reply == Failed then 1 else 0
    {
      commands := commands + 1;
      var lost: bool := *;
      if lost {
        faults := faults + 1;
        reply := Failed;
      } else {
        reply := ReplyOf(stores, host, key);
      }
    }

    // A failed write may or may not have reached the server.
    method Set(host: string, key: Bytes, data: Bytes) returns (ok: bool)
      modifies this
      ensures commands == old(commands) + 1
      ensures stores == Put(old(stores), host, key, data) || (!ok && stores == old(stores))
      ensures faults == old(faults) + if ok then 0 else 1
    {
      commands := commands + 1;
      var lost: bool := *;
      var applied: bool := *;
      ok := !lost;
      if ok || applied {
        stores := Put(stores, host, key, data);
      }
      if lost {
        faults := faults + 1;
      }
    }
  }

  /******* Routing *******/

  // Every rule can be compared with the key.
  predicate FitsAll(rules: seq<Rule>, h: Bytes) {
    forall i :: 0 <= i < |rules| ==> Ranges.Fits(rules[i].range, h)
  }

  // Every rule up to the first that matches can be compared with the key.
  predicate ScanFits(rules: seq<Rule>, h: Bytes) {
    rules == [] || (Ranges.Fits(rules[0].range, h) && (Ranges.In(rules[0].range, h) || ScanFits(rules[1..], h)))
  }

  lemma {:induction false} FitsAllScans(rules: seq<Rule>, h: Bytes)
    requires FitsAll(rules, h)
    ensures ScanFits(rules, h)
  {
    if rules != [] {
      FitsAllScans(rules[1..], h);
    }
  }

  function RouteOf(rules: seq<Rule>, h: Bytes): Option<Destination>
    requires ScanFits(rules, h)
  {
    if rules == [] then None
    else if Ranges.In(rules[0].range, h) then Some(rules[0].dest)
    else RouteOf(rules[1..], h)
  }

  function RoutesOf(rules: seq<Rule>, h: Bytes): seq<Destination>
    requires FitsAll(rules, h)
  {
    if rules == [] then []
    else (if Ranges.In(rules[0].range, h) then [rules[0].dest] else []) + RoutesOf(rules[1..], h)
  }

  // Membership, first destination and all destinations tell the same story.
  lemma {:induction false} PoolIsCoherent(rules: seq<Rule>, h: Bytes)
    requires FitsAll(rules, h)
    ensures ScanFits(rules, h)
    ensures (exists i :: 0 <= i < |rules| && Ranges.In(rules[i].range, h)) <==> RoutesOf(rules, h) != []
    ensures RouteOf(rules, h) == if RoutesOf(rules, h) == [] then None else Some(RoutesOf(rules, h)[0])
    ensures forall d :: d in RoutesOf(rules, h) <==>
              exists i :: 0 <= i < |rules| && Ranges.In(rules[i].range, h) && rules[i].dest == d
  {
    if rules != [] {
      PoolIsCoherent(rules[1..], h);
      assert forall i :: 0 < i < |rules| ==> rules[i] == rules[1..][i - 1];
      assert forall i :: 0 <= i < |rules| - 1 ==> rules[1..][i] == rules[i + 1];
    }
  }

  lemma {:induction false} RoutesOfSnoc(rules: seq<Rule>, i: nat, h: Bytes)
    requires i < |rules| && FitsAll(rules, h)
    ensures RoutesOf(rules[..i + 1], h)
         == RoutesOf(rules[..i], h) + if Ranges.In(rules[i].range, h) then [rules[i].dest] else []
  {
    if i == 0 {
      assert rules[..1] == [rules[0]] && rules[..1][1..] == [];
    } else {
      assert rules[..i + 1][1..] == rules[1..][..i] && rules[..i][1..] == rules[1..][..i - 1];
      RoutesOfSnoc(rules[1..], i - 1, h);
    }
  }

  // The rule matches the key.
  predicate Hits(rule: Rule, h: Bytes) {
    Ranges.Fits(rule.range, h) && Ranges.In(rule.range, h)
  }

  // The route is the destination of the matching rule that comes first.
  lemma {:induction false} RouteIsFirst(rules: seq<Rule>, h: Bytes)
    requires ScanFits(rules, h)
    ensures RouteOf(rules, h).None? ==> forall i :: 0 <= i < |rules| ==> !Hits(rules[i], h)
    ensures RouteOf(rules, h).Some? ==>
              exists i :: 0 <= i < |rules| && Hits(rules[i], h) && rules[i].dest == RouteOf(rules, h).value
                && forall j :: 0 <= j < i ==> !Hits(rules[j], h)
  {
    if rules != [] && !Hits(rules[0], h) {
      var rest := rules[1..];
      RouteIsFirst(rest, h);
      if RouteOf(rest, h).Some? {
        var i :| 0 <= i < |rest| && Hits(rest[i], h) && rest[i].dest == RouteOf(rest, h).value
          && forall j :: 0 <= j < i ==> !Hits(rest[j], h);
        assert rules[i + 1] == rest[i];
        forall j | 0 <= j < i + 1 ensures !Hits(rules[j], h) {
          if j > 0 { assert rules[j] == rest[j - 1]; }
        }
      } else {
        forall i | 0 <= i < |rules| ensures !Hits(rules[i], h) {
          if i > 0 { assert rules[i] == rest[i - 1]; }
        }
      }
    }
  }

  // dests are the destinations of those of the first n rules that match, in their
  // order; ks holds the rules' positions.
  ghost predicate RoutesBy(rules: seq<Rule>, n: nat, h: Bytes, dests: seq<Destination>, ks: seq<nat>) {
    && n <= |rules| && |ks| == |dests|
    && (forall k :: 0 <= k < |ks| ==> ks[k] < n && Hits(rules[ks[k]], h) && dests[k] == rules[ks[k]].dest)
    && (forall j, k :: 0 <= j < k < |ks| ==> ks[j] < ks[k])
    && (forall i :: 0 <= i < n && Hits(rules[i], h) ==> i in ks)
  }

  lemma RoutesByNext(rules: seq<Rule>, n: nat, h: Bytes, dests: seq<Destination>, ks: seq<nat>, more: seq<Destination>)
    returns (next: seq<nat>)
    requires n < |rules| && RoutesBy(rules, n, h, dests, ks)
    requires more == dests + if Hits(rules[n], h) then [rules[n].dest] else []
    ensures RoutesBy(rules, n + 1, h, more, next)
  {
    next := if Hits(rules[n], h) then ks + [n] else ks;
  }

  lemma PrefixFits(rules: seq<Rule>, n: nat, h: Bytes)
    requires FitsAll(rules, h) && n <= |rules|
    ensures FitsAll(rules[..n], h)
  {}

  lemma {:induction false} FirstRoutes(rules: seq<Rule>, n: nat, h: Bytes) returns (ks: seq<nat>)
    requires FitsAll(rules, h) && n <= |rules|
    ensures FitsAll(rules[..n], h) && RoutesBy(rules, n, h, RoutesOf(rules[..n], h), ks)
  {
    PrefixFits(rules, n, h);
    if n == 0 {
      return [];
    }
    var before := FirstRoutes(rules, n - 1, h);
    RoutesOfSnoc(rules, n - 1, h);
    ks := RoutesByNext(rules, n - 1, h, RoutesOf(rules[..n - 1], h), before, RoutesOf(rules[..n], h));
  }

  lemma RoutesAreInOrder(rules: seq<Rule>, h: Bytes) returns (ks: seq<nat>)
    requires FitsAll(rules, h)
    ensures RoutesBy(rules, |rules|, h, RoutesOf(rules, h), ks)
  {
    ks := FirstRoutes(rules, |rules|, h);
    assert rules[..|rules|] == rules;
  }

  /******* What a pool answers when no destination is given up *******/

  function FirstHeld(dests: seq<Destination>, stores: Stores, key: Bytes): Option<Bytes> {
    if dests == [] then None
    else if Holds(stores, dests[0].host, key) then Some(Server(stores, dests[0].host)[key])
    else FirstHeld(dests[1..], stores, key)
  }

  function PoolAnswer(rules: seq<Rule>, stores: Stores, key: Bytes): Result<Bytes, Error>
    requires FitsAll(rules, key)
  {
    var dests := RoutesOf(rules, key);
    if dests == [] then Err(NotRoutable)
    else match FirstHeld(dests, stores, key)
      case Some(data) => Ok(data)
      case None => Err(NotFound)
  }

  lemma {:induction false} FirstHeldIsFirst(dests: seq<Destination>, stores: Stores, key: Bytes)
    ensures FirstHeld(dests, stores, key).None?
       <==> forall i :: 0 <= i < |dests| ==> !Holds(stores, dests[i].host, key)
    ensures FirstHeld(dests, stores, key).Some? ==>
              exists i :: 0 <= i < |dests| && Holds(stores, dests[i].host, key)
                && FirstHeld(dests, stores, key).value == Server(stores, dests[i].host)[key]
                && forall j :: 0 <= j < i ==> !Holds(stores, dests[j].host, key)
  {
    if dests != [] && !Holds(stores, dests[0].host, key) {
      FirstHeldIsFirst(dests[1..], stores, key);
      if FirstHeld(dests, stores, key).Some? {
        var i :| 0 <= i < |dests| - 1 && Holds(stores, dests[1..][i].host, key)
          && FirstHeld(dests[1..], stores, key).value == Server(stores, dests[1..][i].host)[key]
          && forall j :: 0 <= j < i ==> !Holds(stores, dests[1..][j].host, key);
        assert dests[i + 1] == dests[1..][i];
        forall j | 0 <= j < i + 1 ensures !Holds(stores, dests[j].host, key) {
          if j > 0 { assert dests[j] == dests[1..][j - 1]; }
        }
      } else {
        forall i | 0 <= i < |dests| ensures !Holds(stores, dests[i].host, key) {
          if i > 0 { assert dests[i] == dests[1..][i - 1]; }
        }
      }
    }
  }

  // What destinations asked in order replied: all but the last had no data. Failed
  // stands for a destination that was given up.
  ghost predicate RepliesOf(dests: seq<Destination>, stores: Stores, key: Bytes, replies: seq<Reply>) {
    && |replies| <= |dests|
    && (forall i :: 0 <= i < |replies| ==> replies[i] == Failed || replies[i] == ReplyOf(stores, dests[i].host, key))
    && (forall i :: 0 <= i < |replies| - 1 ==> !replies[i].Data?)
  }

  // The first data replied, or an error once all destinations were asked.
  ghost predicate Concludes(dests: seq<Destination>, replies: seq<Reply>, r: Result<Bytes, Error>) {
    match r
    case Ok(data) => replies != [] && replies[|replies| - 1] == Data(data)
    case Err(error) =>
      && |replies| == |dests| && (forall i :: 0 <= i < |replies| ==> !replies[i].Data?)
      && error == if dests == [] then NotRoutable else NotFound
  }

  // With no destination given up, that is the first holder's data.
  lemma RepliesDecide(rules: seq<Rule>, stores: Stores, key: Bytes, replies: seq<Reply>, r: Result<Bytes, Error>)
    requires FitsAll(rules, key) && RepliesOf(RoutesOf(rules, key), stores, key, replies)
    requires Concludes(RoutesOf(rules, key), replies, r) && Failed !in replies
    ensures r == PoolAnswer(rules, stores, key)
  {
    var dests := RoutesOf(rules, key);
    FirstHeldIsFirst(dests, stores, key);
    forall i | 0 <= i < |replies| ensures replies[i] == ReplyOf(stores, dests[i].host, key) {
      assert replies[i] in replies;
    }
    if r.Ok? {
      var last := |replies| - 1;
      assert Holds(stores, dests[last].host, key);
      var i :| 0 <= i < |dests| && Holds(stores, dests[i].host, key)
        && FirstHeld(dests, stores, key).value == Server(stores, dests[i].host)[key]
        && forall j :: 0 <= j < i ==> !Holds(stores, dests[j].host, key);
      assert i == last;
    }
  }

  /******* A write is read back *******/

  datatype Write = Write(host: string, key: Bytes, data: Bytes)

  function PutAll(stores: Stores, writes: seq<Write>): Stores
    decreases |writes|
  {
    if writes == [] then stores
    else PutAll(Put(stores, writes[0].host, writes[0].key, writes[0].data), writes[1..])
  }

  lemma {:induction false} OtherKeysStay(stores: Stores, writes: seq<Write>, host: string, key: Bytes)
    requires Holds(stores, host, key)
    requires forall w :: w in writes ==> w.key != key
    ensures Holds(PutAll(stores, writes), host, key)
    ensures Server(PutAll(stores, writes), host)[key] == Server(stores, host)[key]
    decreases |writes|
  {
    if writes != [] {
      OtherKeysStay(Put(stores, writes[0].host, writes[0].key, writes[0].data), writes[1..], host, key);
    }
  }

  // What Set stored, Get returns, whatever is stored afterwards under other keys.
  lemma SetThenGet(rules: seq<Rule>, stores: Stores, key: Bytes, data: Bytes, later: seq<Write>)
    requires FitsAll(rules, key) && ScanFits(rules, key) && RouteOf(rules, key).Some?
    requires forall w :: w in later ==> w.key != key
    ensures var stored := Put(stores, RouteOf(rules, key).value.host, key, data);
            PoolAnswer(rules, PutAll(stored, later), key) == Ok(data)
  {
    PoolIsCoherent(rules, key);
    var host := RouteOf(rules, key).value.host;
    OtherKeysStay(Put(stores, host, key, data), later, host, key);
  }

  /******* The pool *******/

  // A pooled connection, by where it dials.
  datatype Connection = Connection(host: string)

  function NewConnection(d: Destination): Connection {
    Connection(d.host)
  }

  class ScanPool {
    const rules: seq<Rule>
    var conn: map<Destination, Connection>

    ghost predicate Valid()
      reads this
    {
      forall d :: d in conn ==> conn[d] == NewConnection(d)
    }

    constructor (rules: seq<Rule>)
      ensures Valid() && this.rules == rules && conn == map[]
    {
      this.rules := rules;
      conn := map[];
    }

    method In(h: Bytes) returns (found: bool)
      requires ScanFits(rules, h)
      ensures found <==> RouteOf(rules, h).Some?
    {
      for i := 0 to |rules|
        invariant ScanFits(rules[i..], h) && RouteOf(rules, h) == RouteOf(rules[i..], h)
      {
        if Ranges.In(rules[i].range, h) {
          return true;
        }
        assert rules[i..][1..] == rules[i + 1..];
      }
      return false;
    }

    method Route(h: Bytes) returns (dest: Option<Destination>)
      requires ScanFits(rules, h)
      ensures dest == RouteOf(rules, h)
    {
      for i := 0 to |rules|
        invariant ScanFits(rules[i..], h) && RouteOf(rules, h) == RouteOf(rules[i..], h)
      {
        if Ranges.In(rules[i].range, h) {
          return Some(rules[i].dest);
        }
        assert rules[i..][1..] == rules[i + 1..];
      }
      return None;
    }

    method Routes(h: Bytes) returns (dests: seq<Destination>)
      requires FitsAll(rules, h)
      ensures dests == RoutesOf(rules, h)
    {
      dests := [];
      for i := 0 to |rules|
        invariant dests == RoutesOf(rules[..i], h)
      {
        RoutesOfSnoc(rules, i, h);
        if Ranges.In(rules[i].range, h) {
          dests := dests + [rules[i].dest];
        }
      }
      assert rules[..|rules|] == rules;
    }

    // Connections are made once per destination and kept.
    method Connect(d: Destination) returns (c: Connection)
      requires Valid()
      modifies this
      ensures Valid() && c == NewConnection(d)
      ensures conn == old(conn)[d := c]
    {
      if d in conn {
        c := conn[d];
      } else {
        c := NewConnection(d);
        conn := conn[d := c];
      }
      assert d in old(conn) ==> old(conn)[d := c] == old(conn);
    }

    // Up to three commands on one connection; only a lost command is retried.
    method Fetch(net: Network, c: Connection, key: Bytes) returns (reply: Reply)
      modifies net
      ensures net.stores == old(net.stores)
      ensures old(net.commands) < net.commands <= old(net.commands) + 3
      ensures reply == Failed || reply == ReplyOf(net.stores, c.host, key)
      ensures net.faults == old(net.faults) + (net.commands - old(net.commands)) - if reply == Failed then 0 else 1
      ensures reply == Failed <==> net.faults == old(net.faults) + 3
    {
      var trial := 1;
      reply := Failed;
      while trial <= BLOCK_GET_RETRIES
        invariant 1 <= trial <= BLOCK_GET_RETRIES + 1
        invariant reply == Failed && net.stores == old(net.stores)
        invariant net.commands == old(net.commands) + trial - 1 && net.faults == old(net.faults) + trial - 1
      {
        reply := net.Get(c.host, key);
        if reply != Failed {
          return;
        }
        trial := trial + 1;
      }
    }

    // A destination is given up after three lost commands, and the next one is asked.
    method Get(net: Network, key: Bytes) returns (r: Result<Bytes, Error>, ghost replies: seq<Reply>)
      requires Valid() && FitsAll(rules, key)
      modifies this, net
      ensures Valid() && net.stores == old(net.stores) && old(net.faults) <= net.faults
      ensures RepliesOf(RoutesOf(rules, key), net.stores, key, replies) && Concludes(RoutesOf(rules, key), replies, r)
      ensures Failed in replies ==> net.faults >= old(net.faults) + BLOCK_GET_RETRIES
      ensures net.commands <= old(net.commands) + 3 * |RoutesOf(rules, key)|
      ensures net.faults < old(net.faults) + BLOCK_GET_RETRIES ==> r == PoolAnswer(rules, net.stores, key)
    {
      var dests := Routes(key);
      r, replies := Ask(net, dests, key);
      if Failed !in replies {
        RepliesDecide(rules, net.stores, key, replies, r);
      }
    }

    method Ask(net: Network, dests: seq<Destination>, key: Bytes)
      returns (r: Result<Bytes, Error>, ghost replies: seq<Reply>)
      requires Valid()
      modifies this, net
      ensures Valid() && net.stores == old(net.stores) && old(net.faults) <= net.faults
      ensures RepliesOf(dests, net.stores, key, replies) && Concludes(dests, replies, r)
      ensures Failed in replies ==> net.faults >= old(net.faults) + BLOCK_GET_RETRIES
      ensures net.commands <= old(net.commands) + 3 * |dests|
    {
      replies := [];
      if |dests| == 0 {
        return Err(NotRoutable), [];
      }
      for i := 0 to |dests|
        invariant Valid() && net.stores == old(net.stores) && old(net.faults) <= net.faults
        invariant net.commands <= old(net.commands) + 3 * i
        invariant |replies| == i && RepliesOf(dests, net.stores, key, replies)
        invariant forall j :: 0 <= j < i ==> !replies[j].Data?
        invariant Failed in replies ==> net.faults >= old(net.faults) + BLOCK_GET_RETRIES
      {
        var c := Connect(dests[i]);
        var reply := Fetch(net, c, key);
        replies := replies + [reply];
        if reply.Data? {
          return Ok(reply.data), replies;
        }
      }
      return Err(NotFound), replies;
    }

    method Set(net: Network, key: Bytes, data: Bytes) returns (r: Result<(), Error>)
      requires Valid() && ScanFits(rules, key)
      modifies this, net
      ensures Valid()
      ensures r == Err(NotRoutable) <==> RouteOf(rules, key).None?
      ensures r == Err(NotRoutable) ==> net.stores == old(net.stores) && net.commands == old(net.commands)
      ensures r != Err(NotRoutable) ==> net.commands == old(net.commands) + 1
      ensures net.faults == old(net.faults) + if r.Ok? || r == Err(NotRoutable) then 0 else 1
      ensures r.Ok? ==> net.stores == Put(old(net.stores), RouteOf(rules, key).value.host, key, data)
      ensures RouteOf(rules, key).Some? ==>
                net.stores == old(net.stores)
                || net.stores == Put(old(net.stores), RouteOf(rules, key).value.host, key, data)
    {
      var dest := Route(key);
      if dest.None? {
        return Err(NotRoutable);
      }
      var c := Connect(dest.value);
      var ok := net.Set(c.host, key, data);
      r := if ok then Ok(()) else Err(ConnectionError);
    }
  }
}
