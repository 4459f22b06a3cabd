/** The request handlers of one node, each run without interruption (src/rpc/mod.rs). */
module Servers {
  import opened Ids
  import opened Peers
  import opened Tables
  import opened Nearest
  import opened RoutingTables
  import opened Messages
  import opened Lookups

  /** What a node holds after a request, and its reply; None if the handler panicked. */
  datatype Served = Served(table: Table, store: map<seq<Byte>, seq<Byte>>, reply: Option<Message>)

  /** The sender passes the check and can be read. */
  predicate Greetable(m: Message) {
    ValidateRequest(m) && Decodable(m.myself.value)
  }

  /** A request in one go: the sender is offered to the table once, whatever is asked. */
  function Serve(rpc: Rpc, t: Table, store: map<seq<Byte>, seq<Byte>>, m: Message): Served
    requires Layout(t)
  {
    Served(Greet(t, m),
           if Greetable(m) && rpc.StoreRpc? then store[m.key := m.value] else store,
           if !ValidateRequest(m) then Some(CreateInvalidResponse())
           else if !Greetable(m) then None
           else Reply(rpc, Greet(t, m), store, m))
  }

  function Greet(t: Table, m: Message): (u: Table)
    requires Layout(t)
    ensures Layout(u)
  {
    if Greetable(m) then
      UpdateRefinesEager(t, Sender(m));
      Updated(t, Sender(m)).table
    else t
  }

  function Reply(rpc: Rpc, t: Table, store: map<seq<Byte>, seq<Byte>>, m: Message): Option<Message>
    requires Layout(t)
  {
    match rpc
    case StoreRpc => Some(CreateStoreResponse(true))
    case PingRpc => Some(CreatePingResponse())
    case FindNodeRpc => NearestReply(t, m.key)
    case FindValueRpc =>
      if m.key in store then Some(CreateFindValueResponse(m.key, store[m.key])) else NearestReply(t, m.key)
  }

  function NearestReply(t: Table, key: seq<Byte>): Option<Message>
    requires Layout(t)
  {
    if ReadKey(key).Some? then Some(CreateFindNodeResponse(NearestPeers(t, ReadKey(key).value, t.k))) else None
  }

  // A miss goes on as a find-node, which offers the sender a second time: as if it had not.
  lemma MissIsFindNode(t: Table, store: map<seq<Byte>, seq<Byte>>, m: Message)
    requires Layout(t) && m.key !in store
    ensures var s := Serve(FindValueRpc, t, store, m);
            Layout(s.table) && Serve(FindNodeRpc, s.table, store, m) == s == Serve(FindNodeRpc, t, store, m)
  {
    if Greetable(m) {
      UpdateIdempotent(t, Sender(m));
    }
  }

  /** Which requests a node can answer. */
  predicate Answerable(rpc: Rpc, store: map<seq<Byte>, seq<Byte>>, m: Message) {
    || !ValidateRequest(m)
    || (&& |m.myself.value.id| >= 16
        && (rpc.FindNodeRpc? ==> |m.key| >= 16)
        && (rpc.FindValueRpc? ==> |m.key| >= 16 || m.key in store))
  }

  // A handler answers exactly the requests it refuses and those whose sender id, and key
  // where it looks for nodes near it, are long enough. Otherwise it panics; the store then
  // is as before, and so is the table if the sender could not be read.
  lemma AnswersIff(rpc: Rpc, t: Table, store: map<seq<Byte>, seq<Byte>>, m: Message)
    requires Layout(t)
    ensures Serve(rpc, t, store, m).reply.Some? <==> Answerable(rpc, store, m)
    ensures Serve(rpc, t, store, m).reply.None? ==>
              && Serve(rpc, t, store, m).store == store
              && (|m.myself.value.id| < 16 ==> Serve(rpc, t, store, m).table == t)
  {
  }

  // Requests that pass the check and make the handler panic: by the sender's id in every
  // handler, by the key in a find-node and in a find-value that misses.
  lemma CheckedRequestsCanPanic(t: Table) returns (badSender: Message, badKey: Message)
    requires Layout(t)
    ensures ValidateRequest(badSender) && forall rpc, store :: Serve(rpc, t, store, badSender).reply.None?
    ensures ValidateRequest(badKey) && Serve(FindNodeRpc, t, map[], badKey).reply.None?
    ensures forall store :: Serve(FindValueRpc, t, store, badKey).reply.None? <==> badKey.key !in store
  {
    badSender := EMPTY.(myself := Some(ProtoPeer([1], Utf8("a"))));
    badKey := EMPTY.(key := [1], myself := Some(ProtoPeerFromPeer(Peer(Zero(), "a"))));
    var sender := badSender;
    forall rpc, store
      ensures Serve(rpc, t, store, sender).reply.None?
    {
      AnswersIff(rpc, t, store, sender);
    }
    var key := badKey;
    AnswersIff(FindNodeRpc, t, map[], key);
    forall store
      ensures Serve(FindValueRpc, t, store, key).reply.None? <==> key.key !in store
    {
      AnswersIff(FindValueRpc, t, store, key);
    }
  }

  // A request is refused exactly when its sender is missing, has an empty id or an address
  // that is empty or not valid text; a refusal says BAD_REQUEST and changes nothing.
  lemma RefusedIff(rpc: Rpc, t: Table, store: map<seq<Byte>, seq<Byte>>, m: Message)
    requires Layout(t)
    ensures var s := Serve(rpc, t, store, m);
            var bad := m.myself.None? || m.myself.value.id == [] || m.myself.value.addrs in {NotUtf8, Utf8("")};
            && (bad ==> s.table == t && s.store == store && s.reply.Some? && s.reply.value.code == BAD_REQUEST
                        && s.reply.value.value == [] && s.reply.value.closerPeers == [])
            && (!bad && s.reply.Some? ==> s.reply.value.code == OK)
  {
  }

  // Serving a request makes its sender known, unless k others of its class are; no request
  // but a store touches the store.
  lemma GreetedIsKnownIff(rpc: Rpc, t: Table, store: map<seq<Byte>, seq<Byte>>, m: Message)
    requires Layout(t) && Greetable(m)
    ensures var p := Sender(m);
            var s := Serve(rpc, t, store, m);
            && (p in Members(s.table.buckets) <==>
                  p in Members(t.buckets) || |Class(t, Cpl(t.local.id, p.id))| < t.k)
            && s.store == if rpc.StoreRpc? then store[m.key := m.value] else store
  {
    var p := Sender(m);
    var u := Updated(t, p).table;
    UpdateRefinesEager(t, p);
    OneBucketDecides(t, p);
    OneBucketDecides(u, p);
    var l := Abs(t).lists[Cpl(t.local.id, p.id)];
    assert Abs(u).lists[Cpl(t.local.id, p.id)] == Offer(l, p, t.k);
  }

  // A store that can read its sender succeeds, and its caller sees that.
  lemma StoreReply(t: Table, store: map<seq<Byte>, seq<Byte>>, m: Message)
    requires Layout(t) && Greetable(m)
    ensures var s := Serve(StoreRpc, t, store, m);
            && s.store == store[m.key := m.value]
            && s.reply.Some? && s.reply.value.kind == STORE && s.reply.value.code == OK
            && ValidateStoreResult(Response(s.reply.value)).None?
  {
  }

  // A ping is answered with an empty message.
  lemma PingReply(t: Table, store: map<seq<Byte>, seq<Byte>>, m: Message)
    requires Layout(t) && Greetable(m)
    ensures var s := Serve(PingRpc, t, store, m);
            s.reply.Some? && s.reply.value.code == OK && ToReply(Response(s.reply.value)) == Answer([], [])
  {
  }

  // What the caller of a find-value reads on a hit: the stored value under the key it asked for.
  lemma HitReply(t: Table, store: map<seq<Byte>, seq<Byte>>, m: Message)
    requires Layout(t) && Greetable(m) && m.key in store
    ensures var s := Serve(FindValueRpc, t, store, m);
            && s.reply.Some? && s.reply.value.key == m.key && s.reply.value.code == OK
            && ToReply(Response(s.reply.value)) == Answer(store[m.key], [])
  {
  }

  // What the caller of a find-node, or of a find-value that misses, reads: no value, and the
  // k peers nearest to the key in the table that the sender was just offered to.
  lemma NearestReplied(rpc: Rpc, t: Table, store: map<seq<Byte>, seq<Byte>>, m: Message)
    requires Layout(t) && Greetable(m) && |m.key| >= 16
    requires rpc.FindNodeRpc? || (rpc.FindValueRpc? && m.key !in store)
    ensures var s := Serve(rpc, t, store, m);
            var nearest := NearestPeers(Updated(t, Sender(m)).table, KeyFromBytes(m.key), t.k);
            && s.reply.Some? && s.reply.value.value == [] && s.reply.value.code == OK
            && AllDecodable(s.reply.value) && DecodeAll(s.reply.value.closerPeers) == nearest
            && ToReply(Response(s.reply.value)) == Answer([], nearest)
  {
    UpdateRefinesEager(t, Sender(m));
    ListRoundTrip(NearestPeers(Updated(t, Sender(m)).table, KeyFromBytes(m.key), t.k));
  }

  // What was stored is served, under keys of any length.
  lemma StoredIsServed(t: Table, store: map<seq<Byte>, seq<Byte>>, put: Message, get: Message)
    requires Layout(t) && ValidateRequest(put) && ValidateRequest(get) && put.key == get.key
    requires |put.myself.value.id| >= 16 && |get.myself.value.id| >= 16
    ensures var s := Serve(StoreRpc, t, store, put);
            && Layout(s.table) && s.reply.Some? && ValidateStoreResult(Response(s.reply.value)).None?
            && var r := Serve(FindValueRpc, s.table, s.store, get).reply;
               && r.Some? && r.value.key == put.key && r.value.value == put.value
               && ToReply(Response(r.value)) == Answer(put.value, [])
  {
    StoreReply(t, store, put);
    var s := Serve(StoreRpc, t, store, put);
    HitReply(s.table, s.store, get);
  }

  class MemoryStore {
    var store: map<seq<Byte>, seq<Byte>>

    constructor ()
      ensures store == map[]
    {
      store := map[];
    }

    method Put(key: seq<Byte>, value: seq<Byte>)
      modifies this
      ensures store == old(store)[key := value]
    {
      store := store[key := value];
    }

    method Get(key: seq<Byte>) returns (value: Option<seq<Byte>>)
      ensures value == if key in store then Some(store[key]) else None
    {
      value := if key in store then Some(store[key]) else None;
    }
  }

  class DHTServer {
    const kvstore: MemoryStore
    const routingTable: RoutingTable

    ghost predicate Valid()
      reads routingTable, routingTable.buckets
    {
      routingTable.Valid() && kvstore as object !in routingTable.Repr
    }

    constructor (kvstore: MemoryStore, routingTable: RoutingTable)
      requires routingTable.Valid() && kvstore as object !in routingTable.Repr
      ensures Valid() && this.kvstore == kvstore && this.routingTable == routingTable
    {
      this.kvstore := kvstore;
      this.routingTable := routingTable;
    }

    /** Refusals are only logged; false stands for the panic on a peer that cannot be read. */
    method UpdateRoutingTable(peer: ProtoPeer) returns (read: bool)
      requires Valid()
      modifies routingTable.Repr
      ensures Valid() && fresh(routingTable.Repr - old(routingTable.Repr))
      ensures read <==> Decodable(peer)
      ensures read ==> routingTable.View() == Updated(old(routingTable.View()), ProtoPeerToPeer(peer)).table
      ensures !read ==> routingTable.View() == old(routingTable.View())
    {
      read := Decodable(peer);
      if read {
        var ok := routingTable.Update(ProtoPeerToPeer(peer));
      }
    }

    method StoreAsync(message: Message) returns (response: Option<Message>)
      requires Valid()
      modifies kvstore, routingTable.Repr
      ensures Valid() && fresh(routingTable.Repr - old(routingTable.Repr))
      ensures Served(routingTable.View(), kvstore.store, response)
           == Serve(StoreRpc, old(routingTable.View()), old(kvstore.store), message)
      ensures response.Some? <==> Answerable(StoreRpc, old(kvstore.store), message)
    {
      AnswersIff(StoreRpc, routingTable.View(), kvstore.store, message);
      if !ValidateRequest(message) {
        return Some(CreateInvalidResponse());
      }
      ghost var store := kvstore.store;
      var read := UpdateRoutingTable(message.myself.value);
      assert kvstore.store == store;
      if !read {
        return None;
      }
      kvstore.Put(message.key, message.value);
      return Some(CreateStoreResponse(true));
    }

    method FindNodeAsync(message: Message) returns (response: Option<Message>)
      requires Valid()
      modifies routingTable.Repr
      ensures Valid() && fresh(routingTable.Repr - old(routingTable.Repr))
      ensures Served(routingTable.View(), kvstore.store, response)
           == Serve(FindNodeRpc, old(routingTable.View()), old(kvstore.store), message)
      ensures response.Some? <==> Answerable(FindNodeRpc, old(kvstore.store), message)
    {
      AnswersIff(FindNodeRpc, routingTable.View(), kvstore.store, message);
      if !ValidateRequest(message) {
        return Some(CreateInvalidResponse());
      }
      var read := UpdateRoutingTable(message.myself.value);
      if !read {
        return None;
      }
      response := AnswerNearest(message.key);
    }

    /** The k nearest peers to the key, if it can be read. */
    method AnswerNearest(key: seq<Byte>) returns (response: Option<Message>)
      requires Valid()
      ensures response == NearestReply(routingTable.View(), key)
    {
      var target := ReadKey(key);
      if target.None? {
        return None;
      }
      var nearest := routingTable.KNearestPeers(target.value);
      var reply := BuildFindNodeResponse(nearest);
      response := Some(reply);
    }

    /** A hit answers with the stored value, whatever the length of its key. A miss updates
        the table a second time through `FindNodeAsync`, which changes nothing: reply and
        table are those of a plain find-node. */
    method FindValueAsync(message: Message) returns (response: Option<Message>)
      requires Valid()
      modifies routingTable.Repr
      ensures Valid() && fresh(routingTable.Repr - old(routingTable.Repr))
      ensures Served(routingTable.View(), kvstore.store, response)
           == Serve(FindValueRpc, old(routingTable.View()), old(kvstore.store), message)
      ensures response.Some? <==> Answerable(FindValueRpc, old(kvstore.store), message)
    {
      AnswersIff(FindValueRpc, routingTable.View(), kvstore.store, message);
      if !ValidateRequest(message) {
        return Some(CreateInvalidResponse());
      }
      ghost var t := routingTable.View();
      var read := UpdateRoutingTable(message.myself.value);
      if !read {
        return None;
      }
      if message.key !in kvstore.store {
        MissIsFindNode(t, kvstore.store, message);
      }
      response := ValueOrNodes(message);
    }

    /** The stored value, or else whatever a find-node answers. */
    method ValueOrNodes(message: Message) returns (response: Option<Message>)
      requires Valid()
      modifies routingTable.Repr
      ensures Valid() && fresh(routingTable.Repr - old(routingTable.Repr))
      ensures Served(routingTable.View(), kvstore.store, response)
           == if message.key in old(kvstore.store)
              then Served(old(routingTable.View()), old(kvstore.store),
                          Some(CreateFindValueResponse(message.key, old(kvstore.store)[message.key])))
              else Serve(FindNodeRpc, old(routingTable.View()), old(kvstore.store), message)
    {
      var found := kvstore.Get(message.key);
      if found.Some? {
        return Some(CreateFindValueResponse(message.key, found.value));
      }
      response := FindNodeAsync(message);
    }

    method PingAsync(message: Message) returns (response: Option<Message>)
      requires Valid()
      modifies routingTable.Repr
      ensures Valid() && fresh(routingTable.Repr - old(routingTable.Repr))
      ensures Served(routingTable.View(), kvstore.store, response)
           == Serve(PingRpc, old(routingTable.View()), old(kvstore.store), message)
      ensures response.Some? <==> Answerable(PingRpc, old(kvstore.store), message)
    {
      AnswersIff(PingRpc, routingTable.View(), kvstore.store, message);
      if !ValidateRequest(message) {
        return Some(CreateInvalidResponse());
      }
      var read := UpdateRoutingTable(message.myself.value);
      if !read {
        return None;
      }
      return Some(CreatePingResponse());
    }
  }
}
