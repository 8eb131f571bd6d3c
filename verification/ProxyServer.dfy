/**
 The proxy's own code (src/server.c) on the hash table of request objects: each method is proved
 to take the step that the transition system in Proxy prescribes.
 */
module ProxyServer {
  import opened Bytes
  import opened Tables
  import opened Requests
  import opened HashTables
  import P = Proxy

  // ---------------------------------------------------------------------------
  // The table of objects and the table of their values

  ghost function Values(es: Table<Request>): (t: Table<Req>)
    reads set i | 0 <= i < |es| :: es[i].1
    ensures |t| == |es| && forall i :: 0 <= i < |es| ==> t[i] == (es[i].0, es[i].1.Value())
  {
    if es == [] then [] else Values(es[..|es| - 1]) + [(es[|es| - 1].0, es[|es| - 1].1.Value())]
  }

  ghost predicate DistinctObjects(es: Table<Request>) {
    forall i, j :: 0 <= i < j < |es| ==> es[i].1 != es[j].1
  }

  lemma {:induction false} LookupValues(es: Table<Request>, k: Id)
    requires DistinctKeys(es)
    ensures DistinctKeys(Values(es))
    ensures Lookup(Values(es), k) == match Lookup(es, k) case None => None case Some(o) => Some(o.Value())
  {
    hide Values, Lookup;
    if i :| 0 <= i < |es| && es[i].0 == k {
      LookupAt(es, i);
      LookupAt(Values(es), i);
      assert Values(es)[i].0 == k;
    }
  }

  lemma RemoveValues(es: Table<Request>, k: Id)
    requires DistinctKeys(es) && DistinctObjects(es)
    ensures Values(Remove(es, k)) == Remove(Values(es), k)
    ensures DistinctKeys(Remove(es, k)) && DistinctObjects(Remove(es, k))
    ensures forall i :: 0 <= i < |Remove(es, k)| ==> Remove(es, k)[i] in es
  {
    hide Values, Lookup, Remove;
    RemoveLaws(es, k);
    if i :| 0 <= i < |es| && es[i].0 == k {
      RemoveAt(es, i);
      RemoveAt(Values(es), i);
      assert Values(es[..i] + es[i + 1..]) == Values(es)[..i] + Values(es)[i + 1..];
    } else {
      assert Lookup(es, k).None?;
      RemoveAbsent(es, k);
      RemoveAbsent(Values(es), k);
    }
  }

  lemma RemoveAfterPut<V>(t: Table<V>, k: Id, v: V)
    requires DistinctKeys(t)
    ensures Remove(Put(t, k, v), k) == Remove(t, k)
  {
    hide Put, Remove, Lookup;
    PutLaws(t, k, v);
    if i :| 0 <= i < |t| && t[i].0 == k {
      PutAt(t, i, v);
      RemoveAt(t, i);
      RemoveAt(Put(t, k, v), i);
    } else {
      PutNew(t, k, v);
      RemoveAbsent(t, k);
      RemoveAt(Put(t, k, v), |t|);
    }
  }

  /** The table between two calls. */
  ghost predicate Ready(requests: HashTable<Request>)
    reads requests, requests.order, requests.arrays.Values
  {
    && requests.Valid() && requests.bucketLevels >= 2
    && DistinctKeys(requests.Entries()) && DistinctObjects(requests.Entries())
  }

  ghost function Objects(es: Table<Request>): set<Request> {
    set i | 0 <= i < |es| :: es[i].1
  }

  /** ff_hash_table_remove_item, seen through the values of the stored requests. */
  method RemoveRequest(requests: HashTable<Request>, id: Id)
    requires Ready(requests)
    modifies requests, requests.order, requests.arrays.Values
    ensures Ready(requests)
    ensures requests.Entries() == Remove(old(requests.Entries()), id)
    ensures Values(requests.Entries()) == Remove(old(Values(requests.Entries())), id)
    ensures Objects(requests.Entries()) <= old(Objects(requests.Entries()))
    ensures fresh(requests.arrays.Values - old(requests.arrays.Values))
    ensures forall k :: 0 <= k < |requests.order| ==> requests.order[k] in old(requests.order)
  {
    hide HashTable.Valid, HashTable.Entries, HashTable.CleanPath, Values, Remove, Lookup;
    ghost var es := requests.Entries();
    RemoveValues(es, id);
    ghost var es' := Remove(es, id);
    ghost var v := Values(es');
    assert Objects(es') <= Objects(es) by {
      forall i | 0 <= i < |es'| ensures es'[i].1 in Objects(es) {
        assert es'[i] in es;
      }
    }
    requests.Remove(id);
    assert Values(es') == v;
    assert forall k :: 0 <= k < |requests.order| ==> requests.order[k] in requests.order;
  }

  // ---------------------------------------------------------------------------
  // Iteration

  /** struct ff_hash_table_iterator; `index` counts the steps taken along the list. */
  class TableIterator<V> {
    const table: HashTable<V>
    var currentNode: Node?<V>
    var started: bool
    ghost var index: nat

    ghost predicate Valid()
      reads this, table, table.order, table.arrays.Values
    {
      && table.Valid() && index <= |table.order|
      && (started ==> currentNode == At(table.order, index))
      && (!started ==> index == 0)
    }

    /** ff_hash_table_iterator_init. */
    constructor (table: HashTable<V>)
      requires table.Valid()
      ensures Valid() && this.table == table && index == 0 && !started
    {
      this.table := table;
      currentNode, started, index := null, false, 0;
    }

    /** ff_hash_table_iterator_next: the values in list order, then null for ever. */
    method Next() returns (value: Option<V>)
      requires Valid()
      modifies this
      ensures Valid() && started && table.Entries() == old(table.Entries())
      ensures index == if old(started) && old(index) < |table.order| then old(index) + 1 else old(index)
      ensures value == if index < |table.order| then Some(table.Entries()[index].1) else None
    {
      hide HashTable.ArraysOk, HashTable.CellsOk, HashTable.ChainsOk;
      if !started {
        currentNode := table.linkedList;
        started := true;
      } else if currentNode != null {
        currentNode := currentNode.nextInList;
        index := index + 1;
      }
      value := if currentNode == null then None else Some(currentNode.value);
    }
  }

  // ---------------------------------------------------------------------------
  // Clean-up

  lemma {:induction false} ExpiredIdsSnoc(t: Table<Req>, x: (Id, Req), now: int)
    ensures P.ExpiredIds(t + [x], now) == P.ExpiredIds(t, now) + if P.Expired(x.1, now) then [x.1.requestId] else []
  {
    if t == [] {
      assert [x][1..] == [] && [] + [x] == [x];
    } else {
      hide P.Expired;
      assert (t + [x])[0] == t[0] && (t + [x])[1..] == t[1..] + [x];
      ExpiredIdsSnoc(t[1..], x, now);
      Associate(if P.Expired(t[0].1, now) then [t[0].1.requestId] else [], P.ExpiredIds(t[1..], now),
                if P.Expired(x.1, now) then [x.1.requestId] else []);
    }
  }

  predicate IsExpired(request: Request, now: int)
    reads request
    ensures IsExpired(request, now) == P.Expired(request.Value(), now)
  {
    request.state == Receiving && now - request.receivedAt >= P.OLD_REQUEST_SECS
  }

  /** The stored objects that are expired, in the order of the list; `vs` are their values. */
  ghost function ExpiredObjects(es: Table<Request>, vs: Table<Req>, now: int): seq<Request>
    requires |es| == |vs|
  {
    if es == [] then []
    else
      var n := |es| - 1;
      ExpiredObjects(es[..n], vs[..n], now) + if P.Expired(vs[n].1, now) then [es[n].1] else []
  }

  lemma {:induction false} ExpiredObjectsIds(es: Table<Request>, vs: Table<Req>, now: int)
    requires |es| == |vs| && forall i :: 0 <= i < |es| ==> vs[i] == (es[i].0, es[i].1.Value())
    ensures var found, ids := ExpiredObjects(es, vs, now), P.ExpiredIds(vs, now);
      |found| == |ids| <= |es| && forall i :: 0 <= i < |found| ==> found[i].requestId == ids[i]
  {
    if es != [] {
      hide P.Expired, P.ExpiredIds;
      var n := |es| - 1;
      ExpiredObjectsIds(es[..n], vs[..n], now);
      assert vs == vs[..n] + [vs[n]];
      ExpiredIdsSnoc(vs[..n], vs[n], now);
    } else {
      assert P.ExpiredIds([], now) == [];
    }
  }

  lemma ExpiredObjectsStep(es: Table<Request>, vs: Table<Req>, i: nat, now: int)
    requires i < |es| == |vs|
    ensures ExpiredObjects(es[..0], vs[..0], now) == []
    ensures ExpiredObjects(es[..i + 1], vs[..i + 1], now) ==
      ExpiredObjects(es[..i], vs[..i], now) + if P.Expired(vs[i].1, now) then [es[i].1] else []
  {
    hide P.Expired;
    assert es[..i + 1][..i] == es[..i] && vs[..i + 1][..i] == vs[..i];
  }

  /** Note one more request. */
  method NoteOne(expired: array<Request?>, count: nat, request: Request)
    requires count < expired.Length
    modifies expired
    ensures expired[..count + 1] == old(expired[..count]) + [request]
  {
    expired[count] := request;
  }

  /** The first phase of a clean-up pass: note the expired requests in an array sized from `length`. */
  method CollectExpired(requests: HashTable<Request>, now: int) returns (expired: array<Request?>, count: nat)
    requires Ready(requests)
    ensures fresh(expired) && count <= expired.Length == requests.length
    ensures expired[..count] == ExpiredObjects(requests.Entries(), Values(requests.Entries()), now)
  {
    hide HashTable.Valid, HashTable.Entries, TableIterator.Valid, Values, P.Expired;
    hide Ready, IsExpired, ExpiredObjects;
    ghost var es, vs, i := requests.Entries(), Values(requests.Entries()), 0;
    assert requests.Valid() && requests.length == |es| == |requests.order| by { LengthIs(requests); }
    var it := new TableIterator(requests);
    expired := new Request?[requests.length](_ => null);
    count := 0;
    NoneExpired(es, vs, now);
    var request := it.Next();
    while request.Some?
      invariant it.Valid() && it.started && it.index == i <= |es| && it.table == requests
      invariant fresh(it) && fresh(expired) && expired.Length == |es| && requests.Entries() == es
      invariant request == if i < |es| then Some(es[i].1) else None
      invariant count <= i && expired[..count] == ExpiredObjects(es[..i], vs[..i], now)
      decreases |es| - i
    {
      ExpiredObjectsStep(es, vs, i, now);
      if IsExpired(request.value, now) {
        NoteOne(expired, count, request.value);
        count := count + 1;
      }
      request := it.Next();
      i := i + 1;
    }
    assert es[..i] == es && vs[..i] == vs;
    assert Values(es) == vs;
  }

  lemma NoneExpired(es: Table<Request>, vs: Table<Req>, now: int)
    requires |es| == |vs|
    ensures ExpiredObjects(es[..0], vs[..0], now) == []
  {
  }

  /** The ids of the noted requests, which the second phase removes one by one. */
  method NoteExpired(requests: HashTable<Request>, now: int) returns (ids: seq<Id>)
    requires Ready(requests)
    ensures ids == P.ExpiredIds(Values(requests.Entries()), now)
  {
    hide Ready, HashTable.Entries, Values, P.ExpiredIds, ExpiredObjects;
    var expired, count := CollectExpired(requests, now);
    ghost var es, vs := requests.Entries(), Values(requests.Entries());
    ExpiredObjectsIds(es, vs, now);
    ghost var noted := ExpiredObjects(es, vs, now);
    assert forall i :: 0 <= i < count ==> expired[i] == expired[..count][i] == noted[i];
    ids := [];
    for i := 0 to count
      invariant ids == P.ExpiredIds(vs, now)[..i]
    {
      ids := ids + [expired[i].requestId];
    }
  }

  lemma LengthIs(requests: HashTable<Request>)
    requires Ready(requests)
    ensures requests.Valid() && requests.length == |requests.Entries()| == |requests.order|
  {
  }

  // ---------------------------------------------------------------------------
  // Packets

  /** Once one stored object has changed, the table of values is the old one with that value put in. */
  lemma PutThrough(es: Table<Request>, t: Table<Req>, k: Id, request: Request)
    requires DistinctKeys(es) && DistinctObjects(es) && Lookup(es, k) == Some(request)
    requires |t| == |es| && forall i :: 0 <= i < |es| ==> t[i].0 == es[i].0
    requires forall i :: 0 <= i < |es| && es[i].1 != request ==> t[i].1 == es[i].1.Value()
    ensures Values(es) == Put(t, k, request.Value())
  {
    hide Values, Lookup, Put;
    var i :| 0 <= i < |es| && es[i].0 == k;
    LookupAt(es, i);
    PutAt(t, i, request.Value());
    assert Values(es) == t[i := (k, request.Value())];
  }

  lemma LookupObject(es: Table<Request>, k: Id)
    requires Lookup(es, k).Some? && DistinctKeys(es)
    ensures Lookup(es, k).value in Objects(es)
  {
    hide Lookup;
    var i :| 0 <= i < |es| && es[i].0 == k;
    LookupAt(es, i);
  }

  /** Store a new request under an id that has none. */
  method Register(requests: HashTable<Request>, id: Id, source: Source, now: int) returns (request: Request)
    requires Ready(requests) && Lookup(requests.Entries(), id).None?
    modifies requests, requests.order, requests.arrays.Values
    ensures Ready(requests) && fresh(request)
    ensures requests.Entries() == old(requests.Entries()) + [(id, request)]
    ensures request.Value() == FRESH.(source := source, receivedAt := now)
    ensures fresh(requests.arrays.Values - old(requests.arrays.Values))
    ensures forall k :: 0 <= k < |requests.order| ==> requests.order[k] in old(requests.order) || fresh(requests.order[k])
  {
    hide HashTable.Valid, HashTable.Entries, Lookup, Put;
    ghost var es := requests.Entries();
    ghost var objects := Objects(es);
    request := new Request();
    assert request !in objects;
    assert forall i :: 0 <= i < |es| ==> es[i].1 in objects;
    request.source, request.receivedAt := source, now;
    PutNew(es, id, request);
    PutLaws(es, id, request);
    requests.Put(id, request);
    assert forall k :: 0 <= k < |requests.order| ==> requests.order[k] in requests.order;
  }

  /** The request of `id`: the stored one, or a new one that is stored first. */
  method FindOrCreate(requests: HashTable<Request>, id: Id, source: Source, now: int) returns (request: Request)
    requires Ready(requests)
    modifies requests, requests.order, requests.arrays.Values
    ensures Ready(requests)
    ensures Lookup(requests.Entries(), id) == Some(request)
    ensures var t, t' := old(Values(requests.Entries())), Values(requests.Entries());
      match Lookup(t, id)
      case Some(r) => t' == t && request.Value() == r
      case None => t' == Put(t, id, request.Value()) && request.Value() == FRESH.(source := source, receivedAt := now)
    ensures requests.Entries() ==
      if Lookup(old(requests.Entries()), id).Some? then old(requests.Entries())
      else old(requests.Entries()) + [(id, request)]
    ensures request in old(Objects(requests.Entries())) || fresh(request)
    ensures Objects(requests.Entries()) <= old(Objects(requests.Entries())) + {request}
    ensures fresh(requests.arrays.Values - old(requests.arrays.Values))
    ensures forall k :: 0 <= k < |requests.order| ==> requests.order[k] in old(requests.order) || fresh(requests.order[k])
  {
    hide HashTable.Valid, HashTable.Entries, Lookup, Put, Values;
    ghost var es, t := requests.Entries(), Values(requests.Entries());
    LookupValues(es, id);
    var found := requests.Get(id);
    if found.Some? {
      LookupObject(es, id);
      request := found.value;
    } else {
      request := Register(requests, id, source, now);
      LookupAt(requests.Entries(), |es|);
      PutNew(t, id, request.Value());
      assert Values(requests.Entries()) == t + [(id, request.Value())];
    }
  }

  lemma PutTwice<V>(t: Table<V>, k: Id, v: V, w: V)
    requires DistinctKeys(t)
    ensures Put(Put(t, k, v), k, w) == Put(t, k, w)
  {
    hide Put, Lookup;
    PutLaws(t, k, v);
    if i :| 0 <= i < |t| && t[i].0 == k {
      PutAt(t, i, v);
      PutAt(t, i, w);
      PutAt(Put(t, k, v), i, w);
    } else {
      PutNew(t, k, v);
      PutNew(t, k, w);
      PutAt(Put(t, k, v), |t|, w);
    }
  }

  /** Parse a packet into the stored request of `id` and act on the state it is left in. */
  method Feed(requests: HashTable<Request>, request: Request, id: Id, data: seq<byte>) returns (worker: Option<Request>)
    requires Ready(requests) && Lookup(requests.Entries(), id) == Some(request)
    modifies requests, requests.order, requests.arrays.Values, request
    ensures Ready(requests)
    ensures var r' := ParseChunk(old(request.Value()), data); var t := old(Values(requests.Entries()));
      && Values(requests.Entries()) == (if r'.state == ReceivingFail then Remove(t, id) else Put(t, id, r'))
      && worker == (if r'.state == Received then Some(request) else None)
      && request.Value() == r'
      && requests.Entries() ==
         if r'.state == ReceivingFail then Remove(old(requests.Entries()), id) else old(requests.Entries())
    ensures Objects(requests.Entries()) <= old(Objects(requests.Entries()))
    ensures fresh(requests.arrays.Values - old(requests.arrays.Values))
    ensures forall k :: 0 <= k < |requests.order| ==> requests.order[k] in old(requests.order)
  {
    hide HashTable.Valid, HashTable.Entries, Values, Lookup, Put, Remove, ParseChunk;
    ghost var es, t := requests.Entries(), Values(requests.Entries());
    assert forall i :: 0 <= i < |es| ==> t[i] == (es[i].0, es[i].1.Value());
    request.Parse(data);
    PutThrough(es, t, id, request);
    worker := None;
    match request.state {
      case ReceivingFail =>
        RemoveAfterPut(t, id, request.Value());
        RemoveRequest(requests, id);
      case Received =>
        worker := Some(request);
      case _ =>
    }
  }

  /** `s` after request `r` is handed to a worker under key `k`. */
  ghost function Handed(s: P.Server, k: Id, r: Req): P.Server {
    s.(dispatched := s.dispatched + [(k, r)], busy := if k == 0 then s.busy else s.busy + multiset{k})
  }

  /** Entries under other keys than `id` are the same objects. */
  ghost predicate SameElsewhere(es: Table<Request>, es': Table<Request>, id: Id) {
    forall k {:trigger Lookup(es', k)} :: k != id ==> Lookup(es', k) == Lookup(es, k)
  }

  /** ff_proxy_process_incoming_packet; returns the request a worker thread is started for, with its table key. */
  method ProcessPacket(requests: HashTable<Request>, p: P.Datagram, ghost s: P.Server)
    returns (worker: Option<Request>, id: Id)
    requires Ready(requests) && s.table == Values(requests.Entries())
    modifies requests, requests.order, requests.arrays.Values, Objects(requests.Entries())
    ensures Ready(requests)
    ensures var s' := s.(table := Values(requests.Entries()));
      P.Step(s, P.Recv(p)) == match worker case None => s' case Some(o) => Handed(s', id, o.Value())
    ensures IsRawHttp(P.Data(p)) ==>
      && worker.Some? && id == 0 && worker.value.Value() == RawRequest(FRESH, P.Data(p))
      && fresh(worker.value) && worker.value !in Objects(requests.Entries())
    ensures !IsRawHttp(P.Data(p)) && worker.Some? ==>
      id == IdField(p.buffer) != 0 && Lookup(requests.Entries(), id) == Some(worker.value)
    ensures SameElsewhere(old(requests.Entries()), requests.Entries(), IdField(p.buffer))
    ensures IsRawHttp(P.Data(p)) ==> requests.Entries() == old(requests.Entries())
    ensures fresh(Objects(requests.Entries()) - old(Objects(requests.Entries())))
    ensures fresh(requests.arrays.Values - old(requests.arrays.Values))
    ensures forall k :: 0 <= k < |requests.order| ==> requests.order[k] in old(requests.order) || fresh(requests.order[k])
  {
    hide Ready, Values, Lookup, Put, Remove, ParseChunk, IsRawHttp, RawRequest, HashTable.Entries, P.Step;
    var data := P.Data(p);
    ghost var es, t := requests.Entries(), Values(requests.Entries());
    id := 0;
    var isRaw := DetectRawHttp(data);
    if isRaw {
      P.RawLeavesTable(s, p);
      assert SameElsewhere(es, es, IdField(p.buffer));
      var request := ParseRaw(data);
      assert requests.Entries() == es && Values(es) == t;
      return Some(request), 0;
    }
    id := IdField(p.buffer);
    ChunkStep(s, p);
    if id == 0 {
      return None, 0;
    }
    worker := ProcessChunk(requests, id, p);
  }

  method ParseRaw(data: seq<byte>) returns (request: Request)
    requires IsRawHttp(data)
    ensures fresh(request) && request.Value() == RawRequest(FRESH, data)
  {
    hide IsRawHttp, RawRequest, ParseChunk;
    request := new Request();
    request.Parse(data);
    RawParse(data);
  }

  lemma ChunkStep(s: P.Server, p: P.Datagram)
    requires !IsRawHttp(P.Data(p))
    ensures var id := IdField(p.buffer);
      P.Step(s, P.Recv(p)) == if id == 0 then s else P.Receive(s, id, P.PacketOutcome(Lookup(s.table, id), p))
  {
    hide IsRawHttp, P.PacketOutcome, Lookup, P.Receive;
  }

  /** The rest of ff_proxy_process_incoming_packet, for a packet with a nonzero id. */
  method ProcessChunk(requests: HashTable<Request>, id: Id, p: P.Datagram) returns (worker: Option<Request>)
    requires Ready(requests) && id == IdField(p.buffer) && !IsRawHttp(P.Data(p))
    modifies requests, requests.order, requests.arrays.Values, Objects(requests.Entries())
    ensures Ready(requests)
    ensures var t, t' := old(Values(requests.Entries())), Values(requests.Entries());
      match P.PacketOutcome(Lookup(t, id), p)
      case Ignored => t' == t && worker == None
      case Removed => t' == Remove(t, id) && worker == None
      case Stored(r) =>
        && t' == Put(t, id, r)
        && if r.state == Received then worker.Some? && worker.value.Value() == r else worker.None?
    ensures worker.Some? ==> Lookup(requests.Entries(), id) == Some(worker.value)
    ensures SameElsewhere(old(requests.Entries()), requests.Entries(), id)
    ensures fresh(Objects(requests.Entries()) - old(Objects(requests.Entries())))
    ensures fresh(requests.arrays.Values - old(requests.arrays.Values))
    ensures forall k :: 0 <= k < |requests.order| ==> requests.order[k] in old(requests.order) || fresh(requests.order[k])
  {
    hide Ready, Values, Lookup, Put, Remove, ParseChunk, HashTable.Entries, IsRawHttp, IdField;
    ghost var es, t := requests.Entries(), Values(requests.Entries());
    assert DistinctKeys(es) && DistinctKeys(t) by { ReadyDistinct(requests, id); }
    var request := FindOrCreate(requests, id, P.SourceOf(p), p.at);
    ghost var es1 := requests.Entries();
    SameAfterPut(es, id, request);
    if request.source != P.SourceOf(p) {
      return None;
    }
    ghost var r := request.Value();
    assert DistinctKeys(es1) by { ReadyDistinct(requests, id); }
    worker := Feed(requests, request, id, P.Data(p));
    RemoveAfterPut(t, id, r);
    PutTwice(t, id, r, request.Value());
    SameAfterRemove(es1, id);
  }

  lemma SameAfterPut(es: Table<Request>, id: Id, o: Request)
    requires DistinctKeys(es)
    ensures SameElsewhere(es, es, id)
    ensures Lookup(es, id).None? ==> SameElsewhere(es, es + [(id, o)], id)
  {
    hide Lookup, Put;
    if Lookup(es, id).None? {
      PutNew(es, id, o);
      PutLaws(es, id, o);
    }
  }

  lemma SameAfterRemove(es: Table<Request>, id: Id)
    requires DistinctKeys(es)
    ensures SameElsewhere(es, Remove(es, id), id)
  {
    hide Lookup, Remove;
    RemoveLaws(es, id);
  }

  lemma ReadyDistinct(requests: HashTable<Request>, id: Id)
    requires Ready(requests)
    ensures DistinctKeys(requests.Entries()) && DistinctKeys(Values(requests.Entries()))
  {
    LookupValues(requests.Entries(), id);
  }

  lemma RawParse(data: seq<byte>)
    requires IsRawHttp(data)
    ensures ParseChunk(FRESH, data) == RawRequest(FRESH, data)
  {
  }
}
