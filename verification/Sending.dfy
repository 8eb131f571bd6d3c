/**
 Runs of the proxy's own code in which the workers work: what is sent on every input, against the
 transition system and the meaning of a worker.
 */
module Sending {
  import opened Bytes
  import opened Tables
  import opened Requests
  import opened HashTables
  import opened Worker
  import opened ProxyServer
  import opened WorkerThread
  import opened ServerRuns
  import P = Proxy
  import S = Safety
  import D = Delivery
  import C = Client

  // ---------------------------------------------------------------------------
  // What should be sent

  /** The request last handed to a worker under `k`. */
  ghost function Latest(s: P.Server, k: Id): Req {
    var sent := P.SentFor(s.dispatched, k);
    if sent == [] then FRESH else sent[|sent| - 1]
  }

  ghost function ReplyOf(r: Req, config: Config, cipher: Cipher, now: nat, beyond: byte): Option<Outgoing> {
    if WorkReady(r) then Work(r, config, cipher, now, beyond) else None
  }

  /** What is sent on input `i`: a raw request is worked on at once, another one at the turn of its worker. */
  ghost function Reply(s: P.Server, i: Input, config: Config, cipher: Cipher): Option<Outgoing> {
    match i
    case Arrival(p, beyond) =>
      if IsRawHttp(P.Data(p)) then ReplyOf(RawRequest(FRESH, P.Data(p)), config, cipher, 0, beyond) else None
    case Turn(id, now, beyond) => if id in s.busy then ReplyOf(Latest(s, id), config, cipher, now, beyond) else None
    case Clean(_) => None
  }

  /**
   What keeps a worker out of trouble: no packet of its request arrives while it runs, and the
   packets its request was built from were in range.
   */
  ghost predicate CarefulAt(evs: seq<P.Event>, i: Input) {
    match i
    case Arrival(p, _) => !IsRawHttp(P.Data(p)) ==> IdField(p.buffer) !in P.Run(evs).busy
    case Turn(id, _, _) =>
      var parts := S.TrailOf(evs, id).sent;
      id in P.Run(evs).busy && parts != [] ==> S.PartsInRange(evs, parts[|parts| - 1])
    case Clean(_) => true
  }

  ghost predicate Careful(inputs: seq<Input>) {
    forall i :: 0 <= i < |inputs| ==> CarefulAt(Played(inputs[..i]).evs, inputs[i])
  }

  /** Every running worker was handed a request, under a key that is not 0. */
  lemma BusySent(evs: seq<P.Event>, k: Id)
    requires k in P.Run(evs).busy
    ensures k != 0 && P.SentFor(P.Run(evs).dispatched, k) != []
  {
    hide P.Run, P.SentFor, Lookup;
    NobodyAtZero(evs);
    SentIfBusy(evs, k);
  }

  lemma {:induction false} SentIfBusy(evs: seq<P.Event>, k: Id)
    requires k != 0
    ensures var v := P.View(P.Run(evs), k); v.busy > 0 ==> v.sent != []
  {
    hide P.View, P.Step, P.Touches, P.Keyed, P.PacketOutcome, P.Expired;
    if evs == [] {
      assert P.View(P.START, k) == P.EMPTY_SLOT by { S.StartView(k); }
    } else {
      var init, e := evs[..|evs| - 1], evs[|evs| - 1];
      SentIfBusy(init, k);
      P.RunKeyed(init);
      P.StepView(P.Run(init), e, k);
    }
  }

  lemma {:induction false} NobodyAtZero(evs: seq<P.Event>)
    ensures 0 !in P.Run(evs).busy
  {
    if evs != [] {
      hide P.PacketOutcome, Lookup, Put, Remove, P.ExpiredIds, IsRawHttp, RawRequest;
      NobodyAtZero(evs[..|evs| - 1]);
    }
  }

  /** The request of a running worker is one it can process, and has the worker's key as its id. */
  lemma LatestIsFit(evs: seq<P.Event>, k: Id, now: nat, beyond: byte)
    requires k in P.Run(evs).busy && CarefulAt(evs, Turn(k, now, beyond))
    ensures Fit(Latest(P.Run(evs), k))
  {
    hide P.Run, S.TrailOf, P.SentFor, S.PartsInRange, Fit;
    BusySent(evs, k);
    S.Provenance(evs, k);
    DispatchedIsFit(evs, k, |P.SentFor(P.Run(evs).dispatched, k)| - 1);
  }

  lemma LatestHasId(evs: seq<P.Event>, k: Id)
    requires k in P.Run(evs).busy
    ensures k != 0 && Latest(P.Run(evs), k).requestId == k
  {
    hide P.Run, S.TrailOf, P.SentFor, S.PartsInRange;
    BusySent(evs, k);
    S.RunOk(evs, k);
  }

  // ---------------------------------------------------------------------------
  // The workers of a run

  /** The object of a worker is filed under its key, or not in the table at all. */
  ghost predicate At(es: Table<Request>, k: Id, w: Request) {
    Lookup(es, k) == Some(w) || w !in Objects(es)
  }

  /** Exactly the busy ids have a worker, and one each. */
  ghost predicate OnePerKey(keys: set<Id>, s: P.Server) {
    (forall k :: k in keys <==> k in s.busy) && forall k :: k in keys ==> s.busy[k] == 1
  }

  ghost predicate AllAt(workers: map<Id, Request>, es: Table<Request>) {
    forall k :: k in workers ==> At(es, k, workers[k])
  }

  /** Each worker has its request as it was handed over. */
  ghost predicate Loyal(workers: map<Id, Request>, s: P.Server)
    reads workers.Values
  {
    forall k :: k in workers ==> workers[k].Value() == Latest(s, k)
  }

  ghost predicate Manned(workers: map<Id, Request>, es: Table<Request>, s: P.Server)
    reads workers.Values
  {
    OnePerKey(workers.Keys, s) && AllAt(workers, es) && Loyal(workers, s)
  }

  lemma LoyalLater(workers: map<Id, Request>, s: P.Server, s': P.Server)
    requires Loyal(workers, s) && s'.dispatched == s.dispatched
    ensures Loyal(workers, s')
  {
    hide P.SentFor;
  }

  /** An event that does not touch `k` leaves its entry, its workers and its requests alone. */
  lemma Untouched(evs: seq<P.Event>, e: P.Event, k: Id)
    requires k != 0 && !P.Touches(e, k)
    ensures var s, s' := P.Run(evs), P.Step(P.Run(evs), e);
      Lookup(s'.table, k) == Lookup(s.table, k) && s'.busy[k] == s.busy[k] && Latest(s', k) == Latest(s, k)
  {
    hide P.Run, P.Step, P.Touches, Lookup, P.SentFor, P.Keyed;
    P.RunKeyed(evs);
    P.StepView(P.Run(evs), e, k);
  }

  /** A packet leaves every worker that runs as it was. */
  method TakePacket(
    requests: HashTable<Request>, ghost workers: map<Id, Request>, p: P.Datagram, ghost beyond: byte,
    ghost evs: seq<P.Event>)
    returns (worker: Option<Request>, id: Id)
    requires Ready(requests) && P.Run(evs).table == Values(requests.Entries())
    requires Manned(workers, requests.Entries(), P.Run(evs)) && CarefulAt(evs, Arrival(p, beyond))
    modifies requests, requests.order, requests.arrays.Values, Objects(requests.Entries())
    ensures Ready(requests)
    ensures var s, s' := P.Run(evs), P.Run(evs + [P.Recv(p)]);
      && s'.table == Values(requests.Entries()) && AllAt(workers, requests.Entries()) && Loyal(workers, s')
      && s' == match worker case None => s.(table := s'.table) case Some(o) => Handed(s.(table := s'.table), id, o.Value())
    ensures if IsRawHttp(P.Data(p)) then
        && worker.Some? && id == 0 && worker.value.Value() == RawRequest(FRESH, P.Data(p))
        && fresh(worker.value) && worker.value !in Objects(requests.Entries())
      else worker.Some? ==> id == IdField(p.buffer) != 0 && Lookup(requests.Entries(), id) == Some(worker.value)
    ensures fresh(Objects(requests.Entries()) - old(Objects(requests.Entries())))
    ensures fresh(requests.arrays.Values - old(requests.arrays.Values))
    ensures forall k :: 0 <= k < |requests.order| ==> requests.order[k] in old(requests.order) || fresh(requests.order[k])
  {
    hide Ready, Values, Lookup, HashTable.Entries, P.Run, P.Step, P.SentFor, P.Touches, IsRawHttp, RawRequest;
    hide AllAt, OnePerKey, Loyal, Latest, Objects, SameElsewhere, Filed, Outside;
    ghost var s, e, es := P.Run(evs), P.Recv(p), requests.Entries();
    P.RunSnoc(evs, e);
    assert DistinctKeys(es) by { ReadyDistinct(requests, 0); }
    ghost var away := Outside(workers, es);
    BeforePacket(workers, es, s);
    assert away.Values !! Objects(es) && away.Values <= workers.Values;
    worker, id := ProcessPacket(requests, p, s);
    ghost var es' := requests.Entries();
    assert DistinctKeys(es') by { ReadyDistinct(requests, 0); }
    assert Loyal(away, s) && away.Values !! Objects(es');
    AfterPacket(workers, es, es', evs, p, beyond);
  }

  /** A packet, and the worker of a raw one. */
  method OnArrival(
    requests: HashTable<Request>, workers: map<Id, Request>, p: P.Datagram, beyond: byte,
    config: Config, cipher: Cipher, ghost evs: seq<P.Event>)
    returns (running: map<Id, Request>, out: Option<Outgoing>)
    requires Ready(requests) && P.Run(evs).table == Values(requests.Entries())
    requires Manned(workers, requests.Entries(), P.Run(evs)) && CarefulAt(evs, Arrival(p, beyond))
    modifies requests, requests.order, requests.arrays.Values, Objects(requests.Entries())
    ensures Ready(requests) && P.Run(evs + [P.Recv(p)]).table == Values(requests.Entries())
    ensures Manned(running, requests.Entries(), P.Run(evs + [P.Recv(p)]))
    ensures out == Reply(P.Run(evs), Arrival(p, beyond), config, cipher)
    ensures running.Values <= workers.Values + Objects(requests.Entries())
    ensures fresh(Objects(requests.Entries()) - old(Objects(requests.Entries())))
    ensures fresh(requests.arrays.Values - old(requests.arrays.Values))
    ensures forall k :: 0 <= k < |requests.order| ==> requests.order[k] in old(requests.order) || fresh(requests.order[k])
  {
    hide Ready, Values, Lookup, HashTable.Entries, P.Run, P.SentFor, IsRawHttp, RawRequest, WorkReady, Work;
    hide AllAt, OnePerKey, Loyal, Latest, Objects, CarefulAt;
    ghost var s, s' := P.Run(evs), P.Run(evs + [P.Recv(p)]);
    var worker, id := TakePacket(requests, workers, p, beyond, evs);
    running, out := workers, None;
    if worker.Some? && id == 0 {
      RawIsFit(P.Data(p));
      KeysFrame(workers.Keys, s, s');
      out := ProcessRequest(requests, worker.value, config, cipher, 0, beyond);
    } else if worker.Some? {
      running := workers[id := worker.value];
      NotBusy(evs, p, beyond);
      assert DistinctKeys(requests.Entries()) by { ReadyDistinct(requests, 0); }
      AddWorker(workers, requests.Entries(), s, s', id, worker.value);
    } else {
      KeysFrame(workers.Keys, s, s');
    }
  }

  /** The workers whose requests have left the table. */
  ghost function Outside(workers: map<Id, Request>, es: Table<Request>): map<Id, Request> {
    map k | k in workers && workers[k] !in Objects(es) :: workers[k]
  }

  /** The requests of the other workers have their values in the table `t`. */
  ghost predicate Filed(workers: map<Id, Request>, es: Table<Request>, t: Table<Req>, s: P.Server) {
    forall k :: k in workers && workers[k] in Objects(es) ==>
      Lookup(es, k) == Some(workers[k]) && Lookup(t, k) == Some(Latest(s, k))
  }

  lemma BeforePacket(workers: map<Id, Request>, es: Table<Request>, s: P.Server)
    requires Manned(workers, es, s) && DistinctKeys(es)
    ensures Filed(workers, es, Values(es), s)
    ensures Loyal(Outside(workers, es), s)
    ensures Outside(workers, es).Values !! Objects(es) && Outside(workers, es).Values <= workers.Values
  {
    hide Lookup, Values, Latest, Objects;
    forall k | k in workers && workers[k] in Objects(es)
      ensures Lookup(es, k) == Some(workers[k]) && Lookup(Values(es), k) == Some(Latest(s, k))
    {
      LookupValues(es, k);
    }
  }

  /** A packet of another id leaves every worker as it was. */
  lemma AfterPacket(
    workers: map<Id, Request>, es: Table<Request>, es': Table<Request>, evs: seq<P.Event>, p: P.Datagram, beyond: byte)
    requires Filed(workers, es, P.Run(evs).table, P.Run(evs)) && OnePerKey(workers.Keys, P.Run(evs))
    requires Loyal(Outside(workers, es), P.Run(evs)) && Outside(workers, es).Values !! Objects(es')
    requires CarefulAt(evs, Arrival(p, beyond))
    requires SameElsewhere(es, es', IdField(p.buffer)) && (IsRawHttp(P.Data(p)) ==> es' == es)
    requires DistinctKeys(es') && Values(es') == P.Step(P.Run(evs), P.Recv(p)).table
    ensures AllAt(workers, es') && Loyal(workers, P.Step(P.Run(evs), P.Recv(p)))
  {
    hide Lookup, Values, Latest, Objects, P.Run, P.Step, SameElsewhere, P.Touches, IsRawHttp, CarefulAt;
    var s, e := P.Run(evs), P.Recv(p);
    forall k | k in workers
      ensures At(es', k, workers[k]) && workers[k].Value() == Latest(P.Step(s, e), k)
    {
      LatestHasId(evs, k);
      NotTouched(evs, p, beyond, k);
      Untouched(evs, e, k);
      if workers[k] in Objects(es) {
        SameHere(es, es', p, k);
        LookupValues(es', k);
      } else {
        assert k in Outside(workers, es) && Outside(workers, es)[k] == workers[k];
      }
    }
  }

  lemma NotBusy(evs: seq<P.Event>, p: P.Datagram, beyond: byte)
    requires CarefulAt(evs, Arrival(p, beyond)) && !IsRawHttp(P.Data(p))
    ensures IdField(p.buffer) !in P.Run(evs).busy
  {
    hide P.Run, IsRawHttp, IdField;
  }

  lemma AddWorker(workers: map<Id, Request>, es: Table<Request>, s: P.Server, s': P.Server, id: Id, w: Request)
    requires AllAt(workers, es) && Loyal(workers, s') && OnePerKey(workers.Keys, s) && id !in s.busy
    requires id != 0 && s' == Handed(s.(table := s'.table), id, w.Value())
    requires Lookup(es, id) == Some(w) && DistinctKeys(es)
    ensures Manned(workers[id := w], es, s') && workers[id := w].Values <= workers.Values + Objects(es)
  {
    hide Lookup, Latest, Objects;
    LookupObject(es, id);
    HandedLatest(s.(table := s'.table), id, w.Value());
  }

  lemma NotTouched(evs: seq<P.Event>, p: P.Datagram, beyond: byte, k: Id)
    requires CarefulAt(evs, Arrival(p, beyond)) && k in P.Run(evs).busy
    ensures !P.Touches(P.Recv(p), k)
  {
    hide P.Run, IsRawHttp;
  }

  lemma SameHere(es: Table<Request>, es': Table<Request>, p: P.Datagram, k: Id)
    requires SameElsewhere(es, es', IdField(p.buffer)) && (IsRawHttp(P.Data(p)) ==> es' == es)
    requires !P.Touches(P.Recv(p), k)
    ensures Lookup(es', k) == Lookup(es, k)
  {
    hide Lookup, IsRawHttp, IdField;
  }

  lemma HandedLatest(s: P.Server, k: Id, r: Req)
    ensures Latest(Handed(s, k, r), k) == r
  {
    hide P.SentFor;
    P.SentSnoc(s.dispatched, (k, r), k);
  }

  /** The turn of a worker: it works and removes what is filed under its key. */
  method OnTurn(
    requests: HashTable<Request>, workers: map<Id, Request>, id: Id, now: nat, beyond: byte,
    config: Config, cipher: Cipher, ghost evs: seq<P.Event>)
    returns (running: map<Id, Request>, out: Option<Outgoing>)
    requires Ready(requests) && P.Run(evs).table == Values(requests.Entries())
    requires Manned(workers, requests.Entries(), P.Run(evs)) && CarefulAt(evs, Turn(id, now, beyond))
    modifies requests, requests.order, requests.arrays.Values, workers.Values
    ensures Ready(requests) && P.Run(evs + [P.Finish(id)]).table == Values(requests.Entries())
    ensures Manned(running, requests.Entries(), P.Run(evs + [P.Finish(id)]))
    ensures out == Reply(P.Run(evs), Turn(id, now, beyond), config, cipher)
    ensures running.Values <= workers.Values
    ensures Objects(requests.Entries()) <= old(Objects(requests.Entries()))
    ensures fresh(requests.arrays.Values - old(requests.arrays.Values))
    ensures forall k :: 0 <= k < |requests.order| ==> requests.order[k] in old(requests.order)
  {
    hide Ready, Values, Lookup, Remove, HashTable.Entries, P.Run, P.Step, P.SentFor, WorkReady, Work, Objects, CarefulAt;
    hide AllAt, OnePerKey, Loyal, Latest;
    ghost var s, s', es := P.Run(evs), P.Run(evs + [P.Finish(id)]), requests.Entries();
    P.RunSnoc(evs, P.Finish(id));
    FinishStep(s, id);
    running, out := workers, None;
    assert DistinctKeys(es) by { ReadyDistinct(requests, 0); }
    assert id in workers <==> id in s.busy by { KeysOf(workers, s); }
    if id in workers {
      LatestIsFit(evs, id, now, beyond);
      OneWorker(workers, es, evs, id);
      running := workers - {id};
      LoyalRest(workers, es, s, s', id);
      assert Loyal(running, s') && workers[id] !in running.Values;
      out := ProcessRequest(requests, workers[id], config, cipher, now, beyond);
      KeysAfterTurn(workers.Keys, s, s', id);
      AtAfterRemove(running, es, requests.Entries(), id);
    } else {
      assert forall k :: 0 <= k < |requests.order| ==> requests.order[k] in requests.order;
    }
  }

  lemma KeysOf(workers: map<Id, Request>, s: P.Server)
    requires OnePerKey(workers.Keys, s)
    ensures forall k :: k in workers <==> k in s.busy
  {
  }

  /** What the worker of `id` works on, and that no other worker has it. */
  lemma OneWorker(workers: map<Id, Request>, es: Table<Request>, evs: seq<P.Event>, id: Id)
    requires Manned(workers, es, P.Run(evs)) && id in workers
    ensures id != 0 && workers[id].requestId == id && workers[id].Value() == Latest(P.Run(evs), id)
    ensures At(es, id, workers[id]) && workers[id] !in (workers - {id}).Values
  {
    hide P.Run, P.SentFor, Lookup, Objects, Latest;
    forall k | k in workers ensures workers[k].requestId == k != 0 {
      LatestHasId(evs, k);
    }
  }

  lemma LoyalRest(workers: map<Id, Request>, es: Table<Request>, s: P.Server, s': P.Server, id: Id)
    requires Loyal(workers, s) && AllAt(workers, es) && s'.dispatched == s.dispatched
    ensures Loyal(workers - {id}, s') && AllAt(workers - {id}, es)
  {
    hide P.SentFor, At;
  }

  lemma KeysAfterTurn(keys: set<Id>, s: P.Server, s': P.Server, id: Id)
    requires OnePerKey(keys, s) && id in keys && s'.busy == s.busy - multiset{id}
    ensures OnePerKey(keys - {id}, s')
  {
  }

  lemma AtAfterRemove(running: map<Id, Request>, es: Table<Request>, es': Table<Request>, id: Id)
    requires DistinctKeys(es) && es' == Remove(es, id) && Objects(es') <= Objects(es)
    requires id !in running && AllAt(running, es)
    ensures AllAt(running, es')
  {
    hide Lookup, Remove, Objects;
    RemoveLaws(es, id);
  }

  lemma RemovedObject(es: Table<Request>, k: Id, w: Request)
    requires DistinctKeys(es) && DistinctObjects(es) && Lookup(es, k) == Some(w)
    ensures w !in Objects(Remove(es, k))
  {
    hide Lookup, Remove;
    var i :| 0 <= i < |es| && es[i].0 == k;
    LookupAt(es, i);
    RemoveAt(es, i);
  }

  /** A step of the clean-up thread. */
  method OnClean(requests: HashTable<Request>, pending: seq<Id>, workers: map<Id, Request>, now: int, ghost pl: Play)
    returns (rest: seq<Id>)
    requires Ready(requests) && PendingOk(pl) && pl.pending == pending
    requires P.Run(pl.evs).table == Values(requests.Entries()) && Manned(workers, requests.Entries(), P.Run(pl.evs))
    modifies requests, requests.order, requests.arrays.Values
    ensures Ready(requests) && PlayNext(pl, Clean(now)).pending == rest
    ensures var s' := P.Run(PlayNext(pl, Clean(now)).evs);
      s'.table == Values(requests.Entries()) && Manned(workers, requests.Entries(), s')
    ensures Objects(requests.Entries()) <= old(Objects(requests.Entries()))
    ensures fresh(requests.arrays.Values - old(requests.arrays.Values))
    ensures forall k :: 0 <= k < |requests.order| ==> requests.order[k] in old(requests.order)
  {
    hide Values, Lookup, Remove, HashTable.Entries, HashTable.Valid, P.Run, P.Step, P.SentFor, P.ExpiredIds;
    hide PendingOk, Objects;
    hide AllAt, OnePerKey, Loyal;
    ghost var s, s', es := P.Run(pl.evs), P.Run(PlayNext(pl, Clean(now)).evs), requests.Entries();
    P.RunSnoc(pl.evs, EventOf(pl, Clean(now)));
    CleanEvent(pl, now);
    assert OnePerKey(workers.Keys, s') by { KeysFrame(workers.Keys, s, s'); }
    LoyalLater(workers, s, s');
    rest := CleanStep(requests, pending, now);
    if pending != [] {
      AtAfterDrop(workers, es, requests.Entries(), pending[0]);
    }
  }

  lemma KeysFrame(keys: set<Id>, s: P.Server, s': P.Server)
    requires OnePerKey(keys, s) && s'.busy == s.busy
    ensures OnePerKey(keys, s')
  {
  }

  lemma AtAfterDrop(workers: map<Id, Request>, es: Table<Request>, es': Table<Request>, id: Id)
    requires DistinctKeys(es) && DistinctObjects(es) && es' == Remove(es, id) && Objects(es') <= Objects(es)
    requires AllAt(workers, es)
    ensures AllAt(workers, es')
  {
    hide Lookup, Remove, Objects;
    RemoveLaws(es, id);
    forall k | k in workers ensures At(es', k, workers[k]) {
      if k == id && Lookup(es, k) == Some(workers[k]) {
        RemovedObject(es, k, workers[k]);
      }
    }
  }

  // ---------------------------------------------------------------------------
  // Whole runs

  /** One input. */
  method OnInput(
    requests: HashTable<Request>, pending: seq<Id>, workers: map<Id, Request>, i: Input,
    config: Config, cipher: Cipher, ghost pl: Play)
    returns (rest: seq<Id>, running: map<Id, Request>, out: Option<Outgoing>)
    requires Ready(requests) && PendingOk(pl) && pl.pending == pending && CarefulAt(pl.evs, i)
    requires P.Run(pl.evs).table == Values(requests.Entries()) && Manned(workers, requests.Entries(), P.Run(pl.evs))
    modifies requests, requests.order, requests.arrays.Values, Objects(requests.Entries()), workers.Values
    ensures Ready(requests) && PlayNext(pl, i).pending == rest
    ensures P.Run(PlayNext(pl, i).evs).table == Values(requests.Entries())
    ensures Manned(running, requests.Entries(), P.Run(PlayNext(pl, i).evs))
    ensures out == Reply(P.Run(pl.evs), i, config, cipher)
    ensures running.Values <= workers.Values + Objects(requests.Entries())
    ensures fresh(Objects(requests.Entries()) - old(Objects(requests.Entries())))
    ensures fresh(requests.arrays.Values - old(requests.arrays.Values))
    ensures forall k :: 0 <= k < |requests.order| ==> requests.order[k] in old(requests.order) || fresh(requests.order[k])
  {
    hide Ready, Values, HashTable.Entries, P.Run, Manned, Objects, PendingOk, CarefulAt, PlayNext, Reply;
    NextIs(pl, i);
    rest, running, out := pending, workers, None;
    match i {
      case Arrival(p, beyond) => running, out := OnArrival(requests, workers, p, beyond, config, cipher, pl.evs);
      case Turn(id, now, beyond) => running, out := OnTurn(requests, workers, id, now, beyond, config, cipher, pl.evs);
      case Clean(now) =>
        NothingSent(pl, now, config, cipher);
        rest := OnClean(requests, pending, workers, now, pl);
    }
  }

  /**
   The proxy from its start, workers included, on any careful sequence of inputs: on every input it
   sends what the transition system and the meaning of a worker say, and nothing else.
   */
  method ServeAndSend(inputs: seq<Input>, config: Config, cipher: Cipher) returns (sent: seq<Option<Outgoing>>)
    requires Careful(inputs)
    ensures |sent| == |inputs|
    ensures forall i :: 0 <= i < |inputs| ==> sent[i] == Reply(P.Run(Played(inputs[..i]).evs), inputs[i], config, cipher)
    ensures forall i, out :: 0 <= i < |inputs| && inputs[i].Arrival? ==>
      (sent[i] == Some(out) <==> IsRawReply(out, inputs[i].packet, inputs[i].beyond, config))
  {
    hide IsRawReply, P.Run, Values, HashTable.Valid, HashTable.Entries, Played, PlayNext,
         PendingOk, CarefulAt, Reply, Manned, Ready;
    var requests := new HashTable<Request>(16);
    var pending, workers := [], map[];
    sent := [];
    AtStart(inputs);
    NobodyWorks(requests);
    for i := 0 to |inputs|
      invariant Ready(requests) && fresh(requests) && fresh(requests.arrays.Values) && fresh(requests.order)
      invariant fresh(Objects(requests.Entries())) && fresh(workers.Values)
      invariant var pl := Played(inputs[..i]); var s := P.Run(pl.evs);
        pl.pending == pending && s.table == Values(requests.Entries()) && Manned(workers, requests.Entries(), s)
      invariant |sent| == i
      invariant forall j :: 0 <= j < i ==> sent[j] == Reply(P.Run(Played(inputs[..j]).evs), inputs[j], config, cipher)
    {
      assert CarefulAt(Played(inputs[..i]).evs, inputs[i]);
      PlayedSnoc(inputs, i);
      PendingNoted(inputs[..i]);
      var out;
      pending, workers, out := OnInput(requests, pending, workers, inputs[i], config, cipher, Played(inputs[..i]));
      sent := sent + [out];
    }
    forall i, out | 0 <= i < |inputs| && inputs[i].Arrival?
      ensures sent[i] == Some(out) <==> IsRawReply(out, inputs[i].packet, inputs[i].beyond, config)
    {
      RawIsAnswered(P.Run(Played(inputs[..i]).evs), inputs[i].packet, inputs[i].beyond, config, cipher, out);
    }
  }

  /** The packet is raw HTTP, no key is configured, and `out` is the received bytes, in the clear, to their host. */
  ghost predicate IsRawReply(out: Outgoing, p: P.Datagram, beyond: byte, config: Config) {
    && IsRawHttp(p.buffer[..p.length]) && config.key.None?
    && !out.https && out.options == [] && out.body == p.buffer[..p.length] && Addressed(out, beyond)
  }

  /** On the arrival of a packet, that is sent if there is such, and nothing otherwise. */
  lemma RawIsAnswered(s: P.Server, p: P.Datagram, beyond: byte, config: Config, cipher: Cipher, out: Outgoing)
    ensures Reply(s, Arrival(p, beyond), config, cipher) == Some(out) <==> IsRawReply(out, p, beyond, config)
  {
    hide IsRawHttp, RawRequest, Work, WorkReady, Addressed;
    var b := P.Data(p);
    if config.key.None? {
      RawSentIffAddressed(b, config, cipher, 0, beyond, out);
    } else {
      RawNeedsNoKey(b, config, cipher, 0, beyond);
    }
  }

  lemma NobodyWorks(requests: HashTable<Request>)
    requires requests.Valid() && requests.order == [] && requests.bucketLevels == 2
    ensures Ready(requests) && Values(requests.Entries()) == P.START.table && Objects(requests.Entries()) == {}
    ensures Manned(map[], requests.Entries(), P.START)
  {
    hide HashTable.Valid;
  }

  lemma NextIs(pl: Play, i: Input)
    ensures !i.Clean? ==> PlayNext(pl, i) == Play(pl.evs + [EventOf(pl, i)], pl.pending)
  {
  }

  lemma NothingSent(pl: Play, now: int, config: Config, cipher: Cipher)
    ensures Reply(P.Run(pl.evs), Clean(now), config, cipher) == None
  {
  }

  /**
   Client to wire, for the code: at the turn of the worker of a job whose stream has arrived and was
   not swept away, what is sent is the client's message over the client's transport to the host the
   message names, if it names one, the clocks agree and the payload was not too long to be sealed,
   and nothing otherwise.
   */
  lemma ClientIsServed(
    inputs: seq<Input>, i: nat, j: C.Job, source: Source, config: Config, cipher: Cipher, out: Outgoing)
    requires i < |inputs| && inputs[i].Turn? && inputs[i].id == j.id
    requires C.JobOk(j) && C.Sound(cipher) && C.Wrapped(j, cipher).Some? && config.key == j.key
    requires var evs, c := Played(inputs[..i]).evs, C.SenderOf(j, cipher, source);
      D.WellFormed(c) && D.Arrived(evs, c) && !D.Swept(evs, c) && j.id in P.Run(evs).busy
    ensures Reply(P.Run(Played(inputs[..i]).evs), inputs[i], config, cipher) == Some(out) <==>
      C.Fits(j) && C.InTime(j, config, inputs[i].now) && C.IsClients(out, j, cipher, inputs[i].beyond)
  {
    hide P.Run, Played, P.SentFor, C.Wrapped, C.Sound, D.WellFormed, D.Arrived, D.Swept, WorkReady, Work, C.IsClients;
    C.EndToEnd(Played(inputs[..i]).evs, j, cipher, source, config, inputs[i].now, inputs[i].beyond, out);
  }
}
