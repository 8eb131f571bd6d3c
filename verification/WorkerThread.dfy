/** Workers in a running proxy (src/server.c): what they may send, and what they leave in the table. */
module WorkerThread {
  import opened Bytes
  import opened Tables
  import opened Requests
  import opened Tiling
  import opened Reassembly
  import opened HashTables
  import opened Worker
  import opened ProxyServer
  import P = Proxy
  import S = Safety

  /** A request that a worker can process: one node, or several that lie one behind the other. */
  ghost predicate Fit(r: Req) {
    WorkReady(r) && (|r.payload| == 1 || Tiled(r.payload, r.payloadLength))
  }

  lemma CompleteIsFit(r: Req)
    requires S.Complete(r)
    ensures Fit(r)
  {
    hide SumLengths, Overlaps;
    ReceivedIsTiled(r);
  }

  lemma RawIsFit(b: seq<byte>)
    ensures Fit(RawRequest(FRESH, b)) && RawRequest(FRESH, b).requestId == 0
  {
    hide SumLengths;
  }

  /** Whatever is dispatched is fit, if it is raw or was built from packets in range. */
  lemma DispatchedIsFit(evs: seq<P.Event>, k: Id, i: nat)
    requires i < |P.SentFor(P.Run(evs).dispatched, k)|
    requires k != 0 ==> i < |S.TrailOf(evs, k).sent| && S.PartsInRange(evs, S.TrailOf(evs, k).sent[i])
    ensures Fit(P.SentFor(P.Run(evs).dispatched, k)[i])
    ensures k == 0 ==> exists b :: IsRawHttp(b) && P.SentFor(P.Run(evs).dispatched, k)[i] == RawRequest(FRESH, b)
  {
    hide P.Run, S.TrailOf, P.SentFor, S.PartsInRange, IsRawHttp, RawRequest, Fit, S.Complete;
    if k == 0 {
      P.DispatchedRaw(evs, i);
      var b :| IsRawHttp(b) && P.SentFor(P.Run(evs).dispatched, 0)[i] == RawRequest(FRESH, b);
      RawIsFit(b);
    } else {
      S.RunOk(evs, k);
      CompleteIsFit(P.SentFor(P.Run(evs).dispatched, k)[i]);
    }
  }

  /**
   The send gate over whole runs: for everything that is dispatched, raw or built from packets in
   range, the worker sends exactly what may be sent, and with a key configured nothing that is raw.
   */
  lemma GateOverRuns(
    evs: seq<P.Event>, k: Id, i: nat, config: Config, cipher: Cipher, now: nat, beyond: byte, out: Outgoing)
    requires i < |P.SentFor(P.Run(evs).dispatched, k)|
    requires k != 0 ==> i < |S.TrailOf(evs, k).sent| && S.PartsInRange(evs, S.TrailOf(evs, k).sent[i])
    ensures var r := P.SentFor(P.Run(evs).dispatched, k)[i];
      && WorkReady(r)
      && (Work(r, config, cipher, now, beyond) == Some(out) <==> Permitted(r, config, cipher, now, beyond, out))
      && (config.key.Some? && k == 0 ==> Work(r, config, cipher, now, beyond) == None)
  {
    hide P.Run, S.TrailOf, P.SentFor, S.PartsInRange, IsRawHttp, RawRequest, WorkReady, Work, Permitted, Tiled;
    DispatchedIsFit(evs, k, i);
    var r := P.SentFor(P.Run(evs).dispatched, k)[i];
    SendGate(r, config, cipher, now, beyond, out);
    if k == 0 && config.key.Some? {
      var b :| IsRawHttp(b) && r == RawRequest(FRESH, b);
      RawNeedsNoKey(b, config, cipher, now, beyond);
    }
  }

  /**
   ff_proxy_process_request: work, then remove what the table holds under the request's id. The
   request itself may have left the table already, by way of the clean-up thread.
   */
  method ProcessRequest(
    requests: HashTable<Request>, request: Request, config: Config, cipher: Cipher, now: nat, beyond: byte)
    returns (out: Option<Outgoing>)
    requires Ready(requests) && Fit(request.Value())
    requires request !in Objects(requests.Entries()) ||
      (request.requestId != 0 && Lookup(requests.Entries(), request.requestId) == Some(request))
    modifies requests, requests.order, requests.arrays.Values, request
    ensures Ready(requests)
    ensures out == Work(old(request.Value()), config, cipher, now, beyond)
    ensures var es, t, id := old(requests.Entries()), old(Values(requests.Entries())), old(request.requestId);
      if id == 0 then requests.Entries() == es && Values(requests.Entries()) == t
      else requests.Entries() == Remove(es, id) && Values(requests.Entries()) == Remove(t, id)
    ensures Objects(requests.Entries()) <= old(Objects(requests.Entries()))
    ensures fresh(requests.arrays.Values - old(requests.arrays.Values))
    ensures forall k :: 0 <= k < |requests.order| ==> requests.order[k] in old(requests.order)
  {
    hide HashTable.Entries, HashTable.Valid, Values, Lookup, Put, Remove, Work, WorkReady, Tiled;
    ghost var es, t, id := requests.Entries(), Values(requests.Entries()), request.requestId;
    assert forall i :: 0 <= i < |es| ==> t[i] == (es[i].0, es[i].1.Value()) && es[i].1 in Objects(es);
    out := Perform(request, config, cipher, now, beyond);
    if request !in Objects(es) {
      assert Values(es) == t;
    } else {
      PutThrough(es, t, id, request);
      LookupValues(es, id);
      RemoveAfterPut(t, id, request.Value());
    }
    if request.requestId != 0 {
      RemoveRequest(requests, request.requestId);
    } else {
      assert forall k :: 0 <= k < |requests.order| ==> requests.order[k] in requests.order;
    }
  }
}
