/**
 Whole runs of the proxy's own code: packet handler, workers and clean-up thread on the mutable
 table, driven by any sequence of inputs, against the transition system.
 */
module ServerRuns {
  import opened Bytes
  import opened Tables
  import opened Requests
  import opened HashTables
  import opened ProxyServer
  import P = Proxy
  import D = Delivery

  /**
   What drives the proxy: a datagram; the turn of the worker of a request, at a time; the next step
   of the clean-up thread, at a time. A worker finds the byte `beyond` behind its message.
   */
  datatype Input =
    | Arrival(packet: P.Datagram, beyond: byte)
    | Turn(id: Id, now: nat, beyond: byte)
    | Clean(time: int)

  /** The events of the transition system so far, and what the clean-up thread has still to remove of its pass. */
  datatype Play = Play(evs: seq<P.Event>, pending: seq<Id>)

  ghost function EventOf(pl: Play, i: Input): P.Event {
    match i
    case Arrival(p, _) => P.Recv(p)
    case Turn(id, _, _) => P.Finish(id)
    case Clean(now) => if pl.pending == [] then P.Note(now) else P.Drop(pl.pending[0])
  }

  /** The clean-up thread notes when its last pass is over, and else removes, in the order of its notes. */
  ghost function PlayNext(pl: Play, i: Input): Play {
    Play(pl.evs + [EventOf(pl, i)],
         if !i.Clean? then pl.pending
         else if pl.pending == [] then P.ExpiredIds(P.Run(pl.evs).table, i.time)
         else pl.pending[1..])
  }

  ghost function Played(inputs: seq<Input>): Play {
    if inputs == [] then Play([], []) else PlayNext(Played(inputs[..|inputs| - 1]), inputs[|inputs| - 1])
  }

  lemma PlayedSnoc(inputs: seq<Input>, i: nat)
    requires i < |inputs|
    ensures Played(inputs[..i + 1]) == PlayNext(Played(inputs[..i]), inputs[i])
  {
    hide PlayNext;
    assert inputs[..i + 1][..i] == inputs[..i];
  }

  /** Every input is one event: a datagram is received, a worker ends, the clean-up thread notes or drops. */
  lemma {:induction false} EventsAreInputs(inputs: seq<Input>)
    ensures var evs := Played(inputs).evs;
      |evs| == |inputs| && forall i :: 0 <= i < |inputs| ==>
        match inputs[i]
        case Arrival(p, _) => evs[i] == P.Recv(p)
        case Turn(id, _, _) => evs[i] == P.Finish(id)
        case Clean(now) => evs[i] == P.Note(now) || evs[i].Drop?
  {
    if inputs != [] {
      hide P.Run, P.ExpiredIds;
      EventsAreInputs(inputs[..|inputs| - 1]);
      assert forall i :: 0 <= i < |inputs| - 1 ==> inputs[..|inputs| - 1][i] == inputs[i];
    }
  }

  ghost predicate PendingOk(pl: Play) {
    P.Distinct(pl.pending) && forall i :: 0 <= i < |pl.pending| ==> pl.pending[i] in P.Run(pl.evs).noted
  }

  /** What is pending was noted and not yet dropped. */
  lemma PendingStep(pl: Play, i: Input)
    requires PendingOk(pl)
    ensures PendingOk(PlayNext(pl, i))
  {
    hide P.Run, P.Step, P.ExpiredIds;
    var s, e := P.Run(pl.evs), EventOf(pl, i);
    P.RunSnoc(pl.evs, e);
    NotedStep(s, e);
    if i.Clean? && pl.pending == [] {
      P.RunKeyed(pl.evs);
      P.ExpiredIdsDistinct(s.table, i.time);
    }
  }

  lemma NotedStep(s: P.Server, e: P.Event)
    ensures P.Step(s, e).noted ==
      match e
      case Note(now) => s.noted + set id | id in P.ExpiredIds(s.table, now)
      case Drop(id) => s.noted - {id}
      case _ => s.noted
  {
    hide P.PacketOutcome, IsRawHttp, RawRequest, Lookup, Put, Remove, P.ExpiredIds;
  }

  lemma {:induction false} PendingNoted(inputs: seq<Input>)
    ensures PendingOk(Played(inputs))
  {
    if inputs != [] {
      hide PendingOk, PlayNext;
      PendingNoted(inputs[..|inputs| - 1]);
      PendingStep(Played(inputs[..|inputs| - 1]), inputs[|inputs| - 1]);
    }
  }

  // ---------------------------------------------------------------------------
  // The clean-up thread

  /** How many of the inputs are steps of the clean-up thread. */
  function Cleans(inputs: seq<Input>): nat {
    if inputs == [] then 0 else Cleans(inputs[..|inputs| - 1]) + if inputs[|inputs| - 1].Clean? then 1 else 0
  }

  lemma PlayedMore(inputs: seq<Input>, i: Input)
    ensures Played(inputs + [i]) == PlayNext(Played(inputs), i)
  {
    hide PlayNext;
    assert (inputs + [i])[..|inputs|] == inputs;
  }

  /** Each of its steps takes one id off what is pending, whatever else happens in between. */
  lemma {:induction false} PendingAfter(inputs: seq<Input>, more: seq<Input>)
    requires Cleans(more) <= |Played(inputs).pending|
    ensures Played(inputs + more).pending == Played(inputs).pending[Cleans(more)..]
    decreases |more|
  {
    hide Played, P.Run, P.ExpiredIds;
    if more == [] {
      assert inputs + more == inputs;
    } else {
      var init, i := more[..|more| - 1], more[|more| - 1];
      PendingAfter(inputs, init);
      assert inputs + more == (inputs + init) + [i];
      PlayedMore(inputs + init, i);
    }
  }

  /**
   In every run, what is pending is dropped in its order: the next step of the clean-up thread but
   `n`, whenever it comes, drops the id number `n` and leaves no entry of it.
   */
  lemma DroppedInOrder(inputs: seq<Input>, more: seq<Input>, now: int)
    requires Cleans(more) < |Played(inputs).pending|
    ensures var k := Played(inputs).pending[Cleans(more)];
      var evs, evs' := Played(inputs + more).evs, Played(inputs + more + [Clean(now)]).evs;
      evs' == evs + [P.Drop(k)] && Lookup(P.Run(evs').table, k) == None
  {
    hide Played, P.Run, P.ExpiredIds, Lookup, Remove;
    PendingAfter(inputs, more);
    PlayedMore(inputs + more, Clean(now));
    PendingNoted(inputs + more);
    var pl := Played(inputs + more);
    P.RunSnoc(pl.evs, P.Drop(pl.pending[0]));
    P.RunKeyed(pl.evs);
    RemoveLaws(P.Run(pl.evs).table, pl.pending[0]);
  }

  /** With nothing pending, a clean-up step makes pending exactly what has been receiving for sixty seconds. */
  lemma NotesExpired(inputs: seq<Input>, now: int, k: Id)
    requires Played(inputs).pending == []
    ensures var entry := Lookup(P.Run(Played(inputs).evs).table, k);
      k in Played(inputs + [Clean(now)]).pending <==>
        entry.Some? && entry.value.state == Receiving && now - entry.value.receivedAt >= 60
  {
    hide Played, P.Run, P.ExpiredIds, Lookup;
    PlayedMore(inputs, Clean(now));
    P.RunKeyed(Played(inputs).evs);
    P.NotedIffExpired(P.Run(Played(inputs).evs).table, now, k);
  }

  /**
   So a request that has been receiving for sixty seconds when the clean-up thread looks is dropped
   after as many more steps of that thread as there are entries, whatever else happens in between.
   */
  lemma ExpiredIsDropped(inputs: seq<Input>, now: int, more: seq<Input>, k: Id)
    requires Played(inputs).pending == []
    requires var entry := Lookup(P.Run(Played(inputs).evs).table, k);
      entry.Some? && entry.value.state == Receiving && now - entry.value.receivedAt >= 60
    requires Cleans(more) >= |P.Run(Played(inputs).evs).table|
    ensures exists j :: 0 <= j < |more| && DropsIt(inputs + [Clean(now)], more, j, k)
  {
    hide Played, P.Run, P.ExpiredIds, Lookup;
    var all := inputs + [Clean(now)];
    var pending := Played(all).pending;
    NotesExpired(inputs, now, k);
    var n :| 0 <= n < |pending| && pending[n] == k;
    assert |pending| <= |P.Run(Played(inputs).evs).table| by {
      PlayedMore(inputs, Clean(now));
      FewExpired(P.Run(Played(inputs).evs).table, now);
    }
    var j := NthClean(more, n);
    DroppedInOrder(all, more[..j], more[j].time);
    assert more[..j] + [more[j]] == more[..j + 1];
    assert all + more[..j] + [Clean(more[j].time)] == all + more[..j + 1];
    assert DropsIt(all, more, j, k);
  }

  /** Input `j` of `more` is a step of the clean-up thread that drops `k`. */
  ghost predicate DropsIt(inputs: seq<Input>, more: seq<Input>, j: nat, k: Id)
    requires j < |more|
  {
    var evs := Played(inputs + more[..j + 1]).evs;
    && more[j].Clean? && evs == Played(inputs + more[..j]).evs + [P.Drop(k)] && Lookup(P.Run(evs).table, k) == None
  }

  lemma {:induction false} NthClean(inputs: seq<Input>, n: nat) returns (j: nat)
    requires n < Cleans(inputs)
    ensures j < |inputs| && inputs[j].Clean? && Cleans(inputs[..j]) == n
  {
    var last := |inputs| - 1;
    if n < Cleans(inputs[..last]) {
      j := NthClean(inputs[..last], n);
      assert inputs[..last][..j] == inputs[..j];
    } else {
      j := last;
    }
  }

  lemma {:induction false} FewExpired(t: Table<Req>, now: int)
    ensures |P.ExpiredIds(t, now)| + |P.Fresher(t, now)| == |t|
  {
    if t != [] {
      hide P.Expired;
      FewExpired(t[1..], now);
    }
  }

  /**
   A pass that nothing disturbs: with nothing pending, one step of the clean-up thread and as many
   more as there are expired requests leave exactly the others, and nothing pending.
   */
  lemma PassOverInputs(inputs: seq<Input>, now: int, rest: seq<Input>)
    requires Played(inputs).pending == [] && forall i :: 0 <= i < |rest| ==> rest[i].Clean?
    requires var t := P.Run(Played(inputs).evs).table; |rest| == |t| - |P.Fresher(t, now)|
    ensures var pl := Played(inputs + [Clean(now)] + rest);
      pl.pending == [] && P.Run(pl.evs).table == P.Fresher(P.Run(Played(inputs).evs).table, now)
  {
    hide Played, P.Run, P.ExpiredIds, P.Fresher, P.Drops;
    var evs, all := Played(inputs).evs, inputs + [Clean(now)];
    var t := P.Run(evs).table;
    FewExpired(t, now);
    PlayedMore(inputs, Clean(now));
    var pending := Played(all).pending;
    AllCleans(rest);
    PendingAfter(all, rest);
    DropsAre(all, rest);
    assert pending[..|pending|] == pending;
    P.PassExact(evs, now);
  }

  lemma {:induction false} AllCleans(rest: seq<Input>)
    requires forall i :: 0 <= i < |rest| ==> rest[i].Clean?
    ensures Cleans(rest) == |rest|
  {
    if rest != [] {
      AllCleans(rest[..|rest| - 1]);
    }
  }

  lemma {:induction false} DropsAre(inputs: seq<Input>, rest: seq<Input>)
    requires (forall i :: 0 <= i < |rest| ==> rest[i].Clean?) && |rest| <= |Played(inputs).pending|
    ensures Played(inputs + rest).evs == Played(inputs).evs + P.Drops(Played(inputs).pending[..|rest|])
    decreases |rest|
  {
    hide Played, P.Run, P.ExpiredIds;
    var evs, pending := Played(inputs).evs, Played(inputs).pending;
    if rest == [] {
      assert inputs + rest == inputs && evs + [] == evs;
    } else {
      var n := |rest| - 1;
      var init, i := rest[..n], rest[n];
      DropsAre(inputs, init);
      AllCleans(init);
      PendingAfter(inputs, init);
      assert inputs + rest == (inputs + init) + [i];
      PlayedMore(inputs + init, i);
      assert pending[..n + 1][..n] == pending[..n];
      assert evs + P.Drops(pending[..n]) + [P.Drop(pending[n])] == evs + (P.Drops(pending[..n]) + [P.Drop(pending[n])]);
    }
  }

  // ---------------------------------------------------------------------------
  // What is dispatched

  /** The clean-up thread's next step. */
  method CleanStep(requests: HashTable<Request>, pending: seq<Id>, now: int) returns (rest: seq<Id>)
    requires Ready(requests)
    modifies requests, requests.order, requests.arrays.Values
    ensures Ready(requests)
    ensures var es, t := old(requests.Entries()), old(Values(requests.Entries()));
      if pending == [] then
        requests.Entries() == es && Values(requests.Entries()) == t && rest == P.ExpiredIds(t, now)
      else
        && requests.Entries() == Remove(es, pending[0]) && Values(requests.Entries()) == Remove(t, pending[0])
        && rest == pending[1..]
    ensures Objects(requests.Entries()) <= old(Objects(requests.Entries()))
    ensures fresh(requests.arrays.Values - old(requests.arrays.Values))
    ensures forall k :: 0 <= k < |requests.order| ==> requests.order[k] in old(requests.order)
  {
    hide Ready, Values, Remove, HashTable.Entries, P.ExpiredIds;
    ghost var es, t := requests.Entries(), Values(requests.Entries());
    if pending == [] {
      rest := NoteExpired(requests, now);
      assert Values(es) == t;
      assert forall k :: 0 <= k < |requests.order| ==> requests.order[k] in requests.order;
    } else {
      RemoveRequest(requests, pending[0]);
      rest := pending[1..];
    }
  }

  /** The transition system's events for workers and clean-up, on a state whose table is known. */
  lemma FinishStep(s: P.Server, id: Id)
    ensures P.Step(s, P.Finish(id)) ==
      if id in s.busy then s.(table := Remove(s.table, id), busy := s.busy - multiset{id}) else s
  {
  }

  lemma CleanEvent(pl: Play, now: int)
    requires PendingOk(pl)
    ensures var s := P.Run(pl.evs); var s' := P.Step(s, EventOf(pl, Clean(now)));
      s' == s.(noted := s'.noted, table := if pl.pending == [] then s.table else Remove(s.table, pl.pending[0]))
  {
    hide P.Run, Remove, P.ExpiredIds;
  }

  /** One input, as far as it concerns the table and what is dispatched; `workers` are the workers that run. */
  method Handle(requests: HashTable<Request>, pending: seq<Id>, workers: multiset<Id>, i: Input, ghost pl: Play)
    returns (rest: seq<Id>, running: multiset<Id>, handed: seq<(Id, Req)>)
    requires Ready(requests) && PendingOk(pl) && pl.pending == pending
    requires P.Run(pl.evs).table == Values(requests.Entries()) && P.Run(pl.evs).busy == workers
    modifies requests, requests.order, requests.arrays.Values, Objects(requests.Entries())
    ensures Ready(requests) && PlayNext(pl, i).pending == rest
    ensures var s, s' := P.Run(pl.evs), P.Run(PlayNext(pl, i).evs);
      s'.table == Values(requests.Entries()) && s'.busy == running && s'.dispatched == s.dispatched + handed
    ensures fresh(Objects(requests.Entries()) - old(Objects(requests.Entries())))
    ensures fresh(requests.arrays.Values - old(requests.arrays.Values))
    ensures forall k :: 0 <= k < |requests.order| ==> requests.order[k] in old(requests.order) || fresh(requests.order[k])
  {
    hide Ready, Values, Lookup, Remove, HashTable.Entries, P.Run, P.Step, P.ExpiredIds, PendingOk, SameElsewhere;
    ghost var s := P.Run(pl.evs);
    P.RunSnoc(pl.evs, EventOf(pl, i));
    rest, running, handed := pending, workers, [];
    assert s.dispatched + [] == s.dispatched;
    match i {
      case Arrival(p, _) =>
        var worker, id := ProcessPacket(requests, p, s);
        if worker.Some? {
          handed := [(id, worker.value.Value())];
          running := if id == 0 then workers else workers + multiset{id};
        }
      case Turn(id, _, _) =>
        FinishStep(s, id);
        if id in workers {
          RemoveRequest(requests, id);
          running := workers - multiset{id};
        } else {
          assert forall k :: 0 <= k < |requests.order| ==> requests.order[k] in requests.order;
        }
      case Clean(now) =>
        CleanEvent(pl, now);
        rest := CleanStep(requests, pending, now);
    }
  }

  /** The proxy from its start, with the two-level table it allocates, on any sequence of inputs. */
  method Serve(inputs: seq<Input>) returns (handed: seq<(Id, Req)>)
    ensures handed == P.Run(Played(inputs).evs).dispatched
  {
    hide P.Run, Values, HashTable.Valid, Played, PlayNext, PendingOk;
    var requests := new HashTable<Request>(16);
    var pending, workers := [], multiset{};
    handed := [];
    AtStart(inputs);
    for i := 0 to |inputs|
      invariant Ready(requests) && fresh(requests) && fresh(requests.arrays.Values) && fresh(requests.order)
      invariant fresh(Objects(requests.Entries()))
      invariant var pl := Played(inputs[..i]); var s := P.Run(pl.evs);
        && pl.pending == pending && s.table == Values(requests.Entries()) && s.busy == workers && s.dispatched == handed
    {
      PlayedSnoc(inputs, i);
      PendingNoted(inputs[..i]);
      var more;
      pending, workers, more := Handle(requests, pending, workers, inputs[i], Played(inputs[..i]));
      handed := handed + more;
    }
    assert inputs[..|inputs|] == inputs;
  }

  lemma AtStart(inputs: seq<Input>)
    ensures Played(inputs[..0]) == Play([], []) && P.Run([]) == P.START
  {
  }

  /** The delivery theorem, for the code: every sender whose stream arrives is served exactly once and faithfully. */
  method ServeSenders(inputs: seq<Input>, ghost senders: seq<D.Sender>) returns (handed: seq<(Id, Req)>)
    requires var evs := Played(inputs).evs;
      forall i :: 0 <= i < |senders| ==>
        D.WellFormed(senders[i]) && D.Arrived(evs, senders[i]) && !D.Swept(evs, senders[i])
    ensures forall i :: 0 <= i < |senders| ==> D.Served(handed, senders[i])
  {
    hide P.Run, P.SentFor, D.Swept, D.WellFormed, D.Arrived, D.Served, Played;
    handed := Serve(inputs);
    D.AllDelivered(Played(inputs).evs, senders);
  }
}
