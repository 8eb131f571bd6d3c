/**
 The proxy as a transition system over whole runs (src/server.c): packets, workers that end, and
 the two phases of a clean-up pass.
 */
module Proxy {
  import opened Bytes
  import opened Tables
  import opened Requests

  const OLD_REQUEST_SECS: int := 60

  /** A received datagram: the sender's address, the receive buffer, how much of it was received, and when. */
  datatype Packet = Packet(address: seq<byte>, buffer: seq<byte>, length: nat, at: int)

  /** The id is read from the buffer before any size check, so the buffer reaches that far. */
  type Datagram = p: Packet | 10 <= |p.buffer| && p.length <= |p.buffer| && SOURCE_LENGTH <= |p.address|
    witness Packet(NO_SOURCE, [0, 0, 0, 0, 0, 0, 0, 0, 0, 0], 0, 0)

  function Data(p: Datagram): seq<byte> {
    p.buffer[..p.length]
  }

  lemma IdIsHeaders(p: Datagram)
    requires |Data(p)| >= HEADER_LENGTH
    ensures IdField(p.buffer) == DecodeHeader(Data(p)).requestId
  {
    assert Data(p)[2..10] == p.buffer[2..10];
  }

  /** What the proxy keeps and compares of the sender's address. */
  function SourceOf(p: Datagram): Source {
    p.address[..SOURCE_LENGTH]
  }

  /**
   `Finish(id)`: a worker of request `id` ends. `Note(now)`: the clean-up thread notes the expired
   requests. `Drop(id)`: it removes one that it has noted. Other events may come in between.
   */
  datatype Event = Recv(packet: Datagram) | Finish(id: Id) | Note(now: int) | Drop(id: Id)

  /**
   The table of partial requests, the requests handed to workers so far, each with its table key
   (0 for raw HTTP), the ids noted and not yet dropped, and the keys of the workers that run.
   */
  datatype Server = Server(table: Table<Req>, dispatched: seq<(Id, Req)>, noted: set<Id>, busy: multiset<Id>)

  const START: Server := Server([], [], {}, multiset{})

  // ---------------------------------------------------------------------------
  // One step

  datatype Outcome = Ignored | Removed | Stored(request: Req)

  /** What a packet with a nonzero id does to the entry of that id. */
  ghost function PacketOutcome(entry: Option<Req>, p: Datagram): Outcome {
    var r := match entry case None => FRESH.(source := SourceOf(p), receivedAt := p.at) case Some(r) => r;
    if r.source != SourceOf(p) then Ignored
    else
      var r' := ParseChunk(r, Data(p));
      if r'.state == ReceivingFail then Removed else Stored(r')
  }

  predicate Expired(r: Req, now: int) {
    r.state == Receiving && now - r.receivedAt >= OLD_REQUEST_SECS
  }

  /** What a clean-up pass notes: the stored ids of the expired requests, in the order of the list. */
  function ExpiredIds(t: Table<Req>, now: int): seq<Id> {
    if t == [] then []
    else (if Expired(t[0].1, now) then [t[0].1.requestId] else []) + ExpiredIds(t[1..], now)
  }

  function RemoveAll(t: Table<Req>, ids: seq<Id>): Table<Req>
    decreases |ids|
  {
    if ids == [] then t else RemoveAll(Remove(t, ids[0]), ids[1..])
  }

  ghost function Step(s: Server, e: Event): Server {
    match e
    case Recv(p) =>
      if IsRawHttp(Data(p)) then s.(dispatched := s.dispatched + [(0, RawRequest(FRESH, Data(p)))])
      else if IdField(p.buffer) == 0 then s
      else Receive(s, IdField(p.buffer), PacketOutcome(Lookup(s.table, IdField(p.buffer)), p))
    case Finish(id) =>
      if id in s.busy then s.(table := Remove(s.table, id), busy := s.busy - multiset{id}) else s
    case Note(now) => s.(noted := s.noted + set id | id in ExpiredIds(s.table, now))
    case Drop(id) => if id in s.noted then s.(table := Remove(s.table, id), noted := s.noted - {id}) else s
  }

  ghost function Receive(s: Server, id: Id, o: Outcome): Server {
    match o
    case Ignored => s
    case Removed => s.(table := Remove(s.table, id))
    case Stored(r) =>
      if r.state != Received then s.(table := Put(s.table, id, r))
      else s.(table := Put(s.table, id, r), dispatched := s.dispatched + [(id, r)], busy := s.busy + multiset{id})
  }

  ghost function Run(evs: seq<Event>): Server {
    if evs == [] then START else Step(Run(evs[..|evs| - 1]), evs[|evs| - 1])
  }

  // ---------------------------------------------------------------------------
  // Keys

  /** Every entry is stored under its own nonzero request id. */
  ghost predicate Keyed(t: Table<Req>) {
    DistinctKeys(t) && forall i :: 0 <= i < |t| ==> t[i].0 != 0 && t[i].1.requestId == t[i].0
  }

  lemma KeyedLookup(t: Table<Req>, k: Id)
    requires Keyed(t) && Lookup(t, k).Some?
    ensures k != 0 && Lookup(t, k).value.requestId == k
    ensures exists i :: 0 <= i < |t| && t[i] == (k, Lookup(t, k).value)
  {
    hide Lookup;
    var i :| 0 <= i < |t| && t[i].0 == k;
    LookupAt(t, i);
  }

  lemma PacketKeepsId(entry: Option<Req>, p: Datagram)
    requires !IsRawHttp(Data(p)) && PacketOutcome(entry, p).Stored?
    requires entry.Some? ==> entry.value.requestId == IdField(p.buffer)
    ensures PacketOutcome(entry, p).request.requestId == IdField(p.buffer)
    ensures PacketOutcome(entry, p).request.source == SourceOf(p)
    ensures entry.Some? ==> PacketOutcome(entry, p).request.receivedAt == entry.value.receivedAt
    ensures entry.None? ==> PacketOutcome(entry, p).request.receivedAt == p.at
  {
    hide HeaderAccepted, OptionSection, OverlapsAny, IsRawHttp;
    var b := Data(p);
    if |b| >= HEADER_LENGTH {
      assert b[2..10] == p.buffer[2..10];
    }
  }

  lemma RemoveKeyed(t: Table<Req>, k: Id)
    requires Keyed(t)
    ensures Keyed(Remove(t, k))
  {
    hide Remove, Lookup;
    RemoveLaws(t, k);
  }

  lemma PutKeyed(t: Table<Req>, k: Id, r: Req)
    requires Keyed(t) && k != 0 && r.requestId == k
    ensures Keyed(Put(t, k, r))
  {
    hide Put, Lookup;
    PutLaws(t, k, r);
    var t' := Put(t, k, r);
    forall i | 0 <= i < |t'| ensures t'[i].0 != 0 && t'[i].1.requestId == t'[i].0 {
      if t'[i].0 == k {
        LookupAt(t', i);
      }
    }
  }

  lemma {:induction false} RemoveAllKeyed(t: Table<Req>, ids: seq<Id>)
    requires Keyed(t)
    ensures Keyed(RemoveAll(t, ids))
    decreases |ids|
  {
    if ids != [] {
      RemoveKeyed(t, ids[0]);
      RemoveAllKeyed(Remove(t, ids[0]), ids[1..]);
    }
  }

  lemma StepKeyed(s: Server, e: Event)
    requires Keyed(s.table)
    ensures Keyed(Step(s, e).table)
  {
    hide PacketOutcome, Put, Remove, Lookup, Keyed, IsRawHttp, RawRequest, ExpiredIds;
    match e
    case Recv(p) =>
      var id := IdField(p.buffer);
      var entry := Lookup(s.table, id);
      RemoveKeyed(s.table, id);
      if !IsRawHttp(Data(p)) && id != 0 && PacketOutcome(entry, p).Stored? {
        if entry.Some? {
          KeyedLookup(s.table, id);
        }
        PacketKeepsId(entry, p);
        PutKeyed(s.table, id, PacketOutcome(entry, p).request);
      }
    case Finish(id) => RemoveKeyed(s.table, id);
    case Note(_) =>
    case Drop(id) => RemoveKeyed(s.table, id);
  }

  lemma {:induction false} RunKeyed(evs: seq<Event>)
    ensures Keyed(Run(evs).table)
  {
    if evs != [] {
      hide Step;
      RunKeyed(evs[..|evs| - 1]);
      StepKeyed(Run(evs[..|evs| - 1]), evs[|evs| - 1]);
    }
  }

  // ---------------------------------------------------------------------------
  // Clean-up

  function Fresher(t: Table<Req>, now: int): Table<Req> {
    if t == [] then []
    else (if Expired(t[0].1, now) then [] else [t[0]]) + Fresher(t[1..], now)
  }

  /** What a clean-up pass leaves of an entry: nothing of one that has been receiving for sixty seconds. */
  function Unexpired(entry: Option<Req>, now: int): Option<Req> {
    if entry.Some? && entry.value.state == Receiving && now - entry.value.receivedAt >= 60 then None else entry
  }

  lemma {:induction false} FresherLookup(t: Table<Req>, now: int, k: Id)
    requires DistinctKeys(t)
    ensures Lookup(Fresher(t, now), k) == Unexpired(Lookup(t, k), now)
  {
    if t != [] {
      var rest := t[1..];
      FresherLookup(rest, now, k);
      if t[0].0 == k {
        AbsentBehind(t, k);
      }
      var f := Fresher(rest, now);
      assert ([t[0]] + f)[1..] == f && [] + f == f;
    }
  }

  lemma AbsentBehind(t: Table<Req>, k: Id)
    requires DistinctKeys(t) && t != [] && t[0].0 == k
    ensures Lookup(t[1..], k) == None
  {
    hide Lookup;
  }

  lemma {:induction false} RemoveAllBehind(x: (Id, Req), t: Table<Req>, ids: seq<Id>)
    requires x.0 !in ids
    ensures RemoveAll([x] + t, ids) == [x] + RemoveAll(t, ids)
    decreases |ids|
  {
    if ids != [] {
      assert ([x] + t)[1..] == t;
      RemoveAllBehind(x, Remove(t, ids[0]), ids[1..]);
    }
  }

  lemma {:induction false} ExpiredIdsAreKeys(t: Table<Req>, now: int, k: Id)
    requires Keyed(t) && k in ExpiredIds(t, now)
    ensures exists i :: 0 <= i < |t| && t[i].0 == k
  {
    if k in ExpiredIds(t[1..], now) {
      ExpiredIdsAreKeys(t[1..], now, k);
      var i :| 0 <= i < |t[1..]| && t[1..][i].0 == k;
      assert t[i + 1].0 == k;
    } else {
      assert t[0].0 == k;
    }
  }

  /** An id is noted exactly if its own entry is expired. */
  lemma {:induction false} NotedIffExpired(t: Table<Req>, now: int, k: Id)
    requires Keyed(t)
    ensures k in ExpiredIds(t, now) <==> Lookup(t, k).Some? && Expired(Lookup(t, k).value, now)
  {
    if t != [] {
      hide Expired;
      var rest := t[1..];
      assert Keyed(rest);
      NotedIffExpired(rest, now, k);
      if t[0].0 == k && k in ExpiredIds(rest, now) {
        ExpiredIdsAreKeys(rest, now, k);
        assert false;
      }
    }
  }

  ghost predicate Distinct(ids: seq<Id>) {
    forall i, j :: 0 <= i < j < |ids| ==> ids[i] != ids[j]
  }

  lemma {:induction false} ExpiredIdsDistinct(t: Table<Req>, now: int)
    requires Keyed(t)
    ensures Distinct(ExpiredIds(t, now))
  {
    if t != [] {
      hide Expired;
      var rest := ExpiredIds(t[1..], now);
      ExpiredIdsDistinct(t[1..], now);
      if t[0].0 in rest {
        ExpiredIdsAreKeys(t[1..], now, t[0].0);
        assert false;
      }
      assert forall j :: 0 <= j < |rest| ==> rest[j] in rest;
      assert Distinct([t[0].0] + rest) && [] + rest == rest;
    }
  }

  /** A clean-up pass removes exactly the expired entries and keeps the others in their order. */
  lemma {:induction false} SweepExact(t: Table<Req>, now: int)
    requires Keyed(t)
    ensures RemoveAll(t, ExpiredIds(t, now)) == Fresher(t, now)
  {
    if t != [] {
      hide Expired;
      var rest := t[1..];
      assert Keyed(rest);
      SweepExact(rest, now);
      if Expired(t[0].1, now) {
        assert ExpiredIds(t, now)[1..] == ExpiredIds(rest, now);
        assert Remove(t, t[0].0) == rest;
      } else {
        assert t[0].0 !in ExpiredIds(rest, now) by {
          if t[0].0 in ExpiredIds(rest, now) {
            ExpiredIdsAreKeys(rest, now, t[0].0);
            assert false;
          }
        }
        assert t == [t[0]] + rest && [] + ExpiredIds(rest, now) == ExpiredIds(rest, now);
        RemoveAllBehind(t[0], rest, ExpiredIds(rest, now));
      }
    }
  }

  /** Removing by stored id is right only because it is the key: here it takes the wrong entry. */
  lemma SweepNeedsKeys(r: Req, other: Req, now: int)
    requires Expired(r, now) && !Expired(other, now) && r.requestId == 2
    ensures RemoveAll([(1, r), (2, other)], ExpiredIds([(1, r), (2, other)], now)) == [(1, r)]
    ensures Fresher([(1, r), (2, other)], now) == [(2, other)]
  {
    var t: Table<Req> := [(1, r), (2, other)];
    var rest: Table<Req> := [(2, other)];
    hide Expired;
    assert t[1..] == rest && rest[1..] == [];
    assert ExpiredIds([], now) == [] && ExpiredIds(rest, now) == [] + [] == [];
    assert ExpiredIds(t, now) == [r.requestId] + ExpiredIds(rest, now) == [2];
    assert Remove(rest, 2) == [] && Remove(t, 2) == [(1, r)] + Remove(rest, 2) == [(1, r)];
    assert [2][1..] == [] && RemoveAll(Remove(t, 2), []) == Remove(t, 2);
    assert Fresher([], now) == [] && Fresher(rest, now) == [(2, other)] + [];
    assert Fresher(t, now) == [] + Fresher(rest, now);
  }

  ghost function Drops(ids: seq<Id>): seq<Event> {
    if ids == [] then [] else Drops(ids[..|ids| - 1]) + [Drop(ids[|ids| - 1])]
  }

  lemma {:induction false} RemoveAllSnoc(t: Table<Req>, ids: seq<Id>, k: Id)
    ensures RemoveAll(t, ids + [k]) == Remove(RemoveAll(t, ids), k)
    decreases |ids|
  {
    hide Remove;
    if ids == [] {
      assert [] + [k] == [k] && [k][1..] == [];
    } else {
      assert (ids + [k])[0] == ids[0] && (ids + [k])[1..] == ids[1..] + [k];
      RemoveAllSnoc(Remove(t, ids[0]), ids[1..], k);
    }
  }

  lemma {:induction false} DropsRemove(evs: seq<Event>, ids: seq<Id>)
    requires (forall i :: 0 <= i < |ids| ==> ids[i] in Run(evs).noted) && Distinct(ids)
    ensures Run(evs + Drops(ids)).table == RemoveAll(Run(evs).table, ids)
    ensures Run(evs + Drops(ids)).noted == Run(evs).noted - set id | id in ids
    decreases |ids|
  {
    if ids == [] {
      assert evs + Drops(ids) == evs;
    } else {
      hide RemoveAll, Remove, Run, Step;
      var init, k := ids[..|ids| - 1], ids[|ids| - 1];
      assert ids == init + [k] && k !in init;
      DropsRemove(evs, init);
      assert evs + Drops(ids) == (evs + Drops(init)) + [Drop(k)];
      RunSnoc(evs + Drops(init), Drop(k));
      DropStep(Run(evs + Drops(init)), k);
      RemoveAllSnoc(Run(evs).table, init, k);
      NotedLess(Run(evs).noted, init, k);
    }
  }

  lemma DropStep(s: Server, k: Id)
    requires k in s.noted
    ensures Step(s, Drop(k)) == s.(table := Remove(s.table, k), noted := s.noted - {k})
  {
  }

  lemma NotedLess(noted: set<Id>, ids: seq<Id>, k: Id)
    ensures (noted - set id | id in ids) - {k} == noted - set id | id in ids + [k]
  {
  }

  lemma RunSnoc(evs: seq<Event>, e: Event)
    ensures Run(evs + [e]) == Step(Run(evs), e)
  {
    hide Step;
    assert (evs + [e])[..|evs|] == evs;
  }

  /** After any run, a clean-up pass that no other event disturbs removes exactly the expired requests. */
  lemma PassExact(evs: seq<Event>, now: int)
    ensures Run(evs + [Note(now)] + Drops(ExpiredIds(Run(evs).table, now))).table == Fresher(Run(evs).table, now)
    ensures forall k :: Lookup(Fresher(Run(evs).table, now), k) == Unexpired(Lookup(Run(evs).table, k), now)
  {
    hide Run, RemoveAll, ExpiredIds, Fresher, Lookup;
    forall k ensures Lookup(Fresher(Run(evs).table, now), k) == Unexpired(Lookup(Run(evs).table, k), now) {
      RunKeyed(evs);
      FresherLookup(Run(evs).table, now, k);
    }
    var t := Run(evs).table;
    RunKeyed(evs);
    RunSnoc(evs, Note(now));
    ExpiredIdsDistinct(t, now);
    DropsRemove(evs + [Note(now)], ExpiredIds(t, now));
    SweepExact(t, now);
  }

  /** Disturbed or not, nothing is waiting to be dropped that was not expired when it was noted. */
  lemma {:induction false} NotedWasExpired(evs: seq<Event>, k: Id)
    requires k in Run(evs).noted
    ensures exists i :: 0 <= i < |evs| && ExpiredAt(evs, i, k)
  {
    hide Step, Lookup, ExpiredIds, Keyed;
    var n := |evs| - 1;
    var init := evs[..n];
    if ExpiredAt(evs, n, k) {
    } else {
      RunKeyed(init);
      NewlyNoted(Run(init), evs[n], k);
      NotedWasExpired(init, k);
      var i :| 0 <= i < |init| && ExpiredAt(init, i, k);
      assert init[..i] == evs[..i];
      assert ExpiredAt(evs, i, k);
    }
  }

  /** Event `i` is a note taken while the entry of `k` was expired. */
  ghost predicate ExpiredAt(evs: seq<Event>, i: nat, k: Id)
    requires i < |evs|
  {
    var entry := Lookup(Run(evs[..i]).table, k);
    evs[i].Note? && entry.Some? && entry.value.state == Receiving && evs[i].now - entry.value.receivedAt >= 60
  }

  lemma NewlyNoted(s: Server, e: Event, k: Id)
    requires Keyed(s.table) && k in Step(s, e).noted
    ensures k in s.noted || (e.Note? && Lookup(s.table, k).Some? && Expired(Lookup(s.table, k).value, e.now))
  {
    hide PacketOutcome, Lookup, Put, Remove, Expired, ExpiredIds, IsRawHttp, RawRequest;
    if e.Note? {
      NotedIffExpired(s.table, e.now, k);
    }
  }

  // ---------------------------------------------------------------------------
  // Demultiplexing

  ghost predicate Touches(e: Event, k: Id) {
    match e
    case Recv(p) => !IsRawHttp(Data(p)) && IdField(p.buffer) == k
    case Finish(id) => id == k
    case Note(_) => true
    case Drop(id) => id == k
  }

  /** The events that can concern id `k`. */
  ghost function Project(evs: seq<Event>, k: Id): seq<Event> {
    if evs == [] then []
    else Project(evs[..|evs| - 1], k) + if Touches(evs[|evs| - 1], k) then [evs[|evs| - 1]] else []
  }

  /** What was dispatched under key `k`. */
  function SentFor(d: seq<(Id, Req)>, k: Id): seq<Req> {
    if d == [] then []
    else SentFor(d[..|d| - 1], k) + if d[|d| - 1].0 == k then [d[|d| - 1].1] else []
  }

  /** All that concerns one id: its entry, whether it is noted, its running workers, and what was dispatched for it. */
  datatype Slot = Slot(entry: Option<Req>, noted: bool, busy: nat, sent: seq<Req>)

  const EMPTY_SLOT: Slot := Slot(None, false, 0, [])

  ghost function View(s: Server, k: Id): Slot {
    Slot(Lookup(s.table, k), k in s.noted, s.busy[k], SentFor(s.dispatched, k))
  }

  ghost function SlotReceive(s: Slot, o: Outcome): Slot {
    match o
    case Ignored => s
    case Removed => s.(entry := None)
    case Stored(r) =>
      if r.state != Received then s.(entry := Some(r))
      else s.(entry := Some(r), sent := s.sent + [r], busy := s.busy + 1)
  }

  /** A slot after an event that touches its id. */
  ghost function SlotNext(s: Slot, e: Event): Slot {
    match e
    case Recv(p) => SlotReceive(s, PacketOutcome(s.entry, p))
    case Finish(_) => if s.busy > 0 then s.(entry := None, busy := s.busy - 1) else s
    case Note(now) => s.(noted := s.noted || (s.entry.Some? && Expired(s.entry.value, now)))
    case Drop(_) => if s.noted then s.(entry := None, noted := false) else s
  }

  /** An event acts on the slots it touches, on each as a function of that slot, and on no other. */
  lemma StepView(s: Server, e: Event, k: Id)
    requires Keyed(s.table) && k != 0
    ensures View(Step(s, e), k) == if Touches(e, k) then SlotNext(View(s, k), e) else View(s, k)
  {
    hide PacketOutcome, Put, Remove, Lookup, IsRawHttp, RawRequest, Expired, ExpiredIds, SentFor, Receive;
    match e
    case Recv(p) =>
      if IsRawHttp(Data(p)) {
        SentSnoc(s.dispatched, (0, RawRequest(FRESH, Data(p))), k);
      } else if IdField(p.buffer) != 0 {
        ReceiveView(s, IdField(p.buffer), PacketOutcome(Lookup(s.table, IdField(p.buffer)), p), k);
      }
    case Finish(id) => RemoveLaws(s.table, id);
    case Note(now) => NotedIffExpired(s.table, now, k);
    case Drop(id) => RemoveLaws(s.table, id);
  }

  lemma ReceiveView(s: Server, id: Id, o: Outcome, k: Id)
    requires DistinctKeys(s.table)
    ensures View(Receive(s, id, o), k) == if k == id then SlotReceive(View(s, k), o) else View(s, k)
  {
    hide Put, Remove, Lookup, SentFor;
    RemoveLaws(s.table, id);
    if o.Stored? {
      PutLaws(s.table, id, o.request);
      SentSnoc(s.dispatched, (id, o.request), k);
    }
  }

  lemma SentSnoc(d: seq<(Id, Req)>, x: (Id, Req), k: Id)
    ensures SentFor(d + [x], k) == if x.0 == k then SentFor(d, k) + [x.1] else SentFor(d, k)
  {
    assert (d + [x])[..|d|] == d;
    assert SentFor(d, k) + [] == SentFor(d, k);
  }

  ghost function SlotRun(evs: seq<Event>): Slot {
    if evs == [] then EMPTY_SLOT else SlotNext(SlotRun(evs[..|evs| - 1]), evs[|evs| - 1])
  }

  lemma SlotSnoc(evs: seq<Event>, e: Event)
    ensures SlotRun(evs + [e]) == SlotNext(SlotRun(evs), e)
  {
    hide SlotNext;
    assert (evs + [e])[..|evs|] == evs;
  }

  /** The whole server, looked at through id `k`, is the slot of `k` run on the events that touch `k`. */
  lemma {:induction false} Demultiplexed(evs: seq<Event>, k: Id)
    requires k != 0
    ensures SlotRun(Project(evs, k)) == View(Run(evs), k)
  {
    if evs != [] {
      hide Step, SlotNext, Touches, View, Keyed;
      var init, e := evs[..|evs| - 1], evs[|evs| - 1];
      Demultiplexed(init, k);
      RunKeyed(init);
      StepView(Run(init), e, k);
      if Touches(e, k) {
        SlotSnoc(Project(init, k), e);
      } else {
        assert Project(init, k) + [] == Project(init, k);
      }
    }
  }

  lemma {:induction false} ProjectTwice(evs: seq<Event>, k: Id)
    ensures Project(Project(evs, k), k) == Project(evs, k)
  {
    if evs != [] {
      hide Touches;
      var init, e := evs[..|evs| - 1], evs[|evs| - 1];
      ProjectTwice(init, k);
      var p := Project(init, k);
      if Touches(e, k) {
        assert (p + [e])[..|p|] == p;
      } else {
        assert p + [] == p;
      }
    }
  }

  /** Non-interference: dropping every event that does not touch `k` changes nothing about `k`. */
  lemma NonInterference(evs: seq<Event>, k: Id)
    requires k != 0
    ensures View(Run(Project(evs, k)), k) == View(Run(evs), k)
  {
    hide View, Run, SlotRun, Project;
    Demultiplexed(evs, k);
    Demultiplexed(Project(evs, k), k);
    ProjectTwice(evs, k);
  }

  /** Raw HTTP packets leave the table alone. */
  lemma RawLeavesTable(s: Server, p: Datagram)
    requires IsRawHttp(Data(p))
    ensures Step(s, Recv(p)) == s.(dispatched := s.dispatched + [(0, RawRequest(FRESH, Data(p)))])
  {
  }

  /** Raw requests are all that is ever dispatched under key 0. */
  lemma {:induction false} DispatchedRaw(evs: seq<Event>, i: nat)
    requires i < |SentFor(Run(evs).dispatched, 0)|
    ensures exists b :: IsRawHttp(b) && SentFor(Run(evs).dispatched, 0)[i] == RawRequest(FRESH, b)
  {
    hide SentFor, PacketOutcome, Lookup, Put, Remove, ExpiredIds, IsRawHttp, RawRequest;
    if evs == [] {
      assert SentFor([], 0) == [] by { SentNothing(); }
    } else {
      var init, e := evs[..|evs| - 1], evs[|evs| - 1];
      var d := Run(init).dispatched;
      if i < |SentFor(d, 0)| {
        DispatchedRaw(init, i);
      }
      if e.Recv? {
        var id := IdField(e.packet.buffer);
        SentSnoc(d, (0, RawRequest(FRESH, Data(e.packet))), 0);
        if PacketOutcome(Lookup(Run(init).table, id), e.packet).Stored? {
          SentSnoc(d, (id, PacketOutcome(Lookup(Run(init).table, id), e.packet).request), 0);
        }
      }
    }
  }

  lemma SentNothing()
    ensures SentFor([], 0) == []
  {
  }

  // ---------------------------------------------------------------------------
  // What of a datagram counts

  /** Of the receive buffer only the received bytes count, and the id; of the address, its first sixteen bytes. */
  lemma OnlyReceivedCounts(s: Server, p: Datagram, q: Datagram)
    requires p.address[..16] == q.address[..16] && p.at == q.at && p.length == q.length
    requires p.buffer[..p.length] == q.buffer[..q.length] && p.buffer[2..10] == q.buffer[2..10]
    ensures Step(s, Recv(p)) == Step(s, Recv(q))
  {
    hide IsRawHttp, ParseChunk, Lookup, Put, Remove, FromBigEndian, RawRequest;
    assert Data(p) == Data(q) && SourceOf(p) == SourceOf(q) && IdField(p.buffer) == IdField(q.buffer);
  }

  /** In every run, raw HTTP is dispatched at once, as one node of the received bytes, and nothing else changes. */
  lemma RawIsDispatched(evs: seq<Event>, p: Datagram)
    requires IsRawHttp(p.buffer[..p.length])
    ensures exists r ::
      && Run(evs + [Recv(p)]) == Run(evs).(dispatched := Run(evs).dispatched + [(0, r)])
      && r.version == -1 && r.state == Received && r.options == [] && !r.payloadContainsOptions
      && r.payloadLength == r.receivedLength == p.length
      && r.payload == [Chunk(0, p.length % 0x1_0000, p.buffer[..p.length])]
  {
    hide Run, IsRawHttp;
    RunSnoc(evs, Recv(p));
    RawLeavesTable(Run(evs), p);
  }

  /** In every run, a packet too short for a header and a terminator leaves no entry of its id, if it is of its source. */
  lemma TruncatedLeavesNothing(evs: seq<Event>, p: Datagram)
    requires !IsRawHttp(p.buffer[..p.length]) && p.length < 23 && IdField(p.buffer) != 0
    requires var entry := Lookup(Run(evs).table, IdField(p.buffer));
      entry.Some? ==> entry.value.source == p.address[..16]
    ensures Lookup(Run(evs + [Recv(p)]).table, IdField(p.buffer)) == None
  {
    hide Run, IsRawHttp, Lookup, Remove, Put, DecodeHeader, OptionSection, IdField;
    var id := IdField(p.buffer);
    RunSnoc(evs, Recv(p));
    RunKeyed(evs);
    RemoveLaws(Run(evs).table, id);
    assert PacketOutcome(Lookup(Run(evs).table, id), p).Removed?;
  }

  /** In every run, a packet whose id is all zeros is ignored. */
  lemma NoIdIsIgnored(evs: seq<Event>, p: Datagram)
    requires !IsRawHttp(p.buffer[..p.length]) && p.buffer[2..10] == [0, 0, 0, 0, 0, 0, 0, 0]
    ensures Run(evs + [Recv(p)]) == Run(evs)
  {
    hide Run, IsRawHttp, PacketOutcome, Lookup;
    RunSnoc(evs, Recv(p));
    ZeroNumber();
  }

  lemma ZeroNumber()
    ensures FromBigEndian([0, 0, 0, 0, 0, 0, 0, 0]) == 0
  {
    Zeros(8);
    assert BigEndian(0, 8) == [0, 0, 0, 0, 0, 0, 0, 0];
    FromToBigEndian(0, 8);
  }

  lemma {:induction false} Zeros(k: nat)
    ensures forall i :: 0 <= i < k ==> BigEndian(0, k)[i] == 0
  {
    if k > 0 {
      Zeros(k - 1);
    }
  }

  /** In every run, a request that is dispatched stays filed under its id, and one more worker runs for it. */
  lemma DispatchedIsFiled(evs: seq<Event>, e: Event, k: Id)
    requires k != 0 && SentFor(Run(evs + [e]).dispatched, k) != SentFor(Run(evs).dispatched, k)
    ensures e.Recv? && exists r ::
      && SentFor(Run(evs + [e]).dispatched, k) == SentFor(Run(evs).dispatched, k) + [r]
      && Lookup(Run(evs + [e]).table, k) == Some(r) && Run(evs + [e]).busy[k] == Run(evs).busy[k] + 1
  {
    hide Run, Step, Lookup, SentFor, PacketOutcome, Touches, Expired;
    RunSnoc(evs, e);
    RunKeyed(evs);
    StepView(Run(evs), e, k);
  }

  /** In every run, a worker that ends takes the entry of its request with it and leaves all others. */
  lemma WorkerEndsEntry(evs: seq<Event>, k: Id, other: Id)
    requires k in Run(evs).busy
    ensures var s, s' := Run(evs), Run(evs + [Finish(k)]);
      && Lookup(s'.table, k) == None && (other != k ==> Lookup(s'.table, other) == Lookup(s.table, other))
      && s'.busy[k] == s.busy[k] - 1 && s'.dispatched == s.dispatched
  {
    hide Run, Lookup, Remove;
    RunSnoc(evs, Finish(k));
    RunKeyed(evs);
    RemoveLaws(Run(evs).table, k);
  }

  // ---------------------------------------------------------------------------
  // Sources

  /**
   A packet for a live id is turned away by its address exactly if the first sixteen bytes of the
   address differ from those of the first packet; then it changes nothing at all.
   */
  lemma SourceCheck(s: Server, p: Datagram)
    requires !IsRawHttp(Data(p)) && Lookup(s.table, IdField(p.buffer)).Some?
    ensures var r := Lookup(s.table, IdField(p.buffer)).value;
      && (PacketOutcome(Some(r), p).Ignored? <==> r.source != p.address[..16])
      && (r.source != p.address[..16] ==> Step(s, Recv(p)) == s)
  {
    hide Lookup, IsRawHttp, ParseChunk;
  }

  /**
   In every run, a packet for a live id whose address differs in its first sixteen bytes might as
   well not have come: all that follows is the same without it.
   */
  lemma {:induction false} ForeignPacketDropsOut(evs: seq<Event>, p: Datagram, rest: seq<Event>)
    requires !IsRawHttp(Data(p)) && Lookup(Run(evs).table, IdField(p.buffer)).Some?
    requires Lookup(Run(evs).table, IdField(p.buffer)).value.source != p.address[..16]
    ensures Run(evs + [Recv(p)] + rest) == Run(evs + rest)
    decreases |rest|
  {
    hide Run, Step, Lookup, IsRawHttp, IdField, PacketOutcome;
    if rest == [] {
      assert evs + [Recv(p)] + [] == evs + [Recv(p)] && evs + [] == evs;
      RunSnoc(evs, Recv(p));
      SourceCheck(Run(evs), p);
    } else {
      var init, e := rest[..|rest| - 1], rest[|rest| - 1];
      ForeignPacketDropsOut(evs, p, init);
      assert evs + [Recv(p)] + rest == (evs + [Recv(p)] + init) + [e] && evs + rest == (evs + init) + [e];
      RunSnoc(evs + [Recv(p)] + init, e);
      RunSnoc(evs + init, e);
    }
  }
}
