/**
 What every run keeps (src/server.c, src/parser.c): which packets a request was built from, that its
 accounts are right, and when its chunks lie where they were announced.
 */
module Safety {
  import opened Bytes
  import opened Tlv
  import opened Tables
  import opened Requests
  import opened Tiling
  import opened Reassembly
  import opened Proxy

  // ---------------------------------------------------------------------------
  // The packets of a request

  /**
   For one id: the events whose packets make up its table entry, and those that made up each
   request dispatched for it, as indices into the run.
   */
  datatype Trail = Trail(parts: seq<nat>, sent: seq<seq<nat>>)

  ghost function TrailOf(evs: seq<Event>, k: Id): Trail {
    if evs == [] then Trail([], [])
    else
      var n := |evs| - 1;
      var t := TrailOf(evs[..n], k);
      if Touches(evs[n], k) then TrailNext(View(Run(evs[..n]), k), t, evs[n], n) else t
  }

  ghost function TrailNext(s: Slot, t: Trail, e: Event, n: nat): Trail {
    match e
    case Recv(p) =>
      (match PacketOutcome(s.entry, p)
       case Ignored => t
       case Removed => t.(parts := [])
       case Stored(r) =>
         var parts := (if s.entry.None? then [] else t.parts) + [n];
         Trail(parts, if r.state == Received then t.sent + [parts] else t.sent))
    case Finish(_) => if s.busy > 0 then t.(parts := []) else t
    case Note(_) => t
    case Drop(_) => if s.noted then t.(parts := []) else t
  }

  /**
   The payload of data packet `b` starts at `i`: behind a whole option list at offset zero, behind a
   bare terminator elsewhere.
   */
  ghost predicate PayloadAt(b: seq<byte>, i: nat) {
    && HEADER_LENGTH <= i <= |b|
    && if DecodeHeader(b).chunkOffset == 0 then exists os, flag :: ListIn(b[HEADER_LENGTH..i], os, flag)
       else i == HEADER_LENGTH + OPTION_HEADER && b[HEADER_LENGTH] == EOL
  }

  ghost predicate ListIn(section: seq<byte>, os: seq<Opt>, flag: bool) {
    section == OptionBlock(os, flag) && AllPlain(os) && |os| < MAX_OPTIONS
  }

  /** There is one such place at most, so a packet has one chunk. */
  lemma PayloadStartsOnce(b: seq<byte>, i: nat, j: nat)
    requires PayloadAt(b, i) && PayloadAt(b, j)
    ensures i == j
  {
    hide DecodeHeader, OptionBlock, ScanOptions;
    if DecodeHeader(b).chunkOffset == 0 {
      var os, flag :| ListIn(b[HEADER_LENGTH..i], os, flag);
      var os', flag' :| ListIn(b[HEADER_LENGTH..j], os', flag');
      assert b[HEADER_LENGTH..] == OptionBlock(os, flag) + b[i..] == OptionBlock(os', flag') + b[j..];
      ScanWritten(os, flag, b[i..], 0);
      ScanWritten(os', flag', b[j..], 0);
    }
  }

  /** `c` is the chunk of packet `p`, which agrees with `r` in source, version, id and length and passes the bounds test. */
  ghost predicate CarriedBy(p: Datagram, k: Id, r: Req, c: Chunk) {
    && Touches(Recv(p), k) && SourceOf(p) == r.source && HeaderAccepted(r, Data(p))
    && exists i :: ChunkAt(Data(p), i, c)
  }

  ghost predicate ChunkAt(b: seq<byte>, i: nat, c: Chunk) {
    PayloadAt(b, i) && c == ChunkOf(b, i) && c.length <= |c.value|
  }

  /** The chunks of `r` are those of the packets received at `parts`, one by one and in order of arrival. */
  ghost predicate Built(evs: seq<Event>, parts: seq<nat>, k: Id, r: Req) {
    && |parts| == |r.payload| && (forall i, j :: 0 <= i < j < |parts| ==> parts[i] < parts[j])
    && forall i :: 0 <= i < |parts| ==>
         parts[i] < |evs| && evs[parts[i]].Recv? && CarriedBy(evs[parts[i]].packet, k, r, r.payload[i])
  }

  ghost predicate PartsInRange(evs: seq<Event>, parts: seq<nat>) {
    forall i :: 0 <= i < |parts| && parts[i] < |evs| && evs[parts[i]].Recv? ==> InRange(Data(evs[parts[i]].packet))
  }

  /** Request `r` of id `k`: built from `parts`, its accounts in order, under assembly if those packets are in range. */
  ghost predicate Sane(evs: seq<Event>, parts: seq<nat>, k: Id, r: Req) {
    && Built(evs, parts, k, r) && Underway(r) && r.requestId == k
    && (PartsInRange(evs, parts) ==> Assembling(r))
  }

  lemma SaneLater(evs: seq<Event>, e: Event, parts: seq<nat>, k: Id, r: Req)
    requires Sane(evs, parts, k, r)
    ensures Sane(evs + [e], parts, k, r)
  {
    hide CarriedBy, Underway, Assembling, InRange;
    assert forall i :: 0 <= i < |evs| ==> (evs + [e])[i] == evs[i];
  }

  // ---------------------------------------------------------------------------
  // One packet

  /** A data packet that is accepted adds its own chunk and leaves the rest. */
  lemma DataChunkAdds(r: Req, b: seq<byte>)
    requires DataChunk(r, b).state != ReceivingFail
    ensures var r' := DataChunk(r, b);
      && HeaderAccepted(r, b) && HeaderAccepted(r', b)
      && r'.requestId == r.requestId && r'.source == r.source && r'.payloadLength == r.payloadLength
      && r'.version == r.version && |r'.payload| == |r.payload| + 1 && r'.payload[..|r.payload|] == r.payload
      && exists i :: ChunkAt(b, i, r'.payload[|r.payload|])
  {
    hide DecodeHeader, ScanOptions, OverlapsAny, PayloadAt;
    SectionPlain(r, b);
    var i := HEADER_LENGTH + OptionSection(r, b).consumed;
    assert PayloadAt(b, i) by { SectionEnds(r, b); }
    assert DataChunk(r, b).payload == r.payload + [ChunkOf(b, i)];
    assert ChunkAt(b, i, DataChunk(r, b).payload[|r.payload|]);
  }

  lemma SectionEnds(r: Req, b: seq<byte>)
    requires |b| >= HEADER_LENGTH + OPTION_HEADER && OptionSection(r, b).Ok?
    ensures PayloadAt(b, HEADER_LENGTH + OptionSection(r, b).consumed)
  {
    hide DecodeHeader, ScanOptions, OptionBlock;
    if DecodeHeader(b).chunkOffset == 0 {
      var s := OptionSection(r, b);
      ScanSound(b[HEADER_LENGTH..], |r.options|);
      assert b[HEADER_LENGTH..HEADER_LENGTH + s.consumed] == b[HEADER_LENGTH..][..s.consumed];
      assert ListIn(b[HEADER_LENGTH..HEADER_LENGTH + s.consumed], s.options, s.isBreak);
    }
  }

  /** What the parser is applied to: the stored request, or a new one. */
  function Start(entry: Option<Req>, p: Datagram): Req {
    match entry case None => FRESH.(source := SourceOf(p), receivedAt := p.at) case Some(r) => r
  }

  lemma PacketAdds(k: Id, entry: Option<Req>, p: Datagram)
    requires Touches(Recv(p), k) && PacketOutcome(entry, p).Stored?
    requires entry.Some? ==> entry.value.version == VERSION_1
    ensures var r, r' := Start(entry, p), PacketOutcome(entry, p).request;
      && |r'.payload| == |r.payload| + 1 && r'.payload[..|r.payload|] == r.payload
      && CarriedBy(p, k, r', r'.payload[|r.payload|])
      && (entry.Some? ==> r'.source == r.source && r'.version == r.version && r'.requestId == r.requestId
                          && r'.payloadLength == r.payloadLength)
  {
    hide DataChunk, DecodeHeader, IsRawHttp, ChunkAt, HeaderAccepted;
    var b, r := Data(p), Start(entry, p);
    if r.version == 0 {
      DecodedFits(b);
      var h := DecodeHeader(b);
      DataChunkAdds(r.(version := h.version, requestId := h.requestId, payloadLength := h.totalLength), b);
    } else {
      DataChunkAdds(r, b);
    }
  }

  /** CarriedBy looks at four fields of the request only. */
  lemma CarriedFrame(p: Datagram, k: Id, r: Req, r': Req, c: Chunk)
    requires CarriedBy(p, k, r, c)
    requires r'.source == r.source && r'.version == r.version && r'.requestId == r.requestId
    requires r'.payloadLength == r.payloadLength
    ensures CarriedBy(p, k, r', c)
  {
    hide DecodeHeader, IsRawHttp, ChunkAt;
  }

  lemma PacketBuilds(evs: seq<Event>, parts: seq<nat>, k: Id, entry: Option<Req>, p: Datagram)
    requires Touches(Recv(p), k) && PacketOutcome(entry, p).Stored?
    requires if entry.None? then parts == [] else Built(evs, parts, k, entry.value) && entry.value.version == VERSION_1
    ensures Built(evs + [Recv(p)], parts + [|evs|], k, PacketOutcome(entry, p).request)
  {
    hide CarriedBy, PacketOutcome, Touches;
    var r, r', evs', parts' := Start(entry, p), PacketOutcome(entry, p).request, evs + [Recv(p)], parts + [|evs|];
    PacketAdds(k, entry, p);
    forall i | 0 <= i < |parts'|
      ensures parts'[i] < |evs'| && evs'[parts'[i]].Recv? && CarriedBy(evs'[parts'[i]].packet, k, r', r'.payload[i])
    {
      if i < |parts| {
        assert evs'[parts[i]] == evs[parts[i]] && r'.payload[i] == r.payload[i];
        CarriedFrame(evs[parts[i]].packet, k, r, r', r.payload[i]);
      }
    }
  }

  lemma PacketSane(evs: seq<Event>, parts: seq<nat>, k: Id, entry: Option<Req>, p: Datagram)
    requires Touches(Recv(p), k) && PacketOutcome(entry, p).Stored?
    requires if entry.None? then parts == [] else Sane(evs, parts, k, entry.value)
    ensures Sane(evs + [Recv(p)], parts + [|evs|], k, PacketOutcome(entry, p).request)
  {
    hide ParseChunk, IsRawHttp, Counted, Accounted, InRange, Built, PartsInRange;
    var evs', parts' := evs + [Recv(p)], parts + [|evs|];
    PacketBuilds(evs, parts, k, entry, p);
    PacketKeepsId(entry, p);
    var r := Start(entry, p);
    ParseChunkCounts(r, Data(p));
    if PartsInRange(evs', parts') {
      RangeSplit(evs, parts, p);
      ParseChunkKeeps(r, Data(p));
    }
  }

  lemma RangeSplit(evs: seq<Event>, parts: seq<nat>, p: Datagram)
    requires PartsInRange(evs + [Recv(p)], parts + [|evs|])
    ensures PartsInRange(evs, parts) && InRange(Data(p))
  {
    hide InRange;
    var evs', parts' := evs + [Recv(p)], parts + [|evs|];
    assert evs'[parts'[|parts|]] == Recv(p);
    forall i | 0 <= i < |parts| && parts[i] < |evs| && evs[parts[i]].Recv?
      ensures InRange(Data(evs[parts[i]].packet))
    {
      assert parts'[i] == parts[i] && evs'[parts[i]] == evs[parts[i]];
    }
  }

  // ---------------------------------------------------------------------------
  // Whole runs

  ghost predicate SlotSane(evs: seq<Event>, t: Trail, k: Id, s: Slot) {
    && (s.entry.Some? ==> Sane(evs, t.parts, k, s.entry.value))
    && |t.sent| == |s.sent|
    && forall i :: 0 <= i < |s.sent| ==> Sane(evs, t.sent[i], k, s.sent[i]) && s.sent[i].state == Received
  }

  lemma SlotSaneLater(evs: seq<Event>, e: Event, t: Trail, k: Id, s: Slot)
    requires SlotSane(evs, t, k, s)
    ensures SlotSane(evs + [e], t, k, s)
  {
    hide Sane;
    if s.entry.Some? {
      SaneLater(evs, e, t.parts, k, s.entry.value);
    }
    forall i | 0 <= i < |s.sent| ensures Sane(evs + [e], t.sent[i], k, s.sent[i]) {
      SaneLater(evs, e, t.sent[i], k, s.sent[i]);
    }
  }

  lemma NextSane(evs: seq<Event>, t: Trail, k: Id, s: Slot, e: Event)
    requires SlotSane(evs, t, k, s) && Touches(e, k)
    ensures SlotSane(evs + [e], TrailNext(s, t, e, |evs|), k, SlotNext(s, e))
  {
    hide Sane, PacketOutcome, Expired;
    SlotSaneLater(evs, e, t, k, s);
    if e.Recv? && PacketOutcome(s.entry, e.packet).Stored? {
      var parts := if s.entry.None? then [] else t.parts;
      PacketSane(evs, parts, k, s.entry, e.packet);
    }
  }

  lemma EmptySane(k: Id)
    ensures SlotSane([], Trail([], []), k, View(START, k))
  {
    hide Sane;
  }

  /** In every run and for every id, the entry and everything dispatched are sane. */
  lemma {:induction false} RunSane(evs: seq<Event>, k: Id)
    requires k != 0
    ensures SlotSane(evs, TrailOf(evs, k), k, View(Run(evs), k))
  {
    hide Step, SlotNext, TrailNext, Touches, View, Keyed, SlotSane;
    if evs == [] {
      EmptySane(k);
    } else {
      var n := |evs| - 1;
      var init, e := evs[..n], evs[n];
      assert evs == init + [e];
      RunSane(init, k);
      RunKeyed(init);
      StepView(Run(init), e, k);
      if Touches(e, k) {
        NextSane(init, TrailOf(init, k), k, View(Run(init), k), e);
      } else {
        SlotSaneLater(init, e, TrailOf(init, k), k, View(Run(init), k));
      }
    }
  }

  ghost predicate Complete(r: Req) {
    Assembling(r) && r.state == Received
  }

  /**
   Provenance, for every run: the chunks of an entry, and of each request dispatched under an id,
   are one by one those of distinct received packets with that id, in their order of arrival.
   */
  lemma Provenance(evs: seq<Event>, k: Id)
    requires k != 0
    ensures var entry := Lookup(Run(evs).table, k); entry.Some? ==> Built(evs, TrailOf(evs, k).parts, k, entry.value)
    ensures var sent, parts := SentFor(Run(evs).dispatched, k), TrailOf(evs, k).sent;
      |parts| == |sent| && forall i :: 0 <= i < |sent| ==> Built(evs, parts[i], k, sent[i])
  {
    hide Run, TrailOf, Lookup, SentFor, Built;
    RunSane(evs, k);
    assert forall i :: 0 <= i < |SentFor(Run(evs).dispatched, k)| ==>
      Sane(evs, TrailOf(evs, k).sent[i], k, SentFor(Run(evs).dispatched, k)[i]);
  }

  /** For every run: what was built from packets in range is under assembly, and complete if it was dispatched. */
  lemma RunOk(evs: seq<Event>, k: Id)
    requires k != 0
    ensures var entry := Lookup(Run(evs).table, k);
      entry.Some? && PartsInRange(evs, TrailOf(evs, k).parts) ==> Assembling(entry.value) && entry.value.requestId == k
    ensures var sent, parts := SentFor(Run(evs).dispatched, k), TrailOf(evs, k).sent;
      |parts| == |sent| && forall i :: 0 <= i < |sent| ==>
        sent[i].requestId == k && (PartsInRange(evs, parts[i]) ==> Complete(sent[i]))
  {
    hide Run, TrailOf, Lookup, SentFor, Built, PartsInRange;
    RunSane(evs, k);
    assert forall i :: 0 <= i < |SentFor(Run(evs).dispatched, k)| ==>
      Sane(evs, TrailOf(evs, k).sent[i], k, SentFor(Run(evs).dispatched, k)[i]);
  }

  /** In every run, a complete entry has a worker that runs. */
  lemma {:induction false} CompleteIsBusy(evs: seq<Event>, k: Id)
    requires k != 0
    ensures var v := View(Run(evs), k); v.entry.Some? && v.entry.value.state == Received ==> v.busy > 0
  {
    hide View, Step, Touches, Keyed, PacketOutcome, Expired;
    if evs == [] {
      assert View(START, k) == EMPTY_SLOT by { StartView(k); }
    } else {
      var init, e := evs[..|evs| - 1], evs[|evs| - 1];
      CompleteIsBusy(init, k);
      RunKeyed(init);
      StepView(Run(init), e, k);
    }
  }

  lemma StartView(k: Id)
    ensures View(START, k) == EMPTY_SLOT
  {
  }

  /**
   So in every run an entry that no worker has is still receiving; if its packets are in range it
   holds at least one chunk and misses at least one byte.
   */
  lemma IdleEntryIsPartial(evs: seq<Event>, k: Id)
    requires k != 0 && k !in Run(evs).busy && Lookup(Run(evs).table, k).Some?
    ensures var r := Lookup(Run(evs).table, k).value;
      && r.state == Receiving && r.requestId == k && r.payload != []
      && (PartsInRange(evs, TrailOf(evs, k).parts) ==> r.receivedLength < r.payloadLength)
  {
    hide Run, TrailOf, Lookup, SentFor, Built, PartsInRange, Overlaps, SumLengths;
    CompleteIsBusy(evs, k);
    RunSane(evs, k);
    var r := Lookup(Run(evs).table, k).value;
    assert Sane(evs, TrailOf(evs, k).parts, k, r);
    if PartsInRange(evs, TrailOf(evs, k).parts) {
      ByteAccounting(r.payload, r.payloadLength);
    }
  }

  /**
   In-order tiling, for every run: what is dispatched under an id and was built from packets in
   range tiles its payload in order of arrival, so copying its chunks by offset, over whatever the
   buffer held, is concatenating them.
   */
  lemma DispatchedIsTiled(evs: seq<Event>, k: Id, i: nat, b: seq<byte>)
    requires k != 0 && i < |TrailOf(evs, k).sent| && PartsInRange(evs, TrailOf(evs, k).sent[i])
    ensures i < |SentFor(Run(evs).dispatched, k)|
    ensures var r := SentFor(Run(evs).dispatched, k)[i];
      && Loaded(r.payload) && Tiled(r.payload, r.payloadLength)
      && (|b| == r.payloadLength ==> Within(r.payload, |b|) && Overlay(b, r.payload) == Concat(r.payload))
  {
    hide Run, TrailOf, Overlay, Concat, SumLengths, Overlaps, SentFor, PartsInRange;
    RunOk(evs, k);
    var r := SentFor(Run(evs).dispatched, k)[i];
    assert Complete(r);
    ReceivedIsTiled(r);
    if |b| == r.payloadLength {
      OverlayOfWholeTiling(b, r.payload);
    }
  }

  // ---------------------------------------------------------------------------
  // Conservation

  /** The chunk length that event `e` announces to id `k`. */
  ghost function Offered(e: Event, k: Id): nat {
    if e.Recv? && Touches(e, k) && |Data(e.packet)| >= HEADER_LENGTH then DecodeHeader(Data(e.packet)).chunkLength else 0
  }

  /** All the bytes of payload that arrived for `k`. */
  ghost function BytesFor(evs: seq<Event>, k: Id): nat {
    if evs == [] then 0 else BytesFor(evs[..|evs| - 1], k) + Offered(evs[|evs| - 1], k)
  }

  ghost predicate Weighed(evs: seq<Event>, parts: seq<nat>, k: Id, cs: seq<Chunk>) {
    && |parts| == |cs| && (forall i, j :: 0 <= i < j < |parts| ==> parts[i] < parts[j])
    && forall i :: 0 <= i < |parts| ==> parts[i] < |evs| && cs[i].length == Offered(evs[parts[i]], k)
  }

  lemma {:induction false} PartsWeigh(evs: seq<Event>, parts: seq<nat>, k: Id, cs: seq<Chunk>)
    requires Weighed(evs, parts, k, cs)
    ensures SumLengths(cs) <= BytesFor(evs, k)
    decreases |evs|
  {
    if parts != [] {
      hide Offered;
      var n, m := |evs| - 1, |parts| - 1;
      assert parts[m] < |evs|;
      var init := evs[..n];
      if parts[m] == n {
        assert Weighed(init, parts[..m], k, cs[..m]);
        PartsWeigh(init, parts[..m], k, cs[..m]);
      } else {
        assert Weighed(init, parts, k, cs);
        PartsWeigh(init, parts, k, cs);
      }
    }
  }

  lemma BuiltWeighs(evs: seq<Event>, parts: seq<nat>, k: Id, r: Req)
    requires Built(evs, parts, k, r)
    ensures Weighed(evs, parts, k, r.payload)
  {
    hide DecodeHeader, IsRawHttp, PayloadAt;
    forall i | 0 <= i < |parts| ensures r.payload[i].length == Offered(evs[parts[i]], k) {
      assert CarriedBy(evs[parts[i]].packet, k, r, r.payload[i]);
      var j :| ChunkAt(Data(evs[parts[i]].packet), j, r.payload[i]);
    }
  }

  /** In every run, whatever is dispatched under an id announced no more bytes than had arrived for the id. */
  lemma NothingFromNothing(evs: seq<Event>, k: Id, i: nat)
    requires k != 0 && i < |SentFor(Run(evs).dispatched, k)|
    ensures SentFor(Run(evs).dispatched, k)[i].payloadLength <= BytesFor(evs, k)
  {
    hide Run, TrailOf, Lookup, SentFor, Built, PartsInRange, BytesFor, SumLengths;
    RunSane(evs, k);
    var r, parts := SentFor(Run(evs).dispatched, k)[i], TrailOf(evs, k).sent[i];
    assert Sane(evs, parts, k, r);
    BuiltWeighs(evs, parts, k, r);
    PartsWeigh(evs, parts, k, r.payload);
  }

  /** Every packet for `k` announces the payload length `total`. */
  ghost predicate AllAnnounce(evs: seq<Event>, k: Id, total: nat) {
    forall i :: 0 <= i < |evs| && evs[i].Recv? && Touches(evs[i], k) && |Data(evs[i].packet)| >= HEADER_LENGTH ==>
      DecodeHeader(Data(evs[i].packet)).totalLength == total
  }

  lemma AnnouncedTotal(evs: seq<Event>, k: Id, i: nat, total: nat)
    requires k != 0 && AllAnnounce(evs, k, total) && i < |SentFor(Run(evs).dispatched, k)|
    ensures SentFor(Run(evs).dispatched, k)[i].payloadLength == total
  {
    hide Run, TrailOf, Lookup, SentFor, DecodeHeader, IsRawHttp, ChunkAt;
    RunSane(evs, k);
    var r, parts := SentFor(Run(evs).dispatched, k)[i], TrailOf(evs, k).sent[i];
    assert Sane(evs, parts, k, r);
    assert CarriedBy(evs[parts[0]].packet, k, r, r.payload[0]);
  }

  /** So an id whose packets all announce more than ever arrives has nothing dispatched. */
  lemma NeverEnough(evs: seq<Event>, k: Id, total: nat)
    requires k != 0 && AllAnnounce(evs, k, total) && BytesFor(evs, k) < total
    ensures SentFor(Run(evs).dispatched, k) == []
  {
    hide Run, SentFor, BytesFor, AllAnnounce;
    if SentFor(Run(evs).dispatched, k) != [] {
      NothingFromNothing(evs, k, 0);
      AnnouncedTotal(evs, k, 0, total);
      assert false;
    }
  }

  // ---------------------------------------------------------------------------
  // When chunks lie where they were announced

  /** Every chunk of `r` lies at the offset its packet announced, and inside the payload. */
  ghost predicate Placed(evs: seq<Event>, parts: seq<nat>, k: Id, r: Req)
    requires Built(evs, parts, k, r)
  {
    forall i :: 0 <= i < |parts| ==>
      && r.payload[i].offset == DecodeHeader(Data(evs[parts[i]].packet)).chunkOffset
      && r.payload[i].offset + r.payload[i].length <= r.payloadLength
  }

  lemma BuiltPlaced(evs: seq<Event>, parts: seq<nat>, k: Id, r: Req)
    requires Built(evs, parts, k, r)
    ensures Placed(evs, parts, k, r) <==> PartsInRange(evs, parts)
  {
    hide DecodeHeader, IsRawHttp, InRange, ListIn;
    forall i | 0 <= i < |parts|
      ensures InRange(Data(evs[parts[i]].packet)) <==>
        && r.payload[i].offset == DecodeHeader(Data(evs[parts[i]].packet)).chunkOffset
        && r.payload[i].offset + r.payload[i].length <= r.payloadLength
    {
      var b, c := Data(evs[parts[i]].packet), r.payload[i];
      assert CarriedBy(evs[parts[i]].packet, k, r, c);
      var j :| ChunkAt(b, j, c);
      StoredWhereAnnounced(r, b, j);
    }
  }

  /** The exact condition, for every run and every entry: placed if and only if its own packets are in range. */
  lemma EntryPlacedIffInRange(evs: seq<Event>, k: Id)
    requires k != 0 && Lookup(Run(evs).table, k).Some?
    ensures var r, parts := Lookup(Run(evs).table, k).value, TrailOf(evs, k).parts;
      Built(evs, parts, k, r) && (Placed(evs, parts, k, r) <==> PartsInRange(evs, parts))
  {
    hide Run, TrailOf, Lookup, SentFor, Built, Placed, PartsInRange;
    Provenance(evs, k);
    BuiltPlaced(evs, TrailOf(evs, k).parts, k, Lookup(Run(evs).table, k).value);
  }

  /** And for every request that was dispatched. */
  lemma PlacedIffInRange(evs: seq<Event>, k: Id, i: nat)
    requires k != 0 && i < |TrailOf(evs, k).sent|
    ensures i < |SentFor(Run(evs).dispatched, k)|
    ensures var r, parts := SentFor(Run(evs).dispatched, k)[i], TrailOf(evs, k).sent[i];
      Built(evs, parts, k, r) && (Placed(evs, parts, k, r) <==> PartsInRange(evs, parts))
  {
    hide Run, TrailOf, Lookup, SentFor, Built, Placed, PartsInRange;
    Provenance(evs, k);
    BuiltPlaced(evs, TrailOf(evs, k).sent[i], k, SentFor(Run(evs).dispatched, k)[i]);
  }

  /** A data packet of five bytes for a payload of ten. */
  ghost predicate Half(p: Datagram, id: Id, offset: nat, v: seq<byte>) {
    |v| == 5 && Data(p) == EncodeHeader(Header(1, id, 10, offset, 5)) + OptionBlock([], false) + v
  }

  lemma HalfAccepted(r: Req, p: Datagram, id: Id, offset: nat, v: seq<byte>)
    requires Half(p, id, offset, v) && (offset == 0 || offset == 0xFFFF_FFFF)
    requires r.version == VERSION_1 && r.requestId == id && r.payloadLength == 10
    requires r.state == Receiving && r.options == []
    requires !OverlapsAny(Chunk(offset % 0x1_0000, 5, v), r.payload)
    ensures !IsRawHttp(Data(p)) && IdField(p.buffer) == id && DecodeHeader(Data(p)) == Header(1, id, 10, offset, 5)
    ensures var r' := DataChunk(r, Data(p));
      && r'.payload == r.payload + [Chunk(offset % 0x1_0000, 5, v)]
      && r' == Append(r.(payloadContainsOptions := r'.payloadContainsOptions), Chunk(offset % 0x1_0000, 5, v))
  {
    hide EncodeHeader, DecodeHeader, OverlapsAny, DataChunk;
    var h, b := Header(1, id, 10, offset, 5), Data(p);
    var flag := if offset == 0 then false else r.payloadContainsOptions;
    assert |OptionBlock([], false)| == OPTION_HEADER && OptionBlock([], false)[0] == EOL;
    assert MadeOf(r, b, h, OptionBlock([], false), [], flag, v);
    AcceptedIff(r, b);
    assert r.options + [] == r.options;
    FramedSection(r, h, OptionBlock([], false), [], flag, v, b);
    assert b[0] == EncodeHeader(h)[0] && EncodeHeader(h)[0] == 0 by { FirstByteZero(h); }
    ZeroIsNotRaw(b);
    IdIsHeaders(p);
  }

  /**
   A run that dispatches a request whose chunks do not lie inside its payload: the first packet
   announces offset 4294967295, which the 32-bit sum wraps and the node cuts to 65535.
   */
  lemma OutsideThePayload(id: Id, p: Datagram, q: Datagram, v: seq<byte>, w: seq<byte>)
    requires id != 0 && SourceOf(p) == SourceOf(q) && Half(p, id, 0xFFFF_FFFF, v) && Half(q, id, 0, w)
    ensures exists r :: Run([Recv(p), Recv(q)]).dispatched == [(id, r)] && !Within(r.payload, r.payloadLength)
  {
    hide PacketOutcome, IsRawHttp, Half, IdField;
    var r1, r2 := HalvesOutcome(id, p, q, v, w);
    var s1 := Step(START, Recv(p));
    RunSnoc([], Recv(p));
    RunSnoc([Recv(p)], Recv(q));
    assert [] + [Recv(p)] == [Recv(p)] && [Recv(p)] + [Recv(q)] == [Recv(p), Recv(q)];
    assert Lookup(START.table, id) == None;
    assert s1.table == [(id, r1)] && s1.dispatched == [];
    assert Lookup(s1.table, id) == Some(r1);
    assert Step(s1, Recv(q)).dispatched == [] + [(id, r2)] == [(id, r2)];
    assert !Within(r2.payload, 10);
  }

  lemma HalvesOutcome(id: Id, p: Datagram, q: Datagram, v: seq<byte>, w: seq<byte>) returns (r1: Req, r2: Req)
    requires id != 0 && SourceOf(p) == SourceOf(q) && Half(p, id, 0xFFFF_FFFF, v) && Half(q, id, 0, w)
    ensures !IsRawHttp(Data(p)) && !IsRawHttp(Data(q)) && IdField(p.buffer) == IdField(q.buffer) == id
    ensures PacketOutcome(None, p) == Stored(r1) && r1.state == Receiving
    ensures PacketOutcome(Some(r1), q) == Stored(r2) && r2.state == Received
    ensures |r2.payload| == 2 && r2.payload[0].offset == 65535 && r2.payloadLength == 10
  {
    hide DecodeHeader, DataChunk, Half, IsRawHttp, IdField;
    var r0 := FRESH.(source := SourceOf(p), receivedAt := p.at, version := 1, requestId := id, payloadLength := 10);
    HalfAccepted(r0, p, id, 0xFFFF_FFFF, v);
    r1 := DataChunk(r0, Data(p));
    assert |Data(p)| >= HEADER_LENGTH by { HalfSize(p, id, 0xFFFF_FFFF, v); }
    assert ParseChunk(Start(None, p), Data(p)) == r1;
    FarApart(v, w);
    HalfAccepted(r1, q, id, 0, w);
    r2 := DataChunk(r1, Data(q));
  }

  lemma HalfSize(p: Datagram, id: Id, offset: nat, v: seq<byte>)
    requires Half(p, id, offset, v)
    ensures |Data(p)| >= HEADER_LENGTH
  {
  }

  lemma FarApart(v: seq<byte>, w: seq<byte>)
    ensures !OverlapsAny(Chunk(0, 5, w), [] + [Chunk(65535, 5, v)])
  {
  }
}
