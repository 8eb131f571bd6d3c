/**
 End-to-end delivery: whatever else the proxy receives in between, a stream of packets that
 arrives in order from one source is dispatched exactly once, with exactly its options and payload.
 */
module Delivery {
  import opened Bytes
  import opened Tlv
  import opened Requests
  import opened Tiling
  import opened Reassembly
  import opened Packetiser
  import opened Proxy

  /** One client request: what is sent, and from where. */
  datatype Sender = Sender(source: Source, id: Id, options: seq<Opt>, isBreak: bool, payload: seq<byte>)

  /** The option list must leave room for at least one byte of payload in the first packet. */
  predicate WellFormed(c: Sender) {
    && c.id != 0 && AllPlain(c.options) && |c.options| < MAX_OPTIONS
    && |OptionBlock(c.options, c.isBreak)| < ROOM
    && 0 < |c.payload| < 0x1_0000
  }

  function MessageOf(c: Sender): Message {
    Message(c.id, |c.payload|, c.options + [Terminator(c.isBreak)], c.payload)
  }

  function BlockSize(c: Sender): nat {
    |OptionBlock(c.options, c.isBreak)|
  }

  lemma MessageSendable(c: Sender)
    requires WellFormed(c)
    ensures Sendable(MessageOf(c)) && |Serialise(MessageOf(c).options)| == BlockSize(c)
    ensures Serialise(MessageOf(c).options) == OptionBlock(c.options, c.isBreak)
  {
    BlockIsSerialised(c.options, c.isBreak);
  }

  function PacketCount(c: Sender): nat
    requires WellFormed(c)
  {
    Count(|c.payload|, BlockSize(c))
  }

  /** Where packet `i` of the stream starts in the payload. */
  function From(c: Sender, i: nat): nat
    requires WellFormed(c)
  {
    Cut(|c.payload|, BlockSize(c), i)
  }

  /** The bytes of packet `i` that are in use. */
  ghost function Sent(c: Sender, i: nat): seq<byte>
    requires WellFormed(c)
  {
    MessageSendable(c);
    var p := Nth(MessageOf(c), |c.payload|, i);
    p.buffer[..p.length]
  }

  ghost function PacketsOf(evs: seq<Event>): seq<Datagram> {
    if evs == [] then []
    else PacketsOf(evs[..|evs| - 1]) + if evs[|evs| - 1].Recv? then [evs[|evs| - 1].packet] else []
  }

  /** Datagram `p` carries packet `i` of `c`, possibly with bytes behind it. */
  ghost predicate Carries(p: Datagram, c: Sender, i: nat)
    requires WellFormed(c)
  {
    SourceOf(p) == c.source && Sent(c, i) <= Data(p)
  }

  /** The packets that arrive with the id of `c` are the first packets of its stream, in order and from its source. */
  ghost predicate Arriving(evs: seq<Event>, c: Sender)
    requires WellFormed(c)
  {
    var ps := PacketsOf(Project(evs, c.id));
    |ps| <= PacketCount(c) && forall i :: 0 <= i < |ps| ==> Carries(ps[i], c, i)
  }

  /** The whole stream of `c` has arrived. */
  ghost predicate Arrived(evs: seq<Event>, c: Sender)
    requires WellFormed(c)
  {
    Arriving(evs, c) && |PacketsOf(Project(evs, c.id))| == PacketCount(c)
  }

  /** Event `i`, of those that touch the id of `c`, notes the stream: begun, not complete, and sixty seconds old. */
  ghost predicate NotedAt(evs: seq<Event>, c: Sender, i: nat)
    requires WellFormed(c) && i < |evs|
  {
    var ps := PacketsOf(evs[..i]);
    evs[i].Note? && 0 < |ps| < PacketCount(c) && evs[i].now - ps[0].at >= 60
  }

  ghost predicate EverNoted(evs: seq<Event>, c: Sender)
    requires WellFormed(c)
  {
    exists i: nat :: i < |evs| && NotedAt(evs, c, i)
  }

  /** Event `j` drops the stream, noted before, while it is still not complete. */
  ghost predicate SweptAt(evs: seq<Event>, c: Sender, j: nat)
    requires WellFormed(c) && j < |evs|
  {
    evs[j].Drop? && |PacketsOf(evs[..j])| < PacketCount(c) && EverNoted(evs[..j], c)
  }

  ghost predicate EverSwept(evs: seq<Event>, c: Sender)
    requires WellFormed(c)
  {
    exists j: nat :: j < |evs| && SweptAt(evs, c, j)
  }

  /** A clean-up pass notes `c` while it is incomplete and sixty seconds old, and drops it before its last packet. */
  ghost predicate Swept(evs: seq<Event>, c: Sender)
    requires WellFormed(c)
  {
    EverSwept(Project(evs, c.id), c)
  }

  /** What the clients put on the wire: the C and Python clients the used part of the buffer, the Node client all of it. */
  lemma ClientPacketsCarry(c: Sender, i: nat, p: Datagram)
    requires WellFormed(c) && SourceOf(p) == c.source
    ensures Sendable(MessageOf(c))
    ensures var q := Nth(MessageOf(c), |c.payload|, i);
      Data(p) == q.buffer[..q.length] || Data(p) == q.buffer ==> Carries(p, c, i)
  {
    MessageSendable(c);
    hide Nth;
  }

  /**
   Why the list must leave room: if the first packet carried no payload, the second would be at
   offset zero too, and its bare terminator would take back the promise of options in the payload.
   */
  lemma SecondListWins(r: Req, b: seq<byte>)
    requires DataChunk(r, b).state != ReceivingFail && DecodeHeader(b).chunkOffset == 0
    requires b[HEADER_LENGTH..HEADER_LENGTH + OPTION_HEADER] == [0, 0, 0]
    ensures !DataChunk(r, b).payloadContainsOptions
  {
    hide DecodeHeader, OverlapsAny;
    var rest := b[HEADER_LENGTH..];
    assert rest[..3] == [0, 0, 0];
    assert rest[0] == rest[..3][0] && rest[1] == rest[..3][1] && rest[2] == rest[..3][2];
  }

  // ---------------------------------------------------------------------------
  // One packet

  /** What the proxy holds for `c` once `j` packets have been accepted. */
  ghost predicate Holds(r: Req, c: Sender, j: nat)
    requires WellFormed(c)
  {
    && r.version == VERSION_1 && r.requestId == c.id && r.source == c.source
    && r.options == c.options && r.payloadContainsOptions == c.isBreak
    && r.payloadLength == |c.payload| && r.receivedLength == From(c, j)
    && |r.payload| == j && Loaded(r.payload)
    && Tiled(r.payload, From(c, j)) && Concat(r.payload) == c.payload[..From(c, j)]
    && r.state == (if From(c, j) == |c.payload| then Received else Receiving)
  }

  /** The packet, part by part. */
  lemma SentParts(c: Sender, i: nat)
    requires WellFormed(c)
    ensures From(c, i) <= From(c, i + 1)
    ensures Sent(c, i) == EncodeHeader(Header(1, c.id, |c.payload|, From(c, i), From(c, i + 1) - From(c, i)))
      + (if i == 0 then OptionBlock(c.options, c.isBreak) else OptionBlock([], false))
      + c.payload[From(c, i)..From(c, i + 1)]
  {
    hide EncodeHeader, Serialise, OptionBlock;
    MessageSendable(c);
    NthIs(MessageOf(c), |c.payload|, i);
    BlockIsSerialised([], false);
    assert [] + [Terminator(false)] == [Terminator(false)];
  }

  lemma FromGrows(c: Sender, i: nat)
    requires WellFormed(c)
    ensures From(c, 0) == 0 && From(c, i) <= From(c, i + 1) <= |c.payload|
    ensures i > 0 ==> From(c, i) > 0
    ensures From(c, i) == |c.payload| <==> i >= PacketCount(c)
  {
    CountBounds(|c.payload|, BlockSize(c));
    hide OptionBlock;
  }

  /** The header of packet `i` as the proxy reads it, and what stands behind it. */
  lemma ReadPacket(c: Sender, i: nat, b: seq<byte>)
    requires WellFormed(c) && Sent(c, i) <= b
    ensures var rest := b[|Sent(c, i)|..];
      var chunk := c.payload[From(c, i)..From(c, i + 1)];
      var block := if i == 0 then OptionBlock(c.options, c.isBreak) else OptionBlock([], false);
      && From(c, i) <= From(c, i + 1) && |b| >= HEADER_LENGTH + |block| + |chunk|
      && DecodeHeader(b) == Header(1, c.id, |c.payload|, From(c, i), |chunk|)
      && b[0] == 0
      && b[HEADER_LENGTH..] == block + (chunk + rest)
      && b[HEADER_LENGTH + |block|..] == chunk + rest
  {
    hide EncodeHeader, OptionBlock, DecodeHeader, From;
    SentParts(c, i);
    FromGrows(c, i);
    var rest := b[|Sent(c, i)|..];
    var chunk := c.payload[From(c, i)..From(c, i + 1)];
    var block := if i == 0 then OptionBlock(c.options, c.isBreak) else OptionBlock([], false);
    var h := Header(1, c.id, |c.payload|, From(c, i), |chunk|);
    assert b == Sent(c, i) + rest;
    Parts(EncodeHeader(h), block, chunk, rest);
    HeaderRoundTrip(h, block + (chunk + rest));
    FirstByteZero(h);
  }

  lemma Parts(h: seq<byte>, block: seq<byte>, chunk: seq<byte>, rest: seq<byte>)
    ensures var b := h + block + chunk + rest;
      b == h + (block + (chunk + rest)) && b[|h|..] == block + (chunk + rest) && b[|h| + |block|..] == chunk + rest
  {
  }

  lemma BareBlock()
    ensures |OptionBlock([], false)| == OPTION_HEADER && OptionBlock([], false)[0] == EOL
  {
  }

  lemma BlockRoom(c: Sender)
    ensures |OptionBlock(c.options, c.isBreak)| >= OPTION_HEADER
  {
  }

  /** The first packet of the stream, into a new request. */
  lemma FirstPacket(c: Sender, r: Req, b: seq<byte>)
    requires WellFormed(c) && Untouched(r) && r.source == c.source && Sent(c, 0) <= b
    ensures !IsRawHttp(b) && Holds(ParseChunk(r, b), c, 1)
  {
    hide DecodeHeader, ScanOptions, OptionBlock, Sent, From, IsRawHttp, DataChunk, Holds, Append;
    ReadPacket(c, 0, b);
    FromGrows(c, 0);
    BlockRoom(c);
    ZeroIsNotRaw(b);
    var rest := b[|Sent(c, 0)|..];
    var chunk := c.payload[0..From(c, 1)];
    var r1 := r.(version := 1, requestId := c.id, payloadLength := |c.payload|);
    ScanWritten(c.options, c.isBreak, chunk + rest, 0);
    Accepts(r1, b, DecodeHeader(b), BlockSize(c), c.options, c.isBreak, chunk + rest);
    assert [] + c.options == c.options;
    assert r1.options == [] && r1.payload == [];
    var r2 := r1.(options := c.options, payloadContainsOptions := c.isBreak);
    NothingHeld(c, r2);
    AppendHolds(c, r2, 0, Chunk(0, |chunk|, chunk + rest), chunk, rest);
  }

  lemma NothingHeld(c: Sender, r: Req)
    requires WellFormed(c) && r.version == 1 && r.requestId == c.id && r.source == c.source
    requires r.options == c.options && r.payloadContainsOptions == c.isBreak && r.payloadLength == |c.payload|
    requires r.receivedLength == 0 && r.payload == [] && r.state == Receiving
    ensures Holds(r, c, 0)
  {
    hide OptionBlock;
  }

  /** A later packet of the stream, into the request that holds the packets before it. */
  lemma LaterPacket(c: Sender, r: Req, j: nat, b: seq<byte>)
    requires WellFormed(c) && 0 < j < PacketCount(c) && Holds(r, c, j) && Sent(c, j) <= b
    ensures !IsRawHttp(b) && Holds(ParseChunk(r, b), c, j + 1)
  {
    hide DecodeHeader, ScanOptions, OptionBlock, Sent, From, IsRawHttp, PacketCount,
         DataChunk, Append, Concat, SumLengths;
    ReadPacket(c, j, b);
    FromGrows(c, j);
    BareBlock();
    ZeroIsNotRaw(b);
    var rest := b[|Sent(c, j)|..];
    var chunk := c.payload[From(c, j)..From(c, j + 1)];
    var d := Chunk(From(c, j), |chunk|, chunk + rest);
    assert b[HEADER_LENGTH] == b[HEADER_LENGTH..][0] == EOL;
    BehindAll(r.payload, d);
    Accepts(r, b, DecodeHeader(b), OPTION_HEADER, [], r.payloadContainsOptions, chunk + rest);
    assert r.options + [] == r.options;
    assert r.(options := r.options, payloadContainsOptions := r.payloadContainsOptions) == r;
    AppendHolds(c, r, j, d, chunk, rest);
  }

  lemma BehindAll(cs: seq<Chunk>, d: Chunk)
    requires Tiled(cs, d.offset)
    ensures !OverlapsAny(d, cs)
  {
    TiledPasses(cs, d.offset);
  }

  lemma AppendHolds(c: Sender, r: Req, j: nat, d: Chunk, chunk: seq<byte>, rest: seq<byte>)
    requires WellFormed(c) && Holds(r, c, j) && From(c, j) < |c.payload|
    requires From(c, j) <= From(c, j + 1) && chunk == c.payload[From(c, j)..From(c, j + 1)]
    requires d == Chunk(From(c, j), |chunk|, chunk + rest)
    ensures Holds(Append(r, d), c, j + 1)
  {
    hide From, OptionBlock, Concat, SumLengths, Tiled, Loaded;
    FromGrows(c, j);
    assert d.value[..d.length] == chunk;
    TiledAppend(r.payload, d);
    assert c.payload[..From(c, j)] + chunk == c.payload[..From(c, j + 1)];
    if j == 0 {
      assert r.payload == [];
    }
  }

  // ---------------------------------------------------------------------------
  // The slot of one sender

  /** What the slot of `c` looks like once the packets `ps` have arrived. */
  ghost predicate SlotAt(s: Slot, c: Sender, ps: seq<Datagram>)
    requires WellFormed(c)
  {
    if ps == [] then s == EMPTY_SLOT
    else if |ps| < PacketCount(c) then
      && s.entry.Some? && Holds(s.entry.value, c, |ps|) && s.entry.value.receivedAt == ps[0].at
      && s.busy == 0 && s.sent == []
    else
      |s.sent| == 1 && Holds(s.sent[0], c, PacketCount(c)) && (s.entry == None || s.entry == Some(s.sent[0]))
  }

  lemma PacketStep(s: Slot, c: Sender, ps: seq<Datagram>, p: Datagram)
    requires WellFormed(c) && SlotAt(s, c, ps) && |ps| < PacketCount(c) && Carries(p, c, |ps|)
    ensures SlotAt(SlotNext(s, Recv(p)), c, ps + [p]) && SlotNext(s, Recv(p)).noted == s.noted
  {
    hide WellFormed, Sent, ParseChunk, PacketCount, IsRawHttp, Holds;
    var b := Data(p);
    if ps == [] {
      var r := FRESH.(source := SourceOf(p), receivedAt := p.at);
      FirstPacket(c, r, b);
      HeldState(ParseChunk(r, b), c, 1);
      PacketKeepsId(None, p) by { IdOf(c, 0, p); }
    } else {
      assert s.entry.value.source == c.source && s.entry.value.requestId == c.id by {
        HeldState(s.entry.value, c, |ps|);
      }
      LaterPacket(c, s.entry.value, |ps|, b);
      HeldState(ParseChunk(s.entry.value, b), c, |ps| + 1);
      PacketKeepsId(s.entry, p) by { IdOf(c, |ps|, p); }
    }
  }

  lemma IdOf(c: Sender, i: nat, p: Datagram)
    requires WellFormed(c) && Carries(p, c, i)
    ensures IdField(p.buffer) == c.id
  {
    hide From, OptionBlock, DecodeHeader, IdField, Sent;
    ReadPacket(c, i, Data(p));
    IdIsHeaders(p);
  }

  /**
   What the slot of `c` looks like after a clean-up pass took the request away: the packets that
   still come can never add up to the whole payload.
   */
  ghost predicate Lost(s: Slot, c: Sender, ps: seq<Datagram>)
    requires WellFormed(c)
  {
    && s.sent == [] && s.busy == 0 && ps != []
    && (s.entry.Some? ==> Partial(s.entry.value, c, |ps|))
  }

  /** A request that misses at least the first packet. */
  ghost predicate Partial(r: Req, c: Sender, j: nat)
    requires WellFormed(c)
  {
    && r.state == Receiving && r.version == VERSION_1 && r.source == c.source && r.requestId == c.id
    && r.payloadLength == |c.payload| && r.receivedLength <= From(c, j) - From(c, 1)
  }

  lemma PartialGrows(c: Sender, r: Req, j: nat, b: seq<byte>)
    requires WellFormed(c) && j > 0 && Partial(r, c, j) && Sent(c, j) <= b
    ensures var r' := DataChunk(r, b); r'.state == ReceivingFail || Partial(r', c, j + 1)
  {
    hide DecodeHeader, ScanOptions, OptionBlock, Sent, From, OverlapsAny, OptionSection;
    ReadPacket(c, j, b);
    FromGrows(c, j);
    FromGrows(c, 0);
    FromBehindFirst(c, j);
  }

  lemma {:induction false} FromBehindFirst(c: Sender, j: nat)
    requires WellFormed(c) && j > 0
    ensures 0 < From(c, 1) <= From(c, j)
  {
    hide From, OptionBlock;
    FromGrows(c, 1);
    if j > 1 {
      FromBehindFirst(c, j - 1);
      FromGrows(c, j - 1);
    }
  }

  lemma LostStep(s: Slot, c: Sender, ps: seq<Datagram>, p: Datagram)
    requires WellFormed(c) && Lost(s, c, ps) && Carries(p, c, |ps|)
    ensures Lost(SlotNext(s, Recv(p)), c, ps + [p])
  {
    hide WellFormed, Sent, DataChunk, DecodeHeader, From, OptionBlock, IsRawHttp;
    var b := Data(p);
    ReadPacket(c, |ps|, b);
    ZeroIsNotRaw(b);
    if s.entry.None? {
      FromBehindFirst(c, |ps|);
      var r := FRESH.(source := SourceOf(p), receivedAt := p.at);
      PartialGrows(c, r.(version := 1, requestId := c.id, payloadLength := |c.payload|), |ps|, b);
    } else {
      PartialGrows(c, s.entry.value, |ps|, b);
    }
  }

  /** The slot of `c`, whatever the clean-up passes do. */
  ghost predicate Outcome(evs: seq<Event>, c: Sender, s: Slot)
    requires WellFormed(c)
  {
    var ps := PacketsOf(evs);
    if EverSwept(evs, c) then Lost(s, c, ps)
    else SlotAt(s, c, ps) && (|ps| < PacketCount(c) ==> (s.noted <==> EverNoted(evs, c)))
  }

  lemma {:induction false} SlotOutcome(evs: seq<Event>, c: Sender)
    requires WellFormed(c) && |PacketsOf(evs)| <= PacketCount(c)
    requires forall i :: 0 <= i < |PacketsOf(evs)| ==> Carries(PacketsOf(evs)[i], c, i)
    ensures Outcome(evs, c, SlotRun(evs))
  {
    hide WellFormed, Carries, PacketCount, SlotNext, Outcome;
    if evs == [] {
      NothingYet(c);
    } else {
      var init, e := evs[..|evs| - 1], evs[|evs| - 1];
      assert evs == init + [e];
      assert PacketsOf(init) <= PacketsOf(evs);
      SlotOutcome(init, c) by {
        assert forall i :: 0 <= i < |PacketsOf(init)| ==> PacketsOf(init)[i] == PacketsOf(evs)[i];
      }
      SlotSnoc(init, e);
      if e.Recv? {
        assert PacketsOf(evs)[|PacketsOf(init)|] == e.packet;
        OutcomeOfPacket(init, c, SlotRun(init), e.packet);
      } else {
        OutcomeOfOther(init, c, SlotRun(init), e);
      }
    }
  }

  lemma NothingYet(c: Sender)
    requires WellFormed(c)
    ensures Outcome([], c, EMPTY_SLOT)
  {
    hide WellFormed, PacketCount;
  }

  lemma OutcomeOfPacket(init: seq<Event>, c: Sender, s: Slot, p: Datagram)
    requires WellFormed(c) && Outcome(init, c, s)
    requires |PacketsOf(init)| < PacketCount(c) && Carries(p, c, |PacketsOf(init)|)
    ensures Outcome(init + [Recv(p)], c, SlotNext(s, Recv(p)))
  {
    hide WellFormed, Carries, PacketCount, SlotNext, SlotAt, Lost, EverNoted, EverSwept, PacketsOf;
    PacketsSnoc(init, Recv(p));
    NotedSnoc(init, Recv(p), c);
    SweptSnoc(init, Recv(p), c);
    if EverSwept(init, c) {
      LostStep(s, c, PacketsOf(init), p);
    } else {
      PacketStep(s, c, PacketsOf(init), p);
    }
  }

  lemma OutcomeOfOther(init: seq<Event>, c: Sender, s: Slot, e: Event)
    requires WellFormed(c) && Outcome(init, c, s) && !e.Recv?
    ensures Outcome(init + [e], c, SlotNext(s, e))
  {
    hide WellFormed, PacketCount, SlotNext, SlotAt, Lost, EverNoted, EverSwept, PacketsOf;
    PacketsSnoc(init, e);
    NotedSnoc(init, e, c);
    SweptSnoc(init, e, c);
    if EverSwept(init, c) {
      LostOther(s, c, PacketsOf(init), e);
    } else {
      OtherStep(s, c, PacketsOf(init), e);
    }
  }

  lemma PacketsSnoc(init: seq<Event>, e: Event)
    ensures PacketsOf(init + [e]) == if e.Recv? then PacketsOf(init) + [e.packet] else PacketsOf(init)
  {
    assert (init + [e])[..|init|] == init;
    assert PacketsOf(init) + [] == PacketsOf(init);
  }

  lemma NotedSnoc(init: seq<Event>, e: Event, c: Sender)
    requires WellFormed(c)
    ensures EverNoted(init + [e], c) <==>
      || EverNoted(init, c)
      || (e.Note? && 0 < |PacketsOf(init)| < PacketCount(c) && e.now - PacketsOf(init)[0].at >= OLD_REQUEST_SECS)
  {
    hide WellFormed, PacketCount, PacketsOf;
    var evs := init + [e];
    assert evs[..|init|] == init;
    forall i: nat | i < |init|
      ensures NotedAt(evs, c, i) == NotedAt(init, c, i)
    {
      assert evs[..i] == init[..i];
    }
    assert NotedAt(evs, c, |init|) <==>
      e.Note? && 0 < |PacketsOf(init)| < PacketCount(c) && e.now - PacketsOf(init)[0].at >= OLD_REQUEST_SECS;
  }

  lemma SweptSnoc(init: seq<Event>, e: Event, c: Sender)
    requires WellFormed(c)
    ensures EverSwept(init + [e], c) <==>
      EverSwept(init, c) || (e.Drop? && |PacketsOf(init)| < PacketCount(c) && EverNoted(init, c))
  {
    hide WellFormed, PacketCount, PacketsOf, EverNoted;
    var evs := init + [e];
    assert evs[..|init|] == init;
    forall j: nat | j < |init|
      ensures SweptAt(evs, c, j) == SweptAt(init, c, j)
    {
      assert evs[..j] == init[..j];
    }
    assert SweptAt(evs, c, |init|) <==> e.Drop? && |PacketsOf(init)| < PacketCount(c) && EverNoted(init, c);
  }

  lemma HeldState(r: Req, c: Sender, j: nat)
    requires WellFormed(c) && Holds(r, c, j)
    ensures r.source == c.source && r.requestId == c.id
    ensures r.state == if j < PacketCount(c) then Receiving else Received
  {
    hide From, PacketCount, Concat, Tiled;
    FromGrows(c, j);
  }

  /** Workers that end and clean-up: only the drop of a noted, incomplete stream takes it away. */
  lemma OtherStep(s: Slot, c: Sender, ps: seq<Datagram>, e: Event)
    requires WellFormed(c) && !e.Recv? && SlotAt(s, c, ps)
    ensures var s' := SlotNext(s, e);
      if e.Drop? && |ps| < PacketCount(c) && s.noted then Lost(s', c, ps)
      else
        && SlotAt(s', c, ps)
        && (|ps| < PacketCount(c) ==>
              (s'.noted <==> s.noted || (e.Note? && ps != [] && e.now - ps[0].at >= OLD_REQUEST_SECS)))
  {
    hide WellFormed, Holds, PacketCount, PacketOutcome, Partial;
    if ps != [] && |ps| < PacketCount(c) {
      HeldState(s.entry.value, c, |ps|);
    } else if ps != [] {
      HeldState(s.sent[0], c, PacketCount(c));
    }
  }

  lemma LostOther(s: Slot, c: Sender, ps: seq<Datagram>, e: Event)
    requires WellFormed(c) && !e.Recv? && Lost(s, c, ps)
    ensures Lost(SlotNext(s, e), c, ps)
  {
    hide WellFormed, Partial, PacketOutcome;
  }

  // ---------------------------------------------------------------------------
  // Whole runs

  /** The request that comes out is the one that went in. */
  ghost predicate Faithful(r: Req, c: Sender) {
    && r.requestId == c.id && r.source == c.source
    && r.options == c.options && r.payloadContainsOptions == c.isBreak
    && r.state == Received && r.payloadLength == |c.payload|
    && Loaded(r.payload) && Tiled(r.payload, |c.payload|) && Concat(r.payload) == c.payload
  }

  lemma HeldIsFaithful(r: Req, c: Sender)
    requires WellFormed(c) && Holds(r, c, PacketCount(c))
    ensures Faithful(r, c)
  {
    hide OptionBlock, SumLengths, Concat;
    FromGrows(c, PacketCount(c));
    assert c.payload[..|c.payload|] == c.payload;
  }

  /**
   For every run in which the packets that carry the id of `c` are exactly its stream, in order
   and from its source: the proxy dispatches exactly one request for it, the one that was sent,
   unless a clean-up pass swept it away, and then it dispatches none.
   */
  lemma DeliveredIffNotSwept(evs: seq<Event>, c: Sender)
    requires WellFormed(c) && Arrived(evs, c)
    ensures var sent := SentFor(Run(evs).dispatched, c.id);
      if Swept(evs, c) then sent == [] else |sent| == 1 && Faithful(sent[0], c)
  {
    hide WellFormed, Carries, Project, Run, SentFor, SlotRun, PacketsOf, Holds, Faithful, EverSwept, EverNoted;
    var pe := Project(evs, c.id);
    assert c.id != 0 && PacketCount(c) > 0 by { CountPositive(c); }
    SlotOutcome(pe, c);
    Demultiplexed(evs, c.id);
    if !Swept(evs, c) {
      HeldIsFaithful(SlotRun(pe).sent[0], c);
    }
  }

  lemma CountPositive(c: Sender)
    requires WellFormed(c)
    ensures c.id != 0 && PacketCount(c) > 0
  {
    hide OptionBlock;
  }

  /** Before the last packet of `c` arrives, nothing has been dispatched for it. */
  lemma NotBeforeTheLast(evs: seq<Event>, c: Sender)
    requires WellFormed(c) && Arriving(evs, c) && !Arrived(evs, c)
    ensures SentFor(Run(evs).dispatched, c.id) == []
  {
    hide WellFormed, Carries, Project, Run, SentFor, SlotRun, PacketsOf, Holds, EverSwept, EverNoted;
    assert c.id != 0 by { CountPositive(c); }
    SlotOutcome(Project(evs, c.id), c);
    Demultiplexed(evs, c.id);
  }

  /** `d` is what the proxy owes `c`. */
  ghost predicate Served(d: seq<(Id, Req)>, c: Sender) {
    |SentFor(d, c.id)| == 1 && Faithful(SentFor(d, c.id)[0], c)
  }

  /** Any number of senders at once, their streams interleaved in any way with each other and with other traffic. */
  lemma AllDelivered(evs: seq<Event>, senders: seq<Sender>)
    requires forall i :: 0 <= i < |senders| ==>
      WellFormed(senders[i]) && Arrived(evs, senders[i]) && !Swept(evs, senders[i])
    ensures forall i :: 0 <= i < |senders| ==> Served(Run(evs).dispatched, senders[i])
  {
    hide WellFormed, Arrived, Faithful, SentFor, Run, Swept;
    forall i | 0 <= i < |senders|
      ensures Served(Run(evs).dispatched, senders[i])
    {
      DeliveredIffNotSwept(evs, senders[i]);
    }
  }

  // ---------------------------------------------------------------------------
  // Packets of other sources

  /** The events without the packets that come from another source than that of `c`. */
  ghost function Own(evs: seq<Event>, c: Sender): seq<Event> {
    if evs == [] then []
    else Own(evs[..|evs| - 1], c) + if Foreign(evs[|evs| - 1], c) then [] else [evs[|evs| - 1]]
  }

  ghost predicate Foreign(e: Event, c: Sender) {
    e.Recv? && SourceOf(e.packet) != c.source
  }

  /** Packets of other sources come only after the first and before the last packet of `c`. */
  ghost predicate WhileLive(evs: seq<Event>, c: Sender)
    requires WellFormed(c)
  {
    forall j :: 0 <= j < |evs| && Foreign(evs[j], c) ==> 0 < |PacketsOf(Own(evs[..j], c))| < PacketCount(c)
  }

  /** The whole stream of `c` has arrived in order, among packets of other sources with the same id. */
  ghost predicate ArrivedAmongOthers(evs: seq<Event>, c: Sender)
    requires WellFormed(c)
  {
    var pe := Project(evs, c.id);
    var ps := PacketsOf(Own(pe, c));
    WhileLive(pe, c) && |ps| == PacketCount(c) && forall i :: 0 <= i < |ps| ==> Carries(ps[i], c, i)
  }

  lemma OwnSnoc(init: seq<Event>, e: Event, c: Sender)
    ensures Own(init + [e], c) == if Foreign(e, c) then Own(init, c) else Own(init, c) + [e]
  {
    hide Foreign;
    assert (init + [e])[..|init|] == init;
    assert Own(init, c) + [] == Own(init, c);
  }

  lemma WhileLiveSnoc(init: seq<Event>, e: Event, c: Sender)
    requires WellFormed(c) && WhileLive(init + [e], c)
    ensures WhileLive(init, c) && (Foreign(e, c) ==> 0 < |PacketsOf(Own(init, c))| < PacketCount(c))
  {
    hide WellFormed, Foreign, PacketsOf, PacketCount, Own;
    var evs := init + [e];
    assert evs[..|init|] == init && evs[|init|] == e;
    forall j | 0 <= j < |init| && Foreign(init[j], c) ensures 0 < |PacketsOf(Own(init[..j], c))| < PacketCount(c) {
      assert evs[..j] == init[..j] && evs[j] == init[j];
    }
  }

  lemma EverSweptLater(init: seq<Event>, e: Event, c: Sender)
    requires WellFormed(c) && !EverSwept(init + [e], c)
    ensures !EverSwept(init, c)
  {
    hide WellFormed, PacketCount, PacketsOf, EverNoted, EverSwept;
    SweptSnoc(init, e, c);
  }

  /** While the stream of `c` is under way, packets of other sources leave its slot alone. */
  lemma {:induction false} OthersIgnored(evs: seq<Event>, c: Sender)
    requires WellFormed(c) && WhileLive(evs, c) && !EverSwept(Own(evs, c), c)
    requires |PacketsOf(Own(evs, c))| <= PacketCount(c)
    requires forall i :: 0 <= i < |PacketsOf(Own(evs, c))| ==> Carries(PacketsOf(Own(evs, c))[i], c, i)
    ensures SlotRun(evs) == SlotRun(Own(evs, c))
  {
    hide WellFormed, Carries, PacketCount, SlotNext, EverSwept, PacketsOf, Own, Foreign, WhileLive, Outcome;
    if evs == [] {
      NothingOwn(c);
    } else {
      var init, e := evs[..|evs| - 1], evs[|evs| - 1];
      assert evs == init + [e];
      OwnSnoc(init, e, c);
      WhileLiveSnoc(init, e, c);
      SlotSnoc(init, e);
      if Foreign(e, c) {
        OthersIgnored(init, c);
        SlotOutcome(Own(init, c), c);
        ForeignStep(Own(init, c), c, SlotRun(init), e);
      } else {
        PacketsSnoc(Own(init, c), e);
        EverSweptLater(Own(init, c), e, c);
        assert forall i :: 0 <= i < |PacketsOf(Own(init, c))| ==> PacketsOf(Own(init, c))[i] == PacketsOf(Own(evs, c))[i];
        OthersIgnored(init, c);
        SlotSnoc(Own(init, c), e);
      }
    }
  }

  lemma NothingOwn(c: Sender)
    ensures Own([], c) == []
  {
  }

  lemma ForeignStep(own: seq<Event>, c: Sender, s: Slot, e: Event)
    requires WellFormed(c) && Outcome(own, c, s) && !EverSwept(own, c) && Foreign(e, c)
    requires 0 < |PacketsOf(own)| < PacketCount(c)
    ensures SlotNext(s, e) == s
  {
    hide WellFormed, PacketCount, PacketsOf, Holds, EverSwept, EverNoted, ParseChunk;
    HeldState(s.entry.value, c, |PacketsOf(own)|);
  }

  /**
   Delivery among packets of other sources: while the stream is under way they are ignored, so the
   proxy still dispatches exactly the one request that was sent, if no clean-up pass sweeps it away.
   */
  lemma DeliveredAmongOthers(evs: seq<Event>, c: Sender)
    requires WellFormed(c) && ArrivedAmongOthers(evs, c) && !EverSwept(Own(Project(evs, c.id), c), c)
    ensures Served(Run(evs).dispatched, c)
  {
    hide WellFormed, Carries, Project, Run, SentFor, SlotRun, PacketsOf, Holds, Faithful,
         EverSwept, EverNoted, Own, WhileLive;
    var pe := Project(evs, c.id);
    assert c.id != 0 && PacketCount(c) > 0 by { CountPositive(c); }
    OthersIgnored(pe, c);
    SlotOutcome(Own(pe, c), c);
    Demultiplexed(evs, c.id);
    HeldIsFaithful(SlotRun(pe).sent[0], c);
  }

  // ---------------------------------------------------------------------------
  // Sources

  /** Two IPv6 socket addresses with the same port whose hosts, fe80::1 and fe80::2, differ behind the sixteenth byte. */
  const ONE_HOST: seq<byte> :=
    [10, 0, 31, 144, 0, 0, 0, 0, 254, 128, 0, 0, 0, 0, 0, 0, 0, 0, 0, 0, 0, 0, 0, 1, 0, 0, 0, 0]
  const OTHER_HOST: seq<byte> :=
    [10, 0, 31, 144, 0, 0, 0, 0, 254, 128, 0, 0, 0, 0, 0, 0, 0, 0, 0, 0, 0, 0, 0, 2, 0, 0, 0, 0]

  /** Two hosts that count as one source: a stream of two packets, one from each, becomes one request. */
  lemma TwoHostsOneRequest(c: Sender, p: Datagram, q: Datagram)
    requires WellFormed(c) && PacketCount(c) == 2 && c.source == ONE_HOST[..SOURCE_LENGTH]
    requires p.address == ONE_HOST && q.address == OTHER_HOST
    requires Sent(c, 0) <= Data(p) && Sent(c, 1) <= Data(q)
    ensures ONE_HOST != OTHER_HOST && Served(Run([Recv(p), Recv(q)]).dispatched, c)
  {
    hide WellFormed, Sent, Run, SentFor, Faithful, PacketCount, IsRawHttp;
    var evs := [Recv(p), Recv(q)];
    assert ONE_HOST[23] != OTHER_HOST[23];
    assert OTHER_HOST[..SOURCE_LENGTH] == ONE_HOST[..SOURCE_LENGTH];
    assert Carries(p, c, 0) && Carries(q, c, 1);
    IdOf(c, 0, p);
    IdOf(c, 1, q);
    assert !IsRawHttp(Data(p)) by { NotRaw(c, 0, Data(p)); }
    assert !IsRawHttp(Data(q)) by { NotRaw(c, 1, Data(q)); }
    ProjectTwo(evs, c.id);
    PacketsOfTwo(p, q);
    NoSweepWithoutDrop(evs, c);
    hide PacketsOf, Project, Swept;
    DeliveredIffNotSwept(evs, c);
  }

  lemma PacketsOfTwo(p: Datagram, q: Datagram)
    ensures PacketsOf([Recv(p), Recv(q)]) == [p, q]
  {
    hide PacketsOf;
    var one := [Recv(p)];
    NoPackets();
    PacketsSnoc([], Recv(p));
    PacketsSnoc(one, Recv(q));
    assert [] + one == one && one + [Recv(q)] == [Recv(p), Recv(q)];
  }

  lemma NoPackets()
    ensures PacketsOf([]) == []
  {
  }

  lemma NoSweepWithoutDrop(evs: seq<Event>, c: Sender)
    requires WellFormed(c) && Project(evs, c.id) == evs && forall i :: 0 <= i < |evs| ==> !evs[i].Drop?
    ensures !Swept(evs, c)
  {
    hide WellFormed, Project, PacketsOf, EverNoted;
  }

  lemma NotRaw(c: Sender, i: nat, b: seq<byte>)
    requires WellFormed(c) && Sent(c, i) <= b
    ensures !IsRawHttp(b)
  {
    hide From, OptionBlock;
    ReadPacket(c, i, b);
    ZeroIsNotRaw(b);
  }

  lemma ProjectTwo(evs: seq<Event>, k: Id)
    requires |evs| == 2 && Touches(evs[0], k) && Touches(evs[1], k)
    ensures Project(evs, k) == evs
  {
    hide Touches;
    assert evs[..1][..0] == [] && evs[..1][0] == evs[0];
    assert Project(evs[..1], k) == [] + [evs[0]];
  }
}
