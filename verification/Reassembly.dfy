/**
 What every packet keeps true of a request, and what a completed request holds
 (src/parser.c, with ff_request_vectorise_payload of src/request.c).
 */
module Reassembly {
  import opened Bytes
  import opened Tlv
  import opened Requests
  import opened Tiling

  /** Offsets are stored in 16 bits; a packet is in range when its offset survives that. */
  predicate InRange(b: seq<byte>) {
    |b| >= HEADER_LENGTH ==> DecodeHeader(b).chunkOffset < 0x1_0000
  }

  /** The accounts of a request, whatever offsets were announced: disjoint chunks, loaded and summed up. */
  ghost predicate Counted(r: Req) {
    && NoOverlaps(r.payload) && Loaded(r.payload)
    && r.receivedLength == SumLengths(r.payload)
    && AllPlain(r.options) && |r.options| < MAX_OPTIONS
  }

  /** And the chunks inside the payload. */
  ghost predicate Accounted(r: Req) {
    Counted(r) && Within(r.payload, r.payloadLength)
  }

  /** A request of which at least one packet was accepted, with whatever offset. */
  ghost predicate Underway(r: Req) {
    Counted(r) && r.version == VERSION_1 && r.payload != [] && Open(r)
  }

  /** Not failed, and with no byte missing if it is complete. */
  predicate Open(r: Req) {
    r.state == Receiving || (r.state == Received && r.receivedLength >= r.payloadLength)
  }

  /** The same, with every packet in range. */
  ghost predicate Assembling(r: Req) {
    && Accounted(r) && r.version == VERSION_1 && r.payload != []
    && (r.state == Receiving || r.state == Received)
    && (r.state == Received <==> r.receivedLength == r.payloadLength)
  }

  /** A request as ff_proxy_process_incoming_packet allocates it. */
  predicate Untouched(r: Req) {
    r == FRESH.(source := r.source, receivedAt := r.receivedAt)
  }

  // ---------------------------------------------------------------------------
  // The invariant

  /**
   The bounds test adds in 32 bits and the node keeps 16 bits of the offset. An accepted chunk is
   stored at the offset it announced and inside the payload exactly when that offset is below 65536.
   */
  lemma StoredWhereAnnounced(r: Req, b: seq<byte>, i: nat)
    requires HeaderAccepted(r, b) && HEADER_LENGTH <= i <= |b|
    ensures var c, h := ChunkOf(b, i), DecodeHeader(b);
      c.offset == h.chunkOffset && c.offset + c.length <= r.payloadLength <==> InRange(b)
  {
    hide DecodeHeader;
    DecodedFits(b);
  }

  /** A packet that shows the test is not enough: bytes announced at 65536 are stored at 0. */
  lemma OffsetOutOfRange(id: Id)
    ensures var h := Header(1, id, 70000, 65536, 1);
      var b := EncodeHeader(h) + [0, 0, 0, 42];
      var r := FRESH.(version := 1, requestId := id, payloadLength := 70000);
      DataChunk(r, b).payload == [Chunk(0, 1, [42])]
  {
    hide EncodeHeader, DecodeHeader;
    var h := Header(1, id, 70000, 65536, 1);
    var b := EncodeHeader(h) + [0, 0, 0, 42];
    HeaderRoundTrip(h, [0, 0, 0, 42]);
    assert b[HEADER_LENGTH..] == [0, 0, 0, 42];
    assert b[HEADER_LENGTH + 3..] == [42];
  }

  lemma AppendCounted(r: Req, c: Chunk)
    requires Counted(r) && !OverlapsAny(c, r.payload) && c.length <= |c.value|
    ensures Counted(Append(r, c))
  {
    hide Overlaps;
    var cs := r.payload + [c];
    assert cs[..|cs| - 1] == r.payload;
  }

  /** A request that is complete already has room for an empty chunk only, and stays complete. */
  lemma AppendAccounted(r: Req, c: Chunk)
    requires Accounted(r) && !OverlapsAny(c, r.payload)
    requires c.offset + c.length <= r.payloadLength && c.length <= |c.value|
    requires r.version == VERSION_1
    requires r.state == Receiving || (r.state == Received && r.receivedLength == r.payloadLength)
    ensures Assembling(Append(r, c))
  {
    hide Overlaps, SumLengths;
    AppendCounted(r, c);
    ByteAccounting(Append(r, c).payload, r.payloadLength);
    assert SumLengths([]) == 0 by { NothingToSum(); }
  }

  lemma NothingToSum()
    ensures SumLengths([]) == 0
  {
  }

  /** An option section that reads lies inside the packet and holds options that may be kept. */
  lemma SectionPlain(r: Req, b: seq<byte>)
    requires |b| >= HEADER_LENGTH + OPTION_HEADER && OptionSection(r, b).Ok?
    ensures var s := OptionSection(r, b);
      && AllPlain(s.options) && HEADER_LENGTH + s.consumed <= |b|
      && (|r.options| < MAX_OPTIONS ==> |r.options| + |s.options| < MAX_OPTIONS)
  {
    hide DecodeHeader, ScanOptions, OptionBlock;
    if DecodeHeader(b).chunkOffset == 0 {
      ScanSound(b[HEADER_LENGTH..], |r.options|);
    }
  }

  lemma CountedOptions(r: Req, os: seq<Opt>, flag: bool)
    requires Counted(r) && AllPlain(os) && (|r.options| < MAX_OPTIONS ==> |r.options| + |os| < MAX_OPTIONS)
    ensures Counted(r.(options := r.options + os, payloadContainsOptions := flag))
  {
    hide NoOverlaps, Loaded, SumLengths;
  }

  lemma AppendUnderway(r: Req, c: Chunk)
    requires Counted(r) && Open(r)
    ensures var r' := Append(r, c); r'.version == r.version && r'.payload != [] && Open(r')
  {
    hide NoOverlaps, Loaded, AllPlain;
  }

  /** A data packet in range: the request fails, or it is under assembly with its bytes accounted for. */
  lemma DataChunkKeeps(r: Req, b: seq<byte>)
    requires Accounted(r) && InRange(b)
    requires r.state == Receiving || (r.state == Received && r.receivedLength == r.payloadLength)
    ensures DataChunk(r, b).state == ReceivingFail || Assembling(DataChunk(r, b))
  {
    if HeaderAccepted(r, b) && OptionSection(r, b).Ok? {
      hide OptionSection, DecodeHeader, Append;
      SectionPlain(r, b);
      var s := OptionSection(r, b);
      var i := HEADER_LENGTH + s.consumed;
      StoredWhereAnnounced(r, b, i);
      var r1 := r.(options := r.options + s.options, payloadContainsOptions := s.isBreak);
      if |b| >= i + DecodeHeader(b).chunkLength && !OverlapsAny(ChunkOf(b, i), r.payload) {
        AppendAccounted(r1, ChunkOf(b, i));
      }
    }
  }

  /** What an accepted packet does, once its parts are known. */
  lemma Accepts(r: Req, b: seq<byte>, h: Header, n: nat, os: seq<Opt>, flag: bool, value: seq<byte>)
    requires HeaderAccepted(r, b) && DecodeHeader(b) == h
    requires OptionSection(r, b) == Ok(n, os, flag) && |b| >= HEADER_LENGTH + n + h.chunkLength
    requires value == b[HEADER_LENGTH + n..]
    requires !OverlapsAny(Chunk(h.chunkOffset % 0x1_0000, h.chunkLength, value), r.payload)
    ensures DataChunk(r, b) == Append(r.(options := r.options + os, payloadContainsOptions := flag),
                                      Chunk(h.chunkOffset % 0x1_0000, h.chunkLength, value))
  {
    hide DecodeHeader, OptionSection, OverlapsAny, Append;
  }

  /** The three parts of a data packet that `r` takes: header `h`, options `os` with their section, chunk `value`. */
  ghost predicate Frames(r: Req, h: Header, section: seq<byte>, os: seq<Opt>, flag: bool, value: seq<byte>) {
    && HeaderFits(h) && r.version == VERSION_1 == h.version
    && h.requestId == r.requestId && h.totalLength == r.payloadLength
    && (h.chunkOffset + h.chunkLength) % 0x1_0000_0000 <= r.payloadLength
    && (if h.chunkOffset == 0 then section == OptionBlock(os, flag) && AllPlain(os) && |r.options| + |os| < 20
        else |section| == OPTION_HEADER && section[0] == EOL && os == [] && flag == r.payloadContainsOptions)
    && h.chunkLength <= |value|
    && !OverlapsAny(Chunk(h.chunkOffset % 0x1_0000, h.chunkLength, value), r.payload)
  }

  ghost predicate MadeOf(
    r: Req, b: seq<byte>, h: Header, section: seq<byte>, os: seq<Opt>, flag: bool, value: seq<byte>)
  {
    b == EncodeHeader(h) + section + value && Frames(r, h, section, os, flag, value)
  }

  /** Packets are accepted exactly if they are put together like that, and then these are the parts that are stored. */
  lemma AcceptedIff(r: Req, b: seq<byte>)
    requires r.state != ReceivingFail
    ensures DataChunk(r, b).state != ReceivingFail <==>
      exists h, section, os, flag, value :: MadeOf(r, b, h, section, os, flag, value)
    ensures forall h, section, os, flag, value :: MadeOf(r, b, h, section, os, flag, value) ==>
      DataChunk(r, b) == Append(r.(options := r.options + os, payloadContainsOptions := flag),
                                Chunk(h.chunkOffset % 0x1_0000, h.chunkLength, value))
  {
    hide EncodeHeader, DecodeHeader, OptionBlock, OptionSection, OverlapsAny, Append;
    forall h, section, os, flag, value | MadeOf(r, b, h, section, os, flag, value)
      ensures DataChunk(r, b) == Append(r.(options := r.options + os, payloadContainsOptions := flag),
                                        Chunk(h.chunkOffset % 0x1_0000, h.chunkLength, value))
      ensures DataChunk(r, b).state != ReceivingFail
    {
      FramedSection(r, h, section, os, flag, value, b);
      Accepts(r, b, h, |section|, os, flag, value);
      AppendState(r.(options := r.options + os, payloadContainsOptions := flag),
                  Chunk(h.chunkOffset % 0x1_0000, h.chunkLength, value));
    }
    if DataChunk(r, b).state != ReceivingFail {
      AcceptedIsFramed(r, b);
    }
  }

  lemma AppendState(r: Req, c: Chunk)
    requires r.state != ReceivingFail
    ensures Append(r, c).state != ReceivingFail
  {
  }

  lemma FramedSection(r: Req, h: Header, section: seq<byte>, os: seq<Opt>, flag: bool, value: seq<byte>, b: seq<byte>)
    requires MadeOf(r, b, h, section, os, flag, value)
    ensures HeaderAccepted(r, b) && DecodeHeader(b) == h
    ensures OptionSection(r, b) == Ok(|section|, os, flag) && value == b[HEADER_LENGTH + |section|..]
  {
    hide EncodeHeader, DecodeHeader, OptionBlock, OverlapsAny, ScanOptions;
    assert b == EncodeHeader(h) + (section + value);
    HeaderRoundTrip(h, section + value);
    assert b[HEADER_LENGTH..] == section + value;
    if h.chunkOffset == 0 {
      ScanWritten(os, flag, value, |r.options|);
      BlockHasTerminator(os, flag);
    } else {
      assert b[HEADER_LENGTH] == section[0];
    }
  }

  lemma BlockHasTerminator(os: seq<Opt>, flag: bool)
    ensures |OptionBlock(os, flag)| >= OPTION_HEADER
  {
  }

  lemma AcceptedIsFramed(r: Req, b: seq<byte>)
    requires DataChunk(r, b).state != ReceivingFail
    ensures exists h, section, os, flag, value :: MadeOf(r, b, h, section, os, flag, value)
  {
    hide MadeOf, DataChunk;
    var h, section, os, flag, value := PartsOf(r, b);
  }

  lemma PartsOf(r: Req, b: seq<byte>)
    returns (h: Header, section: seq<byte>, os: seq<Opt>, flag: bool, value: seq<byte>)
    requires DataChunk(r, b).state != ReceivingFail
    ensures MadeOf(r, b, h, section, os, flag, value)
  {
    hide EncodeHeader, DecodeHeader, OptionBlock, OverlapsAny, Append, ScanOptions;
    var s := OptionSection(r, b);
    h, os, flag := DecodeHeader(b), s.options, s.isBreak;
    DecodedFits(b);
    HeaderDecoded(b);
    SectionPlain(r, b);
    section, value := b[HEADER_LENGTH..HEADER_LENGTH + s.consumed], b[HEADER_LENGTH + s.consumed..];
    assert b == b[..HEADER_LENGTH] + section + value;
    if h.chunkOffset == 0 {
      ScanSound(b[HEADER_LENGTH..], |r.options|);
      assert section == b[HEADER_LENGTH..][..s.consumed];
    }
  }

  /** A data packet with any offset: the request fails, or its accounts are kept and it grows by one chunk. */
  lemma DataChunkCounts(r: Req, b: seq<byte>)
    requires Counted(r) && Open(r)
    ensures var r' := DataChunk(r, b); r'.state == ReceivingFail || Underway(r')
  {
    hide DataChunk, EncodeHeader, OptionBlock, OverlapsAny, Counted, AllPlain, Append;
    AcceptedIff(r, b);
    if DataChunk(r, b).state != ReceivingFail {
      var h, section, os, flag, value :| MadeOf(r, b, h, section, os, flag, value);
      var r1, c := r.(options := r.options + os, payloadContainsOptions := flag),
                   Chunk(h.chunkOffset % 0x1_0000, h.chunkLength, value);
      PlainPart(r, h, section, os, flag, value);
      CountedOptions(r, os, flag);
      AppendCounted(r1, c);
      AppendUnderway(r1, c);
    }
  }

  lemma PlainPart(r: Req, h: Header, section: seq<byte>, os: seq<Opt>, flag: bool, value: seq<byte>)
    requires Frames(r, h, section, os, flag, value)
    ensures AllPlain(os) && (|r.options| < MAX_OPTIONS ==> |r.options| + |os| < MAX_OPTIONS)
  {
    hide OptionBlock, OverlapsAny;
  }

  /** One packet: the request fails, or its accounts are kept. */
  lemma ParseChunkCounts(r: Req, b: seq<byte>)
    requires Untouched(r) || Underway(r)
    requires !IsRawHttp(b)
    ensures var r' := ParseChunk(r, b); r'.state == ReceivingFail || Underway(r')
  {
    hide DecodeHeader, Counted, DataChunk;
    if r.version == 0 && |b| >= HEADER_LENGTH {
      var h := DecodeHeader(b);
      DecodedFits(b);
      var r1 := r.(version := h.version, requestId := h.requestId, payloadLength := h.totalLength);
      assert Counted(r1) by { NothingCounted(r1); }
      DataChunkCounts(r1, b);
    } else if r.version != 0 {
      DataChunkCounts(r, b);
    }
  }

  lemma NothingCounted(r: Req)
    requires r.payload == [] && r.receivedLength == 0 && r.options == []
    ensures Counted(r)
  {
  }

  /** One packet in range: the request fails, or it is a request under assembly with its bytes accounted for. */
  lemma ParseChunkKeeps(r: Req, b: seq<byte>)
    requires Untouched(r) || Assembling(r)
    requires !IsRawHttp(b) && InRange(b)
    ensures var r' := ParseChunk(r, b); r'.state == ReceivingFail || Assembling(r')
  {
    hide DataChunk, DecodeHeader;
    if r.version == 0 && |b| >= HEADER_LENGTH {
      var h := DecodeHeader(b);
      DecodedFits(b);
      DataChunkKeeps(r.(version := h.version, requestId := h.requestId, payloadLength := h.totalLength), b);
    } else if r.version != 0 {
      DataChunkKeeps(r, b);
    }
  }

  /** A received request holds its payload as a tiling in order of arrival. */
  lemma ReceivedIsTiled(r: Req)
    requires Assembling(r) && r.state == Received
    ensures Tiled(r.payload, r.payloadLength)
  {
    CompleteIsTiled(r.payload, r.payloadLength);
  }

  /** Which arrival orders complete: those in which every chunk starts where the earlier ones end, and no others. */
  lemma CompletesIffInOrder(cs: seq<Chunk>, total: nat)
    ensures NoOverlaps(cs) && Within(cs, total) && SumLengths(cs) == total <==> Tiled(cs, total)
  {
    if Tiled(cs, total) {
      TiledPasses(cs, total);
    }
    if NoOverlaps(cs) && Within(cs, total) && SumLengths(cs) == total {
      CompleteIsTiled(cs, total);
    }
  }

  /** Two adjacent chunks in reverse order: the second is refused although no byte is sent twice. */
  lemma ReverseOrderRefused(a: nat, b: nat, v: seq<byte>, w: seq<byte>)
    requires b > 0
    ensures OverlapsAny(Chunk(0, a, v), [Chunk(a, b, w)])
    ensures forall p :: !(Covers(Chunk(0, a, v), p) && Covers(Chunk(a, b, w), p))
  {
    assert Overlaps(Chunk(0, a, v), [Chunk(a, b, w)][0]);
  }

  // ---------------------------------------------------------------------------
  // Vectorising

  /** The request with its payload in one node; the node's length field has 16 bits. */
  function Flatten(r: Req): Req
    requires Loaded(r.payload)
  {
    if |r.payload| == 1 then r
    else r.(payload := [Chunk(0, r.payloadLength % 0x1_0000, Concat(r.payload))])
  }

  /** The payload bytes of a request whose payload is one node. */
  function Body(r: Req): seq<byte>
    requires |r.payload| == 1
  {
    r.payload[0].value[..if r.payloadLength <= |r.payload[0].value| then r.payloadLength else |r.payload[0].value|]
  }

  /** `p` is one node that holds the chunks `cs`, each copied to its offset in some buffer of `total` bytes. */
  ghost predicate CopiedByOffset(cs: seq<Chunk>, p: seq<Chunk>, total: nat)
    requires Loaded(cs) && Within(cs, total)
  {
    exists b: seq<byte> :: |b| == total && p == [Chunk(0, total % 0x1_0000, Overlay(b, cs))]
  }

  /** ff_request_vectorise_payload: copies every node to its offset in a new, uninitialised buffer. */
  method Vectorise(request: Request)
    requires request.payload != []
    requires |request.payload| > 1 ==> Loaded(request.payload) && Within(request.payload, request.payloadLength)
    modifies request`payload
    ensures |old(request.payload)| == 1 ==> request.payload == old(request.payload)
    ensures |old(request.payload)| > 1 ==> CopiedByOffset(old(request.payload), request.payload, request.payloadLength)
    ensures |old(request.payload)| == 1 || Tiled(old(request.payload), request.payloadLength) ==>
      Loaded(old(request.payload)) ==> request.Value() == Flatten(old(request.Value()))
  {
    if |request.payload| == 1 {
      return;
    }
    hide Overlay, Concat, Overwrite, SumLengths, Overlaps;
    ghost var cs := request.payload;
    var buffer := new byte[request.payloadLength];
    ghost var b := buffer[..];
    assert cs[..0] == [];
    OverlayNothing(b);
    for i := 0 to |request.payload|
      invariant request.payload == cs && request.Value() == old(request.Value())
      invariant buffer.Length == request.payloadLength
      invariant Loaded(cs[..i]) && Within(cs[..i], |b|) && buffer[..] == Overlay(b, cs[..i])
    {
      var node := request.payload[i];
      OverlayStep(b, cs, i);
      WriteBytes(buffer, node.offset, node.value[..node.length]);
    }
    assert cs[..|cs|] == cs;
    if Tiled(cs, |b|) {
      OverlayOfWholeTiling(b, cs);
    }
    request.payload := [Chunk(0, request.payloadLength % 0x1_0000, buffer[..])];
  }

  lemma OverlayNothing(b: seq<byte>)
    ensures Overlay(b, []) == b
  {
  }

  lemma OverlayStep(b: seq<byte>, cs: seq<Chunk>, i: nat)
    requires Loaded(cs) && Within(cs, |b|) && i < |cs|
    ensures Loaded(cs[..i + 1]) && Within(cs[..i + 1], |b|)
    ensures Overlay(b, cs[..i + 1]) == Overwrite(Overlay(b, cs[..i]), cs[i].offset, cs[i].value[..cs[i].length])
  {
    hide Overlay, Overwrite;
    assert cs[..i + 1] == cs[..i] + [cs[i]];
    OverlaySnoc(b, cs[..i], cs[i]);
  }

  lemma OverlaySnoc(b: seq<byte>, cs: seq<Chunk>, c: Chunk)
    requires Loaded(cs) && Within(cs, |b|) && c.length <= |c.value| && c.offset + c.length <= |b|
    ensures Loaded(cs + [c]) && Within(cs + [c], |b|)
    ensures Overlay(b, cs + [c]) == Overwrite(Overlay(b, cs), c.offset, c.value[..c.length])
  {
    hide Overwrite;
    var l := cs + [c];
    assert l[..|l| - 1] == cs && l[|l| - 1] == c;
  }

  /** A received request flattens to one node that holds the bytes of its chunks in order of arrival. */
  lemma FlattenedBody(r: Req)
    requires Assembling(r) && r.state == Received
    ensures |Flatten(r).payload| == 1 && Body(Flatten(r)) == Concat(r.payload)
    ensures |Concat(r.payload)| == r.payloadLength
  {
    ReceivedIsTiled(r);
    if |r.payload| == 1 {
      assert r.payload == [r.payload[0]] && r.payload[..0] == [];
      assert Concat([]) == [] && SumLengths([]) == 0;
    }
  }

  // ---------------------------------------------------------------------------
  // Padding

  function StripChunk(c: Chunk): Chunk {
    c.(value := c.value[..if c.length <= |c.value| then c.length else |c.value|])
  }

  /** The request without the bytes that lie behind its chunks. */
  function Strip(r: Req): Req {
    r.(payload := seq(|r.payload|, i requires 0 <= i < |r.payload| => StripChunk(r.payload[i])))
  }

  lemma HeaderPadding(b: seq<byte>, pad: seq<byte>)
    requires |b| >= HEADER_LENGTH
    ensures DecodeHeader(b + pad) == DecodeHeader(b)
  {
    var p := b + pad;
    assert p[0..2] == b[0..2] && p[2..10] == b[2..10] && p[10..14] == b[10..14];
    assert p[14..18] == b[14..18] && p[18..20] == b[18..20];
  }

  lemma SectionPadding(r: Req, s: Req, b: seq<byte>, pad: seq<byte>)
    requires |b| >= HEADER_LENGTH + OPTION_HEADER && OptionSection(r, b).Ok?
    requires |s.options| == |r.options| && s.payloadContainsOptions == r.payloadContainsOptions
    ensures OptionSection(s, b + pad) == OptionSection(r, b)
  {
    hide ScanOptions, DecodeHeader;
    HeaderPadding(b, pad);
    if DecodeHeader(b).chunkOffset == 0 {
      assert (b + pad)[HEADER_LENGTH..] == b[HEADER_LENGTH..] + pad;
      ScanPadding(b[HEADER_LENGTH..], pad, |r.options|);
    }
  }

  lemma OverlapStrip(c: Chunk, d: Chunk, r: Req, s: Req)
    requires Strip(r) == Strip(s) && c.offset == d.offset && c.length == d.length
    ensures OverlapsAny(c, r.payload) == OverlapsAny(d, s.payload)
  {
    assert |Strip(r).payload| == |r.payload| && |Strip(s).payload| == |s.payload|;
    forall i | 0 <= i < |r.payload| ensures Overlaps(c, r.payload[i]) == Overlaps(d, s.payload[i]) {
      assert Strip(r).payload[i] == Strip(s).payload[i];
    }
  }

  lemma AppendStrip(r: Req, s: Req, c: Chunk, d: Chunk)
    requires Strip(r) == Strip(s) && StripChunk(c) == StripChunk(d)
    ensures Strip(Append(r, c)) == Strip(Append(s, d))
  {
    hide StripChunk;
    assert c.length == d.length by { StripKeepsRange(c); StripKeepsRange(d); }
    assert |Strip(r).payload| == |r.payload| && |Strip(s).payload| == |s.payload|;
    var a, b := Strip(Append(r, c)), Strip(Append(s, d));
    forall i | 0 <= i < |a.payload| ensures a.payload[i] == b.payload[i] {
      if i < |r.payload| {
        assert a.payload[i] == Strip(r).payload[i] && b.payload[i] == Strip(s).payload[i];
      }
    }
    assert a.payload == b.payload;
    assert a.(payload := []) == Append(r, c).(payload := []);
    assert r.(payload := []) == Strip(r).(payload := []) == Strip(s).(payload := []) == s.(payload := []);
  }

  lemma StripKeepsRange(c: Chunk)
    ensures StripChunk(c).offset == c.offset && StripChunk(c).length == c.length
  {
  }

  /** If a packet is accepted, the same packet with any bytes behind it is accepted and changes nothing. */
  lemma DataChunkPadding(r: Req, s: Req, b: seq<byte>, pad: seq<byte>)
    requires Strip(r) == Strip(s) && DataChunk(r, b).state != ReceivingFail
    ensures Strip(DataChunk(s, b + pad)) == Strip(DataChunk(r, b))
  {
    hide OptionSection, DecodeHeader, Append, StripChunk;
    assert r.(payload := []) == Strip(r).(payload := []) == Strip(s).(payload := []) == s.(payload := []);
    HeaderPadding(b, pad);
    SectionPadding(r, s, b, pad);
    var o := OptionSection(r, b);
    var i := HEADER_LENGTH + o.consumed;
    SectionPlain(r, b);
    var c, d := ChunkOf(b, i), ChunkOf(b + pad, i);
    ChunkPadding(b, pad, i);
    var r1 := r.(options := r.options + o.options, payloadContainsOptions := o.isBreak);
    var s1 := s.(options := s.options + o.options, payloadContainsOptions := o.isBreak);
    assert Strip(r1) == Strip(s1) by {
      assert Strip(r1).payload == Strip(r).payload && Strip(s1).payload == Strip(s).payload;
    }
    OverlapStrip(c, d, r, s);
    AppendStrip(r1, s1, c, d);
  }

  lemma ChunkPadding(b: seq<byte>, pad: seq<byte>, i: nat)
    requires HEADER_LENGTH <= i <= |b| && i + DecodeHeader(b).chunkLength <= |b|
    ensures var c, d := ChunkOf(b, i), ChunkOf(b + pad, i);
      c.offset == d.offset && c.length == d.length && StripChunk(c) == StripChunk(d)
  {
    HeaderPadding(b, pad);
    hide DecodeHeader;
    assert (b + pad)[i..] == b[i..] + pad;
    var n := DecodeHeader(b).chunkLength;
    assert (b + pad)[i..][..n] == b[i..][..n];
  }

  /** Padding independence of a whole parse step, for a new request or one under assembly. */
  lemma ParseChunkPadding(r: Req, s: Req, b: seq<byte>, pad: seq<byte>)
    requires Strip(r) == Strip(s) && !IsRawHttp(b) && ParseChunk(r, b).state != ReceivingFail
    ensures r.version == 0 ==> !IsRawHttp(b + pad)
    ensures Strip(ParseChunk(s, b + pad)) == Strip(ParseChunk(r, b))
  {
    hide DataChunk, DecodeHeader, StripChunk, IsRawHttp;
    assert r.(payload := []) == Strip(r).(payload := []) == Strip(s).(payload := []) == s.(payload := []);
    if r.version == 0 {
      var h := DecodeHeader(b);
      HeaderPadding(b, pad);
      DecodedFits(b);
      var r1 := r.(version := h.version, requestId := h.requestId, payloadLength := h.totalLength);
      var s1 := s.(version := h.version, requestId := h.requestId, payloadLength := h.totalLength);
      assert Strip(r1).payload == Strip(r).payload && Strip(s1).payload == Strip(s).payload;
      DataChunkPadding(r1, s1, b, pad);
      AcceptedIsVersion1(r1, b);
      ZeroIsNotRaw(b + pad);
    } else {
      DataChunkPadding(r, s, b, pad);
    }
  }

  lemma AcceptedIsVersion1(r: Req, b: seq<byte>)
    requires DataChunk(r, b).state != ReceivingFail
    ensures |b| >= HEADER_LENGTH && DecodeHeader(b).version == 1 && b[0] == 0
  {
    hide OptionSection, Append, ScanOptions;
    ToFromBigEndian(b[0..2]);
    TwoBytes(1);
    assert b[0..2][0] == b[0];
  }

  /** Two received requests that differ only in padding hold the same payload. */
  lemma StripKeepsBytes(r: Req, s: Req)
    requires Strip(r) == Strip(s) && Loaded(r.payload) && Loaded(s.payload)
    ensures Concat(r.payload) == Concat(s.payload)
  {
    assert |Strip(r).payload| == |r.payload| && |Strip(s).payload| == |s.payload|;
    forall i | 0 <= i < |r.payload| ensures StripChunk(r.payload[i]) == StripChunk(s.payload[i]) {
      assert Strip(r).payload[i] == Strip(s).payload[i];
    }
    ConcatStrip(r.payload, s.payload);
  }

  lemma {:induction false} ConcatStrip(a: seq<Chunk>, b: seq<Chunk>)
    requires |a| == |b| && Loaded(a) && Loaded(b)
    requires forall i :: 0 <= i < |a| ==> StripChunk(a[i]) == StripChunk(b[i])
    ensures Concat(a) == Concat(b)
  {
    if a != [] {
      ConcatStrip(a[..|a| - 1], b[..|b| - 1]);
      assert StripChunk(a[|a| - 1]) == StripChunk(b[|b| - 1]);
    }
  }
}
