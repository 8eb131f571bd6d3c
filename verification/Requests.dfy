/**
 A request on the proxy (src/request.h, src/request.c) and the parser that feeds packets into it
 (src/parser.c). `Req` is the value of a request; `Request` is the object the source updates in
 place, each of its methods proved against a function on values.
 */
module Requests {
  import opened Bytes
  import opened Tlv

  // ---------------------------------------------------------------------------
  // The fixed header

  const HEADER_LENGTH: nat := 20
  const VERSION_1: int := 1
  const VERSION_RAW: int := -1

  datatype Header = Header(version: nat, requestId: nat, totalLength: nat, chunkOffset: nat, chunkLength: nat)

  predicate HeaderFits(h: Header) {
    && h.version < 0x1_0000 && h.requestId < TWO_64 && h.totalLength < 0x1_0000_0000
    && h.chunkOffset < 0x1_0000_0000 && h.chunkLength < 0x1_0000
  }

  function EncodeHeader(h: Header): (s: seq<byte>)
    ensures |s| == HEADER_LENGTH
  {
    BigEndian(h.version, 2) + BigEndian(h.requestId, 8) + BigEndian(h.totalLength, 4)
    + BigEndian(h.chunkOffset, 4) + BigEndian(h.chunkLength, 2)
  }

  function DecodeHeader(b: seq<byte>): (h: Header)
    requires |b| >= HEADER_LENGTH
  {
    Header(FromBigEndian(b[0..2]), FromBigEndian(b[2..10]), FromBigEndian(b[10..14]),
           FromBigEndian(b[14..18]), FromBigEndian(b[18..20]))
  }

  lemma DecodedFits(b: seq<byte>)
    requires |b| >= HEADER_LENGTH
    ensures HeaderFits(DecodeHeader(b))
  {
    hide FromBigEndian;
    Widths();
  }

  lemma HeaderRoundTrip(h: Header, rest: seq<byte>)
    requires HeaderFits(h)
    ensures DecodeHeader(EncodeHeader(h) + rest) == h
  {
    hide FromBigEndian, BigEndian, Pow256;
    Widths();
    var b := EncodeHeader(h) + rest;
    assert b[0..2] == BigEndian(h.version, 2);
    assert b[2..10] == BigEndian(h.requestId, 8);
    assert b[10..14] == BigEndian(h.totalLength, 4);
    assert b[14..18] == BigEndian(h.chunkOffset, 4);
    assert b[18..20] == BigEndian(h.chunkLength, 2);
    FromToBigEndian(h.version, 2);
    FromToBigEndian(h.requestId, 8);
    FromToBigEndian(h.totalLength, 4);
    FromToBigEndian(h.chunkOffset, 4);
    FromToBigEndian(h.chunkLength, 2);
  }

  /** The header byte by byte: version, id, total length, chunk offset, chunk length, each with its high byte first. */
  lemma HeaderLayout(h: Header)
    requires HeaderFits(h)
    ensures var b := EncodeHeader(h);
      && h.version == b[0] as int * 0x100 + b[1]
      && h.requestId == Word(b, 2) * 0x1_0000_0000 + Word(b, 6)
      && h.totalLength == Word(b, 10) && h.chunkOffset == Word(b, 14)
      && h.chunkLength == b[18] as int * 0x100 + b[19]
  {
    hide EncodeHeader, FromBigEndian, Word;
    var b := EncodeHeader(h);
    assert b + [] == b;
    HeaderRoundTrip(h, []);
    PairIs(b, 0);
    LongIs(b[2..10]);
    WordIs(b[10..14]);
    WordIs(b[14..18]);
    PairIs(b, 18);
    WordAt(b);
  }

  /** Four bytes from `i`, the highest first. */
  function Word(b: seq<byte>, i: nat): nat
    requires i + 4 <= |b|
  {
    b[i] as int * 0x100_0000 + b[i + 1] as int * 0x1_0000 + b[i + 2] as int * 0x100 + b[i + 3]
  }

  lemma WordAt(b: seq<byte>)
    requires |b| == HEADER_LENGTH
    ensures Word(b[2..10], 0) == Word(b, 2) && Word(b[2..10], 4) == Word(b, 6)
    ensures Word(b[10..14], 0) == Word(b, 10) && Word(b[14..18], 0) == Word(b, 14)
  {
  }

  lemma PairIs(b: seq<byte>, i: nat)
    requires i + 2 <= |b|
    ensures FromBigEndian(b[i..i + 2]) == b[i] as int * 0x100 + b[i + 1]
  {
    hide FromBigEndian;
    var s := b[i..i + 2];
    LastDigit(s, 1);
    LastDigit(s, 2);
    NoDigits();
    assert s[..0] == [] && s[..2] == s;
  }

  lemma WordIs(s: seq<byte>)
    requires |s| == 4
    ensures FromBigEndian(s) == Word(s, 0)
  {
    hide FromBigEndian;
    FourDigits(s, 0);
    NoDigits();
    assert s[..0] == [] && s[..4] == s;
  }

  lemma LongIs(s: seq<byte>)
    requires |s| == 8
    ensures FromBigEndian(s) == Word(s, 0) * 0x1_0000_0000 + Word(s, 4)
  {
    hide FromBigEndian;
    WordIs(s[..4]);
    FourDigits(s, 4);
    assert s[..8] == s;
  }

  lemma NoDigits()
    ensures FromBigEndian([]) == 0
  {
  }

  lemma FirstByteZero(h: Header)
    requires h.version == 1
    ensures EncodeHeader(h)[0] == 0
  {
    assert BigEndian(1, 2)[0] == 0;
  }

  /** The twenty bytes are determined by the fields. */
  lemma HeaderDecoded(b: seq<byte>)
    requires |b| >= HEADER_LENGTH
    ensures EncodeHeader(DecodeHeader(b)) == b[..HEADER_LENGTH]
  {
    hide BigEndian, FromBigEndian;
    ToFromBigEndian(b[0..2]);
    ToFromBigEndian(b[2..10]);
    ToFromBigEndian(b[10..14]);
    ToFromBigEndian(b[14..18]);
    ToFromBigEndian(b[18..20]);
    assert b[..20] == b[0..2] + b[2..10] + b[10..14] + b[14..18] + b[18..20];
  }

  /** ff_request_parse_id on a packet that is not raw HTTP. It reads the receive buffer, not only the received bytes. */
  function IdField(buffer: seq<byte>): (id: Id)
    requires |buffer| >= 10
  {
    Widths();
    FromBigEndian(buffer[2..10])
  }

  // ---------------------------------------------------------------------------
  // Raw HTTP

  /** GET, HEAD, POST, PUT, DELETE, CONNECT, OPTIONS, TRACE, PATCH. */
  const HTTP_METHODS: seq<seq<byte>> := [
    [71, 69, 84], [72, 69, 65, 68], [80, 79, 83, 84], [80, 85, 84], [68, 69, 76, 69, 84, 69],
    [67, 79, 78, 78, 69, 67, 84], [79, 80, 84, 73, 79, 78, 83], [84, 82, 65, 67, 69], [80, 65, 84, 67, 72]]

  /** The packet starts with a method name, and no method at or before it in the table is longer than the packet. */
  ghost predicate IsRawHttp(b: seq<byte>) {
    exists i :: 0 <= i < |HTTP_METHODS| && StartsWithMethod(b, i)
  }

  ghost predicate StartsWithMethod(b: seq<byte>, i: nat)
    requires i < |HTTP_METHODS|
  {
    HTTP_METHODS[i] <= b && forall j :: 0 <= j <= i ==> |HTTP_METHODS[j]| <= |b|
  }

  /** ff_request_is_raw_http. */
  method DetectRawHttp(b: seq<byte>) returns (isRaw: bool)
    ensures isRaw == IsRawHttp(b)
  {
    if |b| == 0 {
      return false;
    }
    isRaw := false;
    for i := 0 to |HTTP_METHODS|
      invariant !isRaw
      invariant forall j :: 0 <= j < i ==> |HTTP_METHODS[j]| <= |b| && !(HTTP_METHODS[j] <= b)
    {
      if |b| < |HTTP_METHODS[i]| {
        break;
      }
      isRaw := isRaw || HTTP_METHODS[i] <= b;
      if isRaw {
        assert StartsWithMethod(b, i);
        break;
      }
    }
  }

  /**
   When a packet that starts with a method name is taken for raw HTTP: exactly if it is no shorter
   than any name up to that one in the table.
   */
  lemma RawIffLongEnough(b: seq<byte>, i: nat)
    requires i < |HTTP_METHODS| && HTTP_METHODS[i] <= b
    ensures IsRawHttp(b) <==> forall j :: 0 <= j <= i ==> |HTTP_METHODS[j]| <= |b|
  {
    forall j | 0 <= j < |HTTP_METHODS| && HTTP_METHODS[j] <= b ensures j == i {
      assert HTTP_METHODS[j][0] == b[0] == HTTP_METHODS[i][0] && HTTP_METHODS[j][1] == b[1] == HTTP_METHODS[i][1];
    }
    assert IsRawHttp(b) <==> StartsWithMethod(b, i);
  }

  /** From seven bytes on, the nine names are all that counts. */
  lemma RawByName(b: seq<byte>)
    requires |b| >= 7
    ensures IsRawHttp(b) <==>
      // GET, HEAD, POST
      || [71, 69, 84] <= b || [72, 69, 65, 68] <= b || [80, 79, 83, 84] <= b
      // PUT, DELETE, CONNECT
      || [80, 85, 84] <= b || [68, 69, 76, 69, 84, 69] <= b || [67, 79, 78, 78, 69, 67, 84] <= b
      // OPTIONS, TRACE, PATCH
      || [79, 80, 84, 73, 79, 78, 83] <= b || [84, 82, 65, 67, 69] <= b || [80, 65, 84, 67, 72] <= b
  {
    assert forall j :: 0 <= j < |HTTP_METHODS| ==> |HTTP_METHODS[j]| <= 7;
    assert forall i :: 0 <= i < |HTTP_METHODS| ==> (StartsWithMethod(b, i) <==> HTTP_METHODS[i] <= b);
    assert IsRawHttp(b) <==>
      || StartsWithMethod(b, 0) || StartsWithMethod(b, 1) || StartsWithMethod(b, 2) || StartsWithMethod(b, 3)
      || StartsWithMethod(b, 4) || StartsWithMethod(b, 5) || StartsWithMethod(b, 6) || StartsWithMethod(b, 7)
      || StartsWithMethod(b, 8);
  }

  /** The three bytes PUT are not. */
  lemma PutAloneIsNotRaw()
    ensures HTTP_METHODS[3] <= [80, 85, 84] && !IsRawHttp([80, 85, 84])
  {
    RawIffLongEnough([80, 85, 84], 3);
    assert |HTTP_METHODS[1]| == 4;
  }

  /** A packet whose first byte is zero, as every version below 256 makes it, is never raw HTTP. */
  lemma ZeroIsNotRaw(b: seq<byte>)
    requires |b| > 0 && b[0] == 0
    ensures !IsRawHttp(b)
  {
    forall i | 0 <= i < |HTTP_METHODS| ensures !StartsWithMethod(b, i) {
      assert HTTP_METHODS[i][0] != 0;
    }
  }

  // ---------------------------------------------------------------------------
  // The value of a request

  /** enum ff_request_state; SENT and SENDING_FAILED are both 10, so they are one value here. */
  datatype State =
    | Receiving | Received | ReceivingFail
    | Decrypting | Decrypted | DecryptingFailed
    | ParsingOptions | ParsedOptions | ParsingOptionsFailed
    | Sending | SentOrSendingFailed

  /** sizeof(struct sockaddr). */
  const SOURCE_LENGTH: nat := 16

  /** What a request keeps of its sender's address: the first sixteen bytes, whatever its family. */
  type Source = seq<byte>

  const NO_SOURCE: Source := [0, 0, 0, 0, 0, 0, 0, 0, 0, 0, 0, 0, 0, 0, 0, 0]

  /** A payload node: a 16-bit offset and length, and the bytes copied from the packet, padding included. */
  datatype Chunk = Chunk(offset: nat, length: nat, value: seq<byte>)

  datatype Req = Req(
    state: State, version: int, source: Source, receivedAt: int, requestId: Id,
    options: seq<Opt>, payloadContainsOptions: bool,
    payloadLength: nat, receivedLength: nat, payload: seq<Chunk>)

  /** ff_request_alloc. */
  const FRESH: Req := Req(Receiving, 0, NO_SOURCE, 0, 0, [], false, 0, 0, [])

  function Failed(r: Req): Req {
    r.(state := ReceivingFail)
  }

  /** The test of one stored chunk against a new one. The second comparison is not strict. */
  predicate Overlaps(n: Chunk, c: Chunk) {
    n.offset < c.offset + c.length && c.offset <= n.offset + n.length
  }

  predicate OverlapsAny(n: Chunk, cs: seq<Chunk>) {
    exists i :: 0 <= i < |cs| && Overlaps(n, cs[i])
  }

  /** What the header of a data packet must satisfy; the sum of offset and length is a 32-bit one. */
  predicate HeaderAccepted(r: Req, b: seq<byte>) {
    && |b| >= HEADER_LENGTH + OPTION_HEADER
    && var h := DecodeHeader(b);
       && r.version == VERSION_1 && h.version == r.version
       && h.requestId == r.requestId && h.totalLength == r.payloadLength
       && (h.chunkOffset + h.chunkLength) % 0x1_0000_0000 <= r.payloadLength
  }

  /** The option section: a full list on a packet at offset zero, a bare EOL type elsewhere. */
  function OptionSection(r: Req, b: seq<byte>): (s: Scan)
    requires |b| >= HEADER_LENGTH + OPTION_HEADER
  {
    if DecodeHeader(b).chunkOffset == 0 then ScanOptions(b[HEADER_LENGTH..], |r.options|)
    else if b[HEADER_LENGTH] != EOL then Fail
    else Ok(OPTION_HEADER, [], r.payloadContainsOptions)
  }

  /** The chunk of a packet whose payload starts at `i`; the offset is stored in 16 bits. */
  function ChunkOf(b: seq<byte>, i: nat): Chunk
    requires HEADER_LENGTH <= i <= |b|
  {
    var h := DecodeHeader(b);
    Chunk(h.chunkOffset % 0x1_0000, h.chunkLength, b[i..])
  }

  function Append(r: Req, c: Chunk): Req {
    var received := if r.payload == [] then c.length else r.receivedLength + c.length;
    r.(payload := r.payload + [c], receivedLength := received,
       state := if received == r.payloadLength then Received else r.state)
  }

  /** ff_request_parse_data_chunk. */
  function DataChunk(r: Req, b: seq<byte>): Req {
    if !HeaderAccepted(r, b) then Failed(r)
    else
      match OptionSection(r, b)
      case Fail => Failed(r)
      case Ok(n, os, flag) =>
        var r1 := r.(options := r.options + os, payloadContainsOptions := flag);
        if |b| < HEADER_LENGTH + n + DecodeHeader(b).chunkLength then Failed(r1)
        else
          var c := ChunkOf(b, HEADER_LENGTH + n);
          if OverlapsAny(c, r.payload) then Failed(r1) else Append(r1, c)
  }

  /** ff_request_parse_raw_http. */
  function RawRequest(r: Req, b: seq<byte>): Req {
    r.(version := VERSION_RAW, state := Received, payloadLength := |b|, receivedLength := |b|,
       payload := [Chunk(0, |b| % 0x1_0000, b)])
  }

  /** ff_request_parse_first_chunk on a packet that is not raw HTTP. */
  function FirstChunk(r: Req, b: seq<byte>): Req {
    if |b| < HEADER_LENGTH then Failed(r)
    else
      var h := DecodeHeader(b);
      DecodedFits(b);
      DataChunk(r.(version := h.version, requestId := h.requestId, payloadLength := h.totalLength), b)
  }

  /** ff_request_parse_chunk. */
  ghost function ParseChunk(r: Req, b: seq<byte>): Req {
    if r.version == 0 then if IsRawHttp(b) then RawRequest(r, b) else FirstChunk(r, b)
    else DataChunk(r, b)
  }

  // ---------------------------------------------------------------------------
  // The object

  /** `r` after `n` bytes and the options `os` have been read. */
  ghost function Resume(r: Scan, n: nat, os: seq<Opt>): Scan {
    match r case Fail => Fail case Ok(m, os', brk) => Ok(n + m, os + os', brk)
  }

  lemma ResumeStep(x: seq<byte>, held: nat, i: nat, os: seq<Opt>)
    requires |x| >= OPTION_HEADER && held + |os| < MAX_OPTIONS
    requires x[0] != BREAK && x[0] != EOL && |x| >= OPTION_HEADER + LengthField(x)
    ensures var n := LengthField(x);
      Resume(ScanOptions(x, held + |os|), i, os) ==
      Resume(ScanOptions(x[OPTION_HEADER + n..], held + |os| + 1), i + (OPTION_HEADER + n),
             os + [Opt(x[0], x[OPTION_HEADER..OPTION_HEADER + n])])
  {
    hide LengthField, ScanOptions, Resume;
    var n := LengthField(x);
    ScanPast(x, held + |os|);
    ResumeTwice(ScanOptions(x[OPTION_HEADER + n..], held + |os| + 1), OPTION_HEADER + n, i, os,
                Opt(x[0], x[OPTION_HEADER..OPTION_HEADER + n]));
  }

  lemma SliceTwice(b: seq<byte>, i: nat, n: nat)
    requires i + OPTION_HEADER + n <= |b|
    ensures var x, j := b[i..], i + OPTION_HEADER;
      x[0] == b[i] && x[OPTION_HEADER..OPTION_HEADER + n] == b[j..j + n] && x[OPTION_HEADER + n..] == b[j + n..]
  {
  }

  lemma ResumeTwice(r: Scan, n: nat, i: nat, os: seq<Opt>, o: Opt)
    ensures Resume(match r case Fail => Fail case Ok(m, os', brk) => Ok(n + m, [o] + os', brk), i, os) ==
      Resume(r, i + n, os + [o])
  {
    match r
    case Fail =>
    case Ok(_, os', _) => assert os + ([o] + os') == os + [o] + os';
  }

  /** One option that is not a terminator. */
  lemma ScanPast(x: seq<byte>, held: nat)
    requires |x| >= OPTION_HEADER && held < MAX_OPTIONS && x[0] != BREAK && x[0] != EOL
    requires |x| >= OPTION_HEADER + LengthField(x)
    ensures var n := LengthField(x);
      ScanOptions(x, held) ==
      match ScanOptions(x[OPTION_HEADER + n..], held + 1)
      case Fail => Fail
      case Ok(m, os, brk) => Ok(OPTION_HEADER + n + m, [Opt(x[0], x[OPTION_HEADER..OPTION_HEADER + n])] + os, brk)
  {
    hide LengthField;
  }

  /** What the scan does with the header at `i`, when it does not go on behind it. */
  lemma ScanHead(b: seq<byte>, held: nat, i: nat)
    requires i <= |b|
    ensures held >= MAX_OPTIONS || |b| < i + OPTION_HEADER ==> ScanOptions(b[i..], held).Fail?
    ensures held < MAX_OPTIONS && |b| >= i + OPTION_HEADER ==>
      var n := LengthField(b[i..]);
      if b[i] == BREAK || b[i] == EOL then
        ScanOptions(b[i..], held) == if n != 0 then Fail else Ok(OPTION_HEADER, [], b[i] == BREAK)
      else |b| < i + OPTION_HEADER + n ==> ScanOptions(b[i..], held).Fail?
  {
    hide LengthField;
  }

  class Request {
    var state: State
    var version: int
    var source: Source
    var receivedAt: int
    var requestId: Id
    var options: seq<Opt>
    var payloadContainsOptions: bool
    var payloadLength: nat
    var receivedLength: nat
    var payload: seq<Chunk>

    function Value(): Req
      reads this
    {
      Req(state, version, source, receivedAt, requestId, options, payloadContainsOptions,
          payloadLength, receivedLength, payload)
    }

    /** ff_request_alloc. */
    constructor ()
      ensures Value() == FRESH
    {
      state, version, source, receivedAt, requestId := Receiving, 0, NO_SOURCE, 0, 0;
      options, payloadContainsOptions := [], false;
      payloadLength, receivedLength, payload := 0, 0, [];
    }

    /** ff_request_parse_options: all or nothing. */
    method ParseOptions(b: seq<byte>) returns (consumed: nat)
      modifies `options, `payloadContainsOptions
      ensures match ScanOptions(b, |old(options)|)
        case Fail =>
          consumed == 0 && options == old(options) && payloadContainsOptions == old(payloadContainsOptions)
        case Ok(n, os, isBreak) =>
          consumed == n > 0 && options == old(options) + os && payloadContainsOptions == isBreak
    {
      hide LengthField, ScanOptions;
      var i, collected, held := 0, [], |options|;
      assert b[0..] == b;
      ResumeNothing(ScanOptions(b, held));
      while true
        invariant i <= |b| && options == old(options) && payloadContainsOptions == old(payloadContainsOptions)
        invariant ScanOptions(b, held) == Resume(ScanOptions(b[i..], held + |collected|), i, collected)
        decreases |b| - i
      {
        ScanHead(b, held + |collected|, i);
        if held + |collected| >= MAX_OPTIONS || |b| < i + OPTION_HEADER {
          return 0;
        }
        var kind, n := b[i], LengthField(b[i..]);
        i := i + OPTION_HEADER;
        if kind == BREAK || kind == EOL {
          if n != 0 {
            return 0;
          }
          payloadContainsOptions := kind == BREAK;
          break;
        }
        if |b| < i + n {
          return 0;
        }
        ResumeStep(b[i - OPTION_HEADER..], held, i - OPTION_HEADER, collected);
        SliceTwice(b, i - OPTION_HEADER, n);
        collected := collected + [Opt(kind, b[i..i + n])];
        i := i + n;
      }
      consumed := i;
      options := options + collected;
    }

    lemma ResumeNothing(r: Scan)
      ensures Resume(r, 0, []) == r
    {
      match r case Fail => case Ok(_, os, _) => assert [] + os == os;
    }

    /** The walk along the stored chunks. */
    method FindOverlap(c: Chunk) returns (found: bool)
      ensures found == OverlapsAny(c, payload)
    {
      for i := 0 to |payload|
        invariant forall j :: 0 <= j < i ==> !Overlaps(c, payload[j])
      {
        if Overlaps(c, payload[i]) {
          return true;
        }
      }
      return false;
    }

    /** ff_request_parse_data_chunk. */
    method ParseDataChunk(b: seq<byte>)
      modifies this
      ensures Value() == DataChunk(old(Value()), b)
    {
      hide ScanOptions, DecodeHeader, LengthField;
      if |b| < HEADER_LENGTH {
        state := ReceivingFail;
        return;
      }
      var h := DecodeHeader(b);
      var i := HEADER_LENGTH;
      if version != VERSION_1 || h.version != version || h.requestId != requestId || h.totalLength != payloadLength {
        state := ReceivingFail;
        return;
      }
      if (h.chunkOffset + h.chunkLength) % 0x1_0000_0000 > payloadLength || |b| < i + OPTION_HEADER {
        state := ReceivingFail;
        return;
      }
      if h.chunkOffset == 0 {
        var n := ParseOptions(b[i..]);
        if n == 0 {
          state := ReceivingFail;
          return;
        }
        i := i + n;
      } else {
        if b[i] != EOL {
          state := ReceivingFail;
          return;
        }
        i := i + OPTION_HEADER;
      }
      if |b| < i + h.chunkLength {
        state := ReceivingFail;
        return;
      }
      AddChunk(Chunk(h.chunkOffset % 0x1_0000, h.chunkLength, b[i..]));
    }

    /** The end of ff_request_parse_data_chunk: overlap test, append, count. */
    method AddChunk(c: Chunk)
      modifies this
      ensures Value() == if OverlapsAny(c, old(payload)) then Failed(old(Value())) else Append(old(Value()), c)
    {
      if payload == [] {
        payload := [c];
        receivedLength := c.length;
      } else {
        var overlap := FindOverlap(c);
        if overlap {
          state := ReceivingFail;
          return;
        }
        payload := payload + [c];
        receivedLength := receivedLength + c.length;
      }
      if receivedLength == payloadLength {
        state := Received;
      }
    }

    /** ff_request_parse_chunk, with ff_request_parse_first_chunk and ff_request_parse_raw_http. */
    method Parse(b: seq<byte>)
      modifies this
      ensures Value() == ParseChunk(old(Value()), b)
    {
      hide DataChunk, DecodeHeader, IsRawHttp;
      if version != 0 {
        ParseDataChunk(b);
        return;
      }
      var isRaw := DetectRawHttp(b);
      if isRaw {
        version, state := VERSION_RAW, Received;
        payloadLength, receivedLength := |b|, |b|;
        payload := [Chunk(0, |b| % 0x1_0000, b)];
      } else if |b| < HEADER_LENGTH {
        state := ReceivingFail;
      } else {
        var h := DecodeHeader(b);
        DecodedFits(b);
        version, requestId, payloadLength := h.version, h.requestId, h.totalLength;
        ParseDataChunk(b);
      }
    }
  }
}
