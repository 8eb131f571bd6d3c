/**
 The clients' packetisers (client/c/client.c, client/python/ff_client/ff_client.py,
 client/node/src/client.ts), each proved to emit one closed-form stream of packets.
 */
module Packetiser {
  import opened Bytes
  import opened Tlv
  import opened Requests
  import opened Texts

  const MAX_PACKET: nat := 1300
  /** Room behind the fixed header, and behind the header and a bare terminator. */
  const ROOM: nat := 1280
  const NEXT_ROOM: nat := 1277

  /** A buffer of fixed size and the number of its bytes that are in use. */
  datatype ClientPacket = ClientPacket(buffer: seq<byte>, length: nat)

  /** What a client sends: the option list includes its terminator, `total` is the announced length. */
  datatype Message = Message(id: Id, total: nat, options: seq<Opt>, payload: seq<byte>)

  predicate Sendable(m: Message) {
    m.total < 0x1_0000_0000 && |Serialise(m.options)| <= ROOM
  }

  // ---------------------------------------------------------------------------
  // The closed form

  /** Where packet `i` starts when the option list takes `s` bytes and the payload does not run out. */
  function Start(s: nat, i: nat): nat
    requires s <= ROOM
  {
    if i == 0 then 0 else (ROOM - s) + (i - 1) * NEXT_ROOM
  }

  /** The same for a payload of `n` bytes. */
  function Cut(n: nat, s: nat, i: nat): (c: nat)
    requires s <= ROOM
    ensures c <= n
  {
    if Start(s, i) <= n then Start(s, i) else n
  }

  /** How many packets `n` bytes take. */
  function Count(n: nat, s: nat): nat
    requires s <= ROOM
  {
    if n == 0 then 0
    else if n <= ROOM - s then 1
    else 1 + (n - (ROOM - s) + NEXT_ROOM - 1) / NEXT_ROOM
  }

  function OptionsOf(m: Message, first: bool): seq<Opt> {
    if first then m.options else [Terminator(false)]
  }

  /** The bytes of a packet that carries payload[from..to]. */
  function PacketBytes(m: Message, first: bool, from: nat, to: nat): seq<byte>
    requires from <= to <= |m.payload|
  {
    EncodeHeader(Header(1, m.id, m.total, from, to - from)) + Serialise(OptionsOf(m, first)) + m.payload[from..to]
  }

  function Padded(b: seq<byte>): ClientPacket
    requires |b| <= MAX_PACKET
  {
    ClientPacket(b + Zeros(MAX_PACKET - |b|), |b|)
  }

  function Zeros(n: nat): (z: seq<byte>)
    ensures |z| == n && forall i :: 0 <= i < n ==> z[i] == 0
  {
    seq(n, _ => 0)
  }

  lemma BareTerminator()
    ensures |Serialise([Terminator(false)])| == OPTION_HEADER
  {
    assert [Terminator(false)][1..] == [];
  }

  lemma CutMonotone(n: nat, s: nat, i: nat)
    requires s <= ROOM
    ensures Cut(n, s, i) <= Cut(n, s, i + 1)
    ensures Cut(n, s, i + 1) - Cut(n, s, i) <= if i == 0 then ROOM - s else NEXT_ROOM
  {
  }

  /** Packet `i` of a stream that carries the first `n` bytes of the payload. */
  function Nth(m: Message, n: nat, i: nat): (p: ClientPacket)
    requires Sendable(m) && n <= |m.payload|
    ensures p.length <= |p.buffer| == 1300
  {
    var s := |Serialise(m.options)|;
    CutMonotone(n, s, i);
    BareTerminator();
    Padded(PacketBytes(m, i == 0, Cut(n, s, i), Cut(n, s, i + 1)))
  }

  function Stream(m: Message, n: nat): seq<ClientPacket>
    requires Sendable(m) && n <= |m.payload|
  {
    seq(Count(n, |Serialise(m.options)|), i requires 0 <= i => Nth(m, n, i))
  }

  // ---------------------------------------------------------------------------
  // Arithmetic

  /** The number of packets is the first `k` whose successor would start behind the payload. */
  lemma CountIs(n: nat, s: nat, k: nat)
    requires s <= ROOM && n > 0 && k > 0 && Start(s, k - 1) < n <= Start(s, k)
    ensures Count(n, s) == k
  {
    if k > 1 {
      var m := n - (ROOM - s);
      assert (k - 2) * NEXT_ROOM < m <= (k - 1) * NEXT_ROOM;
    }
  }

  lemma CountBounds(n: nat, s: nat)
    requires s <= ROOM && n > 0
    ensures Count(n, s) > 0 && Start(s, Count(n, s) - 1) < n <= Start(s, Count(n, s))
  {
  }

  /**
   The C client reserves room for 1024 pointers of 8 bytes and stores records of 16, but a 16-bit
   payload takes 53 of them at most.
   */
  lemma PacketsFitTheArray(n: nat, s: nat)
    requires s <= ROOM && n < 0x1_0000
    ensures Count(n, s) <= 53 && Count(n, s) * 16 <= 1024 * 8
  {
  }

  // ---------------------------------------------------------------------------
  // The loops

  /** The header up to the chunk length, which is written last. */
  function HeaderStart(m: Message, from: nat): (h: seq<byte>)
    ensures |h| == 18
  {
    BigEndian(VERSION_1, 2) + BigEndian(m.id, 8) + BigEndian(m.total, 4) + BigEndian(from, 4)
  }

  method WriteHeader(buffer: array<byte>, m: Message, from: nat)
    requires buffer.Length == MAX_PACKET
    modifies buffer
    ensures buffer[..] == Overwrite(old(buffer[..]), 0, HeaderStart(m, from))
  {
    hide BigEndian, Overwrite;
    ghost var z, h := buffer[..], BigEndian(VERSION_1, 2);
    WriteBytes(buffer, 0, BigEndian(VERSION_1, 2));
    WriteBytes(buffer, 2, BigEndian(m.id, 8));
    OverwriteTwice(z, 0, h, BigEndian(m.id, 8));
    h := h + BigEndian(m.id, 8);
    WriteBytes(buffer, 10, BigEndian(m.total, 4));
    OverwriteTwice(z, 0, h, BigEndian(m.total, 4));
    h := h + BigEndian(m.total, 4);
    WriteBytes(buffer, 14, BigEndian(from, 4));
    OverwriteTwice(z, 0, h, BigEndian(from, 4));
  }

  /** One turn of a packetise loop: header, options, chunk length, payload, in a zeroed buffer. */
  method FillPacket(m: Message, first: bool, from: nat, left: nat) returns (packet: ClientPacket, chunkLength: nat)
    requires Sendable(m) && from + left <= |m.payload|
    ensures chunkLength == var room := if first then ROOM - |Serialise(m.options)| else NEXT_ROOM;
      if left > room then room else left
    ensures packet == PaddedPacket(m, first, from, from + chunkLength)
  {
    hide BigEndian, Serialise, Overwrite, EncodeHeader, HeaderStart;
    BareTerminator();
    var buffer := new byte[MAX_PACKET](_ => 0);
    ghost var z := Zeros(MAX_PACKET);
    assert buffer[..] == z;
    WriteHeader(buffer, m, from);
    ghost var h := HeaderStart(m, from);
    var length := HEADER_LENGTH;
    ghost var os := OptionsOf(m, first);
    var written := WriteOptions(buffer, length, OptionsOf(m, first));
    length := length + written;
    var room := MAX_PACKET - length;
    chunkLength := if left > room then room else left;
    WriteBytes(buffer, 18, BigEndian(chunkLength, 2));
    WriteBytes(buffer, length, m.payload[from..from + chunkLength]);
    LateField(z, h, BigEndian(chunkLength, 2), Serialise(os), m.payload[from..from + chunkLength]);
    length := length + chunkLength;
    packet := ClientPacket(buffer[..], length);
    HeaderFields(m, from, chunkLength);
  }

  function PaddedPacket(m: Message, first: bool, from: nat, to: nat): ClientPacket
    requires from <= to <= |m.payload| && HEADER_LENGTH + |Serialise(OptionsOf(m, first))| + (to - from) <= MAX_PACKET
  {
    Padded(PacketBytes(m, first, from, to))
  }

  lemma HeaderFields(m: Message, from: nat, chunkLength: nat)
    ensures EncodeHeader(Header(1, m.id, m.total, from, chunkLength)) == HeaderStart(m, from) + BigEndian(chunkLength, 2)
  {
  }

  /** The chunk length is written after the options, into the gap left for it. */
  lemma LateField(z: seq<byte>, h: seq<byte>, late: seq<byte>, os: seq<byte>, p: seq<byte>)
    requires |h| == 18 && |late| == 2 && 20 + |os| + |p| <= |z| == MAX_PACKET && z == Zeros(MAX_PACKET)
    ensures Overwrite(Overwrite(Overwrite(Overwrite(z, 0, h), 20, os), 18, late), 20 + |os|, p)
      == h + late + os + p + Zeros(MAX_PACKET - (20 + |os| + |p|))
  {
    hide Overwrite;
    var r := h + late + os + p + Zeros(MAX_PACKET - (20 + |os| + |p|));
    var b := Overwrite(Overwrite(Overwrite(Overwrite(z, 0, h), 20, os), 18, late), 20 + |os|, p);
    assert |b| == |r|;
    forall i | 0 <= i < |r| ensures b[i] == r[i] {
    }
  }

  /** ff_client_packetise_request; `bytes_left` has 16 bits, so only that much of the payload length is sent. */
  method PacketiseC(id: Id, options: seq<Opt>, payload: seq<byte>) returns (packets: seq<ClientPacket>)
    requires |payload| < 0x1_0000_0000 && |Serialise(options)| <= ROOM
    ensures packets == Stream(Message(id, |payload|, options, payload), |payload| % 0x1_0000)
  {
    hide Serialise, Nth, PaddedPacket;
    var m := Message(id, |payload|, options, payload);
    ghost var n, s := |payload| % 0x1_0000, |Serialise(options)|;
    var chunkOffset, bytesLeft := 0, |payload| % 0x1_0000;
    packets := [];
    while bytesLeft > 0
      invariant chunkOffset == Cut(n, s, |packets|) && bytesLeft == n - chunkOffset
      invariant packets != [] ==> Start(s, |packets| - 1) < n
      invariant forall i :: 0 <= i < |packets| ==> packets[i] == Nth(m, n, i)
      decreases bytesLeft, packets == []
    {
      var packet, chunkLength := FillPacket(m, packets == [], chunkOffset, bytesLeft);
      NthIs(m, n, |packets|);
      bytesLeft := bytesLeft - chunkLength;
      chunkOffset := chunkOffset + chunkLength;
      packets := packets + [packet];
    }
    if n > 0 {
      CountIs(n, s, |packets|);
    }
  }

  lemma NthIs(m: Message, n: nat, i: nat)
    requires Sendable(m) && n <= |m.payload|
    ensures var s := |Serialise(m.options)|;
      && Cut(n, s, i) <= Cut(n, s, i + 1)
      && HEADER_LENGTH + |Serialise(OptionsOf(m, i == 0))| + (Cut(n, s, i + 1) - Cut(n, s, i)) <= MAX_PACKET
      && Nth(m, n, i) == PaddedPacket(m, i == 0, Cut(n, s, i), Cut(n, s, i + 1))
  {
    hide Serialise;
    CutMonotone(n, |Serialise(m.options)|, i);
    BareTerminator();
  }

  /** The payloads the Python client accepts: bytes, or text, which it encodes. */
  datatype PyPayload = Binary(bytes: seq<byte>) | Text(text: seq<CodePoint>)

  function DataOf(p: PyPayload): seq<byte> {
    match p case Binary(b) => b case Text(t) => Encoded(t)
  }

  /** The announced length is that of the payload as it was given: of text, the number of characters. */
  function Announced(p: PyPayload): nat {
    match p case Binary(b) => |b| case Text(t) => |t|
  }

  /** The bytes that are sent for a text read back as the text, and are the text itself if it is ASCII. */
  lemma TextIsEncoded(t: seq<CodePoint>)
    ensures Decode(DataOf(Text(t))) == t
    ensures (forall i :: 0 <= i < |t| ==> t[i] < 0x80) ==>
      |DataOf(Text(t))| == |t| && forall i :: 0 <= i < |t| ==> DataOf(Text(t))[i] == t[i]
  {
    hide Encoded, Decode;
    DecodeEncoded(t);
    if forall i :: 0 <= i < |t| ==> t[i] < 0x80 {
      AsciiIsItself(t);
    }
  }

  /** What the Python client announces is what it sends exactly for bytes and for ASCII text. */
  lemma AnnouncedRightIffAscii(p: PyPayload)
    ensures Announced(p) == |DataOf(p)| <==> p.Binary? || forall i :: 0 <= i < |p.text| ==> p.text[i] < 0x80
  {
    if p.Text? {
      EncodedLength(p.text);
    }
  }

  /** FfClient.packetise_request; the first packet is recognised by its offset, not by a count. */
  method PacketisePython(id: Id, options: seq<Opt>, payload: PyPayload) returns (packets: seq<ClientPacket>)
    requires |DataOf(payload)| < 0x1_0000_0000 && |Serialise(options)| < ROOM
    ensures Announced(payload) < 0x1_0000_0000
    ensures packets == Stream(Message(id, Announced(payload), options, DataOf(payload)), |DataOf(payload)|)
  {
    hide Serialise, Nth, PaddedPacket, Encoded;
    var data := DataOf(payload);
    if payload.Text? {
      EncodedLength(payload.text);
    }
    var m := Message(id, Announced(payload), options, data);
    ghost var n, s := |data|, |Serialise(options)|;
    var chunkOffset, bytesLeft := 0, |data|;
    packets := [];
    while bytesLeft > 0
      invariant chunkOffset == Cut(n, s, |packets|) && bytesLeft == n - chunkOffset
      invariant packets != [] ==> Start(s, |packets| - 1) < n
      invariant forall i :: 0 <= i < |packets| ==> packets[i] == Nth(m, n, i)
      decreases bytesLeft
    {
      var packet, chunkLength := FillPacket(m, chunkOffset == 0, chunkOffset, bytesLeft);
      NthIs(m, n, |packets|);
      bytesLeft := bytesLeft - chunkLength;
      chunkOffset := chunkOffset + chunkLength;
      packets := packets + [packet];
    }
    if n > 0 {
      CountIs(n, s, |packets|);
    }
  }

  /** FfClient._packetiseRequest; the id is a buffer of bytes, and a wrong length is an error. */
  method PacketiseNode(requestId: seq<byte>, options: seq<Opt>, payload: seq<byte>)
    returns (packets: Option<seq<ClientPacket>>)
    requires |payload| < 0x1_0000_0000 && |Serialise(options)| < ROOM
    ensures packets.None? <==> |requestId| != 8
    ensures packets.Some? ==>
      && FromBigEndian(requestId) < TWO_64
      && packets.value == Stream(Message(FromBigEndian(requestId), |payload|, options, payload), |payload|)
  {
    hide Serialise, Nth, PaddedPacket, FromBigEndian;
    if |requestId| != 8 {
      return None;
    }
    Widths();
    var m := Message(FromBigEndian(requestId), |payload|, options, payload);
    ghost var n, s := |payload|, |Serialise(options)|;
    var bytesLeft, chunkOffset, sent := |payload|, 0, [];
    while bytesLeft > 0
      invariant chunkOffset == Cut(n, s, |sent|) && bytesLeft == n - chunkOffset
      invariant sent != [] ==> Start(s, |sent| - 1) < n
      invariant forall i :: 0 <= i < |sent| ==> sent[i] == Nth(m, n, i)
      decreases bytesLeft
    {
      var packet, chunkLength := FillPacket(m, chunkOffset == 0, chunkOffset, bytesLeft);
      NthIs(m, n, |sent|);
      sent := sent + [packet];
      chunkOffset := chunkOffset + chunkLength;
      bytesLeft := bytesLeft - chunkLength;
    }
    if n > 0 {
      CountIs(n, s, |sent|);
    }
    return Some(sent);
  }

  /** For a 16-bit payload the three clients put the same packets together. */
  method ClientsAgree(id: Id, options: seq<Opt>, payload: seq<byte>)
    returns (c: seq<ClientPacket>, python: seq<ClientPacket>, node: Option<seq<ClientPacket>>)
    requires |payload| < 0x1_0000 && |Serialise(options)| < ROOM
    ensures c == python && node == Some(c)
  {
    hide Serialise, Stream, BigEndian, FromBigEndian, Pow256;
    Widths();
    FromToBigEndian(id, 8);
    c := PacketiseC(id, options, payload);
    python := PacketisePython(id, options, Binary(payload));
    node := PacketiseNode(BigEndian(id, 8), options, payload);
  }
}
