/**
 The C client (client/c/client.c, client/c/crypto.c) up to its packets, and the theorem that the
 proxy's worker undoes all of it.
 */
module Client {
  import opened Bytes
  import opened Tlv
  import opened Requests
  import opened Tiling
  import opened Reassembly
  import opened Packetiser
  import opened HostScanner
  import opened ClientPayload
  import opened Worker
  import P = Proxy
  import D = Delivery

  const IV_LENGTH: nat := 12
  const SALT_LENGTH: nat := 16
  const TAG_LENGTH: nat := 16

  /** What the user asks for, and the client's random choices; no vector or salt if the random source fails. */
  datatype Job = Job(
    id: Id, https: bool, now: Id, http: seq<byte>,
    key: Option<seq<byte>>, iv: Option<seq<byte>>, salt: Option<seq<byte>>)

  function InnerOptions(j: Job): seq<Opt> {
    (if j.https then [Opt(HTTPS, [1])] else []) + [Opt(TIMESTAMP, BigEndian(j.now, 8))]
  }

  /** The payload before encryption: the inner option list and then the HTTP message. */
  function PlainPayload(j: Job): seq<byte> {
    OptionBlock(InnerOptions(j), false) + j.http
  }

  /** The message is in one node, whose length has 16 bits. */
  predicate JobOk(j: Job) {
    && |j.http| < 0x1_0000
    && (j.iv.Some? ==> |j.iv.value| == IV_LENGTH) && (j.salt.Some? ==> |j.salt.value| == SALT_LENGTH)
  }

  /** The whole payload fits a node, and so a stream; see PacketiseC. */
  predicate Fits(j: Job) {
    |PlainPayload(j)| < 0x1_0000
  }

  /** What the worker can get back: all of the plain payload, or what its node's length covers if it is sealed. */
  function Clear(j: Job): seq<byte> {
    var plain := PlainPayload(j);
    if j.key.None? then plain else plain[..|plain| % 0x1_0000]
  }

  function OuterOptions(iv: seq<byte>, salt: seq<byte>, tag: seq<byte>): seq<Opt> {
    [Opt(ENCRYPTION_MODE, [AES_256_GCM]), Opt(ENCRYPTION_IV, iv), Opt(ENCRYPTION_TAG, tag),
     Opt(KEY_DERIVE_MODE, [PBKDF2]), Opt(KEY_DERIVE_SALT, salt)]
  }

  /** Ciphertext and tag; None if the random source, the key derivation or the cipher fails. */
  function Sealed(j: Job, key: seq<byte>, cipher: Cipher, plain: seq<byte>): Option<(seq<byte>, seq<byte>)> {
    if j.salt.None? then None
    else
      var dk := cipher.derive(key, j.salt.value);
      if dk.None? || j.iv.None? then None else cipher.seal(dk.value, j.iv.value, plain)
  }

  /** Outer options and payload on the wire; None if encryption fails. Only what the node's length covers is sealed. */
  function Wrapped(j: Job, cipher: Cipher): Option<(seq<Opt>, seq<byte>)> {
    match j.key
    case None => Some(([], Clear(j)))
    case Some(key) =>
      (match Sealed(j, key, cipher, Clear(j))
       case None => None
       case Some((ciphertext, tag)) => Some((OuterOptions(j.iv.value, j.salt.value, tag), ciphertext)))
  }

  // ---------------------------------------------------------------------------
  // The client's own steps

  lemma InnerSize(j: Job)
    ensures |OptionBlock(InnerOptions(j), false)| == (if j.https then 4 else 0) + 14
    ensures AllPlain(InnerOptions(j))
  {
    hide EncodeOption;
    var t := [Opt(TIMESTAMP, BigEndian(j.now, 8))];
    assert t[1..] == [] && Serialise(t) == EncodeOption(t[0]) + [];
    if j.https {
      assert InnerOptions(j)[1..] == t;
    } else {
      assert InnerOptions(j) == t;
    }
  }

  /** The payload before encryption, byte by byte: HTTPS is option 4, the timestamp option 8, option 0 ends the list. */
  lemma PayloadOnTheWire(j: Job)
    ensures PlainPayload(j) ==
      (if j.https then [4, 0, 1, 1] else []) + ([8, 0, 8] + BigEndian(j.now, 8) + [0, 0, 0]) + j.http
  {
    hide EncodeOption, BigEndian;
    var stamp := Opt(TIMESTAMP, BigEndian(j.now, 8));
    OptionLayout(Opt(HTTPS, [1]));
    OptionLayout(stamp);
    OptionLayout(Terminator(false));
    assert [stamp][1..] == [] && Serialise([stamp]) == EncodeOption(stamp) + [] == EncodeOption(stamp);
    if j.https {
      assert InnerOptions(j)[1..] == [stamp];
    } else {
      assert InnerOptions(j) == [stamp];
    }
  }

  /** The options that an encrypted payload comes with, byte by byte: kinds 1, 2, 3, 5 and 6, and 7 to end the list. */
  lemma OptionsOnTheWire(iv: seq<byte>, salt: seq<byte>, tag: seq<byte>)
    requires |iv| == 12 && |salt| == 16 && |tag| == 16
    ensures OptionBlock(OuterOptions(iv, salt, tag), true) ==
      [1, 0, 1, 1] + ([2, 0, 12] + iv) + ([3, 0, 16] + tag) + [5, 0, 1, 1] + ([6, 0, 16] + salt) + [7, 0, 0]
  {
    hide EncodeOption;
    var os := OuterOptions(iv, salt, tag);
    OptionLayout(os[0]);
    OptionLayout(os[1]);
    OptionLayout(os[2]);
    OptionLayout(os[3]);
    OptionLayout(os[4]);
    OptionLayout(Terminator(true));
    SerialiseFive(os);
  }

  lemma SerialiseFive(os: seq<Opt>)
    requires |os| == 5
    ensures Serialise(os) ==
      EncodeOption(os[0]) + EncodeOption(os[1]) + EncodeOption(os[2]) + EncodeOption(os[3]) + EncodeOption(os[4])
  {
    hide EncodeOption;
    assert os[1..][1..] == os[2..] && os[2..][1..] == os[3..] && os[3..][1..] == os[4..] && os[4..][1..] == os[5..] == [];
    assert Serialise(os[4..]) == EncodeOption(os[4]) + [] == EncodeOption(os[4]);
    assert Serialise(os[3..]) == EncodeOption(os[3]) + EncodeOption(os[4]);
    assert Serialise(os[2..]) == EncodeOption(os[2]) + EncodeOption(os[3]) + EncodeOption(os[4]);
    assert Serialise(os[1..]) == EncodeOption(os[1]) + EncodeOption(os[2]) + EncodeOption(os[3]) + EncodeOption(os[4]);
  }

  /** The inner options and their terminator, and the buffer they are written to. */
  method WriteInnerOptions(j: Job) returns (block: seq<byte>, count: nat)
    ensures block == OptionBlock(InnerOptions(j), false) && count == |InnerOptions(j)| + 1
  {
    hide Serialise, EncodeOption, OptionBlock, BigEndian, Overwrite;
    var options, length := [], 0;
    if j.https {
      options := options + [Opt(HTTPS, [1])];
      length := length + OPTION_HEADER + 1;
    }
    options := options + [Opt(TIMESTAMP, BigEndian(j.now, 8))];
    length := length + OPTION_HEADER + 8;
    assert options == InnerOptions(j);
    options := options + [Terminator(false)];
    length := length + OPTION_HEADER;
    InnerSize(j);
    BlockIsSerialised(InnerOptions(j), false);
    var buffer := new byte[length];
    var written := WriteOptions(buffer, 0, options);
    assert buffer[..] == Serialise(options);
    return buffer[..], |options|;
  }

  /** ff_client_create_payload_options: the inner option list becomes the first payload node. */
  method CreatePayloadOptions(payload: PayloadList, j: Job) returns (count: nat)
    requires payload.Valid() && payload.nodes == [] && payload.length == 0
    modifies payload
    ensures payload.Valid() && |payload.nodes| == 1 && fresh(payload.nodes[0])
    ensures count == |InnerOptions(j)| + 1
    ensures var block, node := OptionBlock(InnerOptions(j), false), payload.nodes[0];
      node.offset == 0 && node.length == |block| == payload.length && node.value == block
  {
    hide OptionBlock, InnerOptions;
    var block, n := WriteInnerOptions(j);
    var node := new PayloadNode(|block|, block);
    payload.Add(node);
    assert payload.nodes == [] + [node];
    count := n;
  }

  /**
   ff_client_encrypt_request with ff_client_encrypt_request_aes_256_gcm_pbkdf2. A failure at any
   point leaves the request as it was.
   */
  method EncryptRequest(request: Request, j: Job, key: seq<byte>, cipher: Cipher) returns (ok: bool)
    requires |request.payload| == 1 && Loaded(request.payload)
    modifies request`options, request`payload, request`payloadLength
    ensures var node := old(request.payload[0]);
      match Sealed(j, key, cipher, node.value[..node.length])
      case None => !ok && request.Value() == old(request.Value())
      case Some((ciphertext, tag)) =>
        && ok && request.payload == [Chunk(0, |ciphertext| % 0x1_0000, ciphertext)]
        && request.payloadLength == |ciphertext|
        && request.options == old(request.options) + OuterOptions(j.iv.value, j.salt.value, tag)
  {
    if j.salt.None? {
      return false;
    }
    var dk := cipher.derive(key, j.salt.value);
    if dk.None? || j.iv.None? {
      return false;
    }
    var node := request.payload[0];
    var result := cipher.seal(dk.value, j.iv.value, node.value[..node.length]);
    if result.None? {
      return false;
    }
    var (ciphertext, tag) := result.value;
    request.payload := [Chunk(0, |ciphertext| % 0x1_0000, ciphertext)];
    request.payloadLength := |ciphertext|;
    request.options := request.options + [Opt(ENCRYPTION_MODE, [AES_256_GCM])];
    request.options := request.options + [Opt(ENCRYPTION_IV, j.iv.value)];
    request.options := request.options + [Opt(ENCRYPTION_TAG, tag)];
    request.options := request.options + [Opt(KEY_DERIVE_MODE, [PBKDF2])];
    request.options := request.options + [Opt(KEY_DERIVE_SALT, j.salt.value)];
    ok := true;
  }

  /** The laws asked of the cipher: opening undoes sealing, and sealing keeps the length and makes a 16-byte tag. */
  ghost predicate Sound(cipher: Cipher) {
    forall dk, iv, p {:trigger cipher.seal(dk, iv, p)} ::
      match cipher.seal(dk, iv, p)
      case None => true
      case Some((c, tag)) => |c| == |p| && |tag| == TAG_LENGTH && cipher.open(dk, iv, tag, c) == Some(p)
  }

  lemma {:induction false} OuterSize(iv: seq<byte>, salt: seq<byte>, tag: seq<byte>)
    requires |iv| == IV_LENGTH && |salt| == SALT_LENGTH && |tag| == TAG_LENGTH
    ensures var os := OuterOptions(iv, salt, tag); |Serialise(os)| == 61 && AllPlain(os) && |os| == 5
  {
    hide EncodeOption;
    var os := OuterOptions(iv, salt, tag);
    assert os[1..][1..] == os[2..] && os[2..][1..] == os[3..] && os[3..][1..] == os[4..];
    assert os[4..][1..] == os[5..] == [];
    assert |Serialise(os[4..])| == 19;
    assert |Serialise(os[3..])| == 4 + 19;
    assert |Serialise(os[2..])| == 19 + 4 + 19;
    assert |Serialise(os[1..])| == 15 + 19 + 4 + 19;
  }

  lemma WrappedSizes(j: Job, cipher: Cipher)
    requires JobOk(j) && Sound(cipher) && Wrapped(j, cipher).Some?
    ensures var (outer, payload) := Wrapped(j, cipher).value;
      && |payload| < 0x2_0000 && AllPlain(outer) && |outer| <= 5 && |OptionBlock(outer, true)| <= 64
      && |payload| == |Clear(j)| && (Fits(j) ==> Clear(j) == PlainPayload(j)) && |PlainPayload(j)| >= |j.http| + 14
  {
    hide Serialise, EncodeOption, OptionBlock, InnerOptions, OuterOptions;
    InnerSize(j);
    BlockNil(true);
    if j.key.Some? {
      var (c, tag) := Sealed(j, j.key.value, cipher, Clear(j)).value;
      OuterSize(j.iv.value, j.salt.value, tag);
      OuterBlock(OuterOptions(j.iv.value, j.salt.value, tag));
    }
  }

  lemma OuterBlock(os: seq<Opt>)
    ensures |OptionBlock(os, true)| == |Serialise(os)| + OPTION_HEADER
  {
    hide Serialise;
  }

  /** The client's request as the delivery theorem sees it. */
  function SenderOf(j: Job, cipher: Cipher, source: Source): D.Sender
    requires Wrapped(j, cipher).Some?
  {
    var (outer, payload) := Wrapped(j, cipher).value;
    D.Sender(source, j.id, outer, true, payload)
  }

  /** When the delivery theorem is about the client's stream: with an id, and a payload that 16 bits can count. */
  lemma SenderWellFormed(j: Job, cipher: Cipher, source: Source)
    requires JobOk(j) && Sound(cipher) && Wrapped(j, cipher).Some?
    ensures D.WellFormed(SenderOf(j, cipher, source)) <==> j.id != 0 && 0 < |Wrapped(j, cipher).value.1| < 0x1_0000
    ensures Fits(j) ==> 0 < |Wrapped(j, cipher).value.1| < 0x1_0000
  {
    hide OptionBlock, Wrapped, Sound;
    WrappedSizes(j, cipher);
  }

  /**
   ff_client_make_request up to the packets; None if encryption fails. The message is what the
   reader made of the pieces it got.
   */
  method MakeRequest(j: Job, pieces: seq<seq<byte>>, fill: nat -> byte, cipher: Cipher)
    returns (packets: Option<seq<ClientPacket>>)
    requires JobOk(j) && Sound(cipher) && InPieces(pieces) && j.http == Buffer(pieces, fill)[..|Flat(pieces)|]
    ensures packets.Some? <==> Wrapped(j, cipher).Some?
    ensures packets.Some? ==>
      var m := D.MessageOf(SenderOf(j, cipher, NO_SOURCE));
      Sendable(m) && packets.value == Stream(m, |m.payload| % 0x1_0000)
  {
    hide OptionBlock, Serialise, Sound, InnerOptions, OuterOptions, PlainPayload, Stream, Buffer, Flat;
    var request := new Request();
    var inPayload := PreparePayload(request, j, pieces, fill);
    if j.key.Some? {
      var ok := EncryptRequest(request, j, j.key.value, cipher);
      if !ok {
        return None;
      }
    }
    WrappedSizes(j, cipher);
    ghost var (outer, payload) := Wrapped(j, cipher).value;
    assert [] + outer == outer;
    request.options := request.options + [Terminator(inPayload != 0)];
    BlockIsSerialised(outer, true);
    var sent := PacketiseC(j.id, request.options, request.payload[0].value);
    return Some(sent);
  }

  /** The first half of ff_client_make_request: inner options and message, flattened into one node. */
  method PreparePayload(request: Request, j: Job, pieces: seq<seq<byte>>, fill: nat -> byte) returns (inPayload: nat)
    requires InPieces(pieces) && j.http == Buffer(pieces, fill)[..|Flat(pieces)|]
    requires request.payload == [] && request.payloadLength == 0
    modifies request`payload, request`payloadLength
    ensures inPayload > 0
    ensures var plain := PlainPayload(j);
      request.payload == [Chunk(0, |plain| % 0x1_0000, plain)] && request.payloadLength == |plain|
  {
    hide OptionBlock, InnerOptions, Concat, Tiled, Overlay, Buffer, Flat;
    var chunks, length, count := BuildList(j, pieces, fill);
    inPayload := count;
    ghost var value, n := Buffer(pieces, fill), |Flat(pieces)|;
    TwoNodes(OptionBlock(InnerOptions(j), false), value, n);
    request.payload, request.payloadLength := chunks, length;
    Vectorise(request);
  }

  /** The two nodes that the client adds to an empty payload: options, then message. */
  method BuildList(j: Job, pieces: seq<seq<byte>>, fill: nat -> byte)
    returns (chunks: seq<Chunk>, length: nat, count: nat)
    requires InPieces(pieces)
    ensures count > 0
    ensures var block, n := OptionBlock(InnerOptions(j), false), |Flat(pieces)|;
      chunks == [Chunk(0, |block|, block), Chunk(|block|, n, Buffer(pieces, fill))] && length == |block| + n
  {
    hide OptionBlock, InnerOptions, Buffer, Flat, InPieces, ChunksOf;
    assert |OptionBlock(InnerOptions(j), false)| < 0x1_0000 by { InnerSize(j); }
    var payload := new PayloadList();
    count := CreatePayloadOptions(payload, j);
    var node := ReadPayload(pieces, fill);
    ghost var first := payload.nodes[0];
    payload.Add(node);
    assert payload.nodes == [first] + [node] == [first, node];
    TwoChunks(first, node);
    chunks := payload.Chunks();
    length := payload.length;
  }

  lemma OneChunk(n: PayloadNode)
    ensures ChunksOf([n]) == [Chunk(n.offset, n.length, n.value)]
  {
    assert [n][..0] == [];
  }

  lemma TwoChunks(n: PayloadNode, m: PayloadNode)
    ensures ChunksOf([n, m]) == [Chunk(n.offset, n.length, n.value), Chunk(m.offset, m.length, m.value)]
  {
    assert [n, m][..1] == [n];
    OneChunk(n);
  }

  lemma TwoNodes(a: seq<byte>, v: seq<byte>, n: nat)
    requires n <= |v|
    ensures var cs := [Chunk(0, |a|, a), Chunk(|a|, n, v)];
      Loaded(cs) && Tiled(cs, |a| + n) && Within(cs, |a| + n) && Concat(cs) == a + v[..n]
  {
    var c, d := Chunk(0, |a|, a), Chunk(|a|, n, v);
    assert [] + [c] == [c] && [c] + [d] == [c, d];
    TiledAppend([], c);
    TiledAppend([c], d);
    assert a[..|a|] == a && [] + a == a;
    TiledPasses([c, d], |a| + n);
  }

  // ---------------------------------------------------------------------------
  // The worker undoes the client

  /** The payload node of a faithfully received request holds the payload of its sender. */
  lemma FaithfulBytes(r: Req, c: D.Sender)
    requires D.Faithful(r, c) && 0 < |c.payload| < 0x1_0000
    ensures WorkReady(r)
    ensures var f := Vectorised(r);
      && f.options == c.options && f.payloadContainsOptions == c.isBreak
      && f.payload[0].length == |c.payload| && Concat(f.payload) == c.payload
      && f.payload[0].value[..f.payload[0].length] == c.payload
  {
    assert r.payload != [];
    OneNode(Vectorised(r).payload);
    if |r.payload| == 1 {
      OneNode(r.payload);
      assert r.payload[..0] == [];
      assert r.payload[0].length == SumLengths(r.payload);
    }
  }

  lemma OuterScans(iv: seq<byte>, salt: seq<byte>, tag: seq<byte>)
    ensures var os := OuterOptions(iv, salt, tag);
      && LastByte(os, ENCRYPTION_MODE) == AES_256_GCM && LastByte(os, KEY_DERIVE_MODE) == PBKDF2
      && LastValue(os, ENCRYPTION_IV) == Some(iv) && LastValue(os, ENCRYPTION_TAG) == Some(tag)
      && LastValue(os, KEY_DERIVE_SALT) == Some(salt)
  {
    var os := OuterOptions(iv, salt, tag);
    LastStep(os, 4, KEY_DERIVE_SALT);
    LastStep(os, 4, ENCRYPTION_MODE);
    LastStep(os, 3, ENCRYPTION_MODE);
    LastStep(os, 2, ENCRYPTION_MODE);
    LastStep(os, 1, ENCRYPTION_MODE);
    LastStep(os, 0, ENCRYPTION_MODE);
    LastStep(os, 4, KEY_DERIVE_MODE);
    LastStep(os, 3, KEY_DERIVE_MODE);
    LastStep(os, 4, ENCRYPTION_IV);
    LastStep(os, 3, ENCRYPTION_IV);
    LastStep(os, 2, ENCRYPTION_IV);
    LastStep(os, 1, ENCRYPTION_IV);
    LastStep(os, 4, ENCRYPTION_TAG);
    LastStep(os, 3, ENCRYPTION_TAG);
    LastStep(os, 2, ENCRYPTION_TAG);
    assert os[..5] == os;
  }

  /** Decryption gives back what was sealed, or what was sent in the clear. */
  lemma DecryptUndoes(f: Req, j: Job, cipher: Cipher, config: Config)
    requires JobOk(j) && Sound(cipher) && Wrapped(j, cipher).Some? && config.key == j.key
    requires |f.payload| == 1 && Loaded(f.payload) && f.payload[0].length == |Wrapped(j, cipher).value.1| < 0x1_0000
    requires f.options == Wrapped(j, cipher).value.0 && Concat(f.payload) == Wrapped(j, cipher).value.1
    ensures var d := Decrypt(f, config, cipher);
      && d.state == Decrypted && d.options == f.options && d.payloadContainsOptions == f.payloadContainsOptions
      && d.payload[0].length == |Clear(j)| && d.payload[0].value[..d.payload[0].length] == Clear(j)
  {
    hide LastByte, LastValue, OuterOptions, Clear, Concat;
    WrappedSizes(j, cipher);
    OneNode(f.payload);
    if j.key.None? {
      assert LastByte([], ENCRYPTION_MODE) == 0 by { NoOptions(); }
    } else {
      var (c, tag) := Sealed(j, j.key.value, cipher, Clear(j)).value;
      OuterScans(j.iv.value, j.salt.value, tag);
      assert Clear(j)[..|Clear(j)|] == Clear(j);
    }
  }

  lemma NoOptions()
    ensures LastByte([], ENCRYPTION_MODE) == 0
  {
  }

  /** Reading the inner options gives them back and leaves the HTTP message, if there is one. */
  lemma InnerUndoes(d: Req, j: Job)
    requires |d.options| <= 5 && d.payloadContainsOptions && |d.payload| == 1 && Loaded(d.payload)
    requires d.payload[0].length == |PlainPayload(j)| && d.payload[0].value[..d.payload[0].length] == PlainPayload(j)
    ensures var i := ParseInner(d);
      if j.http == [] then i.state != ParsedOptions
      else i.state == ParsedOptions && i.options == d.options + InnerOptions(j) && Body(i) == j.http
  {
    hide OptionBlock, ScanOptions, InnerOptions;
    InnerSize(j);
    assert |InnerOptions(j)| <= 2 by { InnerCount(j); }
    ScanWritten(InnerOptions(j), false, j.http, |d.options|);
    var block, node := OptionBlock(InnerOptions(j), false), d.payload[0];
    assert node.value[|block|..node.length] == PlainPayload(j)[|block|..] == j.http;
    assert j.http[..|j.http|] == j.http;
  }

  /** An option list that is cut anywhere does not read. */
  lemma CutListFails(os: seq<Opt>, n: nat, held: nat)
    requires AllPlain(os) && held + |os| < MAX_OPTIONS && n < |OptionBlock(os, false)|
    ensures ScanOptions(OptionBlock(os, false)[..n], held).Fail?
  {
    hide OptionBlock, ScanOptions;
    var block := OptionBlock(os, false);
    if ScanOptions(block[..n], held).Ok? {
      ScanPadding(block[..n], block[n..], held);
      assert block[..n] + block[n..] == block && block + [] == block;
      ScanWritten(os, false, [], held);
      ScanSound(block[..n], held);
      assert false;
    }
  }

  /** A plain payload that is too long to be sealed in full is cut inside its option list, and does not read. */
  lemma InnerCut(d: Req, j: Job)
    requires JobOk(j) && !Fits(j) && j.key.Some?
    requires |d.options| <= 5 && d.payloadContainsOptions && |d.payload| == 1 && Loaded(d.payload)
    requires d.payload[0].length == |Clear(j)| && d.payload[0].value[..d.payload[0].length] == Clear(j)
    ensures ParseInner(d).state != ParsedOptions
  {
    hide OptionBlock, ScanOptions, InnerOptions;
    InnerSize(j);
    assert |InnerOptions(j)| <= 2 by { InnerCount(j); }
    var block, n := OptionBlock(InnerOptions(j), false), |Clear(j)|;
    assert n == |PlainPayload(j)| - 0x1_0000 < |block|;
    assert Clear(j) == block[..n];
    CutListFails(InnerOptions(j), n, |d.options|);
  }

  lemma InnerCount(j: Job)
    ensures |InnerOptions(j)| <= 2
  {
  }

  /** The flags the worker acts on are those the client set. */
  lemma FlagsAreTheClients(j: Job, outer: seq<Opt>)
    requires outer == [] || exists iv, salt, tag :: outer == OuterOptions(iv, salt, tag)
    ensures FirstHttps(outer + InnerOptions(j)) == j.https && FirstTimestamp(outer + InnerOptions(j)) == j.now
  {
    hide InnerOptions, FirstHttps, FirstTimestamp;
    OuterBeforeInner(outer, InnerOptions(j));
    InnerFlags(j);
    if outer != [] {
      var iv, salt, tag :| outer == OuterOptions(iv, salt, tag);
    }
  }

  lemma InnerFlags(j: Job)
    ensures FirstHttps(InnerOptions(j)) == j.https && FirstTimestamp(InnerOptions(j)) == j.now
  {
    Widths();
    FromToBigEndian(j.now, 8);
    hide BigEndian, FromBigEndian, Pow256;
    var t := [Opt(TIMESTAMP, BigEndian(j.now, 8))];
    assert t[1..] == [];
    assert FirstTimestamp(t) == j.now && FirstHttps(t) == false;
    if j.https {
      assert InnerOptions(j)[1..] == t;
    } else {
      assert InnerOptions(j) == t;
    }
  }

  /** The clocks of client and proxy agree closely enough. */
  predicate InTime(j: Job, config: Config, now: nat) {
    j.now == 0 || (if now > j.now then now - j.now else j.now - now) <= config.fudge
  }

  /** `out` is the client's message on the client's transport, to the host the message names. */
  ghost predicate IsClients(out: Outgoing, j: Job, cipher: Cipher, beyond: byte)
    requires Wrapped(j, cipher).Some?
  {
    && out.https == j.https && out.body == j.http && out.options == Wrapped(j, cipher).value.0 + InnerOptions(j)
    && Addressed(out, beyond)
  }

  /** What the worker makes of a faithfully received request, up to the timestamp. */
  lemma WorkerReads(r: Req, j: Job, cipher: Cipher, source: Source, config: Config)
    requires JobOk(j) && Sound(cipher) && Wrapped(j, cipher).Some? && config.key == j.key
    requires D.WellFormed(SenderOf(j, cipher, source)) && D.Faithful(r, SenderOf(j, cipher, source))
    ensures WorkReady(r)
    ensures var d := Decrypt(Vectorised(r), config, cipher); var i := ParseInner(d);
      && d.state == Decrypted
      && if Fits(j) && j.http != [] then
           i.state == ParsedOptions && i.options == Wrapped(j, cipher).value.0 + InnerOptions(j) && Body(i) == j.http
         else i.state != ParsedOptions
  {
    hide D.Faithful, Decrypt, ParseInner, Body, PlainPayload, OuterOptions, InnerOptions,
         Sound, Concat, Clear, D.WellFormed, Wrapped;
    WrappedSizes(j, cipher);
    SenderWellFormed(j, cipher, source);
    FaithfulBytes(r, SenderOf(j, cipher, source));
    var f := Vectorised(r);
    DecryptUndoes(f, j, cipher, config);
    var d := Decrypt(f, config, cipher);
    if Fits(j) {
      InnerUndoes(d, j);
    } else {
      assert j.key.Some? by { LongNeedsKey(j, cipher); }
      InnerCut(d, j);
    }
  }

  lemma LongNeedsKey(j: Job, cipher: Cipher)
    requires !Fits(j) && Wrapped(j, cipher).Some? && |Wrapped(j, cipher).value.1| < 0x1_0000
    ensures j.key.Some?
  {
    hide PlainPayload, Sealed;
  }

  lemma OuterOptionsOf(j: Job, cipher: Cipher)
    requires Wrapped(j, cipher).Some?
    ensures var outer := Wrapped(j, cipher).value.0;
      outer == [] || exists iv, salt, tag :: outer == OuterOptions(iv, salt, tag)
  {
    hide Clear, OuterOptions;
    if j.key.Some? {
      var (_, tag) := Sealed(j, j.key.value, cipher, Clear(j)).value;
      assert Wrapped(j, cipher).value.0 == OuterOptions(j.iv.value, j.salt.value, tag);
    }
  }

  lemma EmptyIsNotAddressed(out: Outgoing, beyond: byte)
    requires out.body == []
    ensures !Addressed(out, beyond)
  {
    TooShort(out.body);
  }

  /**
   On a faithfully received request the worker sends the client's HTTP message over the client's
   transport to the host the message names, if it names one, the clocks agree and the payload was
   not too long to be sealed, and nothing otherwise.
   */
  lemma WorkerUndoesClient(
    r: Req, j: Job, cipher: Cipher, source: Source, config: Config, now: nat, beyond: byte, out: Outgoing)
    requires JobOk(j) && Sound(cipher) && Wrapped(j, cipher).Some? && config.key == j.key
    requires D.WellFormed(SenderOf(j, cipher, source)) && D.Faithful(r, SenderOf(j, cipher, source))
    ensures WorkReady(r)
    ensures Work(r, config, cipher, now, beyond) == Some(out) <==>
      Fits(j) && InTime(j, config, now) && IsClients(out, j, cipher, beyond)
  {
    hide D.Faithful, Decrypt, ParseInner, Body, PlainPayload, OuterOptions, InnerOptions,
         D.WellFormed, Wrapped, Vectorised;
    hide FirstHttps, FirstTimestamp, Sound, Concat, HostOf, HostAt, HostRun, Addressed, Fits;
    WorkerReads(r, j, cipher, source, config);
    OuterOptionsOf(j, cipher);
    FlagsAreTheClients(j, Wrapped(j, cipher).value.0);
    AddressedIs(j.http, beyond, out);
    if j.http == [] && out.body == [] {
      EmptyIsNotAddressed(out, beyond);
    }
  }

  lemma AddressedIs(http: seq<byte>, beyond: byte, out: Outgoing)
    ensures out.body == http ==> (Addressed(out, beyond) <==> HostOf(http, beyond) == Some(out.host))
  {
    hide HostOf, HostAt, HostRun;
    HostOfIs(http, beyond, out.host);
  }

  /**
   Client to worker: for every run in which the job's stream arrives and is not swept away, whatever
   else arrives with it, exactly one request is dispatched for it, and its worker sends exactly the
   HTTP message, over the transport the client asked for, if the message names its host, the clocks
   agree and the payload was not too long to be sealed, and nothing otherwise.
   */
  lemma EndToEnd(
    evs: seq<P.Event>, j: Job, cipher: Cipher, source: Source, config: Config, now: nat, beyond: byte, out: Outgoing)
    requires JobOk(j) && Sound(cipher) && Wrapped(j, cipher).Some? && config.key == j.key
    requires D.WellFormed(SenderOf(j, cipher, source)) && D.Arrived(evs, SenderOf(j, cipher, source))
    requires !D.Swept(evs, SenderOf(j, cipher, source))
    ensures var sent := P.SentFor(P.Run(evs).dispatched, j.id);
      && |sent| == 1 && WorkReady(sent[0])
      && (Work(sent[0], config, cipher, now, beyond) == Some(out) <==>
            Fits(j) && InTime(j, config, now) && IsClients(out, j, cipher, beyond))
  {
    hide Wrapped, Sound, D.Faithful, D.WellFormed, D.Arrived, D.Swept, P.Run, P.SentFor, Work, WorkReady, Fits, JobOk;
    hide IsClients, InTime;
    var c := SenderOf(j, cipher, source);
    D.DeliveredIffNotSwept(evs, c);
    WorkerUndoesClient(P.SentFor(P.Run(evs).dispatched, j.id)[0], j, cipher, source, config, now, beyond, out);
  }
}
