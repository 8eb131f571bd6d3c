/**
 The worker of a received request: decrypt, read the options inside the payload, check the
 timestamp, send (src/server.c, src/crypto.c, src/parser.c, src/http.c). The cipher and the key
 derivation are parameters.
 */
module Worker {
  import opened Bytes
  import opened Tlv
  import opened Requests
  import opened Tiling
  import opened Reassembly
  import opened HostScanner

  const AES_256_GCM: byte := 1
  const PBKDF2: byte := 1

  /** `derive(key, salt)`, `seal(dk, iv, plaintext)` and `open(dk, iv, tag, ciphertext)`. */
  datatype Cipher = Cipher(
    derive: (seq<byte>, seq<byte>) -> Option<seq<byte>>,
    seal: (seq<byte>, seq<byte>, seq<byte>) -> Option<(seq<byte>, seq<byte>)>,
    open: (seq<byte>, seq<byte>, seq<byte>, seq<byte>) -> Option<seq<byte>>)

  /** The pre-shared key, if one is configured, and the seconds of leeway for timestamps. */
  datatype Config = Config(key: Option<seq<byte>>, fudge: nat)

  // ---------------------------------------------------------------------------
  // Option scans

  /** The last option of a kind: what a forward scan that overwrites on every hit ends with. */
  function LastValue(os: seq<Opt>, kind: byte): Option<seq<byte>> {
    if os == [] then None
    else if os[|os| - 1].kind == kind then Some(os[|os| - 1].value)
    else LastValue(os[..|os| - 1], kind)
  }

  /** The last one-byte option of a kind, or 0. */
  function LastByte(os: seq<Opt>, kind: byte): byte {
    if os == [] then 0
    else if os[|os| - 1].kind == kind && |os[|os| - 1].value| == 1 then os[|os| - 1].value[0]
    else LastByte(os[..|os| - 1], kind)
  }

  /** The first option of a kind: what a backward scan that overwrites on every hit ends with. */
  function FirstTimestamp(os: seq<Opt>): nat {
    if os == [] then 0
    else if os[0].kind == TIMESTAMP && |os[0].value| == 8 then FromBigEndian(os[0].value)
    else FirstTimestamp(os[1..])
  }

  function FirstHttps(os: seq<Opt>): bool {
    if os == [] then false
    else if os[0].kind == HTTPS then os[0].value == [1]
    else FirstHttps(os[1..])
  }

  /** The timestamp scan of ff_proxy_validate_request_timestamp. */
  method ScanTimestamp(os: seq<Opt>) returns (timestamp: nat)
    ensures timestamp == FirstTimestamp(os)
  {
    timestamp := 0;
    var i := |os|;
    while i > 0
      invariant 0 <= i <= |os| && timestamp == FirstTimestamp(os[i..])
    {
      i := i - 1;
      assert os[i..][1..] == os[i + 1..];
      if os[i].kind == TIMESTAMP && |os[i].value| == 8 {
        timestamp := FromBigEndian(os[i].value);
      }
    }
    assert os[0..] == os;
  }

  /** The HTTPS scan of ff_http_send_request. */
  method ScanHttps(os: seq<Opt>) returns (https: bool)
    ensures https == FirstHttps(os)
  {
    https := false;
    var i := |os|;
    while i > 0
      invariant 0 <= i <= |os| && https == FirstHttps(os[i..])
    {
      i := i - 1;
      assert os[i..][1..] == os[i + 1..];
      if os[i].kind == HTTPS {
        https := |os[i].value| == 1 && os[i].value[0] == 1;
        assert https <==> os[i].value == [1];
      }
    }
    assert os[0..] == os;
  }

  predicate IsTimestamp(o: Opt) {
    o.kind == TIMESTAMP && |o.value| == 8
  }

  /** The lowest index wins in the backward scans, and no option means 0 or false. */
  lemma {:induction false} LowestIndexWins(os: seq<Opt>, i: nat, j: nat)
    requires i <= |os| && (forall k :: 0 <= k < i ==> !IsTimestamp(os[k])) && (i < |os| ==> IsTimestamp(os[i]))
    requires j <= |os| && (forall k :: 0 <= k < j ==> os[k].kind != HTTPS) && (j < |os| ==> os[j].kind == HTTPS)
    ensures FirstTimestamp(os) == if i < |os| then FromBigEndian(os[i].value) else 0
    ensures FirstHttps(os) <==> j < |os| && os[j].value == [1]
    decreases |os|
  {
    hide FromBigEndian;
    if i > 0 && j > 0 {
      LowestIndexWins(os[1..], i - 1, j - 1);
    } else if i > 0 {
      TimestampAt(os, i);
    } else if j > 0 {
      HttpsAt(os, j);
    }
  }

  lemma {:induction false} TimestampAt(os: seq<Opt>, i: nat)
    requires i <= |os| && (forall k :: 0 <= k < i ==> !IsTimestamp(os[k])) && (i < |os| ==> IsTimestamp(os[i]))
    ensures FirstTimestamp(os) == if i < |os| then FromBigEndian(os[i].value) else 0
  {
    hide FromBigEndian;
    if i > 0 {
      TimestampAt(os[1..], i - 1);
    }
  }

  lemma {:induction false} HttpsAt(os: seq<Opt>, j: nat)
    requires j <= |os| && (forall k :: 0 <= k < j ==> os[k].kind != HTTPS) && (j < |os| ==> os[j].kind == HTTPS)
    ensures FirstHttps(os) <==> j < |os| && os[j].value == [1]
  {
    if j > 0 {
      HttpsAt(os[1..], j - 1);
    }
  }

  /** Option `i` is the last of its kind. */
  predicate Decides(os: seq<Opt>, kind: byte, i: nat) {
    i < |os| && os[i].kind == kind && forall j :: i < j < |os| ==> os[j].kind != kind
  }

  predicate IsByte(o: Opt, kind: byte) {
    o.kind == kind && |o.value| == 1
  }

  /** Option `i` is the last of its kind with a value of one byte; others of the kind do not count. */
  predicate DecidesByte(os: seq<Opt>, kind: byte, i: nat) {
    i < |os| && IsByte(os[i], kind) && forall j :: i < j < |os| ==> !IsByte(os[j], kind)
  }

  ghost predicate Provides(os: seq<Opt>, kind: byte, v: seq<byte>) {
    exists i: nat :: Decides(os, kind, i) && os[i].value == v
  }

  ghost predicate ProvidesByte(os: seq<Opt>, kind: byte, b: byte) {
    || (exists i: nat :: DecidesByte(os, kind, i) && os[i].value == [b])
    || (b == 0 && forall i :: 0 <= i < |os| ==> !IsByte(os[i], kind))
  }

  /** The forward scans by index: the last option that counts decides, and without one there is no value, or 0. */
  lemma {:induction false} HighestIndexWins(os: seq<Opt>, kind: byte, v: seq<byte>, b: byte)
    ensures LastValue(os, kind) == Some(v) <==> Provides(os, kind, v)
    ensures LastValue(os, kind) == None <==> forall i :: 0 <= i < |os| ==> os[i].kind != kind
    ensures LastByte(os, kind) == b <==> ProvidesByte(os, kind, b)
  {
    if os != [] {
      var n := |os| - 1;
      var init := os[..n];
      HighestIndexWins(init, kind, v, b);
      ValueSnoc(init, os[n], kind, v, b);
      assert os == init + [os[n]];
      if forall i :: 0 <= i < |os| ==> os[i].kind != kind {
        assert forall i :: 0 <= i < |init| ==> init[i] == os[i];
      } else if os[n].kind != kind {
        var i :| 0 <= i < |os| && os[i].kind == kind;
        assert init[i].kind == kind;
      }
    }
  }

  lemma ValueSnoc(os: seq<Opt>, o: Opt, kind: byte, v: seq<byte>, b: byte)
    ensures Provides(os + [o], kind, v) <==> if o.kind == kind then o.value == v else Provides(os, kind, v)
    ensures ProvidesByte(os + [o], kind, b) <==> if IsByte(o, kind) then o.value == [b] else ProvidesByte(os, kind, b)
  {
    var n, os' := |os|, os + [o];
    assert os'[n] == o;
    assert forall i :: 0 <= i < n ==> os'[i] == os[i];
    if o.kind == kind {
      assert Decides(os', kind, n);
    } else {
      assert forall i: nat :: Decides(os', kind, i) <==> Decides(os, kind, i);
    }
    if IsByte(o, kind) {
      assert DecidesByte(os', kind, n);
    } else {
      assert forall i: nat :: DecidesByte(os', kind, i) <==> DecidesByte(os, kind, i);
    }
  }

  /** Of two lists, one behind the other, the first decides if it has such an option at all. */
  lemma {:induction false} OuterBeforeInner(outer: seq<Opt>, inner: seq<Opt>)
    ensures FirstHttps(outer + inner) ==
      if exists i :: 0 <= i < |outer| && outer[i].kind == HTTPS then FirstHttps(outer) else FirstHttps(inner)
    ensures FirstTimestamp(outer + inner) ==
      if exists i :: 0 <= i < |outer| && outer[i].kind == TIMESTAMP && |outer[i].value| == 8
      then FirstTimestamp(outer) else FirstTimestamp(inner)
  {
    hide FromBigEndian;
    if outer == [] {
      assert outer + inner == inner;
    } else {
      assert (outer + inner)[0] == outer[0] && (outer + inner)[1..] == outer[1..] + inner;
      OuterBeforeInner(outer[1..], inner);
      assert forall i :: 1 <= i < |outer| ==> outer[1..][i - 1] == outer[i];
      assert forall i :: 0 <= i < |outer[1..]| ==> outer[1..][i] == outer[i + 1];
    }
  }

  // ---------------------------------------------------------------------------
  // Decryption

  /** ff_derive_key. */
  function DeriveKey(os: seq<Opt>, key: seq<byte>, cipher: Cipher): Option<seq<byte>> {
    var salt := LastValue(os, KEY_DERIVE_SALT);
    if LastByte(os, KEY_DERIVE_MODE) != PBKDF2 || salt.None? || salt.value == [] then None
    else cipher.derive(key, salt.value)
  }

  /** The plaintext of a request with an encryption mode set, if everything it needs is there and the cipher accepts. */
  function Plaintext(r: Req, key: seq<byte>, cipher: Cipher): Option<seq<byte>>
    requires Loaded(r.payload)
  {
    var iv, tag := LastValue(r.options, ENCRYPTION_IV), LastValue(r.options, ENCRYPTION_TAG);
    if iv.None? || iv.value == [] || tag.None? || tag.value == [] then None
    else if LastByte(r.options, ENCRYPTION_MODE) != AES_256_GCM then None
    else
      match DeriveKey(r.options, key, cipher)
      case None => None
      case Some(dk) => cipher.open(dk, iv.value, tag.value, Concat(r.payload))
  }

  /** ff_decrypt_request. */
  function Decrypt(r: Req, config: Config, cipher: Cipher): (d: Req)
    requires Loaded(r.payload)
    ensures |r.payload| == 1 ==> |d.payload| == 1 && Loaded(d.payload)
  {
    if LastByte(r.options, ENCRYPTION_MODE) == 0 then
      r.(state := if config.key.Some? then DecryptingFailed else Decrypted)
    else if config.key.None? then r.(state := DecryptingFailed)
    else
      match Plaintext(r, config.key.value, cipher)
      case None => r.(state := DecryptingFailed)
      case Some(p) => r.(state := Decrypted, payload := [Chunk(0, |p| % 0x1_0000, p)], payloadLength := |p|)
  }

  lemma LastStep(os: seq<Opt>, i: nat, kind: byte)
    requires i < |os|
    ensures LastValue(os[..i + 1], kind) == if os[i].kind == kind then Some(os[i].value) else LastValue(os[..i], kind)
    ensures LastByte(os[..i + 1], kind) ==
      if os[i].kind == kind && |os[i].value| == 1 then os[i].value[0] else LastByte(os[..i], kind)
  {
    assert os[..i + 1][..i] == os[..i];
  }

  /** The scan at the head of ff_decrypt_request. */
  method ScanEncryption(os: seq<Opt>) returns (mode: byte, iv: Option<seq<byte>>, tag: Option<seq<byte>>)
    ensures mode == LastByte(os, ENCRYPTION_MODE)
    ensures iv == LastValue(os, ENCRYPTION_IV) && tag == LastValue(os, ENCRYPTION_TAG)
  {
    mode, iv, tag := 0, None, None;
    for i := 0 to |os|
      invariant mode == LastByte(os[..i], ENCRYPTION_MODE)
      invariant iv == LastValue(os[..i], ENCRYPTION_IV) && tag == LastValue(os[..i], ENCRYPTION_TAG)
    {
      LastStep(os, i, ENCRYPTION_MODE);
      LastStep(os, i, ENCRYPTION_IV);
      LastStep(os, i, ENCRYPTION_TAG);
      if os[i].kind == ENCRYPTION_MODE {
        if |os[i].value| == 1 {
          mode := os[i].value[0];
        }
      } else if os[i].kind == ENCRYPTION_IV {
        iv := Some(os[i].value);
      } else if os[i].kind == ENCRYPTION_TAG {
        tag := Some(os[i].value);
      }
    }
    assert os[..|os|] == os;
  }

  /** The scan and the decisions of ff_derive_key. */
  method DeriveKeyFor(os: seq<Opt>, key: seq<byte>, cipher: Cipher) returns (dk: Option<seq<byte>>)
    ensures dk == DeriveKey(os, key, cipher)
  {
    var mode: byte, salt: Option<seq<byte>> := 0, None;
    for i := 0 to |os|
      invariant mode == LastByte(os[..i], KEY_DERIVE_MODE) && salt == LastValue(os[..i], KEY_DERIVE_SALT)
    {
      LastStep(os, i, KEY_DERIVE_MODE);
      LastStep(os, i, KEY_DERIVE_SALT);
      if os[i].kind == KEY_DERIVE_MODE {
        if |os[i].value| == 1 {
          mode := os[i].value[0];
        }
      } else if os[i].kind == KEY_DERIVE_SALT {
        salt := Some(os[i].value);
      }
    }
    assert os[..|os|] == os;
    if mode == 0 || salt.None? || |salt.value| == 0 || mode != PBKDF2 {
      return None;
    }
    return cipher.derive(key, salt.value);
  }

  /** ff_decrypt_request with ff_decrypt_request_aes_256_gcm, on a request whose payload is in one node. */
  method DecryptRequest(request: Request, config: Config, cipher: Cipher)
    requires |request.payload| == 1 && Loaded(request.payload)
    modifies request`state, request`payload, request`payloadLength
    ensures request.Value() == Decrypt(old(request.Value()), config, cipher)
  {
    hide LastByte, LastValue, DeriveKey;
    request.state := Decrypting;
    OneNode(request.payload);
    var mode, iv, tag := ScanEncryption(request.options);
    if mode == 0 {
      request.state := if config.key.Some? then DecryptingFailed else Decrypted;
      return;
    }
    if config.key.None? || iv.None? || |iv.value| == 0 || tag.None? || |tag.value| == 0 || mode != AES_256_GCM {
      request.state := DecryptingFailed;
      return;
    }
    var dk := DeriveKeyFor(request.options, config.key.value, cipher);
    if dk.None? {
      request.state := DecryptingFailed;
      return;
    }
    var node := request.payload[0];
    var plaintext := cipher.open(dk.value, iv.value, tag.value, node.value[..node.length]);
    match plaintext {
      case None =>
        request.state := DecryptingFailed;
      case Some(p) =>
        request.payloadLength := |p|;
        request.payload := [Chunk(0, |p| % 0x1_0000, p)];
        request.state := Decrypted;
    }
  }

  lemma OneNode(cs: seq<Chunk>)
    requires |cs| == 1 && Loaded(cs)
    ensures Concat(cs) == cs[0].value[..cs[0].length]
  {
    assert cs[..0] == [];
    assert Concat([]) == [];
  }

  // ---------------------------------------------------------------------------
  // Options inside the payload

  /** ff_request_parse_options_from_payload, on a request whose payload is in one node. */
  function ParseInner(r: Req): (i: Req)
    requires |r.payload| == 1 && Loaded(r.payload)
    ensures |i.payload| == 1
  {
    if !r.payloadContainsOptions then r.(state := ParsedOptions)
    else
      var node := r.payload[0];
      match ScanOptions(node.value[..node.length], |r.options|)
      case Fail => r.(state := ParsingOptionsFailed)
      case Ok(n, os, brk) =>
        var r1 := r.(options := r.options + os, payloadContainsOptions := brk);
        if node.length <= n || brk then r1.(state := ParsingOptionsFailed)
        else
          r1.(state := ParsedOptions, payload := [Chunk(0, node.length - n, node.value[n..node.length])],
              payloadLength := node.length - n)
  }

  /**
   When the inner options are accepted: the payload announces none, or it is a list that ends the
   options for good, fewer than twenty options in all, and at least one byte behind it.
   */
  lemma InnerAcceptedIff(r: Req)
    requires |r.payload| == 1 && Loaded(r.payload)
    ensures ParseInner(r).state == ParsedOptions <==>
      !r.payloadContainsOptions || exists os, rest :: InnerSplit(r, os, rest)
    ensures forall os, rest :: r.payloadContainsOptions && InnerSplit(r, os, rest) ==>
      ParseInner(r).options == r.options + os && ParseInner(r).payload == [Chunk(0, |rest|, rest)]
  {
    hide ScanOptions, OptionBlock;
    var b, held := r.payload[0].value[..r.payload[0].length], |r.options|;
    if r.payloadContainsOptions {
      forall os, rest | InnerSplit(r, os, rest)
        ensures ParseInner(r).state == ParsedOptions && ParseInner(r).options == r.options + os
        ensures ParseInner(r).payload == [Chunk(0, |rest|, rest)]
      {
        ScanWritten(os, false, rest, held);
        assert r.payload[0].value[|OptionBlock(os, false)|..r.payload[0].length] == b[|OptionBlock(os, false)|..] == rest;
      }
      if ParseInner(r).state == ParsedOptions {
        ScanSound(b, held);
        var s := ScanOptions(b, held);
        assert b == b[..s.consumed] + b[s.consumed..];
        assert InnerSplit(r, s.options, b[s.consumed..]);
      }
    }
  }

  ghost predicate InnerSplit(r: Req, os: seq<Opt>, rest: seq<byte>)
    requires |r.payload| == 1 && Loaded(r.payload)
  {
    && r.payload[0].value[..r.payload[0].length] == OptionBlock(os, false) + rest
    && rest != [] && AllPlain(os) && |r.options| + |os| < 20
  }

  method ParseInnerOptions(request: Request)
    requires |request.payload| == 1 && Loaded(request.payload)
    modifies request`state, request`options, request`payloadContainsOptions, request`payload, request`payloadLength
    ensures request.Value() == ParseInner(old(request.Value()))
  {
    hide ScanOptions;
    request.state := ParsingOptions;
    if !request.payloadContainsOptions {
      request.state := ParsedOptions;
      return;
    }
    var node := request.payload[0];
    var n := request.ParseOptions(node.value[..node.length]);
    if n == 0 || node.length <= n || request.payloadContainsOptions {
      request.state := ParsingOptionsFailed;
      return;
    }
    request.payload := [Chunk(0, node.length - n, node.value[n..node.length])];
    request.payloadLength := node.length - n;
    request.state := ParsedOptions;
  }

  // ---------------------------------------------------------------------------
  // Timestamp and sending

  predicate TimestampOk(os: seq<Opt>, config: Config, now: nat) {
    var t := FirstTimestamp(os);
    t == 0 || (if now > t then now - t else t - now) <= config.fudge
  }

  /** ff_proxy_validate_request_timestamp. */
  method ValidateTimestamp(os: seq<Opt>, config: Config, now: nat) returns (ok: bool)
    ensures ok == TimestampOk(os, config, now)
  {
    var timestamp := ScanTimestamp(os);
    if timestamp == 0 {
      return true;
    }
    var diff := if now > timestamp then now - timestamp else timestamp - now;
    return diff <= config.fudge;
  }

  /** What is sent: the transport, the host it goes to, the message, and the options in force. */
  datatype Outgoing = Outgoing(https: bool, host: seq<byte>, body: seq<byte>, options: seq<Opt>)

  /** What a worker needs of its request: a payload, all of it loaded, and no gaps if it is in several nodes. */
  predicate WorkReady(r: Req) {
    && r.payload != [] && (forall i :: 0 <= i < |r.payload| ==> r.payload[i].length <= |r.payload[i].value|)
    && (|r.payload| == 1 || SumLengths(r.payload) == r.payloadLength)
  }

  function Vectorised(r: Req): (f: Req)
    requires WorkReady(r)
    ensures |f.payload| == 1 && Loaded(f.payload)
  {
    assert Loaded(r.payload);
    Flatten(r)
  }

  /** What ff_proxy_process_request tries to send, if it gets that far; `beyond` is the byte behind the message. */
  ghost function Work(r: Req, config: Config, cipher: Cipher, now: nat, beyond: byte): Option<Outgoing>
    requires WorkReady(r)
  {
    var d := Decrypt(Vectorised(r), config, cipher);
    if d.state != Decrypted then None
    else
      var i := ParseInner(d);
      if i.state != ParsedOptions || !TimestampOk(i.options, config, now) then None
      else
        match HostOf(Body(i), beyond)
        case None => None
        case Some(host) => Some(Outgoing(FirstHttps(i.options), host, Body(i), i.options))
  }

  /** ff_http_send_request up to the connection. */
  method SendRequest(request: Request, beyond: byte) returns (out: Option<Outgoing>)
    requires |request.payload| == 1
    modifies request`state
    ensures request.state == SentOrSendingFailed
    ensures var r := old(request.Value());
      match HostOf(Body(r), beyond)
      case None => out == None
      case Some(host) => out == Some(Outgoing(FirstHttps(r.options), host, Body(r), r.options))
  {
    hide HostOf, FirstHttps, Body;
    var https := ScanHttps(request.options);
    var host := GetDestinationHost(Body(request.Value()), beyond);
    out := match host case None => None case Some(h) => Some(Outgoing(https, h, Body(request.Value()), request.options));
    request.state := SentOrSendingFailed;
  }

  /** ff_proxy_process_request on the request object. */
  method Perform(request: Request, config: Config, cipher: Cipher, now: nat, beyond: byte) returns (out: Option<Outgoing>)
    requires WorkReady(request.Value()) && (|request.payload| == 1 || Tiled(request.payload, request.payloadLength))
    modifies request
    ensures out == Work(old(request.Value()), config, cipher, now, beyond)
    ensures out.Some? ==> request.state == SentOrSendingFailed
    ensures request.requestId == old(request.requestId)
  {
    hide Decrypt, ParseInner, TimestampOk, FirstHttps, SumLengths, Concat, Overlaps, HostOf, Body;
    if |request.payload| > 1 {
      TiledPasses(request.payload, request.payloadLength);
    }
    assert Loaded(request.payload);
    Vectorise(request);
    DecryptRequest(request, config, cipher);
    if request.state != Decrypted {
      return None;
    }
    ParseInnerOptions(request);
    if request.state != ParsedOptions {
      return None;
    }
    var ok := ValidateTimestamp(request.options, config, now);
    if !ok {
      return None;
    }
    out := SendRequest(request, beyond);
  }

  // ---------------------------------------------------------------------------
  // The gate

  /** `p` is the plaintext of `r`: the deciding options name modes, vector, tag and salt, and the cipher accepts. */
  ghost predicate OpensTo(r: Req, key: seq<byte>, cipher: Cipher, p: seq<byte>)
    requires Loaded(r.payload)
  {
    && ProvidesByte(r.options, ENCRYPTION_MODE, AES_256_GCM) && ProvidesByte(r.options, KEY_DERIVE_MODE, PBKDF2)
    && exists iv, tag, salt ::
         && Provides(r.options, ENCRYPTION_IV, iv) && Provides(r.options, ENCRYPTION_TAG, tag)
         && Provides(r.options, KEY_DERIVE_SALT, salt) && iv != [] && tag != [] && salt != []
         && var dk := cipher.derive(key, salt); dk.Some? && cipher.open(dk.value, iv, tag, Concat(r.payload)) == Some(p)
  }

  lemma PlaintextIff(r: Req, key: seq<byte>, cipher: Cipher, p: seq<byte>)
    requires Loaded(r.payload)
    ensures Plaintext(r, key, cipher) == Some(p) <==> OpensTo(r, key, cipher, p)
  {
    hide LastByte, LastValue, Concat, Provides, ProvidesByte;
    var os := r.options;
    forall v
      ensures LastValue(os, ENCRYPTION_IV) == Some(v) <==> Provides(os, ENCRYPTION_IV, v)
      ensures LastValue(os, ENCRYPTION_TAG) == Some(v) <==> Provides(os, ENCRYPTION_TAG, v)
      ensures LastValue(os, KEY_DERIVE_SALT) == Some(v) <==> Provides(os, KEY_DERIVE_SALT, v)
    {
      HighestIndexWins(os, ENCRYPTION_IV, v, 0);
      HighestIndexWins(os, ENCRYPTION_TAG, v, 0);
      HighestIndexWins(os, KEY_DERIVE_SALT, v, 0);
    }
    HighestIndexWins(os, ENCRYPTION_MODE, [], AES_256_GCM);
    HighestIndexWins(os, KEY_DERIVE_MODE, [], PBKDF2);
  }

  /** `d` is `f` in the clear: as it came without a key and a mode, else with the plaintext as its payload. */
  ghost predicate Opened(f: Req, config: Config, cipher: Cipher, d: Req)
    requires Loaded(f.payload)
  {
    if config.key.None? then ProvidesByte(f.options, ENCRYPTION_MODE, 0) && d == f
    else
      exists p :: OpensTo(f, config.key.value, cipher, p)
                  && d == f.(payload := [Chunk(0, |p| % 0x1_0000, p)], payloadLength := |p|)
  }

  /** `out` is the content of `d`, without the options at its front if it announces any. */
  ghost predicate Unwraps(d: Req, out: Outgoing)
    requires |d.payload| == 1 && Loaded(d.payload)
  {
    if d.payloadContainsOptions then exists os :: InnerSplit(d, os, out.body) && out.options == d.options + os
    else out.options == d.options && out.body == Body(d)
  }

  /** The message names the host it goes to. */
  ghost predicate Addressed(out: Outgoing, beyond: byte) {
    exists k: nat, v: nat :: HostAt(out.body, beyond, k, v) && out.host == HostRun(out.body, beyond, v, MAX_HOST)
  }

  /** `out` may be sent for `r`: in the clear, well formed, addressed, and near the time it states if it states one. */
  ghost predicate Permitted(r: Req, config: Config, cipher: Cipher, now: nat, beyond: byte, out: Outgoing)
    requires WorkReady(r)
  {
    var t := FirstTimestamp(out.options);
    && (exists d :: Opened(Vectorised(r), config, cipher, d) && |d.payload| == 1 && Loaded(d.payload) && Unwraps(d, out))
    && (t == 0 || now - config.fudge <= t <= now + config.fudge)
    && out.https == FirstHttps(out.options)
    && Addressed(out, beyond)
  }

  /** When decryption succeeds and with what; a failure changes the state only. */
  lemma DecryptOpens(f: Req, config: Config, cipher: Cipher, d: Req)
    requires Loaded(f.payload)
    ensures Decrypt(f, config, cipher).state != Decrypted ==>
      Decrypt(f, config, cipher) == f.(state := DecryptingFailed)
    ensures Opened(f, config, cipher, d) <==>
      Decrypt(f, config, cipher).state == Decrypted && d == Decrypt(f, config, cipher).(state := f.state)
  {
    hide LastByte, LastValue, DeriveKey, Concat, ProvidesByte, OpensTo, Plaintext;
    HighestIndexWins(f.options, ENCRYPTION_MODE, [], 0);
    if config.key.Some? {
      var key := config.key.value;
      forall p ensures Plaintext(f, key, cipher) == Some(p) <==> OpensTo(f, key, cipher, p) {
        PlaintextIff(f, key, cipher, p);
      }
      assert Plaintext(f, key, cipher).Some? ==> LastByte(f.options, ENCRYPTION_MODE) == AES_256_GCM by {
        PlaintextMode(f, key, cipher);
      }
    }
  }

  lemma PlaintextMode(f: Req, key: seq<byte>, cipher: Cipher)
    requires Loaded(f.payload)
    ensures Plaintext(f, key, cipher).Some? ==> LastByte(f.options, ENCRYPTION_MODE) == AES_256_GCM
  {
    hide LastByte, LastValue, DeriveKey, Concat;
  }

  lemma InnerUnwraps(d: Req, out: Outgoing)
    requires |d.payload| == 1 && Loaded(d.payload)
    ensures Unwraps(d, out) <==>
      var i := ParseInner(d); i.state == ParsedOptions && i.options == out.options && Body(i) == out.body
  {
    hide ScanOptions, OptionBlock, InnerSplit;
    InnerAcceptedIff(d);
    if d.payloadContainsOptions && ParseInner(d).state == ParsedOptions {
      var os, rest :| InnerSplit(d, os, rest);
      assert rest[..|rest|] == rest;
      assert ParseInner(d).payloadLength == |rest|;
    }
  }

  lemma ParseInnerIgnoresState(d: Req, state: State)
    requires |d.payload| == 1 && Loaded(d.payload)
    ensures ParseInner(d.(state := state)) == ParseInner(d)
  {
    hide ScanOptions;
  }

  /** The gate, both ways: the worker sends `out` exactly when `out` may be sent. */
  lemma SendGate(r: Req, config: Config, cipher: Cipher, now: nat, beyond: byte, out: Outgoing)
    requires WorkReady(r)
    ensures Work(r, config, cipher, now, beyond) == Some(out) <==> Permitted(r, config, cipher, now, beyond, out)
  {
    hide LastByte, LastValue, Plaintext, FirstTimestamp, FirstHttps, Decrypt, ParseInner;
    hide Opened, Unwraps, Vectorised, Body, HostOf, HostAt, HostRun;
    var f := Vectorised(r);
    var d := Decrypt(f, config, cipher);
    var d0 := d.(state := f.state);
    forall x
      ensures Opened(f, config, cipher, x) <==> d.state == Decrypted && x == d0
    {
      DecryptOpens(f, config, cipher, x);
    }
    ParseInnerIgnoresState(d, f.state);
    InnerUnwraps(d0, out);
    HostOfIs(out.body, beyond, out.host);
  }

  /**
   An HTTPS option outside the encrypted payload decides over one inside it, although the scan is
   meant to prefer the latter: whatever is sent for such a request goes where the outer option says.
   */
  lemma OuterDecidesTransport(r: Req, config: Config, cipher: Cipher, now: nat, beyond: byte, out: Outgoing)
    requires WorkReady(r) && Work(r, config, cipher, now, beyond) == Some(out)
    requires exists i :: 0 <= i < |r.options| && r.options[i].kind == HTTPS
    ensures out.https == FirstHttps(r.options)
  {
    hide LastByte, LastValue, Plaintext, FirstTimestamp, FirstHttps, ScanOptions, HostOf,
         Body, TimestampOk, Concat, SumLengths;
    var d := Decrypt(Vectorised(r), config, cipher);
    assert d.options == r.options;
    var inner := if d.payloadContainsOptions
                 then ScanOptions(d.payload[0].value[..d.payload[0].length], |d.options|).options else [];
    assert r.options + [] == r.options;
    assert out.options == r.options + inner;
    OuterBeforeInner(r.options, inner);
  }

  /** A request whose inner options ask for TLS and whose outer ones take it back. */
  function Downgraded(http: seq<byte>): Req {
    var b := OptionBlock([Opt(HTTPS, [1])], false) + http;
    FRESH.(state := Received, version := VERSION_1, options := [Opt(HTTPS, [0])], payloadContainsOptions := true,
           payloadLength := |b|, receivedLength := |b|, payload := [Chunk(0, |b|, b)])
  }

  /** It is sent, and without TLS, exactly if its message names a host. */
  lemma ClearOptionWins(http: seq<byte>, fudge: nat, cipher: Cipher, now: nat, beyond: byte, out: Outgoing)
    requires http != []
    ensures WorkReady(Downgraded(http))
    ensures Work(Downgraded(http), Config(None, fudge), cipher, now, beyond) == Some(out) <==>
      && !out.https && out.body == http && out.options == [Opt(HTTPS, [0]), Opt(HTTPS, [1])]
      && Addressed(out, beyond)
  {
    hide OptionBlock, ScanOptions, HostOf, HostAt, HostRun, Body;
    var r, outer, inner := Downgraded(http), [Opt(HTTPS, [0])], [Opt(HTTPS, [1])];
    DowngradedReads(http);
    assert outer + inner == [Opt(HTTPS, [0]), Opt(HTTPS, [1])];
    OuterBeforeInner(outer, inner);
    assert outer[0].kind == HTTPS && outer[1..] == [] && inner[1..] == [];
    assert FirstHttps(outer) == false && FirstTimestamp(outer) == FirstTimestamp(inner) == 0;
    assert LastByte(outer, ENCRYPTION_MODE) == 0 by { assert outer[..0] == []; }
    HostOfIs(http, beyond, out.host);
  }

  lemma DowngradedReads(http: seq<byte>)
    requires http != []
    ensures var r := Downgraded(http);
      forall state :: ParseInner(r.(state := state)).state == ParsedOptions
                      && ParseInner(r.(state := state)).options == [Opt(HTTPS, [0])] + [Opt(HTTPS, [1])]
                      && Body(ParseInner(r.(state := state))) == http
  {
    hide OptionBlock, ScanOptions;
    var os, block := [Opt(HTTPS, [1])], OptionBlock([Opt(HTTPS, [1])], false);
    var b := block + http;
    assert b[..|b|] == b && b[|block|..|b|] == http && http[..|http|] == http;
    ScanWritten(os, false, http, 1);
  }

  /** With a key configured a raw HTTP packet is never sent. */
  lemma RawNeedsNoKey(b: seq<byte>, config: Config, cipher: Cipher, now: nat, beyond: byte)
    requires config.key.Some?
    ensures WorkReady(RawRequest(FRESH, b)) && Work(RawRequest(FRESH, b), config, cipher, now, beyond) == None
  {
    hide HostOf;
  }

  /** Without one it is sent as it came, whatever the time, exactly if it names its host. */
  lemma RawSentIffAddressed(b: seq<byte>, config: Config, cipher: Cipher, now: nat, beyond: byte, out: Outgoing)
    requires config.key.None?
    ensures WorkReady(RawRequest(FRESH, b))
    ensures Work(RawRequest(FRESH, b), config, cipher, now, beyond) == Some(out) <==>
      !out.https && out.body == b && out.options == [] && Addressed(out, beyond)
  {
    hide HostOf, HostAt, HostRun;
    assert b[..|b|] == b;
    HostOfIs(b, beyond, out.host);
  }
}
