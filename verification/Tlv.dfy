/** The type-length-value option list: its writer (client/c/client.c) and the scan that reads it back (src/parser.c). */
module Tlv {
  import opened Bytes

  const MAX_OPTIONS: nat := 20
  const OPTION_HEADER: nat := 3

  const EOL: byte := 0
  const ENCRYPTION_MODE: byte := 1
  const ENCRYPTION_IV: byte := 2
  const ENCRYPTION_TAG: byte := 3
  const HTTPS: byte := 4
  const KEY_DERIVE_MODE: byte := 5
  const KEY_DERIVE_SALT: byte := 6
  const BREAK: byte := 7
  const TIMESTAMP: byte := 8

  datatype Opt = Opt(kind: byte, value: seq<byte>)

  /** An option that can stand in a list before its terminator. */
  predicate Plain(o: Opt) {
    o.kind != EOL && o.kind != BREAK && |o.value| < 0x1_0000
  }

  predicate AllPlain(os: seq<Opt>) {
    forall i :: 0 <= i < |os| ==> Plain(os[i])
  }

  function Terminator(isBreak: bool): Opt {
    Opt(if isBreak then BREAK else EOL, [])
  }

  function EncodeOption(o: Opt): (s: seq<byte>)
    ensures |s| == OPTION_HEADER + |o.value|
  {
    [o.kind] + BigEndian(|o.value|, 2) + o.value
  }

  function Serialise(os: seq<Opt>): seq<byte> {
    if os == [] then [] else EncodeOption(os[0]) + Serialise(os[1..])
  }

  /** A whole option list as it stands on the wire. */
  function OptionBlock(os: seq<Opt>, isBreak: bool): seq<byte> {
    Serialise(os) + EncodeOption(Terminator(isBreak))
  }

  lemma {:induction false} SerialiseConcat(a: seq<Opt>, b: seq<Opt>)
    ensures Serialise(a + b) == Serialise(a) + Serialise(b)
  {
    hide EncodeOption;
    if a == [] {
      assert a + b == b;
    } else {
      SerialiseConcat(a[1..], b);
      assert (a + b)[0] == a[0] && (a + b)[1..] == a[1..] + b;
      Associate(EncodeOption(a[0]), Serialise(a[1..]), Serialise(b));
    }
  }

  lemma BlockIsSerialised(os: seq<Opt>, isBreak: bool)
    ensures OptionBlock(os, isBreak) == Serialise(os + [Terminator(isBreak)])
  {
    SerialiseConcat(os, [Terminator(isBreak)]);
    assert [Terminator(isBreak)][1..] == [];
    assert Serialise([Terminator(isBreak)]) == EncodeOption(Terminator(isBreak));
  }

  // ---------------------------------------------------------------------------
  // Reading

  datatype Scan = Fail | Ok(consumed: nat, options: seq<Opt>, isBreak: bool)

  function LengthField(b: seq<byte>): (n: nat)
    requires |b| >= OPTION_HEADER
    ensures n < 0x1_0000
  {
    256 * (b[1] as int) + b[2]
  }

  /** The loop of ff_request_parse_options on the bytes `b` when `held` options have been collected. */
  function ScanOptions(b: seq<byte>, held: nat): (r: Scan)
    decreases |b|
  {
    if held >= MAX_OPTIONS || |b| < OPTION_HEADER then Fail
    else
      var n := LengthField(b);
      if b[0] == BREAK || b[0] == EOL then
        if n != 0 then Fail else Ok(OPTION_HEADER, [], b[0] == BREAK)
      else if |b| < OPTION_HEADER + n then Fail
      else
        match ScanOptions(b[OPTION_HEADER + n..], held + 1)
        case Fail => Fail
        case Ok(m, os, brk) => Ok(OPTION_HEADER + n + m, [Opt(b[0], b[OPTION_HEADER..OPTION_HEADER + n])] + os, brk)
  }

  lemma TwoBytes(n: nat)
    requires n < 0x1_0000
    ensures BigEndian(n, 2) == [n / 256, n % 256]
  {
    assert BigEndian(n / 256, 1) == BigEndian(n / 65536, 0) + [(n / 256) % 256];
  }

  /** An option on the wire: its kind, the two bytes of its length, the high one first, and its value. */
  lemma OptionLayout(o: Opt)
    requires |o.value| < 0x1_0000
    ensures EncodeOption(o) == [o.kind, |o.value| / 256, |o.value| % 256] + o.value
  {
    hide BigEndian;
    TwoBytes(|o.value|);
  }

  /** A header followed by as many bytes as it announces is one encoded option. */
  lemma FirstOption(b: seq<byte>)
    requires |b| >= OPTION_HEADER && |b| >= OPTION_HEADER + LengthField(b)
    ensures var n := LengthField(b);
      b == EncodeOption(Opt(b[0], b[OPTION_HEADER..OPTION_HEADER + n])) + b[OPTION_HEADER + n..]
  {
    var n := LengthField(b);
    TwoBytes(n);
    hide BigEndian;
    assert b[..3] == [b[0]] + [b[1], b[2]];
    assert b == b[..3] + b[3..3 + n] + b[3 + n..];
  }

  lemma OptionFields(o: Opt, rest: seq<byte>)
    requires |o.value| < 0x1_0000
    ensures var b := EncodeOption(o) + rest; var n := |o.value|;
      && b[0] == o.kind && LengthField(b) == n
      && b[OPTION_HEADER..OPTION_HEADER + n] == o.value && b[OPTION_HEADER + n..] == rest
  {
    TwoBytes(|o.value|);
    hide BigEndian;
    var h := [o.kind] + [|o.value| / 256, |o.value| % 256];
    assert EncodeOption(o) + rest == h + o.value + rest;
  }

  lemma BlockCons(o: Opt, os: seq<Opt>, isBreak: bool)
    ensures OptionBlock([o] + os, isBreak) == EncodeOption(o) + OptionBlock(os, isBreak)
  {
    hide EncodeOption;
    assert ([o] + os)[1..] == os;
  }

  lemma BlockNil(isBreak: bool)
    ensures OptionBlock([], isBreak) == EncodeOption(Terminator(isBreak))
  {
    hide EncodeOption;
  }

  lemma ScanOne(o: Opt, rest: seq<byte>, held: nat)
    requires Plain(o) && held < MAX_OPTIONS
    ensures ScanOptions(EncodeOption(o) + rest, held) ==
      match ScanOptions(rest, held + 1)
      case Fail => Fail
      case Ok(m, os, brk) => Ok(OPTION_HEADER + |o.value| + m, [o] + os, brk)
  {
    hide EncodeOption, LengthField;
    OptionFields(o, rest);
  }

  lemma ScanEnd(isBreak: bool, rest: seq<byte>, held: nat)
    requires held < MAX_OPTIONS
    ensures ScanOptions(EncodeOption(Terminator(isBreak)) + rest, held) == Ok(OPTION_HEADER, [], isBreak)
  {
    hide EncodeOption, LengthField;
    OptionFields(Terminator(isBreak), rest);
  }

  /** Reading a written list gives it back and stops right behind its terminator, whatever follows. */
  lemma {:induction false} ScanWritten(os: seq<Opt>, isBreak: bool, rest: seq<byte>, held: nat)
    requires AllPlain(os) && held + |os| < MAX_OPTIONS
    ensures ScanOptions(OptionBlock(os, isBreak) + rest, held) == Ok(|OptionBlock(os, isBreak)|, os, isBreak)
    decreases |os|
  {
    hide EncodeOption, OptionBlock, ScanOptions;
    if os == [] {
      BlockNil(isBreak);
      ScanEnd(isBreak, rest, held);
    } else {
      var tail := OptionBlock(os[1..], isBreak);
      assert os == [os[0]] + os[1..];
      BlockCons(os[0], os[1..], isBreak);
      ScanOne(os[0], tail + rest, held);
      ScanWritten(os[1..], isBreak, rest, held + 1);
      assert OptionBlock(os, isBreak) + rest == EncodeOption(os[0]) + (tail + rest);
    }
  }

  /** Whatever a successful scan returns is what a writer would have written there. */
  lemma {:induction false} ScanSound(b: seq<byte>, held: nat)
    requires ScanOptions(b, held).Ok?
    ensures var r := ScanOptions(b, held);
      && r.consumed <= |b| && b[..r.consumed] == OptionBlock(r.options, r.isBreak)
      && AllPlain(r.options) && held + |r.options| < 20
    decreases |b|
  {
    hide EncodeOption, OptionBlock, LengthField;
    var n := LengthField(b);
    FirstOption(b);
    if b[0] == BREAK || b[0] == EOL {
      assert b[3..3] == [];
      BlockNil(b[0] == BREAK);
    } else {
      var o := Opt(b[0], b[3..3 + n]);
      var rest := b[3 + n..];
      ScanSound(rest, held + 1);
      var r := ScanOptions(rest, held + 1);
      BlockCons(o, r.options, r.isBreak);
      assert b[..3 + n + r.consumed] == EncodeOption(o) + rest[..r.consumed];
    }
  }

  /**
   The scan characterised without its own steps: it succeeds with (n, os, brk) exactly when the
   first n bytes are the list `os` and its terminator and fewer than twenty options are then held.
   */
  lemma ScanExact(b: seq<byte>, held: nat, n: nat, os: seq<Opt>, isBreak: bool)
    ensures ScanOptions(b, held) == Ok(n, os, isBreak) <==>
      n <= |b| && b[..n] == OptionBlock(os, isBreak) && AllPlain(os) && held + |os| < 20
  {
    if ScanOptions(b, held) == Ok(n, os, isBreak) {
      ScanSound(b, held);
    }
    if n <= |b| && b[..n] == OptionBlock(os, isBreak) && AllPlain(os) && held + |os| < 20 {
      ScanWritten(os, isBreak, b[n..], held);
      assert b == b[..n] + b[n..];
    }
  }

  /** Bytes behind the terminator do not matter. */
  lemma ScanPadding(b: seq<byte>, pad: seq<byte>, held: nat)
    requires ScanOptions(b, held).Ok?
    ensures ScanOptions(b + pad, held) == ScanOptions(b, held)
  {
    ScanSound(b, held);
    var r := ScanOptions(b, held);
    ScanExact(b + pad, held, r.consumed, r.options, r.isBreak);
    assert (b + pad)[..r.consumed] == b[..r.consumed];
  }

  // ---------------------------------------------------------------------------
  // Writing

  /** ff_client_write_options: the buffer must have room for the list. */
  method WriteOptions(buffer: array<byte>, at: nat, options: seq<Opt>) returns (written: nat)
    requires at + |Serialise(options)| <= buffer.Length
    modifies buffer
    ensures written == |Serialise(options)|
    ensures buffer[..] == Overwrite(old(buffer[..]), at, Serialise(options))
  {
    hide Serialise, Overwrite, BigEndian;
    written := 0;
    SerialiseEnds(options);
    OverwriteNothing(buffer[..], at);
    for i := 0 to |options|
      invariant written == |Serialise(options[..i])|
      invariant at + written + |Serialise(options[i..])| <= buffer.Length
      invariant buffer[..] == Overwrite(old(buffer[..]), at, Serialise(options[..i]))
    {
      var o := options[i];
      SerialiseStep(options, i);
      ghost var b, done := old(buffer[..]), Serialise(options[..i]);
      WriteBytes(buffer, at + written, [o.kind]);
      OverwriteTwice(b, at, done, [o.kind]);
      WriteBytes(buffer, at + written + 1, BigEndian(|o.value|, 2));
      OverwriteTwice(b, at, done + [o.kind], BigEndian(|o.value|, 2));
      WriteBytes(buffer, at + written + 3, o.value);
      OverwriteTwice(b, at, done + [o.kind] + BigEndian(|o.value|, 2), o.value);
      assert done + [o.kind] + BigEndian(|o.value|, 2) + o.value == done + EncodeOption(o);
      written := written + 3 + |o.value|;
    }
  }

  lemma SerialiseEnds(os: seq<Opt>)
    ensures Serialise(os[..0]) == Serialise(os[|os|..]) == []
    ensures os[0..] == os && os[..|os|] == os
  {
  }

  lemma SerialiseStep(os: seq<Opt>, i: nat)
    requires i < |os|
    ensures Serialise(os[..i + 1]) == Serialise(os[..i]) + EncodeOption(os[i])
    ensures Serialise(os[i..]) == EncodeOption(os[i]) + Serialise(os[i + 1..])
  {
    assert os[..i + 1] == os[..i] + [os[i]];
    SerialiseConcat(os[..i], [os[i]]);
    assert [os[i]][1..] == [];
    assert Serialise([os[i]]) == EncodeOption(os[i]);
    assert os[i..][1..] == os[i + 1..];
  }
}
