/** The text payloads of the Python client: UTF-8, with a decoder that is written on its own. */
module Texts {
  import opened Bytes

  /** A character that has an encoding; the Python client raises an error on a lone surrogate. */
  type CodePoint = c: nat | c < 0x11_0000 && !(0xD800 <= c < 0xE000)

  /** The UTF-8 encoding of a code point. */
  function Utf8(c: CodePoint): (b: seq<byte>)
    ensures |b| == 1 <==> c < 0x80
    ensures 1 <= |b| <= 4
  {
    if c < 0x80 then [c]
    else if c < 0x800 then [0xC0 + c / 0x40, 0x80 + c % 0x40]
    else if c < 0x1_0000 then [0xE0 + c / 0x1000, 0x80 + c / 0x40 % 0x40, 0x80 + c % 0x40]
    else [0xF0 + c / 0x4_0000, 0x80 + c / 0x1000 % 0x40, 0x80 + c / 0x40 % 0x40, 0x80 + c % 0x40]
  }

  function Encoded(text: seq<CodePoint>): seq<byte> {
    if text == [] then [] else Encoded(text[..|text| - 1]) + Utf8(text[|text| - 1])
  }

  lemma {:induction false} EncodedLength(text: seq<CodePoint>)
    ensures |text| <= |Encoded(text)|
    ensures |text| == |Encoded(text)| <==> forall i :: 0 <= i < |text| ==> text[i] < 0x80
  {
    if text != [] {
      EncodedLength(text[..|text| - 1]);
      assert forall i :: 0 <= i < |text| - 1 ==> text[..|text| - 1][i] == text[i];
    }
  }

  // ---------------------------------------------------------------------------
  // Reading

  /** A byte that continues a character, with six bits of it. */
  predicate Continues(b: byte) {
    0x80 <= b < 0xC0
  }

  function Six(b: byte): int {
    b as int - 0x80
  }

  /**
   The four layouts: one byte below 0x80; or a lead byte that tells how many bytes follow, each with
   six bits, the highest first, and no shorter layout would do.
   */
  lemma Utf8Layout(c: CodePoint)
    ensures var b := Utf8(c);
      && (c < 0x80 ==> b == [c])
      && (0x80 <= c < 0x800 ==>
            |b| == 2 && 0xC0 <= b[0] < 0xE0 && Continues(b[1]) && c == (b[0] as int - 0xC0) * 64 + Six(b[1]))
      && (0x800 <= c < 0x1_0000 ==>
            && |b| == 3 && 0xE0 <= b[0] < 0xF0 && Continues(b[1]) && Continues(b[2])
            && c == (b[0] as int - 0xE0) * 4096 + Six(b[1]) * 64 + Six(b[2]))
      && (0x1_0000 <= c ==>
            && |b| == 4 && 0xF0 <= b[0] < 0xF5 && Continues(b[1]) && Continues(b[2]) && Continues(b[3])
            && c == (b[0] as int - 0xF0) * 262144 + Six(b[1]) * 4096 + Six(b[2]) * 64 + Six(b[3]))
  {
    if c >= 0x800 {
      Sextets(c, c / 64, c / 4096);
    }
    if c >= 0x1_0000 {
      Sextets(c / 64, c / 4096, c / 0x4_0000);
    }
  }

  lemma Sextets(a: nat, b: nat, c: nat)
    requires b == a / 64 && c == b / 64
    ensures a == c * 4096 + (b % 64) * 64 + a % 64
  {
  }

  /** The decoder goes by the lead byte; nothing is read of a character that is cut off. */
  function Decode(b: seq<byte>): seq<int> {
    if b == [] then []
    else if b[0] < 0x80 then [b[0] as int] + Decode(b[1..])
    else if b[0] < 0xE0 then
      if |b| < 2 then [] else [(b[0] as int - 0xC0) * 64 + Six(b[1])] + Decode(b[2..])
    else if b[0] < 0xF0 then
      if |b| < 3 then [] else [(b[0] as int - 0xE0) * 4096 + Six(b[1]) * 64 + Six(b[2])] + Decode(b[3..])
    else
      if |b| < 4 then []
      else [(b[0] as int - 0xF0) * 262144 + Six(b[1]) * 4096 + Six(b[2]) * 64 + Six(b[3])] + Decode(b[4..])
  }

  lemma DecodeFirst(c: CodePoint, rest: seq<byte>)
    ensures Decode(Utf8(c) + rest) == [c as int] + Decode(rest)
  {
    hide Utf8;
    Utf8Layout(c);
    var b := Utf8(c) + rest;
    assert b[|Utf8(c)|..] == rest;
    if c < 0x80 {
      assert b[0] == c;
    }
  }

  lemma {:induction false} EncodedFirst(text: seq<CodePoint>)
    requires text != []
    ensures Encoded(text) == Utf8(text[0]) + Encoded(text[1..])
  {
    hide Utf8;
    if |text| == 1 {
      assert text[..0] == [] && text[1..] == [];
    } else {
      var init := text[..|text| - 1];
      EncodedFirst(init);
      assert init[1..] == text[1..][..|text| - 2];
      Associate(Utf8(text[0]), Encoded(init[1..]), Utf8(text[|text| - 1]));
    }
  }

  /** Reading what was written gives every text back. */
  lemma {:induction false} DecodeEncoded(text: seq<CodePoint>)
    ensures Decode(Encoded(text)) == text
  {
    if text != [] {
      hide Utf8, Decode, Encoded;
      DecodeEncoded(text[1..]);
      EncodedFirst(text);
      DecodeFirst(text[0], Encoded(text[1..]));
      assert text == [text[0]] + text[1..];
    }
  }

  /** ASCII text is its own encoding. */
  lemma {:induction false} AsciiIsItself(text: seq<CodePoint>)
    requires forall i :: 0 <= i < |text| ==> text[i] < 0x80
    ensures |Encoded(text)| == |text| && forall i :: 0 <= i < |text| ==> Encoded(text)[i] == text[i]
  {
    if text != [] {
      var init := text[..|text| - 1];
      assert forall i :: 0 <= i < |init| ==> init[i] == text[i];
      AsciiIsItself(init);
      Utf8Layout(text[|text| - 1]);
    }
  }
}
