/** Bytes on the wire: network byte order, and the host's 64-bit conversion macros. */
module Bytes {

  type byte = x: int | 0 <= x < 256

  const TWO_64: int := 0x1_0000_0000_0000_0000

  /** uint64_t: request and item ids. */
  type Id = x: int | 0 <= x < 0x1_0000_0000_0000_0000

  datatype Option<+T> = None | Some(value: T)

  lemma Associate<T>(a: seq<T>, b: seq<T>, c: seq<T>)
    ensures a + (b + c) == a + b + c
  {
  }

  function Pow256(k: nat): (p: nat)
    ensures p > 0
  {
    if k == 0 then 1 else 256 * Pow256(k - 1)
  }

  /** The low `k` bytes of `n`, most significant first. */
  function BigEndian(n: nat, k: nat): (s: seq<byte>)
    ensures |s| == k
  {
    if k == 0 then [] else BigEndian(n / 256, k - 1) + [n % 256]
  }

  function FromBigEndian(s: seq<byte>): (n: nat)
    ensures n < Pow256(|s|)
  {
    if s == [] then 0 else FromBigEndian(s[..|s| - 1]) * 256 + s[|s| - 1]
  }

  /** The low `k` bytes of `n`, least significant first: how a little-endian host stores it. */
  function LittleEndian(n: nat, k: nat): (s: seq<byte>)
    ensures |s| == k
  {
    if k == 0 then [] else [n % 256] + LittleEndian(n / 256, k - 1)
  }

  lemma {:induction false} FromToBigEndian(n: nat, k: nat)
    requires n < Pow256(k)
    ensures FromBigEndian(BigEndian(n, k)) == n
  {
    if k > 0 {
      FromToBigEndian(n / 256, k - 1);
      assert BigEndian(n, k)[..k - 1] == BigEndian(n / 256, k - 1);
    }
  }

  lemma LastDigit(s: seq<byte>, i: nat)
    requires 0 < i <= |s|
    ensures FromBigEndian(s[..i]) == FromBigEndian(s[..i - 1]) * 256 + s[i - 1]
  {
    assert s[..i][..i - 1] == s[..i - 1];
  }

  /** Four more bytes, the highest first. */
  lemma FourDigits(s: seq<byte>, i: nat)
    requires i + 4 <= |s|
    ensures FromBigEndian(s[..i + 4]) == FromBigEndian(s[..i]) * 0x1_0000_0000 +
      s[i] as int * 0x100_0000 + s[i + 1] as int * 0x1_0000 + s[i + 2] as int * 0x100 + s[i + 3]
  {
    hide FromBigEndian;
    LastDigit(s, i + 1);
    LastDigit(s, i + 2);
    LastDigit(s, i + 3);
    LastDigit(s, i + 4);
  }

  lemma BigEndianLast(n: nat, d: byte, k: nat)
    ensures BigEndian(n * 256 + d, k + 1) == BigEndian(n, k) + [d]
  {
    assert (n * 256 + d) / 256 == n && (n * 256 + d) % 256 == d;
  }

  lemma {:induction false} ToFromBigEndian(s: seq<byte>)
    ensures BigEndian(FromBigEndian(s), |s|) == s
  {
    if s != [] {
      var init, d := s[..|s| - 1], s[|s| - 1];
      ToFromBigEndian(init);
      assert FromBigEndian(s) == FromBigEndian(init) * 256 + d;
      BigEndianLast(FromBigEndian(init), d, |init|);
      assert s == init + [d];
    }
  }

  lemma Widths()
    ensures Pow256(1) == 0x100 && Pow256(2) == 0x1_0000 && Pow256(4) == 0x1_0000_0000
    ensures Pow256(8) == TWO_64
  {
    assert Pow256(2) == 0x1_0000;
    assert Pow256(4) == 0x1_0000 * Pow256(2);
    assert Pow256(6) == 0x1_0000 * Pow256(4);
    assert Pow256(8) == 0x1_0000 * Pow256(6);
  }

  // ---------------------------------------------------------------------------
  // src/os/linux_endian.h

  function Reverse(s: seq<byte>): (r: seq<byte>)
    ensures |r| == |s| && forall i :: 0 <= i < |s| ==> r[i] == s[|s| - 1 - i]
  {
    seq(|s|, i requires 0 <= i < |s| => s[|s| - 1 - i])
  }

  /** htonl on a little-endian host reverses the four bytes; on a big-endian host it is the identity. */
  function Htonl(x: nat, bigEndianHost: bool): nat {
    if bigEndianHost then x else FromBigEndian(LittleEndian(x, 4))
  }

  /** The macro, with its shifts and masks written as division and remainder. */
  function Htonll(x: nat, bigEndianHost: bool): nat {
    if bigEndianHost then x
    else Htonl(x % 0x1_0000_0000, false) * 0x1_0000_0000 + Htonl(x / 0x1_0000_0000, false)
  }

  /** What lands in memory when the host stores `n` in `k` bytes. */
  function Stored(n: nat, k: nat, bigEndianHost: bool): seq<byte> {
    if bigEndianHost then BigEndian(n, k) else LittleEndian(n, k)
  }

  lemma {:induction false} LittleIsReversedBig(n: nat, k: nat)
    ensures LittleEndian(n, k) == Reverse(BigEndian(n, k))
  {
    if k > 0 {
      LittleIsReversedBig(n / 256, k - 1);
    }
  }

  lemma {:induction false} BigEndianSplit(hi: nat, lo: nat, j: nat, k: nat)
    requires lo < Pow256(k)
    ensures BigEndian(hi * Pow256(k) + lo, j + k) == BigEndian(hi, j) + BigEndian(lo, k)
    decreases k
  {
    if k == 0 {
      assert BigEndian(hi, j) + BigEndian(lo, 0) == BigEndian(hi, j);
    } else {
      var n := hi * Pow256(k) + lo;
      assert hi * Pow256(k) == 256 * (hi * Pow256(k - 1));
      assert n / 256 == hi * Pow256(k - 1) + lo / 256 && n % 256 == lo % 256;
      BigEndianSplit(hi, lo / 256, j, k - 1);
    }
  }

  lemma ReverseConcat(a: seq<byte>, b: seq<byte>)
    ensures Reverse(a + b) == Reverse(b) + Reverse(a)
    ensures Reverse(Reverse(a)) == a
  {
  }

  lemma HtonlBytes(x: nat)
    ensures BigEndian(Htonl(x, false), 4) == Reverse(BigEndian(x, 4))
    ensures Htonl(x, false) < Pow256(4)
  {
    ToFromBigEndian(LittleEndian(x, 4));
    LittleIsReversedBig(x, 4);
  }

  lemma SwappedHalves(hi: nat, lo: nat)
    requires hi < Pow256(4) && lo < Pow256(4)
    ensures LittleEndian(Htonl(lo, false) * Pow256(4) + Htonl(hi, false), 8) == BigEndian(hi * Pow256(4) + lo, 8)
  {
    hide BigEndian, LittleEndian, Reverse, Htonl, Pow256;
    var a, b := Htonl(lo, false), Htonl(hi, false);
    HtonlBytes(lo);
    HtonlBytes(hi);
    LittleIsReversedBig(a * Pow256(4) + b, 8);
    BigEndianSplit(a, b, 4, 4);
    BigEndianSplit(hi, lo, 4, 4);
    ReverseConcat(BigEndian(a, 4), BigEndian(b, 4));
    ReverseConcat(BigEndian(hi, 4), []);
    ReverseConcat(BigEndian(lo, 4), []);
  }

  /** Storing htonll(x) leaves the big-endian bytes of x in memory, whichever way round the host is. */
  lemma HtonllWritesNetworkOrder(x: Id, bigEndianHost: bool)
    ensures Stored(Htonll(x, bigEndianHost), 8, bigEndianHost) == BigEndian(x, 8)
  {
    hide BigEndian, LittleEndian, Htonl, Pow256;
    if !bigEndianHost {
      Widths();
      SwappedHalves(x / 0x1_0000_0000, x % 0x1_0000_0000);
    }
  }

  /** ntohll is the same expression, so applying it twice gives the value back. */
  lemma HtonllIsAnInvolution(x: Id, bigEndianHost: bool)
    ensures Htonll(Htonll(x, bigEndianHost), bigEndianHost) == x
  {
    if !bigEndianHost {
      hide Htonl;
      var lo, hi := x % 0x1_0000_0000, x / 0x1_0000_0000;
      HtonlTwice(lo);
      HtonlTwice(hi);
      Halves(Htonl(lo, false), Htonl(hi, false));
    }
  }

  lemma Halves(a: nat, b: nat)
    requires b < 0x1_0000_0000
    ensures (a * 0x1_0000_0000 + b) % 0x1_0000_0000 == b && (a * 0x1_0000_0000 + b) / 0x1_0000_0000 == a
  {
  }

  lemma HtonlTwice(x: nat)
    requires x < 0x1_0000_0000
    ensures Htonl(x, false) < 0x1_0000_0000 && Htonl(Htonl(x, false), false) == x
  {
    Widths();
    HtonlBytes(x);
    LittleIsReversedBig(Htonl(x, false), 4);
    ReverseConcat(BigEndian(x, 4), []);
    FromToBigEndian(x, 4);
  }

  // ---------------------------------------------------------------------------
  // Buffers

  /** `b` with `s` copied over it from position `at`: memcpy(b + at, s, |s|). */
  function Overwrite(b: seq<byte>, at: nat, s: seq<byte>): (r: seq<byte>)
    requires at + |s| <= |b|
    ensures |r| == |b|
    ensures forall i :: 0 <= i < |b| ==> r[i] == if at <= i < at + |s| then s[i - at] else b[i]
  {
    b[..at] + s + b[at + |s|..]
  }

  lemma OverwriteTwice(b: seq<byte>, at: nat, s: seq<byte>, t: seq<byte>)
    requires at + |s| + |t| <= |b|
    ensures Overwrite(Overwrite(b, at, s), at + |s|, t) == Overwrite(b, at, s + t)
  {
  }

  lemma OverwriteNothing(b: seq<byte>, at: nat)
    requires at <= |b|
    ensures Overwrite(b, at, []) == b
  {
  }

  /** memcpy into a buffer. */
  method WriteBytes(buffer: array<byte>, at: nat, s: seq<byte>)
    requires at + |s| <= buffer.Length
    modifies buffer
    ensures buffer[..] == Overwrite(old(buffer[..]), at, s)
  {
    for i := 0 to |s|
      invariant forall j :: 0 <= j < buffer.Length ==>
        buffer[j] == if at <= j < at + i then s[j - at] else old(buffer[j])
    {
      buffer[at + i] := s[i];
    }
  }
}
