/**
 What the overlap test of the parser buys: chunks that passed it, that lie inside the payload and
 whose lengths add up to the payload's, cover it exactly once and must have arrived in order.
 */
module Tiling {
  import opened Bytes
  import opened Requests

  function SumLengths(cs: seq<Chunk>): nat {
    if cs == [] then 0 else SumLengths(cs[..|cs| - 1]) + cs[|cs| - 1].length
  }

  /** Every chunk passed the test against all chunks that arrived before it. */
  ghost predicate NoOverlaps(cs: seq<Chunk>) {
    forall i, j :: 0 <= i < j < |cs| ==> !Overlaps(cs[j], cs[i])
  }

  ghost predicate Within(cs: seq<Chunk>, total: nat) {
    forall i :: 0 <= i < |cs| ==> cs[i].offset + cs[i].length <= total
  }

  ghost predicate Covers(c: Chunk, p: int) {
    c.offset <= p < c.offset + c.length
  }

  ghost predicate IsCovered(cs: seq<Chunk>, p: int) {
    exists i :: 0 <= i < |cs| && Covers(cs[i], p)
  }

  /** Each chunk starts where the earlier arrivals end, and together they are `total` long. */
  ghost predicate Tiled(cs: seq<Chunk>, total: nat) {
    SumLengths(cs) == total && forall i :: 0 <= i < |cs| ==> cs[i].offset == SumLengths(cs[..i])
  }

  // ---------------------------------------------------------------------------
  // Counting

  ghost function Range(a: int, n: nat): (s: set<int>)
    ensures forall p :: p in s <==> a <= p < a + n
    ensures |s| == n
  {
    if n == 0 then {} else Range(a, n - 1) + {a + n - 1}
  }

  ghost function Covered(cs: seq<Chunk>): (s: set<int>)
    ensures forall p :: p in s <==> IsCovered(cs, p)
  {
    if cs == [] then {}
    else
      var c := cs[|cs| - 1];
      var s := Covered(cs[..|cs| - 1]) + Range(c.offset, c.length);
      CoveredMembers(cs, s);
      s
  }

  lemma CoveredMembers(cs: seq<Chunk>, s: set<int>)
    requires cs != []
    requires forall p :: p in s <==>
      IsCovered(cs[..|cs| - 1], p) || Covers(cs[|cs| - 1], p)
    ensures forall p :: p in s <==> IsCovered(cs, p)
  {
    forall p ensures p in s <==> IsCovered(cs, p) {
      if p in s && !Covers(cs[|cs| - 1], p) {
        var i :| 0 <= i < |cs| - 1 && Covers(cs[..|cs| - 1][i], p);
        assert Covers(cs[i], p);
      }
      if i :| 0 <= i < |cs| && Covers(cs[i], p) {
        if i < |cs| - 1 {
          assert Covers(cs[..|cs| - 1][i], p);
        }
      }
    }
  }

  /** No byte position belongs to two stored chunks. */
  lemma Disjoint(cs: seq<Chunk>, i: nat, j: nat, p: int)
    requires NoOverlaps(cs) && i < |cs| && j < |cs| && Covers(cs[i], p) && Covers(cs[j], p)
    ensures i == j
  {
  }

  lemma {:induction false} CoveredCount(cs: seq<Chunk>)
    requires NoOverlaps(cs)
    ensures |Covered(cs)| == SumLengths(cs)
  {
    if cs != [] {
      hide Range, Covers, Overlaps;
      var init, c := cs[..|cs| - 1], cs[|cs| - 1];
      assert NoOverlaps(init);
      CoveredCount(init);
      LastIsNew(cs);
      assert Covered(cs) == Covered(init) + Range(c.offset, c.length) by { CoveredLast(cs); }
    }
  }

  lemma CoveredLast(cs: seq<Chunk>)
    requires cs != []
    ensures Covered(cs) == Covered(cs[..|cs| - 1]) + Range(cs[|cs| - 1].offset, cs[|cs| - 1].length)
  {
  }

  lemma LastIsNew(cs: seq<Chunk>)
    requires cs != [] && NoOverlaps(cs)
    ensures Covered(cs[..|cs| - 1]) !! Range(cs[|cs| - 1].offset, cs[|cs| - 1].length)
  {
    hide Covered, Range, Overlaps;
    var init, c := cs[..|cs| - 1], cs[|cs| - 1];
    forall p | p in Covered(init) ensures p !in Range(c.offset, c.length) {
      var i :| 0 <= i < |init| && Covers(init[i], p);
      assert init[i] == cs[i];
      if Covers(c, p) {
        Disjoint(cs, i, |cs| - 1, p);
        assert false;
      }
    }
  }

  lemma SubsetSize(a: set<int>, b: set<int>)
    requires a <= b
    ensures |a| <= |b| && (|a| == |b| <==> a == b)
  {
    assert b == a + (b - a);
  }

  /** Byte accounting: the lengths never exceed the total, and reach it exactly when every position is covered. */
  lemma ByteAccounting(cs: seq<Chunk>, total: nat)
    requires NoOverlaps(cs) && Within(cs, total)
    ensures SumLengths(cs) <= total
    ensures SumLengths(cs) == total <==> forall p :: 0 <= p < total ==> IsCovered(cs, p)
  {
    hide Covered, Range, SumLengths;
    CoveredCount(cs);
    SubsetSize(Covered(cs), Range(0, total));
    assert Covered(cs) == Range(0, total) <==> forall p :: 0 <= p < total ==> p in Covered(cs);
  }

  // ---------------------------------------------------------------------------
  // Order of arrival

  lemma {:induction false} SumMonotone(cs: seq<Chunk>, i: nat, j: nat)
    requires i <= j <= |cs|
    ensures SumLengths(cs[..i]) <= SumLengths(cs[..j])
    decreases j - i
  {
    if i < j {
      SumMonotone(cs, i, j - 1);
      SumStep(cs, j - 1);
    }
  }

  lemma SumStep(cs: seq<Chunk>, i: nat)
    requires i < |cs|
    ensures SumLengths(cs[..i + 1]) == SumLengths(cs[..i]) + cs[i].length
  {
    assert cs[..i + 1][..i] == cs[..i];
  }

  /** A chunk that passed the test against a tiled prefix starts behind all of it. */
  lemma {:induction false} NotBefore(cs: seq<Chunk>, i: nat, k: nat)
    requires NoOverlaps(cs) && k <= i < |cs|
    requires forall m :: 0 <= m < k ==> cs[m].offset == SumLengths(cs[..m])
    ensures cs[i].offset >= SumLengths(cs[..k])
    decreases k
  {
    if k > 0 {
      NotBefore(cs, i, k - 1);
      SumStep(cs, k - 1);
      assert !Overlaps(cs[i], cs[k - 1]);
    }
  }

  /** Nothing but an earlier chunk can cover the position just in front of a chunk. */
  lemma CoverInFront(cs: seq<Chunk>, i: nat, k: nat)
    requires NoOverlaps(cs) && i < |cs| && k < |cs| && Covers(cs[k], cs[i].offset - 1)
    ensures k < i
  {
  }

  lemma {:induction false} InOrder(cs: seq<Chunk>, total: nat, i: nat)
    requires NoOverlaps(cs) && Within(cs, total) && SumLengths(cs) == total && i <= |cs|
    ensures forall m :: 0 <= m < i ==> cs[m].offset == SumLengths(cs[..m])
    decreases i
  {
    if i > 0 {
      var k := i - 1;
      InOrder(cs, total, k);
      NotBefore(cs, k, k);
      var front := cs[k].offset - 1;
      if cs[k].offset > SumLengths(cs[..k]) {
        ByteAccounting(cs, total);
        assert IsCovered(cs, front);
        var m :| 0 <= m < |cs| && Covers(cs[m], front);
        CoverInFront(cs, k, m);
        SumStep(cs, m);
        SumMonotone(cs, m + 1, k);
        assert false;
      }
    }
  }

  /** When the received length reaches the payload length, the chunks tile the payload in the order they arrived. */
  lemma CompleteIsTiled(cs: seq<Chunk>, total: nat)
    requires NoOverlaps(cs) && Within(cs, total) && SumLengths(cs) == total
    ensures Tiled(cs, total)
  {
    InOrder(cs, total, |cs|);
  }

  /** The converse: a tiling passes every overlap test on the way, zero-length chunks included. */
  lemma TiledPasses(cs: seq<Chunk>, total: nat)
    requires Tiled(cs, total)
    ensures NoOverlaps(cs) && Within(cs, total)
  {
    forall i, j | 0 <= i < j < |cs| ensures !Overlaps(cs[j], cs[i]) {
      SumStep(cs, i);
      SumMonotone(cs, i + 1, j);
    }
    forall i | 0 <= i < |cs| ensures cs[i].offset + cs[i].length <= total {
      SumStep(cs, i);
      SumMonotone(cs, i + 1, |cs|);
      assert cs[..|cs|] == cs;
    }
  }

  // ---------------------------------------------------------------------------
  // Flattening

  ghost predicate Loaded(cs: seq<Chunk>) {
    forall i :: 0 <= i < |cs| ==> cs[i].length <= |cs[i].value|
  }

  /** The bytes of the chunks in order of arrival. */
  function Concat(cs: seq<Chunk>): (s: seq<byte>)
    requires Loaded(cs)
    ensures |s| == SumLengths(cs)
  {
    if cs == [] then [] else Concat(cs[..|cs| - 1]) + cs[|cs| - 1].value[..cs[|cs| - 1].length]
  }

  lemma TiledAppend(cs: seq<Chunk>, d: Chunk)
    requires Loaded(cs) && Tiled(cs, d.offset) && d.length <= |d.value|
    ensures Loaded(cs + [d]) && Tiled(cs + [d], d.offset + d.length)
    ensures Concat(cs + [d]) == Concat(cs) + d.value[..d.length]
  {
    var cs' := cs + [d];
    assert cs'[..|cs|] == cs;
    forall i | 0 <= i < |cs'| ensures cs'[i].offset == SumLengths(cs'[..i]) {
      if i < |cs| {
        assert cs'[..i] == cs[..i];
      }
    }
  }

  /** The bytes of the chunks copied, one after the other, to their offsets in `b`. */
  function Overlay(b: seq<byte>, cs: seq<Chunk>): (r: seq<byte>)
    requires Loaded(cs) && Within(cs, |b|)
    ensures |r| == |b|
  {
    if cs == [] then b
    else
      var c := cs[|cs| - 1];
      Overwrite(Overlay(b, cs[..|cs| - 1]), c.offset, c.value[..c.length])
  }

  /** Copying a tiling by offset is concatenating it by arrival, whatever was in the buffer before. */
  lemma {:induction false} OverlayOfTiling(b: seq<byte>, cs: seq<Chunk>)
    requires Loaded(cs) && Within(cs, |b|)
    requires forall i :: 0 <= i < |cs| ==> cs[i].offset == SumLengths(cs[..i])
    ensures SumLengths(cs) <= |b|
    ensures Overlay(b, cs) == Concat(cs) + b[SumLengths(cs)..]
  {
    if cs != [] {
      var init, c := cs[..|cs| - 1], cs[|cs| - 1];
      forall i | 0 <= i < |init| ensures init[i].offset == SumLengths(init[..i]) {
        assert init[..i] == cs[..i];
      }
      OverlayOfTiling(b, init);
      assert c.offset == SumLengths(init) == |Concat(init)|;
      OverwriteBehind(Concat(init), b[SumLengths(init)..], c.value[..c.length]);
      assert b[SumLengths(init)..][c.length..] == b[SumLengths(cs)..];
    }
  }

  lemma OverwriteBehind(a: seq<byte>, rest: seq<byte>, v: seq<byte>)
    requires |v| <= |rest|
    ensures Overwrite(a + rest, |a|, v) == a + v + rest[|v|..]
  {
  }

  lemma OverlayOfWholeTiling(b: seq<byte>, cs: seq<Chunk>)
    requires Loaded(cs) && Tiled(cs, |b|)
    ensures Within(cs, |b|) && Overlay(b, cs) == Concat(cs)
  {
    TiledPasses(cs, |b|);
    OverlayOfTiling(b, cs);
  }
}
