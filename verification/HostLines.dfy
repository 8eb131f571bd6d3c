/**
 What the host scanner finds, in terms of whole messages: header lines, then a Host line in any of
 its sixteen spellings, given by their bytes.
 */
module HostLines {
  import opened Bytes
  import opened HostScanner

  /** Lines, each ended by a line feed. */
  function Lines(ls: seq<seq<byte>>): seq<byte> {
    if ls == [] then [] else Lines(ls[..|ls| - 1]) + ls[|ls| - 1] + [10]
  }

  /** Starts with the four letters, each upper or lower case, and a colon. */
  predicate SpellsHost(b: seq<byte>) {
    && |b| >= 5 && (b[0] == 72 || b[0] == 104) && (b[1] == 79 || b[1] == 111)
    && (b[2] == 83 || b[2] == 115) && (b[3] == 84 || b[3] == 116) && b[4] == 58
  }

  /** A dot, a hyphen, a digit or a letter. */
  predicate NamePart(c: byte) {
    c in [45, 46] || 0x30 <= c < 0x3A || 0x41 <= c < 0x5B || 0x61 <= c < 0x7B
  }

  /** Empty, but for a carriage return. */
  predicate BlankLine(l: seq<byte>) {
    l == [] || l == [13]
  }

  /** Lines without a Host name, none of them blank but perhaps the first. */
  ghost predicate HeaderLines(ls: seq<seq<byte>>) {
    forall i :: 0 <= i < |ls| ==> Nameless(ls[i]) && (i > 0 ==> !BlankLine(ls[i]))
  }

  predicate Nameless(l: seq<byte>) {
    10 !in l && !SpellsHost(l)
  }

  // ---------------------------------------------------------------------------
  // The scanner's words

  lemma NameIsSpelled(p: seq<byte>, k: nat)
    requires k + 5 < |p|
    ensures NameAt(p, k) <==> SpellsHost(p[k..])
  {
    var b := p[k..];
    assert b[0] == p[k + 0] && b[1] == p[k + 1] && b[2] == p[k + 2] && b[3] == p[k + 3] && b[4] == p[k + 4];
    assert HOST[0] == 104 && HOST[1] == 111 && HOST[2] == 115 && HOST[3] == 116 && HOST[4] == 58;
    if SpellsHost(b) {
      forall i | 0 <= i < 5 ensures Lower(p[k + i]) == HOST[i] {
        assert i == 0 || i == 1 || i == 2 || i == 3 || i == 4;
      }
    }
  }

  /** The line that starts at `k`, with `rest` behind its line feed. */
  lemma LineAt(p: seq<byte>, k: nat, l: seq<byte>, rest: seq<byte>)
    requires k <= |p| && p[k..] == l + [10] + rest && Nameless(l)
    ensures !NameAt(p, k) && (!BlankLine(l) ==> !Blank(p, k))
    ensures forall i :: k < i <= k + |l| ==> !LineStart(p, i)
  {
    hide NameAt, Lower;
    var b := p[k..];
    if k + 5 < |p| {
      NameIsSpelled(p, k);
      if |l| >= 5 {
        assert forall i :: 0 <= i < 5 ==> b[i] == l[i];
      } else {
        assert b[|l|] == 10;
      }
    } else {
      TooNear(p, k);
    }
    assert forall i :: 0 <= i < |b| ==> p[k + i] == b[i];
    assert forall i :: 0 <= i < |l| ==> b[i] == l[i];
    assert b[|l|] == 10;
    if Blank(p, k) {
      assert p[k + 0] == b[0] && p[k + 1] == b[1];
      assert |l| <= 1;
      assert BlankLine(l);
    }
  }

  lemma TooNear(p: seq<byte>, k: nat)
    requires k + 5 >= |p|
    ensures !NameAt(p, k)
  {
  }

  /** No line of `ls` has the name, and none but perhaps the first is blank if they are header lines. */
  lemma {:induction false} NoneBefore(ls: seq<seq<byte>>, tail: seq<byte>)
    requires forall i :: 0 <= i < |ls| ==> Nameless(ls[i])
    ensures var p := Lines(ls) + tail;
      forall k :: 0 <= k < |Lines(ls)| && LineStart(p, k) ==> !NameAt(p, k) && (HeaderLines(ls) ==> !Blank(p, k))
  {
    if ls != [] {
      hide NameAt, Blank, Nameless, LineStart;
      var n := |ls| - 1;
      var init, l := ls[..n], ls[n];
      var behind := l + [10] + tail;
      var p := Lines(ls) + tail;
      assert p == Lines(init) + behind;
      assert forall i :: 0 <= i < n ==> init[i] == ls[i];
      NoneBefore(init, behind);
      LineAt(p, |Lines(init)|, l, tail);
      if n == 0 {
        FirstIsExempt(p);
      }
    }
  }

  lemma FirstIsExempt(p: seq<byte>)
    ensures !Blank(p, 0)
  {
  }

  // ---------------------------------------------------------------------------
  // The host

  lemma {:induction false} RunIs(p: seq<byte>, beyond: byte, v: nat, limit: nat, h: seq<byte>)
    requires v + |h| <= |p| && p[v..v + |h|] == h && forall i :: 0 <= i < |h| ==> NamePart(h[i])
    requires !NamePart(At(p, beyond, v + |h|))
    ensures HostRun(p, beyond, v, limit) == if |h| <= limit then h else h[..limit]
    decreases limit
  {
    hide HostRun, NamePart;
    RunStep(p, beyond, v, limit);
    if h != [] && limit > 0 {
      var t := h[1..];
      assert p[v] == h[0] && h == [h[0]] + t;
      TailAt(p, v, h);
      RunIs(p, beyond, v + 1, limit - 1, t);
      if |h| > limit {
        assert h[..limit] == [h[0]] + t[..limit - 1];
      }
    }
  }

  lemma RunStep(p: seq<byte>, beyond: byte, v: nat, limit: nat)
    requires v <= |p|
    ensures HostRun(p, beyond, v, limit) ==
      if limit > 0 && NamePart(At(p, beyond, v)) then [At(p, beyond, v)] + HostRun(p, beyond, v + 1, limit - 1) else []
  {
  }

  lemma TailAt(p: seq<byte>, v: nat, h: seq<byte>)
    requires h != [] && v + |h| <= |p| && p[v..v + |h|] == h
    ensures p[v + 1..v + |h|] == h[1..]
  {
    assert p[v + 1..v + |h|] == p[v..v + |h|][1..];
  }

  /** A message: header lines, the Host line up to its value, the host, and the rest. */
  function Addressing(ls: seq<seq<byte>>, name: seq<byte>, gap: nat, h: seq<byte>, rest: seq<byte>): seq<byte> {
    Lines(ls) + (name + seq(gap, _ => 32) + h + rest)
  }

  ghost predicate Well(ls: seq<seq<byte>>, name: seq<byte>, gap: nat, h: seq<byte>, rest: seq<byte>, beyond: byte) {
    && HeaderLines(ls) && |name| == 5 && SpellsHost(name) && gap + |h| + |rest| > 0
    && (forall i :: 0 <= i < |h| ==> NamePart(h[i]))
    && var next := if rest == [] then beyond else rest[0]; !NamePart(next) && (h == [] ==> next != 32)
  }

  /** Nothing stops the scanner on its way to the host: it is near enough, and there is no NUL. */
  ghost predicate Reachable(p: seq<byte>, beyond: byte, v: nat) {
    v < 8096 && v <= |p| && (forall i :: 0 < i <= v && i < |p| ==> p[i] != 0) && (v == |p| ==> beyond != 0)
  }

  lemma Places(ls: seq<seq<byte>>, name: seq<byte>, gap: nat, h: seq<byte>, rest: seq<byte>)
    requires |name| == 5
    ensures var p, k := Addressing(ls, name, gap, h, rest), |Lines(ls)|; var v := k + 5 + gap;
      && |p| == v + |h| + |rest| && p[k..k + 5] == name && (forall i :: k + 5 <= i < v ==> p[i] == 32)
      && p[v..v + |h|] == h && p[v + |h|..] == rest && (k > 0 ==> p[k - 1] == 10)
  {
    hide Lines;
    var spaces := seq(gap, _ => 32);
    FiveParts(Lines(ls), name, spaces, h, rest);
    if ls != [] {
      EndsLine(ls);
    } else {
      NoLines();
    }
  }

  lemma FiveParts(a: seq<byte>, b: seq<byte>, c: seq<byte>, d: seq<byte>, e: seq<byte>)
    ensures var p := a + (b + c + d + e); var i := |a|; var j := i + |b|; var v := j + |c|;
      && (i > 0 ==> p[i - 1] == a[i - 1]) && p[i..j] == b && (forall n :: j <= n < v ==> p[n] == c[n - j])
      && p[v..v + |d|] == d && p[v + |d|..] == e
  {
  }

  lemma NoLines()
    ensures Lines([]) == []
  {
  }

  /** The header is in line `k`, its value at `v`, and in no other place. */
  lemma Header(ls: seq<seq<byte>>, name: seq<byte>, gap: nat, h: seq<byte>, rest: seq<byte>, beyond: byte)
    requires Well(ls, name, gap, h, rest, beyond)
    ensures var p, k := Addressing(ls, name, gap, h, rest), |Lines(ls)|;
      HeaderAt(p, k) && ValueAt(p, beyond, k, k + 5 + gap)
  {
    hide NameAt, Lines, HeaderLines, SpellsHost, Blank, Nameless, NamePart;
    var p, k := Addressing(ls, name, gap, h, rest), |Lines(ls)|;
    Places(ls, name, gap, h, rest);
    NamedLine(p, k, name);
    assert forall i :: 0 <= i < |ls| ==> Nameless(ls[i]) by { AreNameless(ls); }
    NoneBefore(ls, name + seq(gap, _ => 32) + h + rest);
    hide Addressing;
    ValueStarts(p, beyond, k + 5 + gap, h, rest);
  }

  lemma NamedLine(p: seq<byte>, k: nat, name: seq<byte>)
    requires k + 5 < |p| && p[k..k + 5] == name && SpellsHost(name)
    ensures NameAt(p, k) && !Blank(p, k)
  {
    hide NameAt;
    var b := p[k..];
    assert b[..5] == name && p[k] == name[0];
    assert b[0] == name[0] && b[1] == name[1] && b[2] == name[2] && b[3] == name[3] && b[4] == name[4];
    NameIsSpelled(p, k);
  }

  lemma ValueStarts(p: seq<byte>, beyond: byte, v: nat, h: seq<byte>, rest: seq<byte>)
    requires |p| == v + |h| + |rest| && p[v..v + |h|] == h && p[v + |h|..] == rest
    requires if h != [] then NamePart(h[0]) else (if rest == [] then beyond else rest[0]) != 32
    ensures At(p, beyond, v) != 32
  {
    if h != [] {
      assert p[v] == p[v..v + |h|][0];
    } else if rest != [] {
      assert p[v] == p[v..][0];
    }
  }

  lemma AreNameless(ls: seq<seq<byte>>)
    requires HeaderLines(ls)
    ensures forall i :: 0 <= i < |ls| ==> Nameless(ls[i])
  {
  }

  lemma ReachableIsClear(p: seq<byte>, beyond: byte, v: nat)
    ensures v <= |p| && v > 0 ==> (Clear(p, beyond, v) <==> Reachable(p, beyond, v))
  {
    if 0 < v <= |p| {
      if Clear(p, beyond, v) {
        assert Readable(p, beyond, v);
        forall i | 0 < i <= v && i < |p| ensures p[i] != 0 {
          assert Readable(p, beyond, i);
        }
      }
    }
  }

  /**
   What the scanner returns on every such message: the host, 256 bytes of it at most, if and only if
   nothing stops the scanner before it.
   */
  lemma HostFound(ls: seq<seq<byte>>, name: seq<byte>, gap: nat, h: seq<byte>, rest: seq<byte>, beyond: byte)
    requires Well(ls, name, gap, h, rest, beyond)
    ensures var p := Addressing(ls, name, gap, h, rest);
      HostOf(p, beyond) ==
        if Reachable(p, beyond, |Lines(ls)| + 5 + gap) then Some(if |h| <= 256 then h else h[..256]) else None
  {
    hide HeaderAt, ValueAt, Clear, Reachable, HostRun, Lines, HostOf, Addressing;
    var p, k := Addressing(ls, name, gap, h, rest), |Lines(ls)|;
    var v := k + 5 + gap;
    Header(ls, name, gap, h, rest, beyond);
    Places(ls, name, gap, h, rest);
    ReachableIsClear(p, beyond, v);
    assert !NamePart(At(p, beyond, v + |h|)) by { assert rest != [] ==> p[v + |h|] == p[v + |h|..][0]; }
    RunIs(p, beyond, v, 256, h);
    if Reachable(p, beyond, v) {
      assert HostAt(p, beyond, k, v);
      HostOfIs(p, beyond, HostRun(p, beyond, v, 256));
    } else {
      forall k': nat, v': nat ensures !HostAt(p, beyond, k', v') {
        if HeaderAt(p, k') && ValueAt(p, beyond, k', v') {
          OnePlace(p, beyond, k, v, k', v');
        }
      }
      NoHost(p, beyond);
    }
  }

  lemma OnePlace(p: seq<byte>, beyond: byte, k: nat, v: nat, k': nat, v': nat)
    requires HeaderAt(p, k) && ValueAt(p, beyond, k, v) && HeaderAt(p, k') && ValueAt(p, beyond, k', v')
    ensures k == k' && v == v'
  {
    hide NameAt, Blank;
    assert k == k';
  }

  lemma NoHost(p: seq<byte>, beyond: byte)
    requires forall k: nat, v: nat :: !HostAt(p, beyond, k, v)
    ensures HostOf(p, beyond) == None
  {
    hide HostAt;
  }

  /** Without a line that has the name there is no host. */
  lemma NoHostLine(ls: seq<seq<byte>>, last: seq<byte>, beyond: byte)
    requires Nameless(last) && forall i :: 0 <= i < |ls| ==> Nameless(ls[i])
    ensures HostOf(Lines(ls) + last, beyond) == None
  {
    hide HostOf, Nameless;
    var p := Lines(ls) + last;
    NoneBefore(ls, last);
    assert p[|Lines(ls)|..] == last;
    forall k: nat | LineStart(p, k) ensures !NameAt(p, k) {
      if k >= |Lines(ls)| {
        LastLine(p, |Lines(ls)|, last, k);
      }
    }
    hide NameAt;
    assert forall k: nat, v: nat :: !HostAt(p, beyond, k, v);
    NoHost(p, beyond);
  }

  lemma LastLine(p: seq<byte>, from: nat, l: seq<byte>, k: nat)
    requires from <= k && from <= |p| && p[from..] == l && Nameless(l) && LineStart(p, k)
    ensures !NameAt(p, k)
  {
    if k + 5 < |p| {
      NameIsSpelled(p, k);
      if k > from {
        assert false;
      }
    }
  }

  /** Nor is one read behind a blank line. */
  lemma NoHostBehindBlank(ls: seq<seq<byte>>, blank: seq<byte>, body: seq<byte>, beyond: byte)
    requires ls != [] && HeaderLines(ls) && BlankLine(blank) && |body| >= 2
    ensures HostOf(Lines(ls) + (blank + [10] + body), beyond) == None
  {
    hide HostOf, NameAt, HeaderLines, Lines, Nameless;
    var t := blank + [10] + body;
    var p, k := Lines(ls) + t, |Lines(ls)|;
    assert forall i :: 0 <= i < |ls| ==> Nameless(ls[i]) by { AreNameless(ls); }
    NoneBefore(ls, t);
    EndsLine(ls);
    assert p[k] == t[0] && p[k + 1] == t[1] && p[k - 1] == Lines(ls)[k - 1];
    assert Blank(p, k);
    assert !NameAt(p, k) by { LineAtBlank(p, k); }
    forall k': nat, v: nat ensures !HostAt(p, beyond, k', v) {
      assert HeaderAt(p, k') ==> k' > k;
    }
    NoHost(p, beyond);
  }

  lemma EndsLine(ls: seq<seq<byte>>)
    requires ls != []
    ensures Lines(ls) != [] && Lines(ls)[|Lines(ls)| - 1] == 10
  {
  }

  lemma LineAtBlank(p: seq<byte>, k: nat)
    requires Blank(p, k)
    ensures !NameAt(p, k)
  {
    if k + 5 < |p| {
      NameIsSpelled(p, k);
    }
  }
}
