/**
 The search for the Host header in the message to be sent (ff_http_get_destination_host of
 src/http.c). Its nested loops are proved to return a host exactly when a description without
 loops says there is one.
 */
module HostScanner {
  import opened Bytes

  const MAX_SEARCH: nat := 8096
  const LF: byte := 10
  const CR: byte := 13
  const SPACE: byte := 32
  /** host: */
  const HOST: seq<byte> := [104, 111, 115, 116, 58]

  /** The byte at `i`; the scanner may look at the one byte behind the message, `beyond`. */
  function At(p: seq<byte>, beyond: byte, i: nat): byte {
    if i < |p| then p[i] else beyond
  }

  function Lower(c: byte): byte {
    if 65 <= c <= 90 then c + 32 else c
  }

  predicate HostChar(c: byte) {
    c == 46 || c == 45 || 48 <= c <= 57 || 65 <= c <= 90 || 97 <= c <= 122
  }

  // ---------------------------------------------------------------------------
  // What is searched for

  ghost predicate LineStart(p: seq<byte>, k: nat) {
    k == 0 || (k <= |p| && p[k - 1] == LF)
  }

  /** A blank line, which ends the headers; the very first position is exempt. */
  predicate Blank(p: seq<byte>, k: nat) {
    k != 0 && k + 2 < |p| && (p[k] == LF || (p[k] == CR && p[k + 1] == LF))
  }

  /** The name of the header, in any case, and at least one byte behind it. */
  predicate NameAt(p: seq<byte>, k: nat) {
    k + 5 < |p| && forall i | 0 <= i < 5 :: Lower(p[k + i]) == HOST[i]
  }

  /** Line `k` is the first that names the header, and no blank line comes before it. */
  ghost predicate HeaderAt(p: seq<byte>, k: nat) {
    && LineStart(p, k) && NameAt(p, k)
    && (forall i :: 0 <= i < k && LineStart(p, i) ==> !NameAt(p, i))
    && (forall i :: 0 <= i <= k && LineStart(p, i) ==> !Blank(p, i))
  }

  /** The value of the header in line `k` starts at `v`: only spaces lie between. */
  ghost predicate ValueAt(p: seq<byte>, beyond: byte, k: nat, v: nat) {
    k + 5 <= v && (forall i :: k + 5 <= i < v ==> At(p, beyond, i) == SPACE) && At(p, beyond, v) != SPACE
  }

  /** The check that follows every move of the scanner. */
  predicate Readable(p: seq<byte>, beyond: byte, i: nat) {
    i <= |p| && At(p, beyond, i) != 0 && i < MAX_SEARCH
  }

  /** Nothing up to `v` stops the scanner. */
  ghost predicate Clear(p: seq<byte>, beyond: byte, v: nat) {
    forall i :: 0 < i <= v ==> Readable(p, beyond, i)
  }

  ghost predicate HostAt(p: seq<byte>, beyond: byte, k: nat, v: nat) {
    HeaderAt(p, k) && ValueAt(p, beyond, k, v) && Clear(p, beyond, v)
  }

  /** The run of host name characters from `v`, `limit` of them at most. */
  function HostRun(p: seq<byte>, beyond: byte, v: nat, limit: nat): seq<byte>
    decreases limit
  {
    if limit == 0 || v > |p| || !HostChar(At(p, beyond, v)) then []
    else [At(p, beyond, v)] + HostRun(p, beyond, v + 1, limit - 1)
  }

  const MAX_HOST: nat := 256

  /** The host to send to, if there is one. */
  ghost function HostOf(p: seq<byte>, beyond: byte): Option<seq<byte>> {
    if exists k: nat, v: nat :: HostAt(p, beyond, k, v) then
      var k: nat, v: nat :| HostAt(p, beyond, k, v);
      Some(HostRun(p, beyond, v, MAX_HOST))
    else None
  }

  /** There is at most one line and one value to be found, so the host is determined. */
  lemma HostIsUnique(p: seq<byte>, beyond: byte, k: nat, v: nat, k': nat, v': nat)
    requires HostAt(p, beyond, k, v) && HostAt(p, beyond, k', v')
    ensures k == k' && v == v'
  {
    assert k == k';
  }

  lemma HostOfIs(p: seq<byte>, beyond: byte, h: seq<byte>)
    ensures HostOf(p, beyond) == Some(h) <==>
      exists k: nat, v: nat :: HostAt(p, beyond, k, v) && h == HostRun(p, beyond, v, MAX_HOST)
  {
    hide HostAt, HostRun;
    forall k: nat, v: nat, k': nat, v': nat | HostAt(p, beyond, k, v) && HostAt(p, beyond, k', v')
      ensures v == v'
    {
      HostIsUnique(p, beyond, k, v, k', v');
    }
  }

  // ---------------------------------------------------------------------------
  // The loops

  /** The loop that copies the host name. */
  method CopyHost(p: seq<byte>, beyond: byte, v: nat, limit: nat) returns (host: seq<byte>)
    ensures host == HostRun(p, beyond, v, limit)
  {
    var i := v;
    host := [];
    while i <= |p| && HostChar(At(p, beyond, i)) && |host| < limit
      invariant |host| == i - v <= limit
      invariant HostRun(p, beyond, v, limit) == host + HostRun(p, beyond, i, limit - |host|)
      decreases |p| + 1 - i
    {
      host := host + [At(p, beyond, i)];
      i := i + 1;
    }
  }

  /** From the header name in line `k` to its value: step over the name, then over spaces. */
  method SkipToValue(p: seq<byte>, beyond: byte, k: nat) returns (v: Option<nat>)
    requires NameAt(p, k) && (forall i :: 0 < i <= k ==> Readable(p, beyond, i))
    ensures v.Some? ==> ValueAt(p, beyond, k, v.value) && Clear(p, beyond, v.value)
    ensures v.None? ==> forall w :: ValueAt(p, beyond, k, w) ==> !Clear(p, beyond, w)
  {
    var i := k + 5;
    if !Readable(p, beyond, i) {
      return None;
    }
    forall j | k < j < i ensures Readable(p, beyond, j) {
      NameByte(p, beyond, k, j);
    }
    while At(p, beyond, i) == SPACE
      invariant k + 5 <= i <= |p| && Readable(p, beyond, i)
      invariant forall j :: k + 5 <= j < i ==> At(p, beyond, j) == SPACE
      invariant forall j :: 0 < j <= i ==> Readable(p, beyond, j)
      decreases |p| - i
    {
      i := i + 1;
      if !Readable(p, beyond, i) {
        return None;
      }
    }
    return Some(i);
  }

  lemma NameByte(p: seq<byte>, beyond: byte, k: nat, j: nat)
    requires NameAt(p, k) && k < j < k + 5 && Readable(p, beyond, k + 5)
    ensures Readable(p, beyond, j)
  {
    assert Lower(p[k + (j - k)]) == HOST[j - k];
  }

  /** Advance to the next line. */
  method NextLine(p: seq<byte>, beyond: byte, k: nat) returns (next: Option<nat>)
    requires k <= |p| && forall i :: 0 < i <= k ==> Readable(p, beyond, i)
    ensures next.Some? ==>
      && k < next.value <= |p| && LineStart(p, next.value)
      && (forall i :: k < i < next.value ==> !LineStart(p, i))
      && (forall i :: 0 < i <= next.value ==> Readable(p, beyond, i))
    ensures next.None? ==> exists j :: k < j && !Readable(p, beyond, j) && forall i :: k < i < j ==> !LineStart(p, i)
  {
    var i := k;
    while At(p, beyond, i) != LF
      invariant k <= i <= |p|
      invariant forall j :: k < j <= i ==> !LineStart(p, j)
      invariant forall j :: 0 < j <= i ==> Readable(p, beyond, j)
      decreases |p| - i
    {
      i := i + 1;
      if !Readable(p, beyond, i) {
        return None;
      }
    }
    i := i + 1;
    if !Readable(p, beyond, i) {
      return None;
    }
    return Some(i);
  }

  /** Behind a byte that stops the scanner there is no host to be found. */
  lemma StopsSearch(p: seq<byte>, beyond: byte, from: nat, j: nat)
    requires from < j && !Readable(p, beyond, j) && forall i :: from < i < j ==> !LineStart(p, i)
    requires forall i :: 0 <= i <= from && LineStart(p, i) ==> !NameAt(p, i)
    ensures forall k: nat, v: nat :: !HostAt(p, beyond, k, v)
  {
    forall k: nat, v: nat ensures !HostAt(p, beyond, k, v) {
      assert HeaderAt(p, k) ==> k >= j;
      assert Clear(p, beyond, v) ==> v < j;
    }
  }

  lemma BlankStopsSearch(p: seq<byte>, beyond: byte, i: nat)
    requires LineStart(p, i) && Blank(p, i)
    requires forall j :: 0 <= j < i && LineStart(p, j) ==> !NameAt(p, j)
    ensures forall k: nat, v: nat :: !HostAt(p, beyond, k, v)
  {
  }

  lemma NoOtherLine(p: seq<byte>, beyond: byte, i: nat)
    requires LineStart(p, i) && NameAt(p, i) && (forall j :: 0 <= j < i && LineStart(p, j) ==> !NameAt(p, j))
    requires forall v :: ValueAt(p, beyond, i, v) ==> !Clear(p, beyond, v)
    ensures forall k: nat, v: nat :: !HostAt(p, beyond, k, v)
  {
    forall k: nat, v: nat ensures !HostAt(p, beyond, k, v) {
      assert HeaderAt(p, k) ==> k == i;
    }
  }

  /** ff_http_get_destination_host: finds the host exactly when there is one to be found. */
  method GetDestinationHost(p: seq<byte>, beyond: byte) returns (host: Option<seq<byte>>)
    ensures host == HostOf(p, beyond)
    ensures host.Some? ==> exists k: nat, v: nat :: HostAt(p, beyond, k, v) && host.value == HostRun(p, beyond, v, MAX_HOST)
    ensures host.None? ==> forall k: nat, v: nat :: !HostAt(p, beyond, k, v)
  {
    hide HostRun, Readable, NameAt, Blank, HostOf;
    forall h
      ensures HostOf(p, beyond) == Some(h) <==>
        exists k: nat, v: nat :: HostAt(p, beyond, k, v) && h == HostRun(p, beyond, v, MAX_HOST)
    {
      HostOfIs(p, beyond, h);
    }
    if |p| == 0 {
      assert forall k :: !NameAt(p, k) by { TooShort(p); }
      return None;
    }
    var line := 0;
    while true
      invariant 0 <= line <= |p| && LineStart(p, line)
      invariant forall i :: 0 <= i < line && LineStart(p, i) ==> !NameAt(p, i) && !Blank(p, i)
      invariant forall i :: 0 < i <= line ==> Readable(p, beyond, i)
      decreases |p| - line
    {
      if Blank(p, line) {
        BlankStopsSearch(p, beyond, line);
        return None;
      }
      if NameAt(p, line) {
        var v := SkipToValue(p, beyond, line);
        if v.None? {
          NoOtherLine(p, beyond, line);
          return None;
        }
        assert HostAt(p, beyond, line, v.value);
        var h := CopyHost(p, beyond, v.value, MAX_HOST);
        return Some(h);
      }
      var next := NextLine(p, beyond, line);
      if next.None? {
        ghost var j :| line < j && !Readable(p, beyond, j) && forall i :: line < i < j ==> !LineStart(p, i);
        StopsSearch(p, beyond, line, j);
        return None;
      }
      line := next.value;
    }
  }

  lemma TooShort(p: seq<byte>)
    requires |p| == 0
    ensures forall k :: !NameAt(p, k)
  {
  }

  /** A host is never read from the body: no blank line lies at or before the line it was found in. */
  lemma NeverFromTheBody(p: seq<byte>, beyond: byte, k: nat, v: nat, blank: nat)
    requires HostAt(p, beyond, k, v) && LineStart(p, blank) && Blank(p, blank)
    ensures v < blank
  {
    assert blank > k && Readable(p, beyond, v);
    if blank <= v {
      ValueIsOnItsLine(p, beyond, k, v, blank);
      assert false;
    }
  }

  /** No line starts between a header name and its value. */
  lemma ValueIsOnItsLine(p: seq<byte>, beyond: byte, k: nat, v: nat, i: nat)
    requires NameAt(p, k) && ValueAt(p, beyond, k, v) && k < i <= v && v <= |p|
    ensures !LineStart(p, i)
  {
    if i - 1 >= k + 5 {
      assert At(p, beyond, i - 1) == SPACE;
    } else {
      assert Lower(p[k + (i - 1 - k)]) == HOST[i - 1 - k];
    }
  }
}
