/**
 Streams that announce more than they carry. The C client announces the whole length of a payload
 and sends that length cut to 16 bits (client/c/client.c), so the proxy never completes it.
 */
module LongPayloads {
  import opened Bytes
  import opened Tlv
  import opened Requests
  import opened Packetiser
  import opened Proxy
  import opened Safety
  import D = Delivery
  import C = Client
  import W = Worker

  // ---------------------------------------------------------------------------
  // The bytes that arrive for one id

  ghost function LengthOf(p: Datagram): nat {
    if |Data(p)| >= HEADER_LENGTH then DecodeHeader(Data(p)).chunkLength else 0
  }

  ghost function TotalLength(ps: seq<Datagram>): nat {
    if ps == [] then 0 else TotalLength(ps[..|ps| - 1]) + LengthOf(ps[|ps| - 1])
  }

  lemma TotalSnoc(ps: seq<Datagram>, p: Datagram)
    ensures TotalLength(ps + [p]) == TotalLength(ps) + LengthOf(p)
  {
    hide LengthOf;
    assert (ps + [p])[..|ps|] == ps;
  }

  lemma {:induction false} BytesOfPackets(evs: seq<Event>, k: Id)
    ensures BytesFor(evs, k) == TotalLength(D.PacketsOf(Project(evs, k)))
  {
    if evs != [] {
      hide LengthOf, Touches, D.PacketsOf, TotalLength;
      var init, e := evs[..|evs| - 1], evs[|evs| - 1];
      BytesOfPackets(init, k);
      var pe := Project(init, k);
      D.PacketsSnoc(pe, e);
      assert pe + [] == pe;
      if e.Recv? {
        TotalSnoc(D.PacketsOf(pe), e.packet);
        OfferedIs(e, k);
      }
    } else {
      assert D.PacketsOf([]) == [];
    }
  }

  lemma OfferedIs(e: Event, k: Id)
    requires e.Recv?
    ensures Offered(e, k) == if Touches(e, k) then LengthOf(e.packet) else 0
  {
    hide DecodeHeader, Touches;
  }

  lemma {:induction false} TouchingIsProjected(evs: seq<Event>, k: Id, i: nat)
    requires i < |evs| && evs[i].Recv? && Touches(evs[i], k)
    ensures evs[i].packet in D.PacketsOf(Project(evs, k))
  {
    hide Touches, D.PacketsOf;
    var n := |evs| - 1;
    var init, e := evs[..n], evs[n];
    var pe := Project(init, k);
    D.PacketsSnoc(pe, e);
    assert pe + [] == pe;
    if i < n {
      TouchingIsProjected(init, k, i);
    }
  }

  // ---------------------------------------------------------------------------
  // Streams

  /** The packets that arrive with the id of `m` are the first packets of a stream of `n` of its bytes, in order. */
  ghost predicate StreamArriving(evs: seq<Event>, m: Message, n: nat)
    requires Sendable(m) && n <= |m.payload|
  {
    var ps := D.PacketsOf(Project(evs, m.id));
    && |ps| <= |Stream(m, n)|
    && forall i :: 0 <= i < |ps| ==> Nth(m, n, i).buffer[..Nth(m, n, i).length] <= Data(ps[i])
  }

  lemma HeaderOfNth(m: Message, n: nat, i: nat, b: seq<byte>)
    requires Sendable(m) && n <= |m.payload| < 0x1_0000_0000
    requires Nth(m, n, i).buffer[..Nth(m, n, i).length] <= b
    ensures var s := |Serialise(m.options)|;
      && Cut(n, s, i) <= Cut(n, s, i + 1) && |b| >= HEADER_LENGTH
      && DecodeHeader(b) == Header(1, m.id, m.total, Cut(n, s, i), Cut(n, s, i + 1) - Cut(n, s, i))
  {
    hide EncodeHeader, DecodeHeader, Serialise;
    var s := |Serialise(m.options)|;
    NthIs(m, n, i);
    CutMonotone(n, s, i);
    var from, to, q := Cut(n, s, i), Cut(n, s, i + 1), Nth(m, n, i);
    var h := Header(1, m.id, m.total, from, to - from);
    var used := q.buffer[..q.length];
    assert used == PacketBytes(m, i == 0, from, to);
    var rest := Serialise(OptionsOf(m, i == 0)) + m.payload[from..to];
    assert used == EncodeHeader(h) + rest;
    assert b == used + b[|used|..];
    assert b == EncodeHeader(h) + (rest + b[|used|..]);
    HeaderRoundTrip(h, rest + b[|used|..]);
  }

  lemma {:induction false} StreamLength(ps: seq<Datagram>, m: Message, n: nat)
    requires Sendable(m) && n <= |m.payload| < 0x1_0000_0000
    requires forall i :: 0 <= i < |ps| ==> Nth(m, n, i).buffer[..Nth(m, n, i).length] <= Data(ps[i])
    ensures TotalLength(ps) == Cut(n, |Serialise(m.options)|, |ps|)
  {
    hide Nth, DecodeHeader, Serialise;
    if ps != [] {
      var i := |ps| - 1;
      assert forall j :: 0 <= j < i ==> ps[..i][j] == ps[j];
      StreamLength(ps[..i], m, n);
      HeaderOfNth(m, n, i, Data(ps[i]));
    }
  }

  /** A stream that carries fewer bytes than it announces is never dispatched, in any run. */
  lemma ShortStreamNeverDispatched(evs: seq<Event>, m: Message, n: nat)
    requires m.id != 0 && Sendable(m) && n <= |m.payload| < 0x1_0000_0000 && n < m.total
    requires StreamArriving(evs, m, n)
    ensures SentFor(Run(evs).dispatched, m.id) == []
  {
    hide Nth, DecodeHeader, Serialise, Run, SentFor, BytesFor, TotalLength, Project, D.PacketsOf, Touches, Stream;
    var ps := D.PacketsOf(Project(evs, m.id));
    BytesOfPackets(evs, m.id);
    StreamLength(ps, m, n);
    forall i | 0 <= i < |evs| && evs[i].Recv? && Touches(evs[i], m.id) && |Data(evs[i].packet)| >= HEADER_LENGTH
      ensures DecodeHeader(Data(evs[i].packet)).totalLength == m.total
    {
      TouchingIsProjected(evs, m.id, i);
      var j :| 0 <= j < |ps| && ps[j] == evs[i].packet;
      HeaderOfNth(m, n, j, Data(ps[j]));
    }
    NeverEnough(evs, m.id, m.total);
  }

  // ---------------------------------------------------------------------------
  // The C client

  lemma NothingWithoutPackets(evs: seq<Event>, k: Id)
    requires k != 0 && D.PacketsOf(Project(evs, k)) == []
    ensures SentFor(Run(evs).dispatched, k) == []
  {
    hide Run, SentFor, Project, D.PacketsOf, Touches;
    BytesOfPackets(evs, k);
    forall i | 0 <= i < |evs| && evs[i].Recv? ensures !Touches(evs[i], k) {
      if Touches(evs[i], k) {
        TouchingIsProjected(evs, k, i);
        assert false;
      }
    }
    NeverEnough(evs, k, 1);
  }

  /** The packets of `j` that arrive: those MakeRequest builds, in order and from one source, and no others. */
  ghost predicate JobArriving(evs: seq<Event>, j: C.Job, cipher: W.Cipher, source: Source)
    requires C.Wrapped(j, cipher).Some?
  {
    var m := D.MessageOf(C.SenderOf(j, cipher, source)); var ps := D.PacketsOf(Project(evs, j.id));
    && Sendable(m) && StreamArriving(evs, m, |m.payload| % 0x1_0000)
    && forall i :: 0 <= i < |ps| ==> SourceOf(ps[i]) == source
  }

  lemma ArrivingIs(evs: seq<Event>, j: C.Job, cipher: W.Cipher, source: Source)
    requires C.Wrapped(j, cipher).Some? && JobArriving(evs, j, cipher, source)
    requires D.WellFormed(C.SenderOf(j, cipher, source))
    ensures D.Arriving(evs, C.SenderOf(j, cipher, source))
  {
    hide C.Wrapped, Project, D.PacketsOf, Nth, Serialise, OptionBlock;
    D.MessageSendable(C.SenderOf(j, cipher, source));
  }

  /**
   What becomes of a payload that 16 bits cannot count, whatever part of its stream arrives and
   whatever else does: without a key nothing is dispatched for it, and with a key its worker, if
   it gets one, sends nothing.
   */
  lemma TooLongIsNeverSent(
    evs: seq<Event>, j: C.Job, cipher: W.Cipher, source: Source, config: W.Config, now: nat, beyond: byte)
    requires C.JobOk(j) && !C.Fits(j) && j.id != 0 && C.Sound(cipher) && C.Wrapped(j, cipher).Some?
    requires config.key == j.key && JobArriving(evs, j, cipher, source)
    ensures var sent := SentFor(Run(evs).dispatched, j.id);
      && (j.key.None? ==> sent == [])
      && |sent| <= 1 && (|sent| == 1 ==> W.WorkReady(sent[0]) && W.Work(sent[0], config, cipher, now, beyond) == None)
  {
    hide C.Wrapped, C.Sound, Run, SentFor, W.Work, W.WorkReady, C.Fits, JobArriving, D.WellFormed, D.Arriving, D.Swept;
    var c := C.SenderOf(j, cipher, source);
    var n := |c.payload|;
    C.WrappedSizes(j, cipher);
    C.SenderWellFormed(j, cipher, source);
    if n >= 0x1_0000 {
      LongStream(evs, j, cipher, source);
    } else {
      assert j.key.Some? by { C.LongNeedsKey(j, cipher); }
      if n == 0 {
        EmptyStream(evs, j, cipher, source);
      } else {
        ArrivingIs(evs, j, cipher, source);
        SealedStream(evs, j, cipher, source, config, now, beyond);
      }
    }
  }

  lemma LongStream(evs: seq<Event>, j: C.Job, cipher: W.Cipher, source: Source)
    requires C.Wrapped(j, cipher).Some? && j.id != 0 && JobArriving(evs, j, cipher, source)
    requires 0x1_0000 <= |C.Wrapped(j, cipher).value.1| < 0x1_0000_0000
    ensures SentFor(Run(evs).dispatched, j.id) == []
  {
    hide C.Wrapped, Run, SentFor, Serialise, Project, D.PacketsOf;
    var m := D.MessageOf(C.SenderOf(j, cipher, source));
    ShortStreamNeverDispatched(evs, m, |m.payload| % 0x1_0000);
  }

  lemma EmptyStream(evs: seq<Event>, j: C.Job, cipher: W.Cipher, source: Source)
    requires C.Wrapped(j, cipher).Some? && j.id != 0 && JobArriving(evs, j, cipher, source)
    requires C.Wrapped(j, cipher).value.1 == []
    ensures SentFor(Run(evs).dispatched, j.id) == []
  {
    hide C.Wrapped, Run, SentFor, Serialise, Project, D.PacketsOf;
    NothingWithoutPackets(evs, j.id);
  }

  lemma SealedStream(
    evs: seq<Event>, j: C.Job, cipher: W.Cipher, source: Source, config: W.Config, now: nat, beyond: byte)
    requires C.JobOk(j) && !C.Fits(j) && C.Sound(cipher) && C.Wrapped(j, cipher).Some? && config.key == j.key
    requires D.WellFormed(C.SenderOf(j, cipher, source)) && D.Arriving(evs, C.SenderOf(j, cipher, source))
    ensures var sent := SentFor(Run(evs).dispatched, j.id);
      |sent| <= 1 && (|sent| == 1 ==> W.WorkReady(sent[0]) && W.Work(sent[0], config, cipher, now, beyond) == None)
  {
    hide C.Wrapped, C.Sound, Run, SentFor, W.Work, W.WorkReady, C.Fits, D.WellFormed, D.Arriving, D.Swept;
    hide D.Faithful, W.Decrypt, W.ParseInner, W.Vectorised;
    var c := C.SenderOf(j, cipher, source);
    if !D.Arrived(evs, c) {
      D.NotBeforeTheLast(evs, c);
    } else {
      D.DeliveredIffNotSwept(evs, c);
      if !D.Swept(evs, c) {
        var r := SentFor(Run(evs).dispatched, j.id)[0];
        C.WorkerReads(r, j, cipher, source, config);
        if W.Work(r, config, cipher, now, beyond).Some? {
          var out := W.Work(r, config, cipher, now, beyond).value;
          C.WorkerUndoesClient(r, j, cipher, source, config, now, beyond, out);
          assert false;
        }
      }
    }
  }
}
