/**
 The hash table under its mutex (src/hash_table.c) as used by the packet thread, the workers and
 the clean-up thread (src/server.c). An operation is several writes: the trie and the list are
 out of step in between. Every interleaving of the threads' steps is a schedule.
 */
module Locking {
  import opened Bytes
  import opened Tables

  datatype Op<V> = GetOp(id: Id) | PutOp(id: Id, value: V) | RemoveOp(id: Id) | IterateOp

  /** What an operation has done, in the order in which the mutex was given back. */
  datatype Entry<V> =
    | DidGet(id: Id, result: Option<V>)
    | DidPut(id: Id, value: V)
    | DidRemove(id: Id)
    | DidIterate(seen: Table<V>)

  /** Where a thread is. From `Holding` on it holds the mutex. */
  datatype Pc<V> =
    | Idle
    | Waiting(op: Op<V>)
    | Holding(op: Op<V>)
    | PutHalf(id: Id, value: V)                                // in the trie, not yet on the list
    | RemoveHalf(id: Id)                                       // off its chain, still on the list
    | Scanning(seen: Table<V>, noted: seq<Id>, room: nat)      // between iterator init and iterator free
    | Finished(entry: Entry<V>, noted: seq<Id>)

  /** A thread, with the removals that a clean-up pass has left it to do. */
  datatype Thread<V> = Thread(pc: Pc<V>, todo: seq<Id>)

  /** `index` is what the trie finds, `order` what the list links. */
  datatype System<V> = System(
    index: map<Id, V>, order: seq<Id>, length: nat, mutex: Option<nat>, threads: map<nat, Thread<V>>, log: seq<Entry<V>>)

  predicate Critical<V>(pc: Pc<V>) {
    !pc.Idle? && !pc.Waiting?
  }

  function ThreadOf<V>(s: System<V>, t: nat): Thread<V> {
    if t in s.threads then s.threads[t] else Thread(Idle, [])
  }

  // ---------------------------------------------------------------------------
  // Steps

  function Without(order: seq<Id>, id: Id): seq<Id> {
    if order == [] then [] else if order[0] == id then order[1..] else [order[0]] + Without(order[1..], id)
  }

  function Set<V>(s: System<V>, t: nat, pc: Pc<V>): System<V> {
    s.(threads := s.threads[t := ThreadOf(s, t).(pc := pc)])
  }

  /** One step of thread `t`; `op` is what it starts if it has nothing to do. A thread that cannot step stays put. */
  function Step<V>(s: System<V>, t: nat, op: Op<V>, stale: V -> bool): System<V> {
    var th := ThreadOf(s, t);
    match th.pc
    case Idle =>
      if th.todo == [] then Set(s, t, Waiting(op))
      else s.(threads := s.threads[t := Thread(Waiting(RemoveOp(th.todo[0])), th.todo[1..])])
    case Waiting(o) => if s.mutex.None? then Set(s.(mutex := Some(t)), t, Holding(o)) else s
    case Holding(o) => Enter(s, t, o)
    case PutHalf(id, v) =>
      Set(s.(order := s.order + [id], length := s.length + 1), t, Finished(DidPut(id, v), []))
    case RemoveHalf(id) =>
      Set(s.(order := Without(s.order, id), length := if s.length > 0 then s.length - 1 else 0),
          t, Finished(DidRemove(id), []))
    case Scanning(seen, noted, room) =>
      if |seen| < |s.order| && s.order[|seen|] in s.index then
        var x := (s.order[|seen|], s.index[s.order[|seen|]]);
        Set(s, t, Scanning(seen + [x], if stale(x.1) then noted + [x.0] else noted, room))
      else Set(s, t, Finished(DidIterate(seen), noted))
    case Finished(e, noted) =>
      s.(mutex := None, log := s.log + [e], threads := s.threads[t := Thread(Idle, th.todo + noted)])
  }

  /** The first step of an operation that holds the mutex. */
  function Enter<V>(s: System<V>, t: nat, o: Op<V>): System<V> {
    match o
    case GetOp(id) =>
      Set(s, t, Finished(DidGet(id, if id in s.index then Some(s.index[id]) else None), []))
    case PutOp(id, v) =>
      if id in s.index then Set(s.(index := s.index[id := v]), t, Finished(DidPut(id, v), []))
      else Set(s.(index := s.index[id := v]), t, PutHalf(id, v))
    case RemoveOp(id) =>
      if id in s.index then Set(s.(index := s.index - {id}), t, RemoveHalf(id))
      else Set(s, t, Finished(DidRemove(id), []))
    case IterateOp => Set(s, t, Scanning([], [], s.length))
  }

  function Empty<V>(): System<V> {
    System(map[], [], 0, None, map[], [])
  }

  function Run<V>(schedule: seq<(nat, Op<V>)>, stale: V -> bool): System<V> {
    if schedule == [] then Empty()
    else
      var (t, op) := schedule[|schedule| - 1];
      Step(Run(schedule[..|schedule| - 1], stale), t, op, stale)
  }

  // ---------------------------------------------------------------------------
  // The sequential meaning

  function After<V>(t: Table<V>, e: Entry<V>): Table<V> {
    match e
    case DidPut(id, v) => Put(t, id, v)
    case DidRemove(id) => Remove(t, id)
    case _ => t
  }

  function Replay<V>(log: seq<Entry<V>>): Table<V> {
    if log == [] then [] else After(Replay(log[..|log| - 1]), log[|log| - 1])
  }

  ghost predicate EntryLegal<V>(e: Entry<V>, t: Table<V>) {
    match e
    case DidGet(id, r) => r == Lookup(t, id)
    case DidIterate(seen) => seen == t
    case _ => true
  }

  /** Every result is the one a sequential table gives at that point of the log. */
  ghost predicate Legal<V>(log: seq<Entry<V>>) {
    forall i :: 0 <= i < |log| ==> EntryLegal(log[i], Replay(log[..i]))
  }

  // ---------------------------------------------------------------------------
  // The invariant

  ghost predicate DistinctIds(order: seq<Id>) {
    forall i, j :: 0 <= i < j < |order| ==> order[i] != order[j]
  }

  /** Trie, list and length agree with the table `t`. */
  ghost predicate Represents<V>(index: map<Id, V>, order: seq<Id>, length: nat, t: Table<V>) {
    && |order| == |t| == length && DistinctKeys(t)
    && (forall i :: 0 <= i < |t| ==> order[i] == t[i].0 && order[i] in index && index[order[i]] == t[i].1)
    && (forall id :: id in index ==> id in order)
  }

  ghost function StaleIds<V>(seen: Table<V>, stale: V -> bool): seq<Id> {
    if seen == [] then []
    else StaleIds(seen[..|seen| - 1], stale) + if stale(seen[|seen| - 1].1) then [seen[|seen| - 1].0] else []
  }

  /** What holds inside the critical section of a thread at `pc`, when the log so far means `t`. */
  ghost predicate Inside<V>(s: System<V>, pc: Pc<V>, t: Table<V>, stale: V -> bool) {
    match pc
    case Idle => false
    case Waiting(_) => false
    case Holding(_) => Represents(s.index, s.order, s.length, t)
    case PutHalf(id, v) =>
      Lookup(t, id).None? && id in s.index && s.index[id] == v && Represents(s.index - {id}, s.order, s.length, t)
    case RemoveHalf(id) =>
      Lookup(t, id).Some? && id !in s.index && Represents(s.index[id := Lookup(t, id).value], s.order, s.length, t)
    case Scanning(seen, noted, room) =>
      && Represents(s.index, s.order, s.length, t)
      && seen <= t && room == |t| && noted == StaleIds(seen, stale)
    case Finished(e, noted) =>
      && EntryLegal(e, t)
      && Represents(s.index, s.order, s.length, After(t, e))
      && (e.DidIterate? ==> noted == StaleIds(t, stale))
  }

  ghost predicate Inv<V>(s: System<V>, stale: V -> bool) {
    && Legal(s.log) && DistinctKeys(Replay(s.log))
    && (s.mutex.None? ==> Represents(s.index, s.order, s.length, Replay(s.log)))
    && (s.mutex.Some? ==> Inside(s, ThreadOf(s, s.mutex.value).pc, Replay(s.log), stale))
    && (forall t :: t in s.threads && Critical(s.threads[t].pc) ==> s.mutex == Some(t))
  }

  lemma LookupIndex<V>(index: map<Id, V>, order: seq<Id>, length: nat, t: Table<V>, id: Id)
    requires Represents(index, order, length, t)
    ensures Lookup(t, id) == if id in index then Some(index[id]) else None
    ensures id in index <==> id in order
  {
    hide Lookup;
    if id in index {
      var i :| 0 <= i < |order| && order[i] == id;
      LookupAt(t, i);
    }
  }

  lemma {:induction false} WithoutAt(order: seq<Id>, i: nat)
    requires i < |order| && DistinctIds(order)
    ensures Without(order, order[i]) == order[..i] + order[i + 1..]
  {
    if i > 0 {
      assert order[0] != order[i];
      WithoutAt(order[1..], i - 1);
      assert order[..i] + order[i + 1..] == [order[0]] + (order[1..][..i - 1] + order[1..][i..]);
    } else {
      assert order[..0] + order[1..] == order[1..];
    }
  }

  lemma PutOld<V>(index: map<Id, V>, order: seq<Id>, length: nat, t: Table<V>, id: Id, v: V)
    requires Represents(index, order, length, t) && id in index
    ensures Represents(index[id := v], order, length, Put(t, id, v))
  {
    hide Put, Lookup;
    var i :| 0 <= i < |order| && order[i] == id;
    PutAt(t, i, v);
    PutLaws(t, id, v);
  }

  lemma PutNewId<V>(index: map<Id, V>, order: seq<Id>, length: nat, t: Table<V>, id: Id, v: V)
    requires Represents(index - {id}, order, length, t) && id in index && index[id] == v && Lookup(t, id).None?
    ensures Represents(index, order + [id], length + 1, Put(t, id, v))
  {
    hide Put, Lookup;
    PutNew(t, id, v);
    PutLaws(t, id, v);
    forall k | k in index ensures k in order + [id] {
      if k != id {
        assert k in index - {id};
      }
    }
  }

  lemma RemoveId<V>(index: map<Id, V>, order: seq<Id>, length: nat, t: Table<V>, id: Id, v: V)
    requires Represents(index[id := v], order, length, t) && id !in index
    ensures length > 0 && Represents(index, Without(order, id), length - 1, Remove(t, id))
  {
    hide Remove, Lookup, Without;
    assert id in index[id := v];
    var i :| 0 <= i < |order| && order[i] == id;
    assert DistinctIds(order);
    WithoutAt(order, i);
    RemoveAt(t, i);
    RemoveShape(t, id);
    RemovePlaces(index, order, length, t, id, v, i);
    RemoveRest(index, order, length, t, id, v, i);
  }

  lemma RemovePlaces<V>(index: map<Id, V>, order: seq<Id>, length: nat, t: Table<V>, id: Id, v: V, i: nat)
    requires Represents(index[id := v], order, length, t) && id !in index && i < |order| && order[i] == id
    ensures var o, t' := order[..i] + order[i + 1..], t[..i] + t[i + 1..];
      forall j :: 0 <= j < |t'| ==> o[j] == t'[j].0 && o[j] in index && index[o[j]] == t'[j].1
  {
    var o, t' := order[..i] + order[i + 1..], t[..i] + t[i + 1..];
    forall j | 0 <= j < |t'| ensures o[j] == t'[j].0 && o[j] in index && index[o[j]] == t'[j].1 {
      var k := if j < i then j else j + 1;
      assert o[j] == order[k] && t'[j] == t[k] && order[k] != id;
      assert order[k] in index[id := v];
    }
  }

  lemma RemoveRest<V>(index: map<Id, V>, order: seq<Id>, length: nat, t: Table<V>, id: Id, v: V, i: nat)
    requires Represents(index[id := v], order, length, t) && id !in index && i < |order| && order[i] == id
    ensures forall k :: k in index ==> k in order[..i] + order[i + 1..]
  {
    var o := order[..i] + order[i + 1..];
    forall k | k in index ensures k in o {
      assert k in index[id := v];
      var j :| 0 <= j < |order| && order[j] == k;
      assert o[if j < i then j else j - 1] == k;
    }
  }

  // ---------------------------------------------------------------------------
  // Preservation

  /** The first step inside the mutex. */
  lemma EnterInside<V>(s: System<V>, t: nat, o: Op<V>, tab: Table<V>, stale: V -> bool)
    requires Represents(s.index, s.order, s.length, tab)
    ensures var s' := Enter(s, t, o); Inside(s', ThreadOf(s', t).pc, tab, stale) && s'.mutex == s.mutex && s'.log == s.log
  {
    hide Represents, Lookup, Put, Remove;
    match o
    case GetOp(id) => LookupIndex(s.index, s.order, s.length, tab, id);
    case PutOp(id, v) =>
      LookupIndex(s.index, s.order, s.length, tab, id);
      if id in s.index {
        PutOld(s.index, s.order, s.length, tab, id, v);
      } else {
        assert s.index[id := v] - {id} == s.index;
      }
    case RemoveOp(id) =>
      LookupIndex(s.index, s.order, s.length, tab, id);
      if id in s.index {
        assert (s.index - {id})[id := s.index[id]] == s.index;
      } else {
        RemoveAbsent(tab, id);
      }
    case IterateOp =>
      assert s.length == |tab| by { LengthOf(s.index, s.order, s.length, tab); }
  }

  lemma LengthOf<V>(index: map<Id, V>, order: seq<Id>, length: nat, t: Table<V>)
    requires Represents(index, order, length, t)
    ensures length == |t| == |order|
  {
  }

  lemma PlaceOf<V>(index: map<Id, V>, order: seq<Id>, length: nat, t: Table<V>, i: nat)
    requires Represents(index, order, length, t) && i < |t|
    ensures i < |order| && order[i] in index && t[i] == (order[i], index[order[i]])
  {
  }

  /** A later step inside the mutex, up to the point where it is given back. */
  lemma StayInside<V>(s: System<V>, t: nat, op: Op<V>, tab: Table<V>, stale: V -> bool)
    requires Inside(s, ThreadOf(s, t).pc, tab, stale)
    requires ThreadOf(s, t).pc.PutHalf? || ThreadOf(s, t).pc.RemoveHalf? || ThreadOf(s, t).pc.Scanning?
    ensures var s' := Step(s, t, op, stale);
      Inside(s', ThreadOf(s', t).pc, tab, stale) && s'.mutex == s.mutex && s'.log == s.log
  {
    hide Represents, Lookup, Put, Remove, Without;
    match ThreadOf(s, t).pc
    case PutHalf(id, v) =>
      PutNewId(s.index, s.order, s.length, tab, id, v);
    case RemoveHalf(id) =>
      RemoveId(s.index, s.order, s.length, tab, id, Lookup(tab, id).value);
    case Scanning(seen, noted, room) =>
      LengthOf(s.index, s.order, s.length, tab);
      if |seen| < |s.order| {
        PlaceOf(s.index, s.order, s.length, tab, |seen|);
        assert (seen + [tab[|seen|]])[..|seen|] == seen;
      } else {
        assert seen == tab;
      }
  }

  lemma LegalSnoc<V>(log: seq<Entry<V>>, e: Entry<V>)
    requires Legal(log) && EntryLegal(e, Replay(log))
    ensures Legal(log + [e]) && Replay(log + [e]) == After(Replay(log), e)
  {
    hide EntryLegal, Replay, After;
    var l := log + [e];
    ReplaySnoc(log, e);
    forall i | 0 <= i < |l| ensures EntryLegal(l[i], Replay(l[..i])) {
      if i < |log| {
        assert l[..i] == log[..i] && l[i] == log[i];
      } else {
        assert l[..i] == log;
      }
    }
  }

  lemma ReplaySnoc<V>(log: seq<Entry<V>>, e: Entry<V>)
    ensures Replay(log + [e]) == After(Replay(log), e)
  {
    hide After;
    var l := log + [e];
    assert l[..|l| - 1] == log && l[|l| - 1] == e;
  }

  lemma AfterDistinct<V>(t: Table<V>, e: Entry<V>)
    requires DistinctKeys(t)
    ensures DistinctKeys(After(t, e))
  {
    hide Put, Remove, Lookup;
    match e
    case DidPut(id, v) => PutLaws(t, id, v);
    case DidRemove(id) => RemoveLaws(t, id);
    case _ =>
  }

  lemma InsideFrame<V>(s: System<V>, s': System<V>, pc: Pc<V>, tab: Table<V>, stale: V -> bool)
    requires Inside(s, pc, tab, stale) && s'.index == s.index && s'.order == s.order && s'.length == s.length
    ensures Inside(s', pc, tab, stale)
  {
    hide Represents, Lookup;
  }

  lemma StepKeeps<V>(s: System<V>, t: nat, op: Op<V>, stale: V -> bool)
    requires Inv(s, stale)
    ensures Inv(Step(s, t, op, stale), stale)
  {
    hide Represents, Inside, Legal, Replay, Enter;
    var th, s', tab := ThreadOf(s, t), Step(s, t, op, stale), Replay(s.log);
    match th.pc
    case Idle =>
      if s.mutex.Some? {
        InsideNotIdle(s, stale);
        InsideFrame(s, s', ThreadOf(s, s.mutex.value).pc, tab, stale);
      }
    case Waiting(o) =>
      if s.mutex.None? {
        assert Inside(s', Holding(o), tab, stale) by { HoldingIs(s', o, tab, stale); }
      }
    case Holding(o) =>
      assert Represents(s.index, s.order, s.length, tab) by { HoldingIs(s, o, tab, stale); }
      EnterInside(s, t, o, tab, stale);
      EnterThreads(s, t, o);
    case Finished(e, noted) =>
      FinishedIs(s, e, noted, tab, stale);
      LegalSnoc(s.log, e);
      AfterDistinct(tab, e);
    case _ =>
      StayInside(s, t, op, tab, stale);
  }

  lemma EnterThreads<V>(s: System<V>, t: nat, o: Op<V>)
    ensures forall u :: u in Enter(s, t, o).threads && u != t ==> u in s.threads && Enter(s, t, o).threads[u] == s.threads[u]
  {
  }

  lemma HoldingIs<V>(s: System<V>, o: Op<V>, tab: Table<V>, stale: V -> bool)
    ensures Inside(s, Holding(o), tab, stale) <==> Represents(s.index, s.order, s.length, tab)
  {
  }

  lemma FinishedIs<V>(s: System<V>, e: Entry<V>, noted: seq<Id>, tab: Table<V>, stale: V -> bool)
    requires Inside(s, Finished(e, noted), tab, stale)
    ensures EntryLegal(e, tab) && Represents(s.index, s.order, s.length, After(tab, e))
  {
    hide Represents;
  }

  lemma InsideNotIdle<V>(s: System<V>, stale: V -> bool)
    requires Inv(s, stale) && s.mutex.Some?
    ensures Critical(ThreadOf(s, s.mutex.value).pc)
  {
    hide Represents, Legal, Replay;
  }

  /** Every interleaving keeps the invariant. */
  lemma {:induction false} RunKeeps<V>(schedule: seq<(nat, Op<V>)>, stale: V -> bool)
    ensures Inv(Run(schedule, stale), stale)
  {
    if schedule != [] {
      hide Inv, Step;
      RunKeeps(schedule[..|schedule| - 1], stale);
      var (t, op) := schedule[|schedule| - 1];
      StepKeeps(Run(schedule[..|schedule| - 1], stale), t, op, stale);
    }
  }

  // ---------------------------------------------------------------------------
  // What the invariant says

  /**
   Linearizability: in every interleaving all results so far are those of a sequential table that
   performs the operations in the order of the log, and while the mutex is free the trie, the list
   and the length agree with that table.
   */
  lemma Linearizable<V>(schedule: seq<(nat, Op<V>)>, stale: V -> bool)
    ensures var s := Run(schedule, stale);
      Legal(s.log) && (s.mutex.None? ==> Represents(s.index, s.order, s.length, Replay(s.log)))
  {
    hide Run, Legal, Represents;
    RunKeeps(schedule, stale);
  }

  /**
   From iterator init to iterator free a thread sees one fixed table, and the array it sized from
   the length has a free place whenever it notes a request.
   */
  lemma IterationSeesOneTable<V>(schedule: seq<(nat, Op<V>)>, stale: V -> bool, t: nat)
    requires ThreadOf(Run(schedule, stale), t).pc.Scanning?
    ensures var s := Run(schedule, stale); var pc := ThreadOf(s, t).pc;
      && s.mutex == Some(t) && Represents(s.index, s.order, s.length, Replay(s.log))
      && pc.seen <= Replay(s.log) && pc.noted == StaleIds(pc.seen, stale)
      && (|pc.seen| < |s.order| ==> |pc.noted| < pc.room)
  {
    hide Run, Legal, Represents, Replay;
    RunKeeps(schedule, stale);
    var s := Run(schedule, stale);
    StaleCount(ThreadOf(s, t).pc.seen, stale);
    LengthOf(s.index, s.order, s.length, Replay(s.log));
  }

  /** What other threads see of the table. */
  ghost predicate SameTable<V>(s: System<V>, s': System<V>) {
    s'.index == s.index && s'.order == s.order && s'.length == s.length && s'.log == s.log
  }

  /** While thread `t` iterates, no step of any thread touches the table, and its own add to what it has seen. */
  lemma ScanStep<V>(s: System<V>, u: nat, op: Op<V>, stale: V -> bool, t: nat)
    requires Inv(s, stale) && ThreadOf(s, t).pc.Scanning? && ThreadOf(Step(s, u, op, stale), t).pc.Scanning?
    ensures SameTable(s, Step(s, u, op, stale))
    ensures ThreadOf(s, t).pc.seen <= ThreadOf(Step(s, u, op, stale), t).pc.seen
  {
    hide Represents, Inside, Legal, Replay, Enter;
    assert s.mutex == Some(t);
    if u != t {
      assert !Critical(ThreadOf(s, u).pc);
    }
  }

  /**
   One table from the start of an iteration to its end: at any two points between which thread `t`
   is iterating all the time, trie, list, length and log are the same, and what it saw first is the
   beginning of what it saw later.
   */
  lemma {:induction false} IterationKeepsTable<V>(schedule: seq<(nat, Op<V>)>, stale: V -> bool, t: nat, i: nat, j: nat)
    requires i <= j <= |schedule|
    requires forall n :: i <= n <= j ==> ThreadOf(Run(schedule[..n], stale), t).pc.Scanning?
    ensures SameTable(Run(schedule[..i], stale), Run(schedule[..j], stale))
    ensures ThreadOf(Run(schedule[..i], stale), t).pc.seen <= ThreadOf(Run(schedule[..j], stale), t).pc.seen
    decreases j - i
  {
    hide Run, Step, Inv, SameTable;
    var first := Run(schedule[..i], stale);
    if i == j {
      SameTableItself(first);
    } else {
      var s, s' := Run(schedule[..j - 1], stale), Run(schedule[..j], stale);
      IterationKeepsTable(schedule, stale, t, i, j - 1);
      RunKeeps(schedule[..j - 1], stale);
      RunLast(schedule, stale, j);
      assert ThreadOf(s, t).pc.Scanning? && ThreadOf(s', t).pc.Scanning?;
      ScanStep(s, schedule[j - 1].0, schedule[j - 1].1, stale, t);
      SameTableAgain(first, s, s');
    }
  }

  lemma SameTableItself<V>(s: System<V>)
    ensures SameTable(s, s)
  {
  }

  lemma SameTableAgain<V>(a: System<V>, b: System<V>, c: System<V>)
    requires SameTable(a, b) && SameTable(b, c)
    ensures SameTable(a, c)
  {
  }

  lemma RunLast<V>(schedule: seq<(nat, Op<V>)>, stale: V -> bool, j: nat)
    requires 0 < j <= |schedule|
    ensures Run(schedule[..j], stale) ==
      Step(Run(schedule[..j - 1], stale), schedule[j - 1].0, schedule[j - 1].1, stale)
  {
    hide Step;
    assert schedule[..j][..j - 1] == schedule[..j - 1];
  }

  lemma {:induction false} StaleCount<V>(seen: Table<V>, stale: V -> bool)
    ensures |StaleIds(seen, stale)| <= |seen|
  {
    if seen != [] {
      StaleCount(seen[..|seen| - 1], stale);
    }
  }

  /** No thread waits for the mutex while it holds it, and no two threads are inside at once. */
  lemma NeverWaitsForItself<V>(schedule: seq<(nat, Op<V>)>, stale: V -> bool, t: nat, u: nat)
    ensures var s := Run(schedule, stale);
      && (ThreadOf(s, t).pc.Waiting? ==> s.mutex != Some(t))
      && (Critical(ThreadOf(s, t).pc) && Critical(ThreadOf(s, u).pc) ==> t == u)
  {
    hide Run, Legal, Represents, Replay;
    RunKeeps(schedule, stale);
    if Run(schedule, stale).mutex.Some? {
      InsideNotIdle(Run(schedule, stale), stale);
    }
  }

  // ---------------------------------------------------------------------------
  // The order of the history

  function OpOfEntry<V>(e: Entry<V>): Op<V> {
    match e
    case DidGet(id, _) => GetOp(id)
    case DidPut(id, v) => PutOp(id, v)
    case DidRemove(id) => RemoveOp(id)
    case DidIterate(_) => IterateOp
  }

  /** The operation that a thread is busy with. */
  function OpOf<V>(pc: Pc<V>): Option<Op<V>> {
    match pc
    case Idle => None
    case Waiting(o) => Some(o)
    case Holding(o) => Some(o)
    case PutHalf(id, v) => Some(PutOp(id, v))
    case RemoveHalf(id) => Some(RemoveOp(id))
    case Scanning(_, _, _) => Some(IterateOp)
    case Finished(e, _) => Some(OpOfEntry(e))
  }

  /** A step leaves the log alone, or adds the entry of the operation that its thread ends with it. */
  lemma LogStep<V>(s: System<V>, u: nat, op: Op<V>, stale: V -> bool)
    ensures var s' := Step(s, u, op, stale); var pc := ThreadOf(s, u).pc;
      if pc.Finished? then s'.log == s.log + [pc.entry] && ThreadOf(s', u).pc.Idle? else s'.log == s.log
  {
    hide Without;
  }

  /** A thread sticks to its operation until it ends it. */
  lemma OpKept<V>(s: System<V>, u: nat, op: Op<V>, stale: V -> bool, t: nat)
    requires !ThreadOf(s, t).pc.Idle?
    ensures var s' := Step(s, u, op, stale); var pc, pc' := ThreadOf(s, t).pc, ThreadOf(s', t).pc;
      if u == t && pc.Finished? then pc'.Idle? && s'.log == s.log + [pc.entry] else OpOf(pc') == OpOf(pc)
  {
    if u == t {
      OwnStep(s, op, stale, t);
    } else {
      OtherThread(s, u, op, stale, t);
    }
  }

  lemma OwnStep<V>(s: System<V>, op: Op<V>, stale: V -> bool, t: nat)
    requires !ThreadOf(s, t).pc.Idle?
    ensures var s' := Step(s, t, op, stale); var pc, pc' := ThreadOf(s, t).pc, ThreadOf(s', t).pc;
      if pc.Finished? then pc'.Idle? && s'.log == s.log + [pc.entry] else OpOf(pc') == OpOf(pc)
  {
    hide Without;
  }

  lemma OtherThread<V>(s: System<V>, u: nat, op: Op<V>, stale: V -> bool, t: nat)
    requires u != t
    ensures ThreadOf(Step(s, u, op, stale), t) == ThreadOf(s, t)
  {
    hide Without;
  }

  /** Thread `t` begins an operation with step `i` and ends it with step `j`. */
  ghost predicate Performs<V>(schedule: seq<(nat, Op<V>)>, stale: V -> bool, t: nat, i: nat, j: nat) {
    && i < j < |schedule|
    && ThreadOf(Run(schedule[..i], stale), t).pc.Idle?
    && (forall n :: i < n <= j ==> !ThreadOf(Run(schedule[..n], stale), t).pc.Idle?)
    && ThreadOf(Run(schedule[..j + 1], stale), t).pc.Idle?
  }

  lemma {:induction false} LogGrows<V>(schedule: seq<(nat, Op<V>)>, stale: V -> bool, i: nat, j: nat)
    requires i <= j <= |schedule|
    ensures Run(schedule[..i], stale).log <= Run(schedule[..j], stale).log
    decreases j - i
  {
    hide Run, Step;
    if i < j {
      LogGrows(schedule, stale, i, j - 1);
      RunLast(schedule, stale, j);
      LogStep(Run(schedule[..j - 1], stale), schedule[j - 1].0, schedule[j - 1].1, stale);
    }
  }

  lemma {:induction false} OpKeptOver<V>(schedule: seq<(nat, Op<V>)>, stale: V -> bool, t: nat, i: nat, j: nat)
    requires i <= j <= |schedule|
    requires forall n :: i <= n <= j ==> !ThreadOf(Run(schedule[..n], stale), t).pc.Idle?
    ensures OpOf(ThreadOf(Run(schedule[..j], stale), t).pc) == OpOf(ThreadOf(Run(schedule[..i], stale), t).pc)
    decreases j - i
  {
    hide Run, Step, OpOf;
    if i < j {
      OpKeptOver(schedule, stale, t, i, j - 1);
      RunLast(schedule, stale, j);
      assert !ThreadOf(Run(schedule[..j - 1], stale), t).pc.Idle?;
      OpKept(Run(schedule[..j - 1], stale), schedule[j - 1].0, schedule[j - 1].1, stale, t);
    }
  }

  /**
   The place of an operation in the history lies between its beginning and its end: its entry, which
   is one for the operation the thread began with, is put behind all that was there when it began.
   */
  lemma PlaceInHistory<V>(schedule: seq<(nat, Op<V>)>, stale: V -> bool, t: nat, i: nat, j: nat)
    requires Performs(schedule, stale, t, i, j)
    ensures var log := Run(schedule[..j], stale).log; var log' := Run(schedule[..j + 1], stale).log;
      && Run(schedule[..i], stale).log <= log && |log'| == |log| + 1 && log <= log'
      && OpOf(ThreadOf(Run(schedule[..i + 1], stale), t).pc) == Some(OpOfEntry(log'[|log|]))
  {
    hide Run, Step;
    LogGrows(schedule, stale, i, j);
    OpKeptOver(schedule, stale, t, i + 1, j);
    RunLast(schedule, stale, j + 1);
    OpKept(Run(schedule[..j], stale), schedule[j].0, schedule[j].1, stale, t);
  }

  /**
   Real-time order, and with it the order of each thread: of two operations of which one ends before
   the other begins, the first has the earlier place in the history, now and for ever.
   */
  lemma HistoryKeepsOrder<V>(
    schedule: seq<(nat, Op<V>)>, stale: V -> bool, t: nat, i: nat, j: nat, t': nat, i': nat, j': nat)
    requires Performs(schedule, stale, t, i, j) && Performs(schedule, stale, t', i', j') && j < i'
    ensures var n, n', log := |Run(schedule[..j], stale).log|, |Run(schedule[..j'], stale).log|, Run(schedule, stale).log;
      && n < n' < |log|
      && OpOf(ThreadOf(Run(schedule[..i + 1], stale), t).pc) == Some(OpOfEntry(log[n]))
      && OpOf(ThreadOf(Run(schedule[..i' + 1], stale), t').pc) == Some(OpOfEntry(log[n']))
  {
    hide Run, OpOf, OpOfEntry;
    PlaceInHistory(schedule, stale, t, i, j);
    PlaceInHistory(schedule, stale, t', i', j');
    LogGrows(schedule, stale, j + 1, i');
    LogGrows(schedule, stale, j + 1, |schedule|);
    LogGrows(schedule, stale, j' + 1, |schedule|);
    assert schedule[..|schedule|] == schedule;
  }

  // ---------------------------------------------------------------------------
  // What a clean-up pass leaves to do

  /** Only an iteration notes anything, and a thread that iterates has nothing left to do. */
  ghost predicate TodoOk<V>(th: Thread<V>) {
    && (OpOf(th.pc) == Some(IterateOp) ==> th.todo == [])
    && (th.pc.Finished? && !th.pc.entry.DidIterate? ==> th.pc.noted == [])
  }

  lemma TodoStep<V>(s: System<V>, u: nat, op: Op<V>, stale: V -> bool, t: nat)
    requires TodoOk(ThreadOf(s, t))
    ensures TodoOk(ThreadOf(Step(s, u, op, stale), t))
  {
    if u == t {
      hide Without;
    } else {
      hide Step, TodoOk;
      OtherThread(s, u, op, stale, t);
    }
  }

  lemma {:induction false} RunTodo<V>(schedule: seq<(nat, Op<V>)>, stale: V -> bool, t: nat)
    ensures TodoOk(ThreadOf(Run(schedule, stale), t))
  {
    hide Step;
    if schedule != [] {
      var n := |schedule| - 1;
      RunTodo(schedule[..n], stale, t);
      TodoStep(Run(schedule[..n], stale), schedule[n].0, schedule[n].1, stale, t);
    }
  }

  /** The end of an iteration: the table has been seen whole, and all that is stale in it is left to do, in its order. */
  lemma IterationLeaves<V>(schedule: seq<(nat, Op<V>)>, stale: V -> bool, t: nat, i: nat)
    requires i < |schedule| && schedule[i].0 == t
    requires var pc := ThreadOf(Run(schedule[..i], stale), t).pc; pc.Finished? && pc.entry.DidIterate?
    ensures var s := Run(schedule[..i], stale);
      && ThreadOf(s, t).pc.entry.seen == Replay(s.log)
      && ThreadOf(Run(schedule[..i + 1], stale), t) == Thread(Idle, StaleIds(Replay(s.log), stale))
  {
    hide Run, Legal, Represents, Replay, StaleIds, Without;
    var s := Run(schedule[..i], stale);
    RunKeeps(schedule[..i], stale);
    RunTodo(schedule[..i], stale, t);
    RunLast(schedule, stale, i + 1);
    assert s.mutex == Some(t) && Inside(s, ThreadOf(s, t).pc, Replay(s.log), stale);
    assert [] + StaleIds(Replay(s.log), stale) == StaleIds(Replay(s.log), stale);
  }

  /** How many operations thread `t` begins with the steps from `i` to before `j`. */
  ghost function Begun<V>(schedule: seq<(nat, Op<V>)>, stale: V -> bool, t: nat, i: nat, j: nat): nat
    requires i <= j <= |schedule|
    decreases j - i
  {
    if i == j then 0
    else
      Begun(schedule, stale, t, i, j - 1)
      + if schedule[j - 1].0 == t && ThreadOf(Run(schedule[..j - 1], stale), t).pc.Idle? then 1 else 0
  }

  /** Thread `th` has begun the first `n` of the removals `ids`, and all but perhaps the last have ended. */
  ghost predicate Removing<V>(th: Thread<V>, ids: seq<Id>, n: nat) {
    && n <= |ids| && th.todo == ids[n..]
    && (th.pc.Idle? || (n > 0 && OpOf(th.pc) == Some(RemoveOp(ids[n - 1]))))
  }

  lemma RemovingStep<V>(s: System<V>, u: nat, op: Op<V>, stale: V -> bool, t: nat, ids: seq<Id>, n: nat)
    requires Removing(ThreadOf(s, t), ids, n) && TodoOk(ThreadOf(s, t))
    requires u == t && ThreadOf(s, t).pc.Idle? ==> n < |ids|
    ensures var th, th' := ThreadOf(s, t), ThreadOf(Step(s, u, op, stale), t);
      if u == t && th.pc.Idle? then th'.pc == Waiting(RemoveOp(ids[n])) && Removing(th', ids, n + 1)
      else Removing(th', ids, n)
  {
    if u == t {
      hide Without, Represents;
      var th := ThreadOf(s, t);
      assert th.todo + [] == th.todo;
    } else {
      hide Step, Removing, TodoOk;
      OtherThread(s, u, op, stale, t);
    }
  }

  lemma {:induction false} RemovalsFollow<V>(
    schedule: seq<(nat, Op<V>)>, stale: V -> bool, t: nat, i: nat, j: nat, ids: seq<Id>)
    requires i <= j <= |schedule| && ThreadOf(Run(schedule[..i], stale), t) == Thread(Idle, ids)
    requires Begun(schedule, stale, t, i, j) <= |ids|
    ensures Removing(ThreadOf(Run(schedule[..j], stale), t), ids, Begun(schedule, stale, t, i, j))
    decreases j - i
  {
    hide Run, Step, TodoOk;
    if i < j {
      var n := Begun(schedule, stale, t, i, j - 1);
      hide Removing;
      RemovalsFollow(schedule, stale, t, i, j - 1, ids);
      RunTodo(schedule[..j - 1], stale, t);
      RunLast(schedule, stale, j);
      RemovingStep(Run(schedule[..j - 1], stale), schedule[j - 1].0, schedule[j - 1].1, stale, t, ids, n);
    }
  }

  /**
   Under every schedule: after an iteration, the next operations of its thread are the removals of
   all that was stale in the table it saw, one by one and in the order of that table, whatever the
   other threads do.
   */
  lemma PassIsCarriedOut<V>(schedule: seq<(nat, Op<V>)>, stale: V -> bool, t: nat, i: nat, j: nat)
    requires i < j < |schedule| && schedule[i].0 == schedule[j].0 == t
    requires var pc := ThreadOf(Run(schedule[..i], stale), t).pc; pc.Finished? && pc.entry.DidIterate?
    requires ThreadOf(Run(schedule[..j], stale), t).pc.Idle?
    requires Begun(schedule, stale, t, i + 1, j) < |StaleIds(Replay(Run(schedule[..i], stale).log), stale)|
    ensures var ids := StaleIds(Replay(Run(schedule[..i], stale).log), stale);
      ThreadOf(Run(schedule[..j + 1], stale), t).pc == Waiting(RemoveOp(ids[Begun(schedule, stale, t, i + 1, j)]))
  {
    hide Run, Step, TodoOk, Removing, Begun, Replay, StaleIds;
    var ids, n := StaleIds(Replay(Run(schedule[..i], stale).log), stale), Begun(schedule, stale, t, i + 1, j);
    IterationLeaves(schedule, stale, t, i);
    RemovalsFollow(schedule, stale, t, i + 1, j, ids);
    RunTodo(schedule[..j], stale, t);
    RunLast(schedule, stale, j + 1);
    RemovingStep(Run(schedule[..j], stale), t, schedule[j].1, stale, t, ids, n);
  }

  /** What is stale in a table: the ids of its stale entries, in the order of the entries. */
  lemma {:induction false} StaleIdsAre<V>(a: Table<V>, x: (Id, V), b: Table<V>, stale: V -> bool)
    ensures StaleIds(a + [x] + b, stale) ==
      StaleIds(a, stale) + (if stale(x.1) then [x.0] else []) + StaleIds(b, stale)
    decreases |b|
  {
    var all := a + [x] + b;
    if b == [] {
      assert all == a + [x] && all[..|all| - 1] == a;
    } else {
      var init, y := b[..|b| - 1], b[|b| - 1];
      StaleIdsAre(a, x, init, stale);
      assert all[..|all| - 1] == a + [x] + init && all[|all| - 1] == y;
    }
  }

  // ---------------------------------------------------------------------------
  // Progress

  /** How many steps a thread at `pc` takes at most until it has given back the mutex. */
  function Left<V>(s: System<V>, pc: Pc<V>): nat {
    match pc
    case Holding(o) => if o.IterateOp? then |s.order| + 3 else 3
    case PutHalf(_, _) => 2
    case RemoveHalf(_) => 2
    case Scanning(seen, _, _) => (if |seen| < |s.order| then |s.order| - |seen| else 0) + 2
    case Finished(_, _) => 1
    case _ => 0
  }

  lemma LeftStep<V>(s: System<V>, u: nat, op: Op<V>, stale: V -> bool, t: nat)
    requires Inv(s, stale) && Critical(ThreadOf(s, t).pc)
    requires Critical(ThreadOf(Step(s, u, op, stale), t).pc)
    ensures var s' := Step(s, u, op, stale);
      Left(s', ThreadOf(s', t).pc) + (if u == t then 1 else 0) <= Left(s, ThreadOf(s, t).pc)
  {
    hide Represents, Inside, Legal, Replay, Without;
    if u != t {
      assert !Critical(ThreadOf(s, u).pc);
      OtherThread(s, u, op, stale, t);
    }
  }

  function StepsOf<V>(schedule: seq<(nat, Op<V>)>, t: nat, i: nat, j: nat): nat
    requires i <= j <= |schedule|
    decreases j - i
  {
    if i == j then 0 else StepsOf(schedule, t, i, j - 1) + if schedule[j - 1].0 == t then 1 else 0
  }

  lemma {:induction false} LeftAfter<V>(schedule: seq<(nat, Op<V>)>, stale: V -> bool, t: nat, i: nat, j: nat)
    requires i <= j <= |schedule|
    requires forall n :: i <= n <= j ==> Critical(ThreadOf(Run(schedule[..n], stale), t).pc)
    ensures var s, s' := Run(schedule[..i], stale), Run(schedule[..j], stale);
      StepsOf(schedule, t, i, j) + Left(s', ThreadOf(s', t).pc) <= Left(s, ThreadOf(s, t).pc)
    decreases j - i
  {
    hide Run, Step, Inv, Left, Critical;
    if i < j {
      LeftAfter(schedule, stale, t, i, j - 1);
      RunKeeps(schedule[..j - 1], stale);
      RunLast(schedule, stale, j);
      assert Critical(ThreadOf(Run(schedule[..j - 1], stale), t).pc);
      assert Critical(ThreadOf(Run(schedule[..j], stale), t).pc);
      LeftStep(Run(schedule[..j - 1], stale), schedule[j - 1].0, schedule[j - 1].1, stale, t);
    }
  }

  /**
   Nobody stays inside: under every schedule, a thread that has the mutex gives it back before it
   has taken three more steps than the table has entries, whatever the other threads do.
   */
  lemma NobodyStaysInside<V>(schedule: seq<(nat, Op<V>)>, stale: V -> bool, t: nat, i: nat, j: nat)
    requires i <= j <= |schedule| && Critical(ThreadOf(Run(schedule[..i], stale), t).pc)
    requires StepsOf(schedule, t, i, j) >= |Run(schedule[..i], stale).order| + 3
    ensures exists n :: i < n <= j && !Critical(ThreadOf(Run(schedule[..n], stale), t).pc)
  {
    hide Run;
    if forall n :: i <= n <= j ==> Critical(ThreadOf(Run(schedule[..n], stale), t).pc) {
      LeftAfter(schedule, stale, t, i, j);
      assert false;
    }
  }

  /** And a thread that wants in gets in with its next two steps, if the mutex is free then. */
  lemma FreeMutexIsTaken<V>(schedule: seq<(nat, Op<V>)>, stale: V -> bool, t: nat, op: Op<V>)
    requires var s := Run(schedule, stale); s.mutex.None? && ThreadOf(s, t) == Thread(Idle, [])
    ensures var s' := Run(schedule + [(t, op), (t, op)], stale); s'.mutex == Some(t) && ThreadOf(s', t).pc == Holding(op)
  {
    hide Run;
    var all := schedule + [(t, op), (t, op)];
    assert all[..|schedule|] == schedule && all[..|all|] == all;
    RunLast(all, stale, |schedule| + 1);
    RunLast(all, stale, |schedule| + 2);
  }
}
