/**
 The sequential histories of the locked table, on the table's own code (src/hash_table.c): every
 legal log is what the pointer structure answers when it performs the logged operations in turn.
 */
module LockedTable {
  import opened Bytes
  import opened Tables
  import opened HashTables
  import opened ProxyServer
  import L = Locking

  /** What a caller gets back from an operation. */
  datatype Answer<V> = Nothing | Got(result: Option<V>) | Saw(values: seq<V>)

  function ValuesOf<V>(t: Table<V>): (vs: seq<V>)
    ensures |vs| == |t| && forall i :: 0 <= i < |t| ==> vs[i] == t[i].1
  {
    seq(|t|, i requires 0 <= i < |t| => t[i].1)
  }

  function AnswerOf<V>(e: L.Entry<V>): Answer<V> {
    match e
    case DidGet(_, r) => Got(r)
    case DidIterate(seen) => Saw(ValuesOf(seen))
    case _ => Nothing
  }

  /** From iterator init to iterator free: the values in list order. */
  method Walk<V>(table: HashTable<V>) returns (values: seq<V>)
    requires table.Valid()
    ensures values == ValuesOf(table.Entries())
  {
    hide HashTable.Valid, HashTable.Entries, TableIterator.Valid;
    ghost var es, i := table.Entries(), 0;
    assert |es| == |table.order| by { EntryCount(table); }
    values := [];
    var it := new TableIterator(table);
    var value := it.Next();
    while value.Some?
      invariant it.Valid() && it.started && it.index == i <= |es| && it.table == table && fresh(it)
      invariant value == if i < |es| then Some(es[i].1) else None
      invariant values == ValuesOf(es)[..i]
      decreases |es| - i
    {
      values := values + [value.value];
      value := it.Next();
      i := i + 1;
    }
  }

  lemma EntryCount<V>(table: HashTable<V>)
    ensures |table.Entries()| == |table.order|
  {
  }

  /** One logged operation. */
  method Perform<V>(table: HashTable<V>, e: L.Entry<V>) returns (answer: Answer<V>)
    requires table.Valid() && table.bucketLevels >= 2 && L.EntryLegal(e, table.Entries())
    modifies table, table.order, table.arrays.Values
    ensures table.Valid() && table.Entries() == L.After(old(table.Entries()), e) && answer == AnswerOf(e)
    ensures fresh(table.arrays.Values - old(table.arrays.Values))
    ensures forall n :: n in table.order ==> n in old(table.order) || fresh(n)
  {
    hide HashTable.Valid, HashTable.Entries, HashTable.CleanPath, Lookup, Put, Remove;
    answer := Nothing;
    match e {
      case DidGet(id, _) =>
        var r := table.Get(id);
        answer := Got(r);
      case DidPut(id, v) => table.Put(id, v);
      case DidRemove(id) => table.Remove(id);
      case DidIterate(_) =>
        var values := Walk(table);
        answer := Saw(values);
    }
  }

  /** A whole history: the code gives every answer of the log and ends with the table the log means. */
  method PerformLog<V>(log: seq<L.Entry<V>>) returns (table: HashTable<V>, answers: seq<Answer<V>>)
    requires L.Legal(log)
    ensures table.Valid() && table.Entries() == L.Replay(log)
    ensures |answers| == |log| && forall i :: 0 <= i < |log| ==> answers[i] == AnswerOf(log[i])
  {
    hide HashTable.Valid, HashTable.Entries, L.Replay, L.EntryLegal, L.After;
    table := new HashTable<V>(16);
    answers := [];
    assert log[..0] == [] && L.Replay<V>([]) == [] by { NothingLogged<V>(); }
    for i := 0 to |log|
      invariant table.Valid() && table.bucketLevels == 2 && table.Entries() == L.Replay(log[..i])
      invariant fresh(table) && fresh(table.arrays.Values) && fresh(table.order)
      invariant |answers| == i && forall j :: 0 <= j < i ==> answers[j] == AnswerOf(log[j])
    {
      assert L.EntryLegal(log[i], L.Replay(log[..i]));
      var answer := Perform(table, log[i]);
      assert forall k :: 0 <= k < |table.order| ==> table.order[k] in table.order;
      assert log[..i + 1] == log[..i] + [log[i]];
      L.ReplaySnoc(log[..i], log[i]);
      answers := answers + [answer];
    }
    assert log[..|log|] == log;
  }

  lemma NothingLogged<V>()
    ensures L.Replay<V>([]) == []
  {
  }

  /** Every schedule of the locked table has a history that the code performs. */
  method PerformSchedule<V>(schedule: seq<(nat, L.Op<V>)>, stale: V -> bool)
    returns (table: HashTable<V>, answers: seq<Answer<V>>)
    ensures var s := L.Run(schedule, stale);
      && table.Valid() && |answers| == |s.log| && (forall i :: 0 <= i < |s.log| ==> answers[i] == AnswerOf(s.log[i]))
      && (forall i :: 0 <= i < |s.log| && s.log[i].DidGet? ==> answers[i] == Got(s.log[i].result))
      && (forall i :: 0 <= i < |s.log| && s.log[i].DidIterate? ==> answers[i] == Saw(ValuesOf(s.log[i].seen)))
      && (s.mutex.None? ==> L.Represents(s.index, s.order, s.length, table.Entries()))
  {
    hide HashTable.Valid, HashTable.Entries, L.Run, L.Legal, L.Represents, L.Replay;
    L.Linearizable(schedule, stale);
    table, answers := PerformLog(L.Run(schedule, stale).log);
  }
}
