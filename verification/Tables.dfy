/** The plain meaning of the request table: a list of id/value pairs in the order of first insertion. */
module Tables {
  import opened Bytes

  type Table<V> = seq<(Id, V)>

  ghost predicate DistinctKeys<V>(t: Table<V>) {
    forall i, j :: 0 <= i < j < |t| ==> t[i].0 != t[j].0
  }

  function Lookup<V>(t: Table<V>, k: Id): (r: Option<V>)
    ensures r.None? <==> forall i :: 0 <= i < |t| ==> t[i].0 != k
  {
    if t == [] then None else if t[0].0 == k then Some(t[0].1) else Lookup(t[1..], k)
  }

  function Put<V>(t: Table<V>, k: Id, v: V): Table<V> {
    if t == [] then [(k, v)]
    else if t[0].0 == k then [(k, v)] + t[1..]
    else [t[0]] + Put(t[1..], k, v)
  }

  function Remove<V>(t: Table<V>, k: Id): Table<V> {
    if t == [] then [] else if t[0].0 == k then t[1..] else [t[0]] + Remove(t[1..], k)
  }

  lemma {:induction false} LookupAt<V>(t: Table<V>, i: nat)
    requires i < |t| && DistinctKeys(t)
    ensures Lookup(t, t[i].0) == Some(t[i].1)
  {
    if i > 0 {
      assert t[0].0 != t[i].0;
      LookupAt(t[1..], i - 1);
    }
  }

  lemma {:induction false} PutAt<V>(t: Table<V>, i: nat, v: V)
    requires i < |t| && DistinctKeys(t)
    ensures Put(t, t[i].0, v) == t[i := (t[i].0, v)]
  {
    if i > 0 {
      assert t[0].0 != t[i].0;
      PutAt(t[1..], i - 1, v);
    }
  }

  lemma {:induction false} PutNew<V>(t: Table<V>, k: Id, v: V)
    requires Lookup(t, k).None?
    ensures Put(t, k, v) == t + [(k, v)]
  {
    if t != [] {
      PutNew(t[1..], k, v);
    }
  }

  lemma {:induction false} RemoveAt<V>(t: Table<V>, i: nat)
    requires i < |t| && DistinctKeys(t)
    ensures Remove(t, t[i].0) == t[..i] + t[i + 1..]
  {
    if i > 0 {
      assert t[0].0 != t[i].0;
      RemoveAt(t[1..], i - 1);
      assert t[..i] + t[i + 1..] == [t[0]] + (t[1..][..i - 1] + t[1..][i..]);
    } else {
      assert t[..0] + t[1..] == t[1..];
    }
  }

  lemma {:induction false} RemoveAbsent<V>(t: Table<V>, k: Id)
    requires Lookup(t, k).None?
    ensures Remove(t, k) == t
  {
    if t != [] {
      RemoveAbsent(t[1..], k);
    }
  }

  lemma {:induction false} PutLookup<V>(t: Table<V>, k: Id, v: V, j: Id)
    ensures Lookup(Put(t, k, v), j) == if j == k then Some(v) else Lookup(t, j)
  {
    if t != [] && t[0].0 != k {
      PutLookup(t[1..], k, v, j);
    }
  }

  /** Either one place of the table changes or one pair is added at its end. */
  lemma PutShape<V>(t: Table<V>, k: Id, v: V)
    requires DistinctKeys(t)
    ensures DistinctKeys(Put(t, k, v))
    ensures forall j :: 0 <= j < |Put(t, k, v)| && Put(t, k, v)[j].0 != k ==> Put(t, k, v)[j] in t
  {
    hide Put, Lookup;
    if i :| 0 <= i < |t| && t[i].0 == k {
      PutAt(t, i, v);
    } else {
      PutNew(t, k, v);
    }
  }

  lemma PutLaws<V>(t: Table<V>, k: Id, v: V)
    requires DistinctKeys(t)
    ensures DistinctKeys(Put(t, k, v))
    ensures forall j :: Lookup(Put(t, k, v), j) == if j == k then Some(v) else Lookup(t, j)
    ensures forall j :: 0 <= j < |Put(t, k, v)| && Put(t, k, v)[j].0 != k ==> Put(t, k, v)[j] in t
  {
    hide Put, Lookup;
    PutShape(t, k, v);
    forall j ensures Lookup(Put(t, k, v), j) == if j == k then Some(v) else Lookup(t, j) {
      PutLookup(t, k, v, j);
    }
  }

  lemma {:induction false} RemoveLookup<V>(t: Table<V>, k: Id, j: Id)
    requires DistinctKeys(t)
    ensures Lookup(Remove(t, k), j) == if j == k then None else Lookup(t, j)
  {
    if t != [] && t[0].0 != k {
      RemoveLookup(t[1..], k, j);
    }
  }

  lemma RemoveShape<V>(t: Table<V>, k: Id)
    requires DistinctKeys(t)
    ensures DistinctKeys(Remove(t, k))
    ensures forall j :: 0 <= j < |Remove(t, k)| ==> Remove(t, k)[j] in t
  {
    hide Remove, Lookup;
    if i :| 0 <= i < |t| && t[i].0 == k {
      RemoveAt(t, i);
    } else {
      RemoveAbsent(t, k);
    }
  }

  lemma RemoveLaws<V>(t: Table<V>, k: Id)
    requires DistinctKeys(t)
    ensures DistinctKeys(Remove(t, k))
    ensures forall j :: Lookup(Remove(t, k), j) == if j == k then None else Lookup(t, j)
    ensures forall j :: 0 <= j < |Remove(t, k)| ==> Remove(t, k)[j] in t
  {
    hide Remove, Lookup;
    RemoveShape(t, k);
    forall j ensures Lookup(Remove(t, k), j) == if j == k then None else Lookup(t, j) {
      RemoveLookup(t, k, j);
    }
  }
}
