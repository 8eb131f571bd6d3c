/** Whole runs of the hash table (src/hash_table.c): it behaves as a finite map under every sequence of operations. */
module TableRuns {
  import opened Bytes
  import opened Tables
  import opened HashTables

  /** The macro picks byte `level` of the id, counted from the least significant end. */
  lemma LevelHashIsByte(id: Id, level: nat)
    requires level < 8
    ensures LevelHash(id, level) == BigEndian(id, 8)[7 - level]
  {
    hide LevelHash;
    ByteAt(id, level, 8);
    LevelHashIsDigit(id, level);
  }

  lemma LevelHashIsDigit(id: Id, level: nat)
    ensures LevelHash(id, level) == (id / Pow256(level)) % 256
  {
    DigitsBelow(id, Pow256(level));
  }

  lemma DigitsBelow(n: nat, p: nat)
    requires p > 0
    ensures (n % (256 * p)) / p == (n / p) % 256
  {
    var q, r := n / p, n % p;
    var h, l := q / 256, q % 256;
    Regroup(h, l, p);
    MulMonotone(l, 255, p);
    RemainderIs(n, 256 * p, h, l * p + r);
    QuotientIs(l * p + r, p, l, r);
  }

  lemma Regroup(h: nat, l: nat, p: nat)
    ensures (256 * h + l) * p == h * (256 * p) + l * p
  {
  }

  lemma RemainderIs(n: nat, d: nat, q: nat, r: nat)
    requires d > 0 && r < d && n == q * d + r
    ensures n % d == r
  {
    QuotientIs(n, d, q, r);
  }

  lemma QuotientIs(n: nat, d: nat, q: nat, r: nat)
    requires d > 0 && r < d && n == q * d + r
    ensures n / d == q
  {
    MulMonotone(n / d + 1, q, d);
    MulMonotone(q + 1, n / d, d);
  }

  lemma MulMonotone(a: int, b: int, d: nat)
    ensures a <= b ==> a * d <= b * d
  {
  }

  lemma {:induction false} ByteAt(n: nat, level: nat, k: nat)
    requires level < k
    ensures BigEndian(n, k)[k - 1 - level] == (n / Pow256(level)) % 256
    decreases k
  {
    if level > 0 {
      ByteAt(n / 256, level - 1, k - 1);
      DivideTwice(n, Pow256(level - 1));
    }
  }

  lemma DivideTwice(n: nat, p: nat)
    requires p > 0
    ensures n / (256 * p) == (n / 256) / p
  {
    var q, r := n / 256, n % 256;
    var h, l := q / p, q % p;
    assert n == (h * p + l) * 256 + r;
    assert n == h * (256 * p) + (256 * l + r);
    QuotientIs(n, 256 * p, h, 256 * l + r);
  }

  // ---------------------------------------------------------------------------
  // Refinement of a finite map

  datatype Op<V> = GetOp(id: Id) | PutOp(id: Id, value: V) | RemoveOp(id: Id)

  function MapStep<V>(m: map<Id, V>, op: Op<V>): map<Id, V> {
    match op
    case GetOp(_) => m
    case PutOp(id, v) => m[id := v]
    case RemoveOp(id) => m - {id}
  }

  function MapGet<V>(m: map<Id, V>, id: Id): Option<V> {
    if id in m then Some(m[id]) else None
  }

  /** What the get operations of `ops` return on a finite map that starts as `m`. */
  function MapRun<V>(m: map<Id, V>, ops: seq<Op<V>>): seq<Option<V>>
    decreases |ops|
  {
    if ops == [] then []
    else MapOutput(m, ops[0]) + MapRun(MapStep(m, ops[0]), ops[1..])
  }

  ghost predicate Agrees<V>(t: Table<V>, m: map<Id, V>) {
    DistinctKeys(t) && forall k: Id :: Lookup(t, k) == MapGet(m, k)
  }

  function MapOutput<V>(m: map<Id, V>, op: Op<V>): seq<Option<V>> {
    if op.GetOp? then [MapGet(m, op.id)] else []
  }

  method Apply<V>(table: HashTable<V>, op: Op<V>, ghost m: map<Id, V>) returns (out: seq<Option<V>>)
    requires table.Valid() && Agrees(table.Entries(), m) && (op.RemoveOp? ==> table.Removable(op.id))
    modifies table, table.order, table.arrays.Values
    ensures table.Valid() && Agrees(table.Entries(), MapStep(m, op))
    ensures out == MapOutput(m, op)
    ensures fresh(table.arrays.Values - old(table.arrays.Values))
    ensures forall n :: n in table.order ==> n in old(table.order) || fresh(n)
  {
    hide HashTable.Valid, HashTable.Entries, HashTable.CleanPath, Lookup, Put, Remove;
    out := [];
    match op {
      case GetOp(id) =>
        var r := table.Get(id);
        out := [r];
      case PutOp(id, v) =>
        PutLaws(table.Entries(), id, v);
        table.Put(id, v);
      case RemoveOp(id) =>
        RemoveLaws(table.Entries(), id);
        table.Remove(id);
    }
  }

  /** On a table of two levels or more, and without removals on one of one level. */
  predicate Supported<V>(prefixBitLength: nat, ops: seq<Op<V>>) {
    && 8 <= prefixBitLength <= 64
    && (prefixBitLength < 16 ==> forall i :: 0 <= i < |ops| ==> !ops[i].RemoveOp?)
  }

  /** For every table size of one to eight levels and every sequence of operations that it supports,
      every get returns what a finite map would. */
  method RunTrace<V>(prefixBitLength: nat, ops: seq<Op<V>>) returns (results: seq<Option<V>>)
    requires Supported(prefixBitLength, ops)
    ensures results == MapRun(map[], ops)
  {
    hide HashTable.Valid, HashTable.Entries, Agrees, MapStep, MapOutput;
    var table := new HashTable<V>(prefixBitLength);
    ghost var m: map<Id, V> := map[];
    EmptyAgrees<V>();
    results := [];
    assert ops[0..] == ops;
    for i := 0 to |ops|
      invariant table.Valid() && table.bucketLevels == prefixBitLength / 8 && Agrees(table.Entries(), m)
      invariant fresh(table) && fresh(table.arrays.Values) && fresh(table.order)
      invariant MapRun(map[], ops) == results + MapRun(m, ops[i..])
    {
      var out := Apply(table, ops[i], m);
      assert forall k :: 0 <= k < |table.order| ==> table.order[k] in table.order;
      MapRunStep(m, ops, i);
      m := MapStep(m, ops[i]);
      results := results + out;
    }
  }

  lemma EmptyAgrees<V>()
    ensures Agrees<V>([], map[])
  {
  }

  lemma MapRunStep<V>(m: map<Id, V>, ops: seq<Op<V>>, i: nat)
    requires i < |ops|
    ensures MapRun(m, ops[i..]) == MapOutput(m, ops[i]) + MapRun(MapStep(m, ops[i]), ops[i + 1..])
  {
    assert ops[i..][1..] == ops[i + 1..];
  }

  /**
   Removing an id from an empty table leaves the arrays it made on the way: the path of the id is
   not clean, although nothing is stored.
   */
  method RemoveLeavesArrays<V>(id: Id) returns (table: HashTable<V>)
    ensures table.Valid() && table.Entries() == [] && table.bucketLevels == 2
    ensures !table.CleanPath(id)
  {
    hide LevelHash, PathOf, HashTable.CellsOk, HashTable.ChainsOk, HashTable.ListOk, HashTable.CleanPath, HashTable.InUse;
    table := new HashTable<V>(16);
    table.Remove(id);
    table.NothingInUse(id);
  }
}
