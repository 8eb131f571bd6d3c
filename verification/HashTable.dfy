/**
 The indexed table of partial requests (src/hash_table.c): a 256-way trie on the bytes of the
 item id, a collision chain in each leaf bucket, and one doubly linked list through all nodes.

 Two ghost fields describe the pointer structure: `arrays` names every bucket array by the id
 bytes that lead to it, and `order` lists the nodes by first insertion. `Valid` says that every
 pointer is the one these two determine; in particular the chain in a leaf is the part of
 `order` whose id bytes select that leaf.
 */
module HashTables {
  import opened Bytes
  import opened Tables

  const POOL_BITS: nat := 8
  const POOL_LENGTH: nat := 256

  /** Where a bucket array or a leaf bucket sits: the id bytes taken from the root, last one outermost. */
  datatype Path = Root | Step(parent: Path, hash: byte)

  ghost function Depth(p: Path): nat {
    match p case Root => 0 case Step(q, _) => Depth(q) + 1
  }

  /** FF_HASH_GET_FOR_LEVEL: mask off the bytes above `level`, shift the ones below away. */
  function LevelHash(id: Id, level: nat): byte {
    ((id % Pow256(level + 1)) / Pow256(level)) % 256
  }

  /** The first `levels` steps for `id`. */
  ghost function PathOf(id: Id, levels: nat): (p: Path)
    ensures Depth(p) == levels
  {
    if levels == 0 then Root else Step(PathOf(id, levels - 1), LevelHash(id, levels - 1))
  }

  class Node<V> {
    const itemId: Id
    var value: V
    var next: Node?<V>
    var prevInList: Node?<V>
    var nextInList: Node?<V>
    ghost const leaf: Path  // the bytes that lead to the leaf bucket of this node

    constructor (itemId: Id, value: V, ghost leaf: Path)
      ensures this.itemId == itemId && this.value == value && this.leaf == leaf
      ensures next == null && prevInList == null && nextInList == null
    {
      this.itemId := itemId;
      this.value := value;
      this.leaf := leaf;
      next, prevInList, nextInList := null, null, null;
    }
  }

  /** union ff_hash_table_bucket: one word that is zero, a bucket array or a chain. */
  datatype Bucket<V> = Null | Buckets(arr: array<Bucket<V>>) | Nodes(node: Node<V>)

  ghost function Chain<V>(ns: seq<Node<V>>, p: Path): (c: seq<Node<V>>)
    ensures forall i :: 0 <= i < |c| ==> c[i] in ns
  {
    if ns == [] then []
    else Chain(ns[..|ns| - 1], p) + (if ns[|ns| - 1].leaf == p then [ns[|ns| - 1]] else [])
  }

  lemma {:induction false} ChainConcat<V>(a: seq<Node<V>>, b: seq<Node<V>>, p: Path)
    ensures Chain(a + b, p) == Chain(a, p) + Chain(b, p)
  {
    if b == [] {
      assert a + b == a;
    } else {
      ChainConcat(a, b[..|b| - 1], p);
      assert (a + b)[..|a + b| - 1] == a + b[..|b| - 1];
    }
  }

  lemma {:induction false} ChainMembers<V>(ns: seq<Node<V>>, p: Path)
    ensures forall i :: 0 <= i < |Chain(ns, p)| ==> Chain(ns, p)[i].leaf == p
    ensures forall n :: n in ns && n.leaf == p ==> n in Chain(ns, p)
  {
    if ns != [] {
      ChainMembers(ns[..|ns| - 1], p);
    }
  }

  lemma {:induction false} ChainEmpty<V>(ns: seq<Node<V>>, p: Path)
    requires forall n :: n in ns ==> n.leaf != p
    ensures Chain(ns, p) == []
  {
    if ns != [] {
      ChainEmpty(ns[..|ns| - 1], p);
    }
  }

  lemma {:induction false} ChainDistinct<V>(ns: seq<Node<V>>, p: Path)
    requires forall i, j :: 0 <= i < j < |ns| ==> ns[i] != ns[j]
    ensures forall i, j :: 0 <= i < j < |Chain(ns, p)| ==> Chain(ns, p)[i] != Chain(ns, p)[j]
  {
    if ns != [] {
      ChainDistinct(ns[..|ns| - 1], p);
    }
  }

  /** Taking one node out of the list takes it out of its own chain and leaves the other chains alone. */
  lemma ChainRemove<V>(ns: seq<Node<V>>, k: nat, p: Path, i: nat)
    requires k < |ns| && forall i, j :: 0 <= i < j < |ns| ==> ns[i] != ns[j]
    requires ns[k].leaf == p ==> i < |Chain(ns, p)| && Chain(ns, p)[i] == ns[k]
    ensures Chain(Without(ns, k), p) == if ns[k].leaf == p then Without(Chain(ns, p), i) else Chain(ns, p)
  {
    hide Chain;
    ChainSplit(ns, k, p);
    if ns[k].leaf == p {
      ChainDistinct(ns, p);
      MiddleIsUnique(Chain(ns[..k], p), ns[k], Chain(ns[k + 1..], p), i);
    }
  }

  lemma MiddleIsUnique<T>(a: seq<T>, x: T, b: seq<T>, i: nat)
    requires i < |a + [x] + b| && (a + [x] + b)[i] == x
    requires forall i, j :: 0 <= i < j < |a + [x] + b| ==> (a + [x] + b)[i] != (a + [x] + b)[j]
    ensures Without(a + [x] + b, i) == a + b
  {
    assert (a + [x] + b)[|a|] == x;
  }

  lemma ChainSplit<V>(ns: seq<Node<V>>, k: nat, p: Path)
    requires k < |ns|
    ensures Chain(Without(ns, k), p) == Chain(ns[..k], p) + Chain(ns[k + 1..], p)
    ensures Chain(ns, p) == if ns[k].leaf == p then Chain(ns[..k], p) + [ns[k]] + Chain(ns[k + 1..], p)
      else Chain(ns[..k], p) + Chain(ns[k + 1..], p)
  {
    hide Chain;
    var a, n, b := ns[..k], ns[k], ns[k + 1..];
    ChainConcat(a, b, p);
    ChainConcat(a + [n], b, p);
    ChainConcat(a, [n], p);
    ChainSingle(n, p);
    assert ns == a + [n] + b;
    assert Chain(a, p) + [] == Chain(a, p);
  }

  lemma ChainSingle<V>(n: Node<V>, p: Path)
    ensures Chain([n], p) == if n.leaf == p then [n] else []
  {
    assert [n][..0] == [];
  }

  function Without<T>(s: seq<T>, k: nat): (r: seq<T>)
    requires k < |s|
    ensures |r| == |s| - 1
  {
    s[..k] + s[k + 1..]
  }

  /** A union bucket read as a chain. */
  function First<V>(b: Bucket<V>): Node?<V> {
    if b.Nodes? then b.node else null
  }

  ghost function EntriesOf<V>(ns: seq<Node<V>>): (t: Table<V>)
    reads ns`value
    ensures |t| == |ns| && forall i :: 0 <= i < |ns| ==> t[i] == (ns[i].itemId, ns[i].value)
  {
    if ns == [] then [] else EntriesOf(ns[..|ns| - 1]) + [(ns[|ns| - 1].itemId, ns[|ns| - 1].value)]
  }

  ghost function At<V>(s: seq<Node<V>>, i: int): Node?<V> {
    if 0 <= i < |s| then s[i] else null
  }

  lemma AtWithout<V>(s: seq<Node<V>>, k: nat, i: int)
    requires k < |s|
    ensures At(Without(s, k), i) == At(s, if i < k then i else i + 1)
    ensures 0 <= i < |s| - 1 ==> Without(s, k)[i] == s[if i < k then i else i + 1]
  {
  }

  lemma IdsWithout<V>(s: seq<Node<V>>, k: nat)
    requires k < |s| && forall i, j :: 0 <= i < j < |s| ==> s[i].itemId != s[j].itemId
    ensures forall i, j :: 0 <= i < j < |s| - 1 ==> Without(s, k)[i].itemId != Without(s, k)[j].itemId
  {
    hide Without;
    forall i, j | 0 <= i < j < |s| - 1 ensures Without(s, k)[i].itemId != Without(s, k)[j].itemId {
      AtWithout(s, k, i);
      AtWithout(s, k, j);
    }
  }

  lemma EntriesAppend<V>(ns: seq<Node<V>>, n: Node<V>)
    ensures EntriesOf(ns + [n]) == EntriesOf(ns) + [(n.itemId, n.value)]
  {
    hide EntriesOf;
  }

  lemma EntriesWithout<V>(ns: seq<Node<V>>, k: nat)
    requires k < |ns|
    ensures EntriesOf(Without(ns, k)) == EntriesOf(ns)[..k] + EntriesOf(ns)[k + 1..]
  {
    hide EntriesOf;
  }

  ghost function Head<V>(s: seq<Node<V>>): Bucket<V> {
    if s == [] then Null else Nodes(s[0])
  }

  /** The `next` pointers of the nodes of leaf `p` follow their order in `ns`. */
  ghost predicate Linked<V>(ns: seq<Node<V>>, p: Path)
    reads ns`next
  {
    var c := Chain(ns, p);
    forall i {:trigger c[i].next} :: 0 <= i < |c| ==> c[i].next == At(c, i + 1)
  }

  /** The same for all nodes but `except`. */
  ghost predicate LinkedBut<V>(ns: seq<Node<V>>, p: Path, except: Node?<V>)
    reads ns`next
  {
    var c := Chain(ns, p);
    forall i {:trigger c[i].next} :: 0 <= i < |c| && c[i] != except ==> c[i].next == At(c, i + 1)
  }

  ghost predicate Extends<A>(m: map<Path, A>, m': map<Path, A>) {
    forall p :: p in m ==> p in m' && m'[p] == m[p]
  }

  /** `path` lists the arrays one step, two steps, ... below the root on the way to `id`. */
  ghost predicate Along<A>(m: map<Path, A>, id: Id, path: seq<A>) {
    forall k :: 1 <= k <= |path| ==> PathOf(id, k) in m && m[PathOf(id, k)] == path[k - 1]
  }

  lemma AlongStep<A>(m0: map<Path, A>, m: map<Path, A>, m': map<Path, A>, id: Id, path: seq<A>, next: A)
    requires Extends(m0, m) && Extends(m, m') && Along(m, id, path)
    requires PathOf(id, |path| + 1) in m' && m'[PathOf(id, |path| + 1)] == next
    ensures Extends(m0, m') && Along(m', id, path + [next])
  {
    hide PathOf;
  }

  lemma AlongAt<A>(m: map<Path, A>, id: Id, path: seq<A>)
    requires Along(m, id, path)
    ensures forall k :: 0 < k <= |path| ==> PathOf(id, k) in m && m[PathOf(id, k)] == path[k - 1]
  {
  }

  lemma ExtendsItself<A>(m: map<Path, A>, id: Id)
    ensures Extends(m, m) && Along(m, id, [])
  {
  }

  /** The node `i` steps down a chain. */
  ghost function Follow<V>(n: Node?<V>, i: nat): Node?<V>
    reads *
  {
    if i == 0 then n else var m := Follow(n, i - 1); if m == null then null else m.next
  }

  ghost function FollowList<V>(n: Node?<V>, i: nat): Node?<V>
    reads *
  {
    if i == 0 then n else var m := FollowList(n, i - 1); if m == null then null else m.nextInList
  }

  ghost function FollowBack<V>(n: Node?<V>, i: nat): Node?<V>
    reads *
  {
    if i == 0 then n else var m := FollowBack(n, i - 1); if m == null then null else m.prevInList
  }

  class HashTable<V> {
    const prefixBitLength: nat
    const bucketLevels: nat
    var length: nat
    var buckets: array<Bucket<V>>
    var linkedList: Node?<V>
    var linkedListLast: Node?<V>

    ghost var arrays: map<Path, array<Bucket<V>>>
    ghost var order: seq<Node<V>>

    ghost predicate ArraysOk(ns: seq<Node<V>>)
      reads `arrays, `buckets
    {
      && bucketLevels >= 1
      && Root in arrays && arrays[Root] == buckets
      && (forall p :: p in arrays ==> Depth(p) < bucketLevels && arrays[p].Length == POOL_LENGTH)
      && (forall p, q :: p in arrays && q in arrays && arrays[p] == arrays[q] ==> p == q)
      && (forall p, c :: Step(p, c) in arrays ==> p in arrays)
      && (forall n :: n in ns ==>
        n.leaf == PathOf(n.itemId, bucketLevels) && n.leaf.Step? && n.leaf.parent in arrays)
    }

    /** What bucket `c` of the array at `p` must hold. */
    ghost function Cell(ns: seq<Node<V>>, p: Path, c: byte): Bucket<V>
      reads `arrays
    {
      if Depth(p) + 1 < bucketLevels then
        if Step(p, c) in arrays then Buckets(arrays[Step(p, c)]) else Null
      else Head(Chain(ns, Step(p, c)))
    }

    ghost predicate CellsOk(ns: seq<Node<V>>)
      requires ArraysOk(ns)
      reads `arrays, `buckets, arrays.Values
    {
      forall p, c: byte :: p in arrays ==> arrays[p][c] == Cell(ns, p, c)
    }

    ghost predicate ChainsOk(ns: seq<Node<V>>)
      reads ns`next
    {
      forall p :: Linked(ns, p)
    }

    ghost predicate ListOk(ns: seq<Node<V>>)
      reads `linkedList, `linkedListLast, `length, ns`nextInList, ns`prevInList
    {
      && (forall i, j :: 0 <= i < j < |ns| ==> ns[i].itemId != ns[j].itemId)
      && (forall i {:trigger ns[i].nextInList} :: 0 <= i < |ns| ==> ns[i].nextInList == At(ns, i + 1))
      && (forall i {:trigger ns[i].prevInList} :: 0 <= i < |ns| ==> ns[i].prevInList == At(ns, i - 1))
      && linkedList == At(ns, 0)
      && linkedListLast == At(ns, |ns| - 1)
      && length == |ns|
    }

    ghost predicate Valid()
      reads this, order, arrays.Values
    {
      ArraysOk(order) && CellsOk(order) && ChainsOk(order) && ListOk(order)
    }

    /** The abstract value: ids and values in the order of first insertion. */
    ghost function Entries(): (t: Table<V>)
      reads `order, order`value
    {
      EntriesOf(order)
    }

    /** ff_hash_table_init; the division is the source's integer division. */
    constructor (prefixBitLength: nat)
      requires POOL_BITS <= prefixBitLength <= 64
      ensures Valid() && order == [] && Entries() == [] && fresh(arrays.Values)
      ensures bucketLevels == prefixBitLength / POOL_BITS
    {
      this.prefixBitLength := prefixBitLength;
      this.bucketLevels := prefixBitLength / POOL_BITS;
      var root := new Bucket<V>[POOL_LENGTH](_ => Null);
      buckets := root;
      length, linkedList, linkedListLast := 0, null, null;
      arrays, order := map[Root := root], [];
    }

    lemma NothingBelow(q: Path)
      requires ArraysOk(order) && q !in arrays
      ensures forall d: byte :: Chain(order, Step(q, d)) == []
    {
      forall d: byte ensures Chain(order, Step(q, d)) == [] {
        ChainEmpty(order, Step(q, d));
      }
    }

    lemma {:induction false} PrefixesPresent(id: Id, k: nat, m: nat)
      requires ArraysOk(order) && k <= m && PathOf(id, m) in arrays
      ensures PathOf(id, k) in arrays
      decreases m - k
    {
      if k < m {
        PrefixesPresent(id, k, m - 1);
      }
    }

    /** Init a new layer of buckets below bucket `c` of the array at `p`. */
    method CreateChild(ghost p: Path, parent: array<Bucket<V>>, c: byte) returns (child: array<Bucket<V>>)
      requires Valid()
      requires p in arrays && arrays[p] == parent && Depth(p) + 1 < bucketLevels && Step(p, c) !in arrays
      modifies `arrays, parent
      ensures Valid()
      ensures fresh(child)
      ensures arrays == old(arrays)[Step(p, c) := child]
    {
      hide Chain, Linked, PathOf, HashTable.ListOk, HashTable.ChainsOk;
      NothingBelow(Step(p, c));
      child := new Bucket<V>[POOL_LENGTH](_ => Null);
      parent[c] := Buckets(child);
      arrays := arrays[Step(p, c) := child];
      forall q, d: byte | q in arrays ensures arrays[q][d] == Cell(order, q, d) {
        if q == Step(p, c) {
          assert Step(q, d) !in arrays;
        } else if q == p {
        } else {
          assert arrays[q] != parent;
          assert old(arrays[q][d]) == old(Cell(order, q, d));
        }
      }
      assert ArraysOk(order) && ListOk(order) && ChainsOk(order);
    }

    /** ff_hash_table_get_or_create_bucket without should_create: the leaf array of `id`, or null. */
    method FindBucket(id: Id) returns (leaf: array?<Bucket<V>>)
      requires Valid()
      ensures leaf == null ==> PathOf(id, bucketLevels - 1) !in arrays
      ensures leaf != null ==> PathOf(id, bucketLevels - 1) in arrays && arrays[PathOf(id, bucketLevels - 1)] == leaf
    {
      hide PathOf, LevelHash, Chain, Linked, HashTable.ListOk, HashTable.ChainsOk;
      PathOfZero(id);
      leaf := buckets;
      for level := 0 to bucketLevels - 1
        invariant leaf != null && PathOf(id, level) in arrays && arrays[PathOf(id, level)] == leaf
      {
        var hash := LevelHash(id, level);
        PathOfNext(id, level);
        assert leaf[hash] == Cell(order, PathOf(id, level), hash);
        if leaf[hash].Null? {
          if PathOf(id, bucketLevels - 1) in arrays {
            PrefixesPresent(id, level + 1, bucketLevels - 1);
          }
          return null;
        }
        leaf := leaf[hash].arr;
      }
    }

    /** Follow bucket `c` of the array at `p`, creating the layer below if need be. */
    method Descend(ghost p: Path, arr: array<Bucket<V>>, c: byte) returns (child: array<Bucket<V>>)
      requires Valid()
      requires p in arrays && arrays[p] == arr && Depth(p) + 1 < bucketLevels
      modifies `arrays, arr
      ensures Valid()
      ensures Step(p, c) in arrays && arrays[Step(p, c)] == child
      ensures Extends(old(arrays), arrays) && fresh(arrays.Values - old(arrays.Values))
      ensures Step(p, c) in old(arrays) ==> arrays == old(arrays)
    {
      hide Chain, Linked, PathOf, HashTable.ListOk, HashTable.ChainsOk;
      assert arr[c] == Cell(order, p, c);
      if arr[c].Null? {
        child := CreateChild(p, arr, c);
      } else {
        child := arr[c].arr;
      }
    }

    /** One turn of the descent for `id`. */
    method DescendFor(id: Id, level: nat, arr: array<Bucket<V>>) returns (child: array<Bucket<V>>)
      requires Valid() && level + 1 < bucketLevels
      requires PathOf(id, level) in arrays && arrays[PathOf(id, level)] == arr
      modifies `arrays, arr
      ensures Valid()
      ensures PathOf(id, level + 1) in arrays && arrays[PathOf(id, level + 1)] == child
      ensures Extends(old(arrays), arrays) && fresh(arrays.Values - old(arrays.Values))
      ensures PathOf(id, bucketLevels - 1) in old(arrays) ==> arrays == old(arrays)
    {
      hide HashTable.Valid, HashTable.ArraysOk, Extends, LevelHash, PathOf;
      PathOfNext(id, level);
      if PathOf(id, bucketLevels - 1) in arrays {
        Basics();
        PrefixesPresent(id, level + 1, bucketLevels - 1);
      }
      child := Descend(PathOf(id, level), arr, LevelHash(id, level));
    }

    /** ff_hash_table_get_or_create_bucket with should_create; `path` is buckets_list. */
    method CreateBucket(id: Id) returns (leaf: array<Bucket<V>>, path: seq<array<Bucket<V>>>)
      requires Valid()
      modifies `arrays, arrays.Values
      ensures Valid()
      ensures PathOf(id, bucketLevels - 1) in arrays && arrays[PathOf(id, bucketLevels - 1)] == leaf
      ensures |path| == bucketLevels - 1 && (path != [] ==> leaf == path[bucketLevels - 2])
      ensures Along(arrays, id, path)
      ensures Extends(old(arrays), arrays) && fresh(arrays.Values - old(arrays.Values))
      ensures PathOf(id, bucketLevels - 1) in old(arrays) ==> arrays == old(arrays)
    {
      hide HashTable.Valid, HashTable.ArraysOk, PathOf, Along, Extends;
      Basics();
      PathOfZero(id);
      assert Extends(arrays, arrays) && Along(arrays, id, []) by { ExtendsItself(arrays, id); }
      leaf, path := buckets, [];
      for level := 0 to bucketLevels - 1
        invariant Valid()
        invariant PathOf(id, level) in arrays && arrays[PathOf(id, level)] == leaf
        invariant |path| == level && (path != [] ==> leaf == path[level - 1])
        invariant Along(arrays, id, path)
        invariant Extends(old(arrays), arrays) && fresh(arrays.Values - old(arrays.Values))
        invariant PathOf(id, bucketLevels - 1) in old(arrays) ==> arrays == old(arrays)
      {
        ghost var before := arrays;
        leaf := DescendFor(id, level, leaf);
        assert arrays.Values - old(arrays.Values) <= (before.Values - old(arrays.Values)) + (arrays.Values - before.Values);
        AlongStep(old(arrays), before, arrays, id, path, leaf);
        path := path + [leaf];
      }
    }

    lemma PathOfZero(id: Id)
      ensures PathOf(id, 0) == Root
    {
    }

    lemma PathOfNext(id: Id, level: nat)
      ensures PathOf(id, level + 1) == Step(PathOf(id, level), LevelHash(id, level))
    {
    }

    lemma LeafOf(n: Node<V>)
      requires Valid() && n in order
      ensures n.leaf == PathOf(n.itemId, bucketLevels) && PathOf(n.itemId, bucketLevels - 1) in arrays
    {
    }

    lemma Basics()
      requires Valid()
      ensures ArraysOk(order) && bucketLevels >= 1 && Root in arrays && arrays[Root] == buckets
    {
    }

    /** The walk along a chain that get, put and remove share: the node of `id`, and the one before it. */
    method FindInChain(first: Node?<V>, ghost p: Path, id: Id) returns (prev: Node?<V>, node: Node?<V>, ghost i: nat)
      requires Linked(order, p) && first == At(Chain(order, p), 0)
      ensures i <= |Chain(order, p)|
      ensures node == At(Chain(order, p), i) && prev == At(Chain(order, p), i - 1)
      ensures forall j :: 0 <= j < i ==> Chain(order, p)[j].itemId != id
      ensures node != null ==> node.itemId == id
    {
      hide Chain;
      ghost var c := Chain(order, p);
      prev, node, i := null, first, 0;
      while node != null && node.itemId != id
        invariant i <= |c| && node == At(c, i) && prev == At(c, i - 1)
        invariant forall j :: 0 <= j < i ==> c[j].itemId != id
        decreases |c| - i
      {
        prev, node, i := node, node.next, i + 1;
      }
    }

    lemma AbsentFromChain(id: Id)
      requires ArraysOk(order)
      requires forall j :: 0 <= j < |Chain(order, PathOf(id, bucketLevels))| ==>
        Chain(order, PathOf(id, bucketLevels))[j].itemId != id
      ensures Lookup(Entries(), id).None?
    {
      ChainMembers(order, PathOf(id, bucketLevels));
      assert forall i :: 0 <= i < |order| ==> order[i] in order;
    }

    /** ff_hash_table_get_item. */
    method Get(id: Id) returns (r: Option<V>)
      requires Valid()
      ensures r == Lookup(Entries(), id)
    {
      hide Chain, LevelHash, Linked;
      var arr := FindBucket(id);
      ghost var p := PathOf(id, bucketLevels);
      if arr == null {
        NothingBelow(p.parent);
        AbsentFromChain(id);
        return None;
      }
      var hash := LevelHash(id, bucketLevels - 1);
      assert p == Step(PathOf(id, bucketLevels - 1), hash);
      assert arr[hash] == Cell(order, p.parent, hash);
      var _, node, i := FindInChain(First(arr[hash]), p, id);
      if node == null {
        AbsentFromChain(id);
        return None;
      }
      assert node in order;
      ghost var k :| 0 <= k < |order| && order[k] == node;
      LookupAt(Entries(), k);
      return Some(node.value);
    }

    lemma ChainAppend(n: Node<V>, p: Path)
      ensures Chain(order + [n], p) == Chain(order, p) + if n.leaf == p then [n] else []
    {
      assert (order + [n])[..|order|] == order;
    }

    /** The `next` pointers of leaf `p` once `n` is hung behind the last node of its own leaf. */
    lemma LinkedAfterAppend(n: Node<V>, last: Node?<V>, p: Path)
      requires n.next == null && LinkedBut(order, p, last)
      requires forall i, j :: 0 <= i < j < |order| ==> order[i] != order[j]
      requires last == At(Chain(order, n.leaf), |Chain(order, n.leaf)| - 1)
      requires last != null ==> last.next == n
      ensures Linked(order + [n], p)
    {
      ChainAppend(n, p);
      ChainMembers(order, p);
      ChainMembers(order, n.leaf);
      ChainDistinct(order, p);
      var c, c' := Chain(order, p), Chain(order + [n], p);
      hide Chain;
      forall i | 0 <= i < |c'| ensures c'[i].next == At(c', i + 1) {
        if i < |c| {
          assert c'[i] == c[i] && c[i] in order;
          assert c[i] == last <==> p == n.leaf && i == |c| - 1;
        }
      }
    }

    /** Store a new node at the end of its chain: behind `last`, or in the empty bucket `hash` of `arr`. */
    method LinkInChain(n: Node<V>, last: Node?<V>, arr: array<Bucket<V>>, hash: byte)
      requires Valid()
      requires n !in order && n.next == null && n.leaf == PathOf(n.itemId, bucketLevels)
      requires n.leaf.Step? && n.leaf.hash == hash && n.leaf.parent in arrays && arrays[n.leaf.parent] == arr
      requires last == At(Chain(order, n.leaf), |Chain(order, n.leaf)| - 1)
      modifies arr, order`next
      ensures ArraysOk(order + [n]) && CellsOk(order + [n]) && ChainsOk(order + [n])
    {
      hide PathOf, Chain, HashTable.ListOk;
      assert forall i, j :: 0 <= i < j < |order| ==> order[i] != order[j] by { Distinct(); }
      if last == null {
        arr[hash] := Nodes(n);
      } else {
        last.next := n;
      }
      forall p, c: byte | p in arrays ensures arrays[p][c] == Cell(order + [n], p, c) {
        ChainAppend(n, Step(p, c));
        assert old(arrays[p][c]) == old(Cell(order, p, c));
      }
      forall p ensures Linked(order + [n], p) {
        assert old(Linked(order, p));
        assert LinkedBut(order, p, last);
        LinkedAfterAppend(n, last, p);
      }
    }

    lemma Distinct()
      requires ListOk(order)
      ensures forall i, j :: 0 <= i < j < |order| ==> order[i] != order[j]
    {
    }

    lemma ListAfterAppend(n: Node<V>)
      requires forall i, j :: 0 <= i < j < |order| ==> order[i].itemId != order[j].itemId
      requires forall m :: m in order ==> m.itemId != n.itemId
      requires forall i {:trigger order[i].nextInList} :: 0 <= i < |order| ==>
        order[i].nextInList == if i == |order| - 1 then n else order[i + 1]
      requires forall i {:trigger order[i].prevInList} :: 0 <= i < |order| ==> order[i].prevInList == At(order, i - 1)
      requires n.nextInList == null && n.prevInList == At(order, |order| - 1)
      requires linkedList == (if order == [] then n else order[0]) && linkedListLast == n && length == |order| + 1
      ensures ListOk(order + [n])
    {
    }

    /** Store a new node at the end of the global list. */
    method AppendToList(n: Node<V>)
      requires ListOk(order) && ArraysOk(order + [n]) && CellsOk(order + [n]) && ChainsOk(order + [n])
      requires n !in order && n.prevInList == null && n.nextInList == null
      requires forall m :: m in order ==> m.itemId != n.itemId
      modifies `order, `linkedList, `linkedListLast, `length, n`prevInList, order`nextInList
      ensures Valid()
      ensures order == old(order) + [n]
    {
      hide Chain, Linked, HashTable.ArraysOk, HashTable.CellsOk, HashTable.ChainsOk;
      if linkedList == null {
        linkedList := n;
        linkedListLast := n;
      } else {
        n.prevInList := linkedListLast;
        linkedListLast.nextInList := n;
        linkedListLast := n;
      }
      length := length + 1;
      ListAfterAppend(n);
      order := order + [n];
    }

    lemma LeafCell(id: Id)
      requires Valid() && PathOf(id, bucketLevels - 1) in arrays
      ensures PathOf(id, bucketLevels) == Step(PathOf(id, bucketLevels - 1), LevelHash(id, bucketLevels - 1))
      ensures arrays[PathOf(id, bucketLevels - 1)].Length == POOL_LENGTH
      ensures First(arrays[PathOf(id, bucketLevels - 1)][LevelHash(id, bucketLevels - 1)])
           == At(Chain(order, PathOf(id, bucketLevels)), 0)
      ensures Linked(order, PathOf(id, bucketLevels))
    {
      var q, hash := PathOf(id, bucketLevels - 1), LevelHash(id, bucketLevels - 1);
      hide LevelHash, Chain;
      assert arrays[q][hash] == Cell(order, q, hash);
    }

    lemma EntriesDistinct()
      requires ListOk(order)
      ensures DistinctKeys(Entries())
    {
    }

    /** ff_hash_table_put_item. */
    method Put(id: Id, value: V)
      requires Valid()
      modifies this, order, arrays.Values
      ensures Valid()
      ensures Entries() == Tables.Put(old(Entries()), id, value)
      ensures Extends(old(arrays), arrays) && fresh(arrays.Values - old(arrays.Values))
      ensures forall n :: n in order ==> n in old(order) || fresh(n)
    {
      hide LevelHash, PathOf, Chain, Linked, EntriesOf, Tables.Put, HashTable.Valid;
      Basics();
      var arr, _ := CreateBucket(id);
      assert Entries() == old(Entries());
      assert forall n :: n in order ==> n in old(order);
      Store(id, value, arr);
    }

    /** The rest of put, in the leaf array of `id`. */
    method Store(id: Id, value: V, arr: array<Bucket<V>>)
      requires Valid() && PathOf(id, bucketLevels - 1) in arrays && arrays[PathOf(id, bucketLevels - 1)] == arr
      modifies `order, `length, `linkedList, `linkedListLast, order, arr
      ensures Valid()
      ensures Entries() == Tables.Put(old(Entries()), id, value)
      ensures forall n :: n in order ==> n in old(order) || fresh(n)
    {
      hide LevelHash, PathOf, Chain, Linked, EntriesOf, Tables.Put;
      hide HashTable.ArraysOk, HashTable.CellsOk, HashTable.ChainsOk, HashTable.ListOk;
      ghost var p := PathOf(id, bucketLevels);
      LeafCell(id);
      var hash := LevelHash(id, bucketLevels - 1);
      var last, node, i := FindInChain(First(arr[hash]), p, id);
      if node != null {
        Overwrite(node, value);
      } else {
        AbsentFromChain(id);
        PutNew(Entries(), id, value);
        AddNode(id, value, last, arr);
      }
    }

    /** Item already exists: only its value changes. */
    method Overwrite(node: Node<V>, value: V)
      requires Valid() && node in order
      modifies node`value
      ensures Valid()
      ensures Entries() == Tables.Put(old(Entries()), node.itemId, value)
    {
      hide EntriesOf, HashTable.ArraysOk, HashTable.CellsOk, HashTable.ChainsOk, HashTable.ListOk;
      ghost var k :| 0 <= k < |order| && order[k] == node;
      EntriesDistinct();
      PutAt(Entries(), k, value);
      node.value := value;
      assert Entries() == old(Entries())[k := (node.itemId, value)];
    }

    /** Store a new item in its chain and in the global list. */
    method AddNode(id: Id, value: V, last: Node?<V>, arr: array<Bucket<V>>)
      requires Valid()
      requires Lookup(Entries(), id).None?
      requires PathOf(id, bucketLevels - 1) in arrays && arrays[PathOf(id, bucketLevels - 1)] == arr
      requires last == At(Chain(order, PathOf(id, bucketLevels)), |Chain(order, PathOf(id, bucketLevels))| - 1)
      modifies `order, `length, `linkedList, `linkedListLast, order`next, order`nextInList, arr
      ensures Valid()
      ensures Entries() == old(Entries()) + [(id, value)]
      ensures order[..|order| - 1] == old(order) && fresh(order[|order| - 1])
    {
      hide LevelHash, PathOf, Chain, At, Linked, EntriesOf, Lookup;
      hide HashTable.ArraysOk, HashTable.CellsOk, HashTable.ChainsOk, HashTable.ListOk;
      assert PathOf(id, bucketLevels) == Step(PathOf(id, bucketLevels - 1), LevelHash(id, bucketLevels - 1)) by {
        LeafCell(id);
      }
      ghost var ns, es := order, Entries();
      AbsentIds(id);
      var n := new Node(id, value, PathOf(id, bucketLevels));
      LinkInChain(n, last, arr, LevelHash(id, bucketLevels - 1));
      AppendToList(n);
      assert EntriesOf(ns) == es;
      EntriesAppend(ns, n);
    }

    lemma AbsentIds(id: Id)
      requires Lookup(Entries(), id).None?
      ensures forall n :: n in order ==> n.itemId != id
    {
      hide Lookup;
      assert forall i :: 0 <= i < |order| ==> Entries()[i].0 == order[i].itemId;
    }

    /** The `next` pointers of a leaf once the pointer to `order[k]`, at place `i` of its chain, was moved past it. */
    lemma LinkedAfterRemove(k: nat, prev: Node?<V>, i: nat)
      requires k < |order| && LinkedBut(order, order[k].leaf, prev)
      requires forall i, j :: 0 <= i < j < |order| ==> order[i] != order[j]
      requires i < |Chain(order, order[k].leaf)| && Chain(order, order[k].leaf)[i] == order[k]
      requires prev == At(Chain(order, order[k].leaf), i - 1)
      requires prev != null ==> prev.next == At(Chain(order, order[k].leaf), i + 1)
      ensures Linked(Without(order, k), order[k].leaf)
    {
      hide Chain;
      var p := order[k].leaf;
      ChainRemove(order, k, p, i);
      ChainDistinct(order, p);
      var c, c' := Chain(order, p), Chain(Without(order, k), p);
      forall j | 0 <= j < |c'| ensures c'[j].next == At(c', j + 1) {
        assert c'[j] == c[if j < i then j else j + 1];
        assert c'[j] == prev <==> j == i - 1;
      }
    }

    lemma OtherLeafAfterRemove(k: nat, prev: Node?<V>, p: Path)
      requires k < |order| && LinkedBut(order, p, prev) && p != order[k].leaf
      requires forall i, j :: 0 <= i < j < |order| ==> order[i] != order[j]
      requires prev != null ==> prev.leaf == order[k].leaf
      ensures Linked(Without(order, k), p)
    {
      hide Chain;
      ChainRemove(order, k, p, 0);
      ChainMembers(order, p);
    }

    /** Remove a node from its chain: past `prev`, or from bucket `hash` of `arr`. */
    method UnlinkFromChain(node: Node<V>, prev: Node?<V>, arr: array<Bucket<V>>, hash: byte, ghost k: nat, ghost i: nat)
      requires Valid()
      requires k < |order| && order[k] == node
      requires node.leaf.hash == hash && arrays[node.leaf.parent] == arr
      requires i < |Chain(order, node.leaf)| && Chain(order, node.leaf)[i] == node
      requires prev == At(Chain(order, node.leaf), i - 1)
      modifies arr, order`next
      ensures ArraysOk(Without(order, k)) && CellsOk(Without(order, k)) && ChainsOk(Without(order, k))
    {
      hide PathOf, Chain, HashTable.ListOk;
      Distinct();
      assert Linked(order, node.leaf);
      assert node.next == At(Chain(order, node.leaf), i + 1);
      if prev != null {
        prev.next := node.next;
      } else {
        arr[hash] := if node.next == null then Null else Nodes(node.next);
      }
      forall p, c: byte | p in arrays ensures arrays[p][c] == Cell(Without(order, k), p, c) {
        ChainRemove(order, k, Step(p, c), i);
        assert old(arrays[p][c]) == old(Cell(order, p, c));
      }
      forall p ensures Linked(Without(order, k), p) {
        assert old(Linked(order, p));
        assert LinkedBut(order, p, prev);
        if p == node.leaf {
          LinkedAfterRemove(k, prev, i);
        } else {
          ChainMembers(order, node.leaf);
          OtherLeafAfterRemove(k, prev, p);
        }
      }
    }

    lemma NextAfterRemove(k: nat, i: nat)
      requires k < |order| && i < |order| - 1
      requires forall j {:trigger order[j].nextInList} :: 0 <= j < |order| && j != k && j != k - 1 ==>
        order[j].nextInList == At(order, j + 1)
      requires k > 0 ==> order[k - 1].nextInList == At(order, k + 1)
      ensures Without(order, k)[i].nextInList == At(Without(order, k), i + 1)
    {
      hide Without;
      AtWithout(order, k, i);
      AtWithout(order, k, i + 1);
    }

    lemma PrevAfterRemove(k: nat, i: nat)
      requires k < |order| && i < |order| - 1
      requires forall j {:trigger order[j].prevInList} :: 0 <= j < |order| && j != k && j != k + 1 ==>
        order[j].prevInList == At(order, j - 1)
      requires k + 1 < |order| ==> order[k + 1].prevInList == At(order, k - 1)
      ensures Without(order, k)[i].prevInList == At(Without(order, k), i - 1)
    {
      hide Without;
      AtWithout(order, k, i);
      AtWithout(order, k, i - 1);
    }

    lemma ListAfterRemove(k: nat)
      requires k < |order| && forall i, j :: 0 <= i < j < |order| ==> order[i].itemId != order[j].itemId
      requires forall j {:trigger order[j].nextInList} :: 0 <= j < |order| && j != k && j != k - 1 ==>
        order[j].nextInList == At(order, j + 1)
      requires forall j {:trigger order[j].prevInList} :: 0 <= j < |order| && j != k && j != k + 1 ==>
        order[j].prevInList == At(order, j - 1)
      requires k > 0 ==> order[k - 1].nextInList == At(order, k + 1)
      requires k + 1 < |order| ==> order[k + 1].prevInList == At(order, k - 1)
      requires linkedList == At(order, if k == 0 then 1 else 0)
      requires linkedListLast == At(order, if k == |order| - 1 then k - 1 else |order| - 1)
      requires length == |order| - 1
      ensures ListOk(Without(order, k))
    {
      hide Without, At;
      IdsWithout(order, k);
      AtWithout(order, k, 0);
      AtWithout(order, k, |order| - 2);
      forall i | 0 <= i < |order| - 1
        ensures Without(order, k)[i].nextInList == At(Without(order, k), i + 1)
        ensures Without(order, k)[i].prevInList == At(Without(order, k), i - 1)
      {
        NextAfterRemove(k, i);
        PrevAfterRemove(k, i);
      }
    }

    /** Remove a node from the global list. */
    method UnlinkFromList(node: Node<V>, ghost k: nat)
      requires ListOk(order) && k < |order| && order[k] == node
      requires ArraysOk(Without(order, k)) && CellsOk(Without(order, k)) && ChainsOk(Without(order, k))
      modifies `order, `linkedList, `linkedListLast, `length, order`nextInList, order`prevInList
      ensures Valid()
      ensures order == Without(old(order), k)
    {
      hide Chain, Linked, Without, HashTable.ArraysOk, HashTable.CellsOk, HashTable.ChainsOk;
      if node.prevInList != null {
        node.prevInList.nextInList := node.nextInList;
      }
      if node.nextInList != null {
        node.nextInList.prevInList := node.prevInList;
      }
      if linkedList == node {
        linkedList := node.nextInList;
      }
      if linkedListLast == node {
        linkedListLast := node.prevInList;
      }
      length := length - 1;
      ListAfterRemove(k);
      order := Without(order, k);
    }

    /** Take a node found in its chain out of the chain and out of the list. */
    method RemoveNode(node: Node<V>, prev: Node?<V>, arr: array<Bucket<V>>, hash: byte, ghost i: nat)
      requires Valid()
      requires node in order && node.leaf.hash == hash && arrays[node.leaf.parent] == arr
      requires i < |Chain(order, node.leaf)| && Chain(order, node.leaf)[i] == node
      requires prev == At(Chain(order, node.leaf), i - 1)
      modifies `order, `linkedList, `linkedListLast, `length, order`next, order`nextInList, order`prevInList, arr
      ensures Valid()
      ensures Entries() == Tables.Remove(old(Entries()), node.itemId)
      ensures |Chain(order, node.leaf)| == |old(Chain(order, node.leaf))| - 1
      ensures forall n :: n in order ==> n in old(order)
    {
      hide LevelHash, PathOf, Chain, At, Linked, EntriesOf, Tables.Remove;
      hide HashTable.ArraysOk, HashTable.CellsOk, HashTable.ChainsOk, HashTable.ListOk;
      ghost var k :| 0 <= k < |order| && order[k] == node;
      EntriesDistinct();
      RemoveAt(Entries(), k);
      Distinct();
      ChainRemove(order, k, node.leaf, i);
      UnlinkFromChain(node, prev, arr, hash, k, i);
      UnlinkFromList(node, k);
      assert EntriesOf(old(order)) == old(Entries());
      EntriesWithout(old(order), k);
    }

    /** The scan of one bucket array for a bucket in use. */
    method IsEmpty(arr: array<Bucket<V>>) returns (empty: bool)
      requires arr.Length == POOL_LENGTH
      ensures empty <==> forall c: byte :: arr[c] == Null
    {
      for i := 0 to POOL_LENGTH
        invariant forall c: byte :: c < i ==> arr[c] == Null
      {
        if arr[i] != Null {
          return false;
        }
      }
      return true;
    }

    /** Discard the all-empty bucket array below bucket `c` of the array at `p`. */
    method PruneChild(ghost p: Path, parent: array<Bucket<V>>, c: byte)
      requires Valid()
      requires p in arrays && arrays[p] == parent && Step(p, c) in arrays
      requires forall d: byte :: arrays[Step(p, c)][d] == Null
      modifies `arrays, parent
      ensures Valid()
      ensures arrays == old(arrays) - {Step(p, c)}
    {
      hide PathOf, Chain, Linked, HashTable.ListOk, HashTable.ChainsOk;
      ghost var q := Step(p, c);
      assert Depth(q) == Depth(p) + 1 < bucketLevels;
      assert forall d: byte :: Step(q, d) !in arrays by {
        forall d: byte ensures Step(q, d) !in arrays {
          assert arrays[q][d] == Cell(order, q, d);
          assert Depth(Step(q, d)) == Depth(q) + 1;
        }
      }
      forall n | n in order ensures n.leaf.parent != q {
        ChainMembers(order, n.leaf);
        assert arrays[n.leaf.parent][n.leaf.hash] == Cell(order, n.leaf.parent, n.leaf.hash);
      }
      parent[c] := Null;
      arrays := arrays - {q};
      forall r, d: byte | r in arrays ensures arrays[r][d] == Cell(order, r, d) {
        assert r != p ==> arrays[r] != parent;
        assert old(arrays[r][d]) == old(Cell(order, r, d));
      }
      assert ArraysOk(order) && ListOk(order) && ChainsOk(order);
    }

    /** One turn of the walk back up the tree: discard `arr`, one step below `parent`, if nothing is in it. */
    method PruneLevel(id: Id, level: nat, arr: array<Bucket<V>>, parent: array<Bucket<V>>) returns (pruned: bool)
      requires Valid()
      requires PathOf(id, level) in arrays && arrays[PathOf(id, level)] == parent
      requires PathOf(id, level + 1) in arrays && arrays[PathOf(id, level + 1)] == arr
      modifies `arrays, parent
      ensures Valid()
      ensures pruned ==> arrays == old(arrays) - {PathOf(id, level + 1)}
      ensures !pruned ==> arrays == old(arrays) && exists c: byte :: arr[c] != Null
    {
      hide LevelHash, HashTable.CellsOk, HashTable.ChainsOk, HashTable.ListOk;
      pruned := IsEmpty(arr);
      if pruned {
        PruneChild(PathOf(id, level), parent, LevelHash(id, level));
      }
    }

    /** The paths of `id` strictly below `stop` that lead to bucket arrays. */
    ghost function Below(id: Id, stop: nat): set<Path> {
      set k | stop < k < bucketLevels :: PathOf(id, k)
    }

    lemma BelowNone(id: Id)
      ensures bucketLevels >= 1 ==> Below(id, bucketLevels - 1) == {}
    {
    }

    lemma BelowStep(id: Id, level: nat)
      requires level + 1 < bucketLevels
      ensures Below(id, level) == Below(id, level + 1) + {PathOf(id, level + 1)}
      ensures forall k :: 0 <= k <= level ==> PathOf(id, k) !in Below(id, level)
    {
      hide PathOf;
    }

    /**
     The walk back up the tree clearing unused buckets. It ends at `stop`: the arrays of the path
     below it are discarded, and the array at `stop` is the root or has a bucket in use.
     */
    method Prune(id: Id, path: seq<array<Bucket<V>>>) returns (ghost stop: nat)
      requires Valid() && bucketLevels >= 2 && |path| == bucketLevels - 1
      requires Along(arrays, id, path)
      modifies `arrays, arrays.Values
      ensures Valid()
      ensures stop < bucketLevels && arrays == old(arrays) - Below(id, stop)
      ensures forall k :: 0 <= k <= stop ==> PathOf(id, k) in arrays
      ensures stop > 0 ==> exists c: byte :: arrays[PathOf(id, stop)][c] != Null
    {
      hide LevelHash, PathOf, HashTable.Valid, HashTable.Below, HashTable.ArraysOk, Along;
      Basics();
      assert PathOf(id, 0) == Root by { PathOfZero(id); }
      stop := bucketLevels - 1;
      var level := bucketLevels - 2;
      BelowNone(id);
      AlongAt(arrays, id, path);
      while true
        invariant Valid() && 0 <= level && stop == level + 1 < bucketLevels
        invariant arrays == old(arrays) - Below(id, stop)
        invariant forall k :: 0 <= k <= stop ==> PathOf(id, k) in arrays
        decreases level
      {
        BelowStep(id, level);
        var parent := if level == 0 then buckets else path[level - 1];
        assert PathOf(id, level) in old(arrays) && old(arrays)[PathOf(id, level)] == parent;
        var pruned := PruneLevel(id, level, path[level], parent);
        if !pruned {
          break;
        }
        stop := level;
        if level == 0 {
          break;
        }
        level := level - 1;
      }
    }

    /** No bucket array on the way to `id`, the root apart, is empty. */
    ghost predicate CleanPath(id: Id)
      requires ArraysOk(order)
      reads `order, `arrays, `buckets, arrays.Values
    {
      forall k :: 1 <= k && PathOf(id, k) in arrays ==> InUse(PathOf(id, k))
    }

    ghost predicate InUse(p: Path)
      requires p in arrays && arrays[p].Length == POOL_LENGTH
      reads `arrays, arrays.Values
    {
      exists c: byte :: arrays[p][c] != Null
    }

    lemma PathIsClean(id: Id, stop: nat)
      requires Valid() && stop < bucketLevels
      requires forall k :: 0 <= k <= stop ==> PathOf(id, k) in arrays
      requires forall k :: stop < k < bucketLevels ==> PathOf(id, k) !in arrays
      requires stop > 0 ==> InUse(PathOf(id, stop))
      ensures CleanPath(id)
    {
      hide LevelHash, Chain, Linked;
      forall k | 1 <= k && PathOf(id, k) in arrays ensures InUse(PathOf(id, k)) {
        assert Depth(PathOf(id, k)) == k;
        if k < stop {
          var p, c := PathOf(id, k), LevelHash(id, k);
          assert PathOf(id, k + 1) == Step(p, c) && Depth(p) + 1 < bucketLevels;
          assert arrays[p][c] == Cell(order, p, c);
        }
      }
    }

    /** The part of remove that follows when the chain holds `id`. */
    method RemoveFound(
      id: Id, node: Node<V>, prev: Node?<V>, arr: array<Bucket<V>>, path: seq<array<Bucket<V>>>, ghost i: nat)
      requires Valid() && (bucketLevels >= 2 || |Chain(order, PathOf(id, bucketLevels))| > 1)
      requires |path| == bucketLevels - 1 && Along(arrays, id, path)
      requires PathOf(id, bucketLevels - 1) in arrays && arrays[PathOf(id, bucketLevels - 1)] == arr
      requires node in order && node.itemId == id
      requires i < |Chain(order, node.leaf)| && Chain(order, node.leaf)[i] == node
      requires prev == At(Chain(order, node.leaf), i - 1)
      modifies this, order, arrays.Values
      ensures Valid()
      ensures Entries() == Tables.Remove(old(Entries()), id)
      ensures CleanPath(id) && arrays.Keys <= old(arrays.Keys) && arrays.Values <= old(arrays.Values)
      ensures forall n :: n in order ==> n in old(order)
    {
      hide LevelHash, PathOf, Chain, Linked, EntriesOf, Tables.Remove;
      hide HashTable.CellsOk, HashTable.ChainsOk, HashTable.ListOk;
      LeafCell(id);
      LeafOf(node);
      var hash := LevelHash(id, bucketLevels - 1);
      RemoveNode(node, prev, arr, hash, i);
      LeafCell(id);
      assert bucketLevels == 1 ==> First(arr[hash]) != null;
      ClearUnused(id, path, arr, hash);
    }

    /** Walk back up only if the leaf bucket has become empty. */
    method ClearUnused(id: Id, path: seq<array<Bucket<V>>>, arr: array<Bucket<V>>, hash: byte)
      requires Valid() && |path| == bucketLevels - 1 && Along(arrays, id, path)
      requires PathOf(id, bucketLevels - 1) in arrays && arrays[PathOf(id, bucketLevels - 1)] == arr
      requires arr.Length == POOL_LENGTH && (bucketLevels >= 2 || arr[hash] != Null)
      modifies `arrays, arrays.Values
      ensures Valid()
      ensures CleanPath(id) && arrays.Keys <= old(arrays.Keys) && arrays.Values <= old(arrays.Values)
    {
      hide PathOf, LevelHash, Chain, Linked, HashTable.ListOk, HashTable.ChainsOk, HashTable.CellsOk, HashTable.CleanPath;
      ghost var stop := bucketLevels - 1;
      PathOfZero(id);
      if arr[hash] == Null {
        stop := Prune(id, path);
      } else {
        assert InUse(PathOf(id, stop));
      }
      PathIsClean(id, stop);
    }

    /**
     The walk back up starts two below the number of levels. A table of one level has no such level,
     so there an id can be removed only if it is absent or shares its bucket.
     */
    ghost predicate Removable(id: Id)
      reads `order, order`value
    {
      bucketLevels >= 2 || Lookup(Entries(), id).None? || |Chain(order, PathOf(id, bucketLevels))| > 1
    }

    /** ff_hash_table_remove_item. */
    method Remove(id: Id)
      requires Valid() && Removable(id)
      modifies this, order, arrays.Values
      ensures Valid()
      ensures Entries() == Tables.Remove(old(Entries()), id)
      ensures Lookup(old(Entries()), id).Some? ==> CleanPath(id) && arrays.Keys <= old(arrays.Keys)
      ensures Lookup(old(Entries()), id).None? ==>
        && Extends(old(arrays), arrays) && PathOf(id, bucketLevels - 1) in arrays
        && (CleanPath(id) <==> bucketLevels == 1 || InUse(PathOf(id, bucketLevels - 1)))
      ensures fresh(arrays.Values - old(arrays.Values))
      ensures forall n :: n in order ==> n in old(order)
    {
      hide LevelHash, PathOf, Chain, Linked, EntriesOf, Tables.Remove, Extends, HashTable.CleanPath, HashTable.InUse;
      hide HashTable.ArraysOk, HashTable.CellsOk, HashTable.ChainsOk, HashTable.ListOk;
      LeavesPresent();
      var arr, path := CreateBucket(id);
      ghost var p := PathOf(id, bucketLevels);
      assert Entries() == old(Entries());
      LeafCell(id);
      var hash := LevelHash(id, bucketLevels - 1);
      var prev, node, i := FindInChain(First(arr[hash]), p, id);
      if node == null {
        AbsentFromChain(id);
        RemoveAbsent(Entries(), id);
        CleanIffLeafInUse(id);
      } else {
        LeafOf(node);
        assert Lookup(Entries(), id).Some? by { PresentInEntries(node); }
        RemoveFound(id, node, prev, arr, path, i);
      }
    }

    /** Where the whole path to `id` is there, it is clean exactly if its last array is in use. */
    lemma CleanIffLeafInUse(id: Id)
      requires Valid() && PathOf(id, bucketLevels - 1) in arrays
      ensures CleanPath(id) <==> bucketLevels == 1 || InUse(PathOf(id, bucketLevels - 1))
    {
      hide LevelHash, Chain, Linked, HashTable.ChainsOk, HashTable.ListOk, HashTable.InUse;
      forall k | 0 <= k < bucketLevels ensures PathOf(id, k) in arrays {
        PrefixesPresent(id, k, bucketLevels - 1);
      }
      if bucketLevels == 1 || InUse(PathOf(id, bucketLevels - 1)) {
        PathIsClean(id, bucketLevels - 1);
      }
    }

    /** In an empty table no leaf array is in use. */
    lemma NothingInUse(id: Id)
      requires Valid() && Entries() == [] && PathOf(id, bucketLevels - 1) in arrays
      ensures !InUse(PathOf(id, bucketLevels - 1))
    {
      hide LevelHash, Linked, HashTable.ChainsOk, HashTable.ListOk;
      var p := PathOf(id, bucketLevels - 1);
      assert order == [] && Depth(p) == bucketLevels - 1;
      forall c: byte ensures arrays[p][c] == Null {
        assert arrays[p][c] == Cell(order, p, c);
      }
    }

    lemma LeavesPresent()
      requires Valid()
      ensures bucketLevels >= 1 && forall n :: n in order ==> PathOf(n.itemId, bucketLevels - 1) in arrays
    {
      hide LevelHash, Chain, Linked, HashTable.CellsOk, HashTable.ChainsOk, HashTable.ListOk;
      Basics();
      forall n | n in order ensures PathOf(n.itemId, bucketLevels - 1) in arrays {
        LeafOf(n);
      }
    }

    lemma PresentInEntries(n: Node<V>)
      requires n in order
      ensures Lookup(Entries(), n.itemId).Some?
    {
      hide Lookup;
      var k :| 0 <= k < |order| && order[k] == n;
      assert Entries()[k].0 == n.itemId;
    }

    // -------------------------------------------------------------------------
    // What `Valid` means in terms of pointers alone

    /** Walking a leaf bucket's chain meets, in list order, exactly the listed nodes whose id bytes lead there. */
    lemma {:induction false} ChainWalk(p: Path, c: byte, i: nat)
      requires Valid() && p in arrays && Depth(p) + 1 == bucketLevels
      ensures Follow(First(arrays[p][c]), i) == At(Chain(order, Step(p, c)), i)
    {
      hide Chain, PathOf, HashTable.ListOk;
      assert arrays[p][c] == Cell(order, p, c);
      if i > 0 {
        ChainWalk(p, c, i - 1);
        assert Linked(order, Step(p, c));
      }
    }

    /** Every node reachable through the buckets is on the list, in the leaf its id selects, and is met once. */
    lemma ReachableIsListed(p: Path, c: byte, i: nat, j: nat)
      requires Valid() && p in arrays && Depth(p) + 1 == bucketLevels
      requires Follow(First(arrays[p][c]), i) != null
      ensures Follow(First(arrays[p][c]), i) in order
      ensures PathOf(Follow(First(arrays[p][c]), i).itemId, bucketLevels) == Step(p, c)
      ensures Follow(First(arrays[p][c]), j) == Follow(First(arrays[p][c]), i) ==> i == j
    {
      hide Chain, PathOf, Linked, Follow, HashTable.CellsOk, HashTable.ChainsOk;
      ChainWalk(p, c, i);
      ChainWalk(p, c, j);
      ChainMembers(order, Step(p, c));
      Distinct();
      ChainDistinct(order, Step(p, c));
    }

    /** Every node on the list is reachable through the leaf bucket its id selects. */
    lemma ListedIsReachable(n: Node<V>) returns (i: nat)
      requires Valid() && n in order
      ensures n.leaf == PathOf(n.itemId, bucketLevels) && n.leaf.Step? && n.leaf.parent in arrays
      ensures Follow(First(arrays[n.leaf.parent][n.leaf.hash]), i) == n
    {
      hide Chain, PathOf, Linked, Follow, HashTable.CellsOk, HashTable.ChainsOk, HashTable.ListOk;
      ChainMembers(order, n.leaf);
      i :| 0 <= i < |Chain(order, n.leaf)| && Chain(order, n.leaf)[i] == n;
      ChainWalk(n.leaf.parent, n.leaf.hash, i);
    }

    /** The list has the right ends, its two directions are mutual inverses, and it is `length` nodes long. */
    lemma {:induction false} ListWalk(i: nat)
      requires Valid()
      ensures FollowList(linkedList, i) == At(order, i)
      ensures FollowBack(linkedListLast, i) == At(order, |order| - 1 - i)
      ensures i >= length <==> FollowList(linkedList, i) == null
    {
      hide HashTable.ArraysOk, HashTable.CellsOk, HashTable.ChainsOk;
      if i > 0 {
        ListWalk(i - 1);
      }
    }
  }
}
