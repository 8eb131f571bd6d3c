/**
 The payload of the C client before it is flattened (client/c/client.c): a linked list of nodes, how
 the client adds to it, and how it reads the message into a node.
 */
module ClientPayload {
  import opened Bytes
  import opened Requests

  /** struct ff_request_payload_node. */
  class PayloadNode {
    var offset: nat
    var length: nat
    var value: seq<byte>
    var next: PayloadNode?

    constructor (length: nat, value: seq<byte>)
      ensures this.offset == 0 && this.length == length && this.value == value && next == null
    {
      this.offset, this.length, this.value, this.next := 0, length, value, null;
    }
  }

  /** The payload fields of struct ff_request; `nodes` are the nodes one meets from `first`. */
  class PayloadList {
    var first: PayloadNode?
    var length: nat
    ghost var nodes: seq<PayloadNode>

    ghost predicate Valid()
      reads this, nodes
    {
      && (forall i, j :: 0 <= i < j < |nodes| ==> nodes[i] != nodes[j])
      && first == Nth(nodes, 0)
      && forall i {:trigger nodes[i].next} :: 0 <= i < |nodes| ==> nodes[i].next == Nth(nodes, i + 1)
    }

    constructor ()
      ensures Valid() && nodes == [] && length == 0
    {
      first, length, nodes := null, 0, [];
    }

    /**
     ff_client_request_add_payload. The search for the last node starts from null and so ends at the
     first one: the node is added behind the others exactly if there is at most one, and else takes
     the place of all behind the first.
     */
    method Add(node: PayloadNode)
      requires Valid() && node !in nodes && node.next == null
      modifies this, nodes, node`offset
      ensures Valid() && length == old(length) + node.length
      ensures nodes == old(nodes) + [node] <==> |old(nodes)| <= 1
      ensures |old(nodes)| > 1 ==> nodes == [old(nodes)[0], node]
      ensures node.offset == if old(nodes) == [] then old(node.offset)
                             else (old(nodes)[0].offset + old(nodes)[0].length) % 0x1_0000
      ensures forall n :: n in old(nodes) ==>
        n.offset == old(n.offset) && n.length == old(n.length) && n.value == old(n.value)
    {
      var last := Search(first, null, node);
      if last == null {
        first := node;
        nodes := [node];
      } else {
        last.next := node;
        node.offset := (last.offset + last.length) % 0x1_0000;
        nodes := [last, node];
      }
      length := length + node.length;
    }

    /** The nodes as values, by walking the list. */
    method Chunks() returns (cs: seq<Chunk>)
      requires Valid()
      ensures cs == ChunksOf(nodes)
    {
      cs := [];
      var n := first;
      ghost var i := 0;
      while n != null
        invariant i <= |nodes| && n == Nth(nodes, i) && cs == ChunksOf(nodes[..i])
        decreases |nodes| - i
      {
        assert nodes[..i + 1] == nodes[..i] + [n] && nodes[..i + 1][..i] == nodes[..i];
        cs := cs + [Chunk(n.offset, n.length, n.value)];
        n := n.next;
        i := i + 1;
      }
      assert nodes[..i] == nodes;
    }
  }

  ghost function Nth(nodes: seq<PayloadNode>, i: nat): PayloadNode? {
    if i < |nodes| then nodes[i] else null
  }

  ghost function ChunksOf(nodes: seq<PayloadNode>): seq<Chunk>
    reads nodes
  {
    if nodes == [] then []
    else
      var n := nodes[|nodes| - 1];
      ChunksOf(nodes[..|nodes| - 1]) + [Chunk(n.offset, n.length, n.value)]
  }

  /** The loop of ff_client_request_add_payload: it looks behind the new node, so it runs once or not at all. */
  method Search(first: PayloadNode?, start: PayloadNode?, node: PayloadNode) returns (last: PayloadNode?)
    requires node.next == null
    ensures last == if start == null then first else start
  {
    last := first;
    var next := start;
    while next != null
      invariant (next == start && last == first) || (start != null && next == null && last == start)
      decreases next != null
    {
      last := next;
      next := node.next;
    }
  }

  // ---------------------------------------------------------------------------
  // Reading the message

  const READ_SIZE: nat := 1024

  function Flat(pieces: seq<seq<byte>>): seq<byte> {
    if pieces == [] then [] else Flat(pieces[..|pieces| - 1]) + pieces[|pieces| - 1]
  }

  /** realloc: the old bytes as far as they go, then whatever is in memory, which is `fill`. */
  function Realloc(v: seq<byte>, n: nat, fill: nat -> byte): (w: seq<byte>)
    ensures |w| == n && forall i :: 0 <= i < n ==> w[i] == if i < |v| then v[i] else fill(i)
  {
    seq(n, i requires 0 <= i => if i < |v| then v[i] else fill(i))
  }

  /** The buffer after the reads: each is copied to the front of it. */
  function Buffer(pieces: seq<seq<byte>>, fill: nat -> byte): (v: seq<byte>)
    ensures |v| == if pieces == [] then 1024 else |Flat(pieces)|
    ensures |Flat(pieces)| <= |v|
  {
    if pieces == [] then seq(READ_SIZE, i requires 0 <= i => fill(i))
    else
      var c := pieces[|pieces| - 1];
      c + Realloc(Buffer(pieces[..|pieces| - 1], fill), |Flat(pieces)|, fill)[|c|..]
  }

  /** What fread returns until the end of the file: pieces of 1 to 1024 bytes, fewer than 65536 in all. */
  predicate InPieces(pieces: seq<seq<byte>>) {
    (forall i :: 0 <= i < |pieces| ==> 0 < |pieces[i]| <= 1024) && |Flat(pieces)| < 0x1_0000
  }

  /** ff_client_read_payload_from_file, up to the node it adds. */
  method ReadPayload(pieces: seq<seq<byte>>, fill: nat -> byte) returns (node: PayloadNode)
    requires InPieces(pieces)
    ensures fresh(node) && node.next == null && node.offset == 0
    ensures node.length == |Flat(pieces)| && node.value == Buffer(pieces, fill)
  {
    var value, length := seq(READ_SIZE, i requires 0 <= i => fill(i)), 0;
    for k := 0 to |pieces|
      invariant length == |Flat(pieces[..k])| && value == Buffer(pieces[..k], fill)
    {
      assert pieces[..k + 1][..k] == pieces[..k];
      var chunk := pieces[k];
      length := length + |chunk|;
      value := Realloc(value, length, fill);
      value := chunk + value[|chunk|..];
    }
    assert pieces[..|pieces|] == pieces;
    node := new PayloadNode(length, value);
  }

  /** The message is read correctly, whatever is in memory, exactly if one read is enough for it. */
  lemma ReadsRightIffOneRead(pieces: seq<seq<byte>>)
    requires InPieces(pieces)
    ensures (forall fill: nat -> byte :: Buffer(pieces, fill)[..|Flat(pieces)|] == Flat(pieces)) <==> |pieces| <= 1
  {
    var n := |Flat(pieces)|;
    if |pieces| > 1 {
      var init, c := pieces[..|pieces| - 1], pieces[|pieces| - 1];
      assert init[|init| - 1] == pieces[|init| - 1];
      assert |Flat(init)| > 0;
      var x := Flat(pieces)[n - 1];
      var fill: nat -> byte := i => if x == 0 then 1 else 0;
      assert Buffer(pieces, fill)[n - 1] == fill(n - 1);
      assert Buffer(pieces, fill)[..n][n - 1] != Flat(pieces)[n - 1];
    } else {
      forall fill: nat -> byte ensures Buffer(pieces, fill)[..n] == Flat(pieces) {
        if pieces != [] {
          assert pieces[..0] == [] && Flat(pieces) == [] + pieces[0] == pieces[0];
        }
      }
    }
  }
}
