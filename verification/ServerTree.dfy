/**
  The server's tree over bytes, and what its root commits to.

  Any function into 32 bytes has collisions, so "or a collision exists" would
  say nothing. Each theorem instead names the finite set of byte strings that
  were hashed and places the colliding pair inside it.
 */
module ServerTree {
  import opened Words
  import opened Merkle
  import opened Numbers

  function MakeLeaf(H: Keccak, message: Bytes): Digest
  {
    H(H(message))
  }

  function PairInput(a: Digest, b: Digest): (r: Bytes)
    ensures |r| == 64
  {
    if LexLeq(a, b) then a + b else b + a
  }

  function HashPair(H: Keccak, a: Digest, b: Digest): Digest
  {
    H(PairInput(a, b))
  }

  function Pair(H: Keccak): (Digest, Digest) -> Digest
  {
    (a, b) => HashPair(H, a, b)
  }

  function DigestKey(d: Digest): seq<int> { d }

  lemma PairInputCommutes(a: Digest, b: Digest)
    ensures PairInput(a, b) == PairInput(b, a)
  {
    LexTotal(a, b);
    if LexLeq(a, b) && LexLeq(b, a) { LexAntisymmetric(a, b); }
  }

  lemma PairCommutes(H: Keccak)
    ensures Commutes(Pair(H))
  {
    forall a, b ensures Pair(H)(a, b) == Pair(H)(b, a) { PairInputCommutes(a, b); }
  }

  /** A 64-byte pre-image determines the unordered pair of children. */
  lemma PairInputDetermines(a: Digest, b: Digest, c: Digest, d: Digest)
    requires PairInput(a, b) == PairInput(c, d)
    ensures (a == c && b == d) || (a == d && b == c)
  {
    var x, y := PairInput(a, b), PairInput(c, d);
    assert x[..32] == (if LexLeq(a, b) then a else b) && x[32..] == (if LexLeq(a, b) then b else a);
    assert y[..32] == (if LexLeq(c, d) then c else d) && y[32..] == (if LexLeq(c, d) then d else c);
  }

  /** The two children are hashed smaller first, as 256-bit numbers. */
  lemma PairInputAscends(a: Digest, b: Digest)
    ensures var r := PairInput(a, b);
            && FromBigEndian(r[..32]) <= FromBigEndian(r[32..])
            && ((r[..32] == a && r[32..] == b) || (r[..32] == b && r[32..] == a))
  {
    hide FromBigEndian;
    LexIsNumeric(a, b);
    var r := PairInput(a, b);
    assert LexLeq(a, b) ==> r[..32] == a && r[32..] == b;
    assert !LexLeq(a, b) ==> r[..32] == b && r[32..] == a;
  }

  function Leaves(H: Keccak, messages: seq<Bytes>): seq<Digest>
  {
    Map(m => MakeLeaf(H, m), messages)
  }

  function SortedLeaves(H: Keccak, messages: seq<Bytes>): (r: seq<Digest>)
    ensures |r| == |messages|
  {
    Sort(DigestKey, Leaves(H, messages))
  }

  /** Upwards, as 256-bit numbers. */
  predicate Ascends(r: seq<Digest>)
  {
    forall i, j :: 0 <= i < j < |r| ==> FromBigEndian(r[i]) <= FromBigEndian(r[j])
  }

  /** Any list of leaves is sorted upwards, losing and adding none. */
  lemma SortAscends(leaves: seq<Digest>)
    ensures var r := Sort(DigestKey, leaves); multiset(r) == multiset(leaves) && Ascends(r)
  {
    hide FromBigEndian, Sort;
    var r := Sort(DigestKey, leaves);
    SortSorted(DigestKey, leaves);
    forall i, j | 0 <= i < j < |r| ensures FromBigEndian(r[i]) <= FromBigEndian(r[j]) {
      assert LexLeq(DigestKey(r[i]), DigestKey(r[j]));
      LexIsNumeric(r[i], r[j]);
    }
  }

  function BatchRoot(H: Keccak, messages: seq<Bytes>): Digest
    requires messages != []
  {
    Root(Pair(H), SortedLeaves(H, messages))
  }

  function PairUp(H: Keccak, padded: seq<Digest>): (r: seq<Digest>)
    requires |padded| % 2 == 0
    ensures r == NextLayer(Pair(H), padded)
  {
    seq(|padded| / 2, i requires 0 <= i < |padded| / 2 => HashPair(H, padded[2 * i], padded[2 * i + 1]))
  }

  method BuildTree(H: Keccak, leaves: seq<Digest>) returns (r: Result<seq<seq<Digest>>, string>)
    ensures leaves == [] <==> r.Err?
    ensures leaves != [] ==> r == Ok(Layers(Pair(H), Sort(DigestKey, leaves)))
    ensures r.Ok? ==> multiset(r.value[0]) == multiset(leaves) && Ascends(r.value[0])
  {
    if leaves == [] {
      return Err("Cannot build Merkle tree from empty leaf list");
    }
    var layer := Sort(DigestKey, leaves);
    SortAscends(leaves);
    var tree := [layer];
    ghost var P, sorted := Pair(H), layer;
    BuiltStart(P, sorted);
    while |layer| > 1
      invariant Built(P, sorted, tree, layer)
      decreases |layer|
    {
      BuiltStep(P, sorted, tree, layer);
      layer := PairUp(H, Padded(layer));
      tree := tree + [layer];
    }
    BuiltEnd(P, sorted, tree, layer);
    return Ok(tree);
  }

  /** The root depends only on which leaves there are, not on the order they came in. */
  lemma RootIgnoresOrder(H: Keccak, a: seq<Digest>, b: seq<Digest>)
    requires a != [] && b != [] && multiset(a) == multiset(b)
    ensures Root(Pair(H), Sort(DigestKey, a)) == Root(Pair(H), Sort(DigestKey, b))
  {
    SortSorted(DigestKey, a);
    SortSorted(DigestKey, b);
    assert Injective(DigestKey);
    SortUnique(DigestKey, Sort(DigestKey, a), Sort(DigestKey, b));
  }

  // ----- what was hashed

  /** The tree a root stands for, before hashing. An odd last node becomes the child of itself twice over. */
  datatype Tree = Leaf(digest: Digest) | Node(left: Tree, right: Tree)

  function TreeHash(H: Keccak, t: Tree): Digest
  {
    match t
    case Leaf(d) => d
    case Node(l, r) => HashPair(H, TreeHash(H, l), TreeHash(H, r))
  }

  function TreeLeaves(t: Tree): set<Digest>
  {
    match t
    case Leaf(d) => {d}
    case Node(l, r) => TreeLeaves(l) + TreeLeaves(r)
  }

  /** The 64-byte strings hashed for the inner nodes. */
  function NodeInputs(H: Keccak, t: Tree): set<Bytes>
  {
    match t
    case Leaf(d) => {}
    case Node(l, r) => {PairInput(TreeHash(H, l), TreeHash(H, r))} + NodeInputs(H, l) + NodeInputs(H, r)
  }

  function TreeOf(leaves: seq<Digest>): Tree
    requires leaves != []
  {
    Root((l, r) => Node(l, r), Map(d => Leaf(d), leaves))
  }

  lemma TreeOfHash(H: Keccak, leaves: seq<Digest>)
    requires leaves != []
    ensures TreeHash(H, TreeOf(leaves)) == Root(Pair(H), leaves)
  {
    var wrapped := Map(d => Leaf(d), leaves);
    var f := t => TreeHash(H, t);
    LayersMap((l, r) => Node(l, r), Pair(H), f, wrapped);
    assert Map(f, wrapped) == leaves;
  }

  function Union(a: set<Digest>, b: set<Digest>): set<Digest> { a + b }

  lemma {:induction false} RootOfUnions(layer: seq<set<Digest>>)
    requires layer != []
    ensures forall d: Digest :: d in Root(Union, layer) <==> exists i :: 0 <= i < |layer| && d in layer[i]
    decreases |layer|
  {
    if |layer| > 1 {
      var next := NextLayer(Union, layer);
      assert Layers(Union, layer) == [layer] + Layers(Union, next);
      assert Root(Union, layer) == Root(Union, next);
      RootOfUnions(next);
      forall d: Digest, i | 0 <= i < |layer| && d in layer[i] ensures exists j :: 0 <= j < |next| && d in next[j] {
        assert i == 2 * (i / 2) || i == Partner(i / 2, |layer|);
        assert next[i / 2] == Union(layer[2 * (i / 2)], layer[Partner(i / 2, |layer|)]);
      }
      forall d: Digest, j | 0 <= j < |next| && d in next[j] ensures exists i :: 0 <= i < |layer| && d in layer[i] {
        assert next[j] == Union(layer[2 * j], layer[Partner(j, |layer|)]);
      }
    }
  }

  lemma TreeOfLeaves(leaves: seq<Digest>)
    requires leaves != []
    ensures TreeLeaves(TreeOf(leaves)) == set d | d in leaves
  {
    var wrapped := Map(d => Leaf(d), leaves);
    LayersMap((l, r) => Node(l, r), Union, TreeLeaves, wrapped);
    RootOfUnions(Map(TreeLeaves, wrapped));
    forall d | d in leaves ensures d in TreeLeaves(TreeOf(leaves)) {
      var i :| 0 <= i < |leaves| && leaves[i] == d;
      assert d in Map(TreeLeaves, wrapped)[i];
    }
  }

  function MessageInputs(H: Keccak, messages: seq<Bytes>): (r: set<Bytes>)
    ensures forall m: Bytes :: m in messages ==> m in r && H(m) in r
  {
    (set m: Bytes | m in messages) + (set m: Bytes | m in messages :: H(m))
  }

  /** Every byte string the server hands to keccak while it builds the batch for `messages`. */
  function HashedInputs(H: Keccak, messages: seq<Bytes>): set<Bytes>
    requires messages != []
  {
    MessageInputs(H, messages) + NodeInputs(H, TreeOf(SortedLeaves(H, messages)))
  }

  ghost predicate Collision(H: Keccak, inputs: set<Bytes>)
  {
    exists x, y :: x in inputs && y in inputs && x != y && H(x) == H(y)
  }

  /** A digest that is the hash of some 32-byte member of `inputs`, as every leaf is. */
  ghost predicate IsLeafHash(H: Keccak, inputs: set<Bytes>, d: Digest)
  {
    exists y :: y in inputs && |y| == 32 && H(y) == d
  }

  // ----- binding

  /** A leaf hashes 32 bytes and a node 64, so one digest cannot be both unless two inputs collide. */
  lemma LeafIsNotNode(H: Keccak, S: set<Bytes>, d: Digest, x: Bytes)
    requires IsLeafHash(H, S, d) && x in S && |x| == 64 && H(x) == d
    ensures Collision(H, S)
  {
    var y :| y in S && |y| == 32 && H(y) == d;
    assert x != y;
  }

  /** Trees of equal hash have the same leaves, whatever their depths, unless two of the hashed strings collide. */
  lemma {:induction false} EqualHashSameLeaves(H: Keccak, S: set<Bytes>, t: Tree, u: Tree)
    requires NodeInputs(H, t) <= S && NodeInputs(H, u) <= S
    requires forall d :: d in TreeLeaves(t) + TreeLeaves(u) ==> IsLeafHash(H, S, d)
    requires TreeHash(H, t) == TreeHash(H, u)
    ensures TreeLeaves(t) == TreeLeaves(u) || Collision(H, S)
  {
    match (t, u)
    case (Leaf(_), Leaf(_)) =>
    case (Leaf(d), Node(l, r)) => LeafIsNotNode(H, S, d, PairInput(TreeHash(H, l), TreeHash(H, r)));
    case (Node(l, r), Leaf(d)) => LeafIsNotNode(H, S, d, PairInput(TreeHash(H, l), TreeHash(H, r)));
    case (Node(l, r), Node(l', r')) =>
      var a, b, c, d := TreeHash(H, l), TreeHash(H, r), TreeHash(H, l'), TreeHash(H, r');
      if PairInput(a, b) == PairInput(c, d) {
        PairInputDetermines(a, b, c, d);
        if a == c && b == d {
          EqualHashSameLeaves(H, S, l, l');
          EqualHashSameLeaves(H, S, r, r');
        } else {
          EqualHashSameLeaves(H, S, l, r');
          EqualHashSameLeaves(H, S, r, l');
        }
      }
  }

  lemma SortedLeavesAreLeaves(H: Keccak, messages: seq<Bytes>)
    ensures forall d :: d in SortedLeaves(H, messages) <==> exists m :: m in messages && d == MakeLeaf(H, m)
  {
    var leaves, sorted := Leaves(H, messages), SortedLeaves(H, messages);
    forall d ensures d in sorted <==> d in leaves {
      assert d in sorted <==> d in multiset(sorted);
    }
    forall m | m in messages ensures MakeLeaf(H, m) in leaves {
      var i :| 0 <= i < |messages| && messages[i] == m;
      assert leaves[i] == MakeLeaf(H, m);
    }
  }

  lemma SortedLeavesAreHashes(H: Keccak, messages: seq<Bytes>, S: set<Bytes>)
    requires MessageInputs(H, messages) <= S
    ensures forall d :: d in SortedLeaves(H, messages) ==> IsLeafHash(H, S, d)
  {
    SortedLeavesAreLeaves(H, messages);
    forall m | m in messages ensures IsLeafHash(H, S, MakeLeaf(H, m)) {
      assert H(m) in MessageInputs(H, messages);
    }
  }

  lemma LeafDetermines(H: Keccak, S: set<Bytes>, m: Bytes, n: Bytes)
    requires m in S && n in S && H(m) in S && H(n) in S && !Collision(H, S)
    requires MakeLeaf(H, m) == MakeLeaf(H, n)
    ensures m == n
  {
  }

  /** If the leaf of a message is among a batch's leaves, the message is in the batch. */
  lemma LeafInBatch(H: Keccak, S: set<Bytes>, message: Bytes, ms: seq<Bytes>)
    requires MessageInputs(H, ms) <= S && message in S && H(message) in S && !Collision(H, S)
    requires MakeLeaf(H, message) in SortedLeaves(H, ms)
    ensures message in ms
  {
    SortedLeavesAreLeaves(H, ms);
    var m :| m in ms && MakeLeaf(H, message) == MakeLeaf(H, m);
    assert m in MessageInputs(H, ms) && H(m) in MessageInputs(H, ms);
    LeafDetermines(H, S, m, message);
  }

  lemma BatchSubset(H: Keccak, S: set<Bytes>, ms: seq<Bytes>, ns: seq<Bytes>)
    requires MessageInputs(H, ms) <= S && MessageInputs(H, ns) <= S && !Collision(H, S)
    requires forall d :: d in SortedLeaves(H, ms) ==> d in SortedLeaves(H, ns)
    ensures forall m :: m in ms ==> m in ns
  {
    SortedLeavesAreLeaves(H, ms);
    forall m | m in ms ensures m in ns {
      assert m in MessageInputs(H, ms) && H(m) in MessageInputs(H, ms);
      LeafInBatch(H, S, m, ns);
    }
  }

  /**
    Binding: one root, one set of messages. Two batches with the same root, of
    any sizes and depths, hold the same messages, or two distinct strings that
    were hashed for them collide. Sets, not multisets: see
    Merkle.DuplicatedLastLeafKeepsRoot.
   */
  lemma RootBindsMessages(H: Keccak, ms: seq<Bytes>, ns: seq<Bytes>)
    requires ms != [] && ns != [] && BatchRoot(H, ms) == BatchRoot(H, ns)
    ensures (set m | m in ms) == (set n | n in ns) || Collision(H, HashedInputs(H, ms) + HashedInputs(H, ns))
  {
    var S := HashedInputs(H, ms) + HashedInputs(H, ns);
    if !Collision(H, S) {
      var a, b := SortedLeaves(H, ms), SortedLeaves(H, ns);
      TreeOfHash(H, a);
      TreeOfHash(H, b);
      TreeOfLeaves(a);
      TreeOfLeaves(b);
      SortedLeavesAreHashes(H, ms, S);
      SortedLeavesAreHashes(H, ns, S);
      EqualHashSameLeaves(H, S, TreeOf(a), TreeOf(b));
      forall d ensures d in a <==> d in b {
        assert d in a <==> d in TreeLeaves(TreeOf(a));
      }
      BatchSubset(H, S, ms, ns);
      BatchSubset(H, S, ns, ms);
    }
  }

  // ----- soundness of an arbitrary proof

  function FoldInputs(H: Keccak, leaf: Digest, proof: seq<Digest>): set<Bytes>
    decreases |proof|
  {
    if proof == [] then {} else
    {PairInput(leaf, proof[0])} + FoldInputs(H, HashPair(H, leaf, proof[0]), proof[1..])
  }

  lemma {:induction false} FoldSnoc(H: Keccak, leaf: Digest, proof: seq<Digest>)
    requires proof != []
    ensures var n := |proof| - 1; var c := Fold(Pair(H), leaf, proof[..n]);
            Fold(Pair(H), leaf, proof) == HashPair(H, c, proof[n])
            && FoldInputs(H, leaf, proof) == FoldInputs(H, leaf, proof[..n]) + {PairInput(c, proof[n])}
    decreases |proof|
  {
    var n := |proof| - 1;
    if n > 0 {
      FoldSnoc(H, HashPair(H, leaf, proof[0]), proof[1..]);
      assert proof[1..][..n - 1] == proof[..n][1..];
    }
  }

  lemma {:induction false} FoldReachesLeaf(H: Keccak, S: set<Bytes>, t: Tree, leaf: Digest, proof: seq<Digest>)
    requires NodeInputs(H, t) <= S && FoldInputs(H, leaf, proof) <= S
    requires IsLeafHash(H, S, leaf) && forall d :: d in TreeLeaves(t) ==> IsLeafHash(H, S, d)
    requires Fold(Pair(H), leaf, proof) == TreeHash(H, t)
    ensures leaf in TreeLeaves(t) || Collision(H, S)
  {
    if proof == [] {
      if t.Node? { LeafIsNotNode(H, S, leaf, PairInput(TreeHash(H, t.left), TreeHash(H, t.right))); }
    } else {
      var n := |proof| - 1;
      var c := Fold(Pair(H), leaf, proof[..n]);
      FoldSnoc(H, leaf, proof);
      match t
      case Leaf(d) => LeafIsNotNode(H, S, d, PairInput(c, proof[n]));
      case Node(l, r) =>
        var a, b := TreeHash(H, l), TreeHash(H, r);
        if PairInput(c, proof[n]) == PairInput(a, b) {
          PairInputDetermines(c, proof[n], a, b);
          FoldReachesLeaf(H, S, if c == a then l else r, leaf, proof[..n]);
        }
    }
  }

  /** Whoever made the proof, a message that folds to a batch's root is in the batch, or a named collision. */
  lemma AcceptedMessageWasBatched(H: Keccak, message: Bytes, proof: seq<Digest>, ms: seq<Bytes>)
    requires ms != [] && Fold(Pair(H), MakeLeaf(H, message), proof) == BatchRoot(H, ms)
    ensures message in ms
            || Collision(H, {message, H(message)} + HashedInputs(H, ms) + FoldInputs(H, MakeLeaf(H, message), proof))
  {
    var S := {message, H(message)} + HashedInputs(H, ms) + FoldInputs(H, MakeLeaf(H, message), proof);
    if !Collision(H, S) {
      var a := SortedLeaves(H, ms);
      TreeOfHash(H, a);
      TreeOfLeaves(a);
      SortedLeavesAreHashes(H, ms, S);
      assert IsLeafHash(H, S, MakeLeaf(H, message));
      FoldReachesLeaf(H, S, TreeOf(a), MakeLeaf(H, message), proof);
      LeafInBatch(H, S, message, ms);
    }
  }
}
