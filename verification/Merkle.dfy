/**
  Merkle layers over an arbitrary pair hash.

  The server hashes bytes and the web page hashes hex strings, but the shape of
  the tree, the proof and the check are the same code twice. Everything here is
  stated once for any pair hash `P`; completeness needs only that `P` commutes.
 */
module Merkle {
  import opened Words

  /** The right-hand partner of the left node `2 * i`: an odd last node pairs with itself. */
  function Partner(i: nat, n: nat): (j: nat)
    requires 2 * i < n
    ensures j < n
  {
    if 2 * i + 1 < n then 2 * i + 1 else 2 * i
  }

  function NextLayer<T>(P: (T, T) -> T, layer: seq<T>): (r: seq<T>)
    ensures |r| == (|layer| + 1) / 2
    ensures forall i :: 0 <= i < |r| ==> r[i] == P(layer[2 * i], layer[Partner(i, |layer|)])
  {
    seq((|layer| + 1) / 2, i requires 0 <= i < (|layer| + 1) / 2 => P(layer[2 * i], layer[Partner(i, |layer|)]))
  }

  function Layers<T>(P: (T, T) -> T, layer: seq<T>): (r: seq<seq<T>>)
    requires layer != []
    ensures Chained(P, r) && r[0] == layer && |r[|r| - 1]| == 1
    decreases |layer|
  {
    if |layer| == 1 then [layer] else [layer] + Layers(P, NextLayer(P, layer))
  }

  ghost predicate Chained<T>(P: (T, T) -> T, layers: seq<seq<T>>)
  {
    && layers != []
    && (forall k :: 0 <= k < |layers| ==> layers[k] != [])
    && (forall k :: 0 <= k < |layers| - 1 ==> layers[k + 1] == NextLayer(P, layers[k]))
  }

  function Root<T>(P: (T, T) -> T, layer: seq<T>): T
    requires layer != []
  {
    var layers := Layers(P, layer); layers[|layers| - 1][0]
  }

  /** The sibling that `getProof` records for position `i` of a layer of `n` nodes. */
  function SiblingIndex(i: nat, n: nat): (j: nat)
    requires i < n
    ensures j < n
  {
    var s := if i % 2 == 0 then i + 1 else i - 1;
    if s < n then s else i
  }

  ghost predicate Halving<T>(layers: seq<seq<T>>)
  {
    && layers != [] && |layers[|layers| - 1]| == 1
    && (forall k :: 0 <= k < |layers| - 1 ==> |layers[k + 1]| == (|layers[k]| + 1) / 2)
  }

  function Siblings<T>(layers: seq<seq<T>>, index: nat): (proof: seq<T>)
    requires Halving(layers) && index < |layers[0]|
    ensures |proof| == |layers| - 1
  {
    if |layers| == 1 then [] else
    assert |layers[0 + 1]| == (|layers[0]| + 1) / 2;
    [layers[0][SiblingIndex(index, |layers[0]|)]] + Siblings(layers[1..], index / 2)
  }

  function Fold<T>(P: (T, T) -> T, leaf: T, proof: seq<T>): T
  {
    if proof == [] then leaf else Fold(P, P(leaf, proof[0]), proof[1..])
  }

  ghost predicate Commutes<T(!new)>(P: (T, T) -> T)
  {
    forall a, b :: P(a, b) == P(b, a)
  }

  lemma LayersUnfold<T>(P: (T, T) -> T, layer: seq<T>)
    requires |layer| > 1
    ensures Layers(P, layer) == [layer] + Layers(P, NextLayer(P, layer))
    ensures |NextLayer(P, layer)| < |layer| && Root(P, layer) == Root(P, NextLayer(P, layer))
  {
  }

  lemma LayersHalve<T>(P: (T, T) -> T, layer: seq<T>)
    requires layer != []
    ensures Halving(Layers(P, layer))
  {
  }

  lemma SiblingsUnfold<T>(P: (T, T) -> T, layer: seq<T>, index: nat)
    requires |layer| > 1 && index < |layer|
    ensures Halving(Layers(P, layer)) && Halving(Layers(P, NextLayer(P, layer)))
    ensures Siblings(Layers(P, layer), index)
            == [layer[SiblingIndex(index, |layer|)]] + Siblings(Layers(P, NextLayer(P, layer)), index / 2)
  {
    LayersUnfold(P, layer);
    LayersHalve(P, layer);
    LayersHalve(P, NextLayer(P, layer));
    assert Layers(P, layer)[1..] == Layers(P, NextLayer(P, layer));
  }

  /** A node and its recorded sibling hash to their parent, whichever side the node is on. */
  lemma ParentOf<T(!new)>(P: (T, T) -> T, layer: seq<T>, index: nat)
    requires Commutes(P) && index < |layer|
    ensures P(layer[index], layer[SiblingIndex(index, |layer|)]) == NextLayer(P, layer)[index / 2]
  {
  }

  /** Completeness: the recorded siblings fold any position up to the root, duplicated odd edges included. */
  lemma {:induction false} ProofCompletes<T(!new)>(P: (T, T) -> T, layer: seq<T>, index: nat)
    requires Commutes(P) && index < |layer|
    ensures Halving(Layers(P, layer))
    ensures Fold(P, layer[index], Siblings(Layers(P, layer), index)) == Root(P, layer)
    decreases |layer|
  {
    LayersHalve(P, layer);
    if |layer| > 1 {
      hide Siblings, Layers, Root, Halving, SiblingIndex, Commutes;
      var next := NextLayer(P, layer);
      LayersUnfold(P, layer);
      SiblingsUnfold(P, layer, index);
      ParentOf(P, layer, index);
      ProofCompletes(P, next, index / 2);
      var proof := Siblings(Layers(P, layer), index);
      assert proof[1..] == Siblings(Layers(P, next), index / 2);
    }
  }

  lemma NextLayerMap<A(!new), B(!new)>(P: (A, A) -> A, Q: (B, B) -> B, f: A -> B, layer: seq<A>)
    requires forall a, b :: Q(f(a), f(b)) == f(P(a, b))
    ensures NextLayer(Q, Map(f, layer)) == Map(f, NextLayer(P, layer))
  {
  }

  lemma MapCons<A, B>(f: A -> B, x: A, s: seq<A>)
    ensures Map(f, [x] + s) == [f(x)] + Map(f, s)
  {
  }

  /** A renaming that carries one pair hash to another carries whole trees across. */
  lemma {:induction false} LayersMap<A(!new), B(!new)>(P: (A, A) -> A, Q: (B, B) -> B, f: A -> B, layer: seq<A>)
    requires layer != []
    requires forall a, b :: Q(f(a), f(b)) == f(P(a, b))
    ensures Layers(Q, Map(f, layer)) == Map(l => Map(f, l), Layers(P, layer))
    ensures Root(Q, Map(f, layer)) == f(Root(P, layer))
    decreases |layer|
  {
    var g := l => Map(f, l);
    if |layer| > 1 {
      hide Layers, Root;
      var next := NextLayer(P, layer);
      NextLayerMap(P, Q, f, layer);
      LayersMap(P, Q, f, next);
      LayersUnfold(P, layer);
      LayersUnfold(Q, Map(f, layer));
      MapCons(g, layer, Layers(P, next));
    } else {
      assert Layers(Q, Map(f, layer)) == [Map(f, layer)];
    }
  }

  /** The first thing either builder's loop does: an odd layer repeats its last node. */
  function Padded<T>(layer: seq<T>): (r: seq<T>)
    requires layer != []
    ensures |r| % 2 == 0 && |r| == (|layer| + 1) / 2 * 2 && layer <= r
  {
    if |layer| % 2 == 1 then layer + [layer[|layer| - 1]] else layer
  }

  lemma PaddedNextLayer<T(!new)>(P: (T, T) -> T, layer: seq<T>)
    requires layer != []
    ensures NextLayer(P, Padded(layer)) == NextLayer(P, layer)
  {
    forall i | 0 <= i < |NextLayer(P, layer)|
      ensures NextLayer(P, Padded(layer))[i] == NextLayer(P, layer)[i]
    {
      assert Padded(layer)[2 * i] == layer[2 * i];
    }
  }

  /** The loop invariant of both builders: `tree` holds every layer up to `layer`. */
  ghost predicate Built<T>(P: (T, T) -> T, leaves: seq<T>, tree: seq<seq<T>>, layer: seq<T>)
    requires leaves != []
  {
    layer != [] && tree + Layers(P, layer)[1..] == Layers(P, leaves)
  }

  lemma BuiltStart<T>(P: (T, T) -> T, leaves: seq<T>)
    requires leaves != []
    ensures Built(P, leaves, [leaves], leaves)
  {
    assert Layers(P, leaves) == [leaves] + Layers(P, leaves)[1..];
  }

  lemma BuiltStep<T(!new)>(P: (T, T) -> T, leaves: seq<T>, tree: seq<seq<T>>, layer: seq<T>)
    requires leaves != [] && Built(P, leaves, tree, layer) && |layer| > 1
    ensures var next := NextLayer(P, Padded(layer)); Built(P, leaves, tree + [next], next) && |next| < |layer|
  {
    PaddedNextLayer(P, layer);
    var next := NextLayer(P, layer);
    LayersUnfold(P, layer);
    assert Layers(P, layer)[1..] == Layers(P, next);
    TwoPrefixes(tree, next, Layers(P, next));
  }

  lemma TwoPrefixes<T>(tree: seq<seq<T>>, next: seq<T>, all: seq<seq<T>>)
    requires all != [] && all[0] == next
    ensures tree + [next] + all[1..] == tree + all
  {
  }

  lemma BuiltEnd<T>(P: (T, T) -> T, leaves: seq<T>, tree: seq<seq<T>>, layer: seq<T>)
    requires leaves != [] && Built(P, leaves, tree, layer) && |layer| <= 1
    ensures tree == Layers(P, leaves)
  {
    assert Layers(P, layer) == [layer];
  }

  /** The known ambiguity of odd duplication: repeating the last of an odd number of leaves keeps the root. */
  lemma DuplicatedLastLeafKeepsRoot<T(!new)>(P: (T, T) -> T, layer: seq<T>)
    requires |layer| % 2 == 1 && |layer| > 1
    ensures Root(P, layer + [layer[|layer| - 1]]) == Root(P, layer)
  {
    PaddedNextLayer(P, layer);
    assert Layers(P, layer) == [layer] + Layers(P, NextLayer(P, layer));
    assert Layers(P, Padded(layer)) == [Padded(layer)] + Layers(P, NextLayer(P, Padded(layer)));
  }
}
