/**
  The web page's tree. ethers hands digests around as "0x" plus 64 lower-case
  hex digits, and JavaScript sorts and compares those strings by code unit.
  A string is modelled as its sequence of UTF-16 code units.
 */
module WebTree {
  import opened Words
  import opened Merkle
  import Server = ServerTree

  type JsString = seq<int>

  function HexDigit(n: int): int
    requires 0 <= n < 16
  {
    if n < 10 then 48 + n else 87 + n
  }

  function HexBytes(b: Bytes): (s: JsString)
    ensures |s| == 2 * |b|
  {
    if b == [] then [] else [HexDigit(b[0] / 16), HexDigit(b[0] % 16)] + HexBytes(b[1..])
  }

  predicate IsHexDigit(c: int) { 48 <= c <= 57 || 97 <= c <= 102 }

  predicate IsHexDigest(s: JsString)
  {
    |s| == 66 && s[0] == 48 && s[1] == 120 && forall i :: 2 <= i < 66 ==> IsHexDigit(s[i])
  }

  type Hex = s: JsString | IsHexDigest(s) witness [48, 120] + seq(64, _ => 48)

  function DigitValue(c: int): (n: int)
    requires IsHexDigit(c)
    ensures 0 <= n < 16
  {
    if c <= 57 then c - 48 else c - 87
  }

  /** `ethers.getBytes` on the digits after "0x". */
  function ParseHex(s: JsString): (b: Bytes)
    requires |s| % 2 == 0 && forall i :: 0 <= i < |s| ==> IsHexDigit(s[i])
    ensures |b| == |s| / 2
  {
    if s == [] then [] else [16 * DigitValue(s[0]) + DigitValue(s[1])] + ParseHex(s[2..])
  }

  lemma {:induction false} HexDigits(b: Bytes)
    ensures forall i :: 0 <= i < 2 * |b| ==> IsHexDigit(HexBytes(b)[i])
    ensures ParseHex(HexBytes(b)) == b
  {
    if b != [] {
      HexDigits(b[1..]);
      assert HexBytes(b)[2..] == HexBytes(b[1..]);
      assert b == [b[0]] + b[1..];
    }
  }

  function ToHex(d: Digest): Hex
  {
    HexDigits(d);
    [48, 120] + HexBytes(d)
  }

  function GetBytes(s: Hex): Digest
  {
    ParseHex(s[2..])
  }

  lemma GetBytesToHex(d: Digest)
    ensures GetBytes(ToHex(d)) == d
  {
    HexDigits(d);
    assert ToHex(d)[2..] == HexBytes(d);
  }

  /** Hex printing keeps the lexicographic order, so sorting strings is sorting bytes. */
  lemma {:induction false} HexKeepsOrder(a: Bytes, b: Bytes)
    ensures LexLeq(HexBytes(a), HexBytes(b)) <==> LexLeq(a, b)
  {
    if a != [] && b != [] {
      var s, t := HexBytes(a), HexBytes(b);
      HexKeepsOrder(a[1..], b[1..]);
      assert s[1..][1..] == HexBytes(a[1..]) && t[1..][1..] == HexBytes(b[1..]);
      assert a[0] == 16 * (a[0] / 16) + a[0] % 16 && b[0] == 16 * (b[0] / 16) + b[0] % 16;
    }
  }

  lemma ToHexKeepsOrder(a: Digest, b: Digest)
    ensures LexLeq(ToHex(a), ToHex(b)) <==> LexLeq(a, b)
  {
    var s, t := ToHex(a), ToHex(b);
    HexKeepsOrder(a, b);
    assert s[1..][1..] == HexBytes(a) && t[1..][1..] == HexBytes(b);
  }

  function MakeLeaf(H: Keccak, message: Bytes): Hex
  {
    var first := ToHex(H(message));
    ToHex(H(GetBytes(first)))
  }

  function HashPair(H: Keccak, a: Hex, b: Hex): Hex
  {
    var (left, right) := if LexLeq(a, b) then (a, b) else (b, a);
    ToHex(H(GetBytes(left) + GetBytes(right)))
  }

  function Pair(H: Keccak): (Hex, Hex) -> Hex { (a, b) => HashPair(H, a, b) }

  function HexKey(s: Hex): seq<int> { s }

  /** The page hashes the string that comes first by code unit first. */
  lemma PairAscends(H: Keccak, a: Hex, b: Hex) returns (left: Hex, right: Hex)
    ensures (left == a && right == b) || (left == b && right == a)
    ensures NotAfter(left, right)
    ensures HashPair(H, a, b) == ToHex(H(GetBytes(left) + GetBytes(right)))
  {
    LexTotal(a, b);
    left, right := if LexLeq(a, b) then a else b, if LexLeq(a, b) then b else a;
    LexIsFirstDifference(left, right);
  }

  /** Upwards, by code unit at the first difference. */
  ghost predicate Ascends(r: seq<Hex>) { forall i, j :: 0 <= i < j < |r| ==> NotAfter(r[i], r[j]) }

  /** Any list of strings is sorted upwards, losing and adding none. */
  lemma SortAscends(leaves: seq<Hex>)
    ensures var r := Sort(HexKey, leaves); multiset(r) == multiset(leaves) && Ascends(r)
  {
    hide Sort, NotAfter;
    var r := Sort(HexKey, leaves);
    SortSorted(HexKey, leaves);
    forall i, j | 0 <= i < j < |r| ensures NotAfter(r[i], r[j]) {
      assert LexLeq(HexKey(r[i]), HexKey(r[j]));
      LexIsFirstDifference(r[i], r[j]);
    }
  }

  lemma LeavesAgree(H: Keccak, message: Bytes)
    ensures MakeLeaf(H, message) == ToHex(Server.MakeLeaf(H, message))
  {
    GetBytesToHex(H(message));
  }

  lemma PairsAgree(H: Keccak, a: Digest, b: Digest)
    ensures HashPair(H, ToHex(a), ToHex(b)) == ToHex(Server.HashPair(H, a, b))
  {
    ToHexKeepsOrder(a, b);
    GetBytesToHex(a);
    GetBytesToHex(b);
  }

  function Layered(layers: seq<seq<Digest>>): seq<seq<Hex>>
  {
    Map((l: seq<Digest>) => Map(ToHex, l), layers)
  }

  /** The two builders agree layer by layer: same order, same pairs, same root, printed in hex. */
  lemma BuildersAgree(H: Keccak, leaves: seq<Digest>)
    requires leaves != []
    ensures var mine := Sort(HexKey, Map(ToHex, leaves)); var theirs := Sort(Server.DigestKey, leaves);
            mine == Map(ToHex, theirs)
            && Layers(Pair(H), mine) == Layered(Layers(Server.Pair(H), theirs))
            && Root(Pair(H), mine) == ToHex(Root(Server.Pair(H), theirs))
  {
    forall a, b
      ensures LexLeq(HexKey(ToHex(a)), HexKey(ToHex(b))) <==> LexLeq(Server.DigestKey(a), Server.DigestKey(b))
    {
      ToHexKeepsOrder(a, b);
    }
    SortMap(Server.DigestKey, HexKey, ToHex, leaves);
    forall a, b ensures Pair(H)(ToHex(a), ToHex(b)) == ToHex(Server.Pair(H)(a, b)) {
      PairsAgree(H, a, b);
    }
    var theirs := Sort(Server.DigestKey, leaves);
    LayersMap(Server.Pair(H), Pair(H), ToHex, theirs);
    assert Map(l => Map(ToHex, l), Layers(Server.Pair(H), theirs)) == Layered(Layers(Server.Pair(H), theirs));
  }

  lemma PairCommutes(H: Keccak)
    ensures Commutes(Pair(H))
  {
    forall a: Hex, b: Hex ensures Pair(H)(a, b) == Pair(H)(b, a) {
      LexTotal(a, b);
      if LexLeq(a, b) && LexLeq(b, a) { LexAntisymmetric(a, b); }
    }
  }

  // ----- the page's three loops

  method PairUp(H: Keccak, padded: seq<Hex>) returns (next: seq<Hex>)
    requires |padded| % 2 == 0
    ensures next == NextLayer(Pair(H), padded)
  {
    next := [];
    for i := 0 to |padded| / 2
      invariant |next| == i
      invariant forall k :: 0 <= k < i ==> next[k] == HashPair(H, padded[2 * k], padded[2 * k + 1])
    {
      next := next + [HashPair(H, padded[2 * i], padded[2 * i + 1])];
    }
  }

  method BuildTree(H: Keccak, leaves: seq<Hex>) returns (tree: seq<seq<Hex>>)
    ensures leaves == [] ==> tree == [[]]
    ensures leaves != [] ==> tree == Layers(Pair(H), Sort(HexKey, leaves))
    ensures tree != [] && multiset(tree[0]) == multiset(leaves) && Ascends(tree[0])
  {
    var layer := Sort(HexKey, leaves);
    SortAscends(leaves);
    tree := [layer];
    if layer == [] {
      return;
    }
    ghost var P, sorted := Pair(H), layer;
    BuiltStart(P, sorted);
    while |layer| > 1
      invariant Built(P, sorted, tree, layer)
      decreases |layer|
    {
      BuiltStep(P, sorted, tree, layer);
      layer := PairUp(H, Padded(layer));
      tree := tree + [layer];
    }
    BuiltEnd(P, sorted, tree, layer);
  }

  ghost predicate FirstAt<T>(s: seq<T>, x: T, i: nat)
  {
    i < |s| && s[i] == x && x !in s[..i]
  }

  /** `indexOf`: the first position, or the length when there is none. */
  method IndexOf(s: seq<Hex>, x: Hex) returns (i: nat)
    ensures (i == |s| && x !in s) || FirstAt(s, x, i)
  {
    i := 0;
    while i < |s| && s[i] != x
      invariant i <= |s| && x !in s[..i]
    {
      i := i + 1;
    }
  }

  method GetProof(tree: seq<seq<Hex>>, leaf: Hex) returns (r: Result<seq<Hex>, string>)
    requires tree != [] && (leaf in tree[0] ==> Halving(tree))
    ensures r.Err? <==> leaf !in tree[0]
    ensures r.Ok? ==> Halving(tree) && exists i :: FirstAt(tree[0], leaf, i) && r.value == Siblings(tree, i)
  {
    var index: nat := IndexOf(tree[0], leaf);
    if index == |tree[0]| {
      return Err("Leaf not found in tree");
    }
    ghost var found := index;
    var proof: seq<Hex> := [];
    assert tree[0..] == tree;
    for i := 0 to |tree| - 1
      invariant Gathered(tree, found, i, index, proof)
    {
      var layer := tree[i];
      GatheredStep(tree, found, i, index, proof);
      var siblingIndex := if index % 2 == 0 then index + 1 else index - 1;
      proof := proof + [if siblingIndex < |layer| then layer[siblingIndex] else layer[index]];
      index := index / 2;
    }
    return Ok(proof);
  }

  ghost predicate Gathered<T>(tree: seq<seq<T>>, found: nat, i: nat, index: nat, proof: seq<T>)
    requires Halving(tree) && found < |tree[0]|
  {
    && i < |tree| && Halving(tree[i..]) && index < |tree[i]|
    && proof + Siblings(tree[i..], index) == Siblings(tree, found)
  }

  lemma GatheredStep<T>(tree: seq<seq<T>>, found: nat, i: nat, index: nat, proof: seq<T>)
    requires Halving(tree) && found < |tree[0]| && Gathered(tree, found, i, index, proof) && i < |tree| - 1
    ensures Gathered(tree, found, i + 1, index / 2, proof + [tree[i][SiblingIndex(index, |tree[i]|)]])
  {
    hide Halving, Siblings, SiblingIndex;
    assert tree[i..][1..] == tree[i + 1..] && tree[i..][0] == tree[i] && tree[i..][1] == tree[i + 1];
    SiblingsStep(tree[i..], index);
  }

  lemma SiblingsStep<T>(layers: seq<seq<T>>, index: nat)
    requires Halving(layers) && |layers| > 1 && index < |layers[0]|
    ensures Halving(layers[1..]) && index / 2 < |layers[1]|
    ensures Siblings(layers, index)
            == [layers[0][SiblingIndex(index, |layers[0]|)]] + Siblings(layers[1..], index / 2)
  {
    HalvingTail(layers);
  }

  lemma HalvingTail<T>(layers: seq<seq<T>>)
    requires Halving(layers) && |layers| > 1
    ensures Halving(layers[1..]) && |layers[1]| == (|layers[0]| + 1) / 2
  {
    assert |layers[0 + 1]| == (|layers[0]| + 1) / 2;
    var t := layers[1..];
    forall k | 0 <= k < |t| - 1 ensures |t[k + 1]| == (|t[k]| + 1) / 2 {
      assert |layers[k + 1 + 1]| == (|layers[k + 1]| + 1) / 2;
    }
  }

  method VerifyProof(H: Keccak, proof: seq<Hex>, leaf: Hex, root: Hex) returns (ok: bool)
    ensures ok <==> Fold(Pair(H), leaf, proof) == root
  {
    var computed := leaf;
    for i := 0 to |proof|
      invariant Fold(Pair(H), computed, proof[i..]) == Fold(Pair(H), leaf, proof)
    {
      computed := HashPair(H, computed, proof[i]);
      assert proof[i..][1..] == proof[i + 1..];
    }
    ok := computed == root;
  }

  /** Completeness for the page: any leaf of any batch gets a proof of depth - 1 siblings that its own check accepts. */
  lemma PageProofCompletes(H: Keccak, leaves: seq<Hex>, i: nat)
    requires i < |leaves|
    ensures Halving(Layers(Pair(H), leaves))
    ensures var proof := Siblings(Layers(Pair(H), leaves), i);
            |proof| == |Layers(Pair(H), leaves)| - 1
            && Fold(Pair(H), leaves[i], proof) == Root(Pair(H), leaves)
  {
    PairCommutes(H);
    ProofCompletes(Pair(H), leaves, i);
  }
}
