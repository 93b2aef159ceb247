/** The binary Merkle tree of `crates/state/src/merkle.rs`: odd layers repeat their last hash, so
    the leaves are filled up by whole subtrees. Proofs are complete, sound and unique, and equal
    roots mean equal filled lists. */
module Merkle {
  import opened Common

  /** Domain-separated hashes of a leaf, of a pair, and of the empty tree. */
  datatype Hasher = Hasher(leaf: Bytes -> Hash, branch: (Hash, Hash) -> Hash, empty: Hash)

  ghost predicate CollisionFree(H: Hasher) {
    && (forall a, b :: H.leaf(a) == H.leaf(b) ==> a == b)
    && (forall a, b, c, d :: H.branch(a, b) == H.branch(c, d) ==> a == c && b == d)
    && (forall a, b, c :: H.leaf(a) != H.branch(b, c))
    && (forall a :: H.leaf(a) != H.empty)
    && (forall a, b :: H.branch(a, b) != H.empty)
  }

  // ------------------------------------------------------------------- spec

  /** Element `i` of a layer whose last element is repeated as often as needed. */
  function Padded(layer: seq<Hash>, i: nat): Hash
    requires layer != []
  {
    if i < |layer| then layer[i] else layer[|layer| - 1]
  }

  function NextLayer(H: Hasher, layer: seq<Hash>): (next: seq<Hash>)
    requires layer != []
    ensures |next| == (|layer| + 1) / 2
  {
    seq((|layer| + 1) / 2, i requires 0 <= i < (|layer| + 1) / 2 => ParentAt(H, layer, i))
  }

  function ParentAt(H: Hasher, layer: seq<Hash>, i: nat): Hash
    requires layer != []
  {
    H.branch(Padded(layer, 2 * i), Padded(layer, 2 * i + 1))
  }

  function LayerRoot(H: Hasher, layer: seq<Hash>): Hash
    requires layer != []
    decreases |layer|
  {
    if |layer| == 1 then layer[0] else LayerRoot(H, NextLayer(H, layer))
  }

  function LeafLayer(H: Hasher, leaves: seq<Bytes>): seq<Hash> {
    seq(|leaves|, i requires 0 <= i < |leaves| => H.leaf(leaves[i]))
  }

  function Root(H: Hasher, leaves: seq<Bytes>): Hash {
    if leaves == [] then H.empty else LayerRoot(H, LeafLayer(H, leaves))
  }

  function Depth(n: nat): nat {
    if n <= 1 then 0 else 1 + Depth((n + 1) / 2)
  }

  /** Child of a parent in a layer of `n`; a last one that is missing is the one before it. */
  function ChildOf(n: nat, parent: nat, side: nat): nat
    requires n >= 1
  {
    Min(2 * parent + side, n - 1)
  }

  /** The leaf that index `i` stands for in a tree of `n` leaves, read off the layers. */
  function Position(n: nat, i: nat): (p: nat)
    requires n >= 1
    ensures p < n
    ensures i < n ==> p == i
    decreases n
  {
    if n == 1 then 0 else ChildOf(n, Position((n + 1) / 2, i / 2), i % 2)
  }

  /** The siblings on the way from index `i` to the root. */
  function Siblings(H: Hasher, layer: seq<Hash>, i: nat): seq<Hash>
    requires layer != []
    decreases |layer|
  {
    if |layer| == 1 then []
    else [SiblingAt(layer, Position((|layer| + 1) / 2, i / 2), i % 2)] + Siblings(H, NextLayer(H, layer), i / 2)
  }

  /** The other child of `parent`. */
  function SiblingAt(layer: seq<Hash>, parent: nat, side: nat): Hash
    requires layer != [] && side < 2
  {
    Padded(layer, 2 * parent + (1 - side))
  }

  /** The hash a proof leads to. */
  function Fold(H: Hasher, acc: Hash, i: nat, siblings: seq<Hash>): Hash
    decreases |siblings|
  {
    if siblings == [] then acc else Fold(H, Join(H, acc, siblings[0], i), i / 2, siblings[1..])
  }

  /** Hash an element with its sibling, on the side its index says. */
  function Join(H: Hasher, acc: Hash, sibling: Hash, i: nat): Hash {
    if i % 2 == 0 then H.branch(acc, sibling) else H.branch(sibling, acc)
  }

  datatype Proof = Proof(index: nat, siblings: seq<Hash>)

  // ---------------------------------------------------------------- the code

  /** Hash adjacent pairs, after repeating the last element of an odd layer. */
  method HashPairs(H: Hasher, layer: seq<Hash>) returns (next: seq<Hash>, padded: seq<Hash>)
    requires |layer| > 1
    ensures next == NextLayer(H, layer)
    ensures |padded| == 2 * |next| && forall i :: 0 <= i < |padded| ==> padded[i] == Padded(layer, i)
  {
    padded := layer;
    if |padded| % 2 == 1 {
      padded := padded + [padded[|padded| - 1]];
    }
    next := [];
    var i := 0;
    while i < |padded|
      invariant 0 <= i <= |padded| && i % 2 == 0 && |next| == i / 2
      invariant forall j :: 0 <= j < |next| ==> next[j] == ParentAt(H, layer, j)
    {
      next := next + [H.branch(padded[i], padded[i + 1])];
      i := i + 2;
    }
  }

  method HashLeaves(H: Hasher, leaves: seq<Bytes>) returns (layer: seq<Hash>)
    ensures layer == LeafLayer(H, leaves)
  {
    layer := [];
    for i := 0 to |leaves|
      invariant |layer| == i && forall j :: 0 <= j < i ==> layer[j] == H.leaf(leaves[j])
    {
      layer := layer + [H.leaf(leaves[i])];
    }
  }

  method ComputeRoot(H: Hasher, leaves: seq<Bytes>) returns (root: Hash)
    ensures root == Root(H, leaves)
  {
    if leaves == [] {
      return H.empty;
    }
    var layer := HashLeaves(H, leaves);
    while |layer| > 1
      invariant layer != [] && LayerRoot(H, layer) == Root(H, leaves)
      decreases |layer|
    {
      var next, _ := HashPairs(H, layer);
      layer := next;
    }
    return layer[0];
  }

  lemma Neighbour(layer: seq<Hash>, i: nat)
    requires layer != []
    ensures SiblingAt(layer, i / 2, i % 2) == Padded(layer, if i % 2 == 0 then i + 1 else i - 1)
  {
    assert 2 * (i / 2) + (1 - i % 2) == if i % 2 == 0 then i + 1 else i - 1;
  }

  lemma NoSiblings(H: Hasher, layer: seq<Hash>, i: nat)
    requires |layer| == 1
    ensures Siblings(H, layer, i) == []
  {
  }

  /** For an index in range the first sibling is the neighbour in the padded layer. */
  lemma SiblingsStep(H: Hasher, layer: seq<Hash>, i: nat)
    requires |layer| > 1 && i < |layer|
    ensures Siblings(H, layer, i) == [SiblingAt(layer, i / 2, i % 2)] + Siblings(H, NextLayer(H, layer), i / 2)
  {
    hide Padded;
    hide NextLayer;
    hide Position;
  }

  method Prove(H: Hasher, leaves: seq<Bytes>, index: nat) returns (r: Option<Proof>)
    ensures r.Some? <==> index < |leaves|
    ensures r.Some? ==> r.value == Proof(index, Siblings(H, LeafLayer(H, leaves), index))
  {
    hide Siblings;
    hide Position;
    if index >= |leaves| {
      return None;
    }
    var layer := HashLeaves(H, leaves);
    var i: nat := index;
    var siblings: seq<Hash> := [];
    while |layer| > 1
      invariant layer != [] && i < |layer|
      invariant siblings + Siblings(H, layer, i) == Siblings(H, LeafLayer(H, leaves), index)
      decreases |layer|
    {
      var next, padded := HashPairs(H, layer);
      var sibling := if i % 2 == 0 then i + 1 else i - 1;
      SiblingsStep(H, layer, i);
      Neighbour(layer, i);
      assert siblings + Siblings(H, layer, i) == siblings + [padded[sibling]] + Siblings(H, next, i / 2);
      siblings := siblings + [padded[sibling]];
      i := i / 2;
      layer := next;
    }
    NoSiblings(H, layer, i);
    return Some(Proof(index, siblings));
  }

  method Verify(H: Hasher, leaf: Bytes, proof: Proof, root: Hash) returns (ok: bool)
    ensures ok <==> Fold(H, H.leaf(leaf), proof.index, proof.siblings) == root
  {
    var acc: Hash := H.leaf(leaf);
    var i: nat := proof.index;
    for k := 0 to |proof.siblings|
      invariant Fold(H, acc, i, proof.siblings[k..]) == Fold(H, H.leaf(leaf), proof.index, proof.siblings)
    {
      var sibling := proof.siblings[k];
      assert proof.siblings[k..][1..] == proof.siblings[k + 1..];
      acc := if i % 2 == 0 then H.branch(acc, sibling) else H.branch(sibling, acc);
      i := i / 2;
    }
    ok := acc == root;
  }

  // ----------------------------------------------------- what padding amounts to

  function Pow2(k: nat): (p: nat)
    ensures p > 0
  {
    if k == 0 then 1 else 2 * Pow2(k - 1)
  }

  /** The largest power of two that divides `n`: the size of the last complete subtree. */
  function LowBit(n: nat): (b: nat)
    requires n > 0
    ensures 0 < b <= n
  {
    if n % 2 == 1 then 1 else 2 * LowBit(n / 2)
  }

  lemma {:induction false} WithinDepth(n: nat)
    requires n > 0
    ensures n <= Pow2(Depth(n))
    decreases n
  {
    if n > 1 {
      WithinDepth((n + 1) / 2);
    }
  }

  lemma {:induction false} PowerIsDepth(n: nat)
    requires n > 0 && LowBit(n) == n
    ensures n == Pow2(Depth(n))
    decreases n
  {
    if n > 1 {
      PowerIsDepth(n / 2);
    }
  }

  /** Repeating the last complete subtree does not deepen the tree. */
  lemma {:induction false} GrowKeepsDepth(n: nat)
    requires n > 0 && LowBit(n) != n
    ensures Depth(n + LowBit(n)) == Depth(n)
    decreases n
  {
    if n % 2 == 0 {
      GrowKeepsDepth(n / 2);
      assert (n + LowBit(n)) / 2 == n / 2 + LowBit(n / 2);
    }
  }

  /** Repeat the last complete subtree until the length is a power of two. */
  function Filled<T>(xs: seq<T>): (r: seq<T>)
    requires xs != []
    ensures |r| == Pow2(Depth(|xs|))
    decreases Pow2(Depth(|xs|)) - |xs|
  {
    var n, b := |xs|, LowBit(|xs|);
    if b == n then PowerIsDepth(n); xs
    else GrowKeepsDepth(n); WithinDepth(n + b); Filled(xs + xs[n - b..])
  }

  lemma {:induction false} PositionStep(n: nat, i: nat)
    requires n > 1
    ensures Position(n, i) == ChildOf(n, Position((n + 1) / 2, i / 2), i % 2)
  {
  }

  /** Below an even layer no child is clipped. */
  lemma EvenPosition(h: nat, i: nat)
    requires h > 0
    ensures Position(2 * h, i) == 2 * Position(h, i / 2) + i % 2
  {
    hide Position;
    PositionStep(2 * h, i);
    assert (2 * h + 1) / 2 == h;
  }

  /** The leaf of the list that index `q` of the list with its last `b` leaves repeated shows. */
  function Folded(q: nat, n: nat, b: nat): int {
    if q < n then q else q - b
  }

  lemma EvenGrown(h: nat, b: nat, i: nat)
    requires h > 0 && Position(h, i / 2) == Folded(Position(h + b, i / 2), h, b)
    ensures Position(2 * h, i) == Folded(Position(2 * h + 2 * b, i), 2 * h, 2 * b)
  {
    hide Position;
    EvenPosition(h, i);
    EvenPosition(h + b, i);
    assert 2 * (h + b) == 2 * h + 2 * b;
  }

  lemma OddGrown(n: nat, i: nat)
    requires n > 1 && n % 2 == 1
    ensures Position(n, i) == Folded(Position(n + 1, i), n, 1)
  {
    hide Position;
    PositionStep(n, i);
    PositionStep(n + 1, i);
    assert (n + 1) / 2 == (n + 1 + 1) / 2;
  }

  /** Where an index of the list with its last subtree repeated falls in the list itself. */
  lemma {:induction false} PositionGrown(n: nat, i: nat)
    requires n > 0 && LowBit(n) != n
    ensures Position(n, i) == Folded(Position(n + LowBit(n), i), n, LowBit(n))
    decreases n
  {
    hide Position;
    if n % 2 == 0 {
      var h, b := n / 2, LowBit(n / 2);
      assert LowBit(n) == 2 * b && n == 2 * h;
      PositionGrown(h, i / 2);
      EvenGrown(h, b, i);
    } else {
      OddGrown(n, i);
    }
  }

  lemma {:induction false} FilledStep<T>(xs: seq<T>)
    requires xs != [] && LowBit(|xs|) != |xs|
    ensures Filled(xs) == Filled(xs + xs[|xs| - LowBit(|xs|)..])
  {
    hide LowBit;
    hide Depth;
    hide Pow2;
  }

  /** The layers' padding is the filled list. */
  lemma {:induction false} FilledAt<T>(xs: seq<T>, i: nat)
    requires xs != [] && i < Pow2(Depth(|xs|))
    ensures Filled(xs)[i] == xs[Position(|xs|, i)]
    decreases Pow2(Depth(|xs|)) - |xs|
  {
    hide Position;
    var n, b := |xs|, LowBit(|xs|);
    if b == n {
      PowerIsDepth(n);
    } else {
      GrowKeepsDepth(n);
      WithinDepth(n + b);
      FilledAt(xs + xs[n - b..], i);
      FilledStep(xs);
      PositionGrown(n, i);
    }
  }

  /** Only as many bits of an index count as the tree is deep. */
  lemma {:induction false} PositionPeriodic(n: nat, i: nat)
    requires n > 0
    ensures Position(n, i) == Position(n, i % Pow2(Depth(n)))
    decreases n
  {
    if n > 1 {
      hide Position;
      var p := Pow2(Depth((n + 1) / 2));
      assert Pow2(Depth(n)) == 2 * p;
      PositionPeriodic((n + 1) / 2, i / 2);
      HalfOfRemainder(i, p);
      PositionStep(n, i);
      PositionStep(n, i % (2 * p));
    }
  }

  lemma HalfOfRemainder(i: nat, p: nat)
    requires p > 0
    ensures (i % (2 * p)) / 2 == (i / 2) % p && (i % (2 * p)) % 2 == i % 2
  {
    var q, r := (i / 2) / p, (i / 2) % p;
    assert i == 2 * (p * q + r) + i % 2;
    assert i == (2 * p) * q + (2 * r + i % 2);
    Remainder(i, 2 * p, q, 2 * r + i % 2);
  }

  lemma Remainder(i: nat, d: nat, q: nat, r: nat)
    requires d > 0 && i == d * q + r && r < d
    ensures i % d == r
  {
    var q', r' := i / d, i % d;
    assert i == d * q' + r';
    if q < q' {
      Apart(d, q, q');
    } else if q' < q {
      Apart(d, q', q);
    }
  }

  lemma {:induction false} Apart(d: nat, q: nat, q': nat)
    requires q < q'
    ensures d * q + d <= d * q'
    decreases q'
  {
    assert d * q' == d * (q' - 1) + d;
    if q < q' - 1 {
      Apart(d, q, q' - 1);
    }
  }

  /** Any index, in terms of the filled list. */
  lemma PositionIsFilled<T>(xs: seq<T>, i: nat)
    requires xs != []
    ensures xs[Position(|xs|, i)] == Filled(xs)[i % |Filled(xs)|]
  {
    var p := Pow2(Depth(|xs|));
    PositionPeriodic(|xs|, i);
    FilledAt(xs, i % p);
  }

  // ------------------------------------------------------------ completeness

  /** The padded element below a parent, on either side. */
  lemma ChildAt(layer: seq<Hash>, half: nat, side: nat)
    requires |layer| > 1 && side < 2
    ensures layer[Position(|layer|, 2 * half + side)] == Padded(layer, 2 * Position((|layer| + 1) / 2, half) + side)
  {
    hide Position;
    var i := 2 * half + side;
    assert i / 2 == half && i % 2 == side;
    PositionStep(|layer|, i);
  }

  /** An element and its sibling hash to their parent. */
  lemma JoinIsParent(H: Hasher, layer: seq<Hash>, i: nat)
    requires |layer| > 1
    ensures var parent := Position((|layer| + 1) / 2, i / 2);
            && layer[Position(|layer|, i)] == Padded(layer, 2 * parent + i % 2)
            && Join(H, layer[Position(|layer|, i)], SiblingAt(layer, parent, i % 2), i) == ParentAt(H, layer, parent)
  {
    hide Position;
    ChildAt(layer, i / 2, i % 2);
    assert i == 2 * (i / 2) + i % 2;
  }

  /** Folding an element with its siblings gives the root. */
  lemma {:induction false} FoldReachesRoot(H: Hasher, layer: seq<Hash>, i: nat)
    requires layer != []
    ensures Fold(H, layer[Position(|layer|, i)], i, Siblings(H, layer, i)) == LayerRoot(H, layer)
    decreases |layer|
  {
    if |layer| > 1 {
      FoldReachesRoot(H, NextLayer(H, layer), i / 2);
      JoinIsParent(H, layer, i);
      assert Siblings(H, layer, i)[1..] == Siblings(H, NextLayer(H, layer), i / 2);
    }
  }

  // --------------------------------------------------------------- soundness

  /** Every way down from `h` takes exactly `k` branches to a leaf. */
  ghost predicate Level(H: Hasher, h: Hash, k: nat)
    decreases k
  {
    if k == 0 then exists leaf :: h == H.leaf(leaf)
    else exists a, b :: h == H.branch(a, b) && Level(H, a, k - 1) && Level(H, b, k - 1)
  }

  lemma {:induction false} RootLevel(H: Hasher, layer: seq<Hash>, k: nat)
    requires layer != [] && forall i :: 0 <= i < |layer| ==> Level(H, layer[i], k)
    ensures Level(H, LayerRoot(H, layer), k + Depth(|layer|))
    decreases |layer|
  {
    if |layer| > 1 {
      var next := NextLayer(H, layer);
      forall i | 0 <= i < |next| ensures Level(H, next[i], k + 1) {
        assert Level(H, Padded(layer, 2 * i), k) && Level(H, Padded(layer, 2 * i + 1), k);
        assert next[i] == H.branch(Padded(layer, 2 * i), Padded(layer, 2 * i + 1));
      }
      RootLevel(H, next, k + 1);
    }
  }

  /** A fold that ends at level `m` started that many levels lower. */
  lemma {:induction false} FoldLevel(H: Hasher, acc: Hash, i: nat, siblings: seq<Hash>, m: nat)
    requires CollisionFree(H) && Level(H, Fold(H, acc, i, siblings), m)
    requires |siblings| <= m
    ensures Level(H, acc, m - |siblings|)
    decreases |siblings|
  {
    if siblings != [] {
      var up := Join(H, acc, siblings[0], i);
      FoldLevel(H, up, i / 2, siblings[1..], m);
      var a, b :| up == H.branch(a, b) && Level(H, a, m - |siblings|) && Level(H, b, m - |siblings|);
    }
  }

  /** A fold of more siblings than levels ends in no tree of that height. */
  lemma {:induction false} FoldTooLong(H: Hasher, acc: Hash, i: nat, siblings: seq<Hash>, m: nat)
    requires CollisionFree(H) && |siblings| > m
    ensures !Level(H, Fold(H, acc, i, siblings), m)
    decreases |siblings|
  {
    var up := Join(H, acc, siblings[0], i);
    if |siblings| == m + 1 {
      if Level(H, Fold(H, acc, i, siblings), m) {
        FoldLevel(H, up, i / 2, siblings[1..], m);
      }
    } else {
      FoldTooLong(H, up, i / 2, siblings[1..], m);
    }
  }

  /** With as many siblings as the tree is deep, only the right element and siblings fold to the root. */
  lemma {:induction false} FoldUnique(H: Hasher, layer: seq<Hash>, acc: Hash, i: nat, siblings: seq<Hash>)
    requires CollisionFree(H) && layer != [] && |siblings| == Depth(|layer|)
    requires Fold(H, acc, i, siblings) == LayerRoot(H, layer)
    ensures acc == layer[Position(|layer|, i)] && siblings == Siblings(H, layer, i)
    decreases |layer|
  {
    hide CollisionFree;
    hide Join;
    hide Position;
    if |layer| > 1 {
      var next, parent := NextLayer(H, layer), Position((|layer| + 1) / 2, i / 2);
      FoldUnique(H, next, Join(H, acc, siblings[0], i), i / 2, siblings[1..]);
      JoinIsParent(H, layer, i);
      assert next[parent] == ParentAt(H, layer, parent);
      JoinInjective(H, acc, siblings[0], layer[Position(|layer|, i)], SiblingAt(layer, parent, i % 2), i);
      assert siblings == [siblings[0]] + siblings[1..];
    }
  }

  lemma JoinInjective(H: Hasher, a: Hash, x: Hash, b: Hash, y: Hash, i: nat)
    requires CollisionFree(H) && Join(H, a, x, i) == Join(H, b, y, i)
    ensures a == b && x == y
  {
  }

  /** Only as many bits of an index count for its siblings as the tree is deep. */
  lemma {:induction false} SiblingsPeriodic(H: Hasher, layer: seq<Hash>, i: nat)
    requires layer != []
    ensures Siblings(H, layer, i) == Siblings(H, layer, i % Pow2(Depth(|layer|)))
    decreases |layer|
  {
    if |layer| > 1 {
      hide Position;
      hide NextLayer;
      var half := (|layer| + 1) / 2;
      var p := Pow2(Depth(half));
      assert Pow2(Depth(|layer|)) == 2 * p;
      HalfOfRemainder(i, p);
      PositionPeriodic(half, i / 2);
      SiblingsPeriodic(H, NextLayer(H, layer), i / 2);
    }
  }

  /** An accepted proof in terms of the layers of the list itself. */
  lemma AcceptedInLayers(H: Hasher, leaves: seq<Bytes>, leaf: Bytes, proof: Proof)
    requires CollisionFree(H)
    ensures Fold(H, H.leaf(leaf), proof.index, proof.siblings) == Root(H, leaves) <==>
              && leaves != []
              && leaf == leaves[Position(|leaves|, proof.index)]
              && proof.siblings == Siblings(H, LeafLayer(H, leaves), proof.index)
  {
    var layer := LeafLayer(H, leaves);
    if leaves == [] {
      FoldNeverEmpty(H, H.leaf(leaf), proof.index, proof.siblings);
    } else {
      FoldReachesRoot(H, layer, proof.index);
      if Fold(H, H.leaf(leaf), proof.index, proof.siblings) == Root(H, leaves) {
        DepthMatches(H, leaves, leaf, proof);
        FoldUnique(H, layer, H.leaf(leaf), proof.index, proof.siblings);
      }
    }
  }

  /** A list and its filled list have the same siblings at every index. */
  lemma FilledSiblings(H: Hasher, leaves: seq<Bytes>, i: nat)
    requires CollisionFree(H) && leaves != []
    ensures Siblings(H, LeafLayer(H, leaves), i)
         == Siblings(H, LeafLayer(H, Filled(leaves)), i % |Filled(leaves)|)
  {
    hide Filled;
    hide Root;
    hide Fold;
    hide Position;
    hide Siblings;
    hide CollisionFree;
    var full := Filled(leaves);
    var leaf := full[i % |full|];
    FilledIsFull(leaves);
    FilledSetsRoot(H, leaves, full);
    PositionIsFilled(leaves, i);
    PositionIsFilled(full, i);
    var proof := Proof(i, Siblings(H, LeafLayer(H, full), i));
    AcceptedInLayers(H, full, leaf, proof);
    AcceptedInLayers(H, leaves, leaf, proof);
    SiblingsPeriodic(H, LeafLayer(H, full), i);
  }

  /** The accepted proofs are exactly these: what `prove` gives for the filled list, with the index
      taken modulo its length. */
  lemma AcceptedIff(H: Hasher, leaves: seq<Bytes>, leaf: Bytes, proof: Proof)
    requires CollisionFree(H)
    ensures Fold(H, H.leaf(leaf), proof.index, proof.siblings) == Root(H, leaves) <==>
              && leaves != []
              && var full := Filled(leaves);
              && leaf == full[proof.index % |full|]
              && proof.siblings == Siblings(H, LeafLayer(H, full), proof.index % |full|)
  {
    hide Filled;
    hide Position;
    hide Siblings;
    AcceptedInLayers(H, leaves, leaf, proof);
    if leaves != [] {
      PositionIsFilled(leaves, proof.index);
      FilledSiblings(H, leaves, proof.index);
    }
  }

  lemma DepthMatches(H: Hasher, leaves: seq<Bytes>, leaf: Bytes, proof: Proof)
    requires CollisionFree(H) && leaves != []
    requires Fold(H, H.leaf(leaf), proof.index, proof.siblings) == Root(H, leaves)
    ensures |proof.siblings| == Depth(|leaves|)
  {
    var layer := LeafLayer(H, leaves);
    forall i | 0 <= i < |layer| ensures Level(H, layer[i], 0) {
      assert layer[i] == H.leaf(leaves[i]);
    }
    RootLevel(H, layer, 0);
    var m := Depth(|leaves|);
    if |proof.siblings| > m {
      FoldTooLong(H, H.leaf(leaf), proof.index, proof.siblings, m);
    } else {
      FoldLevel(H, H.leaf(leaf), proof.index, proof.siblings, m);
    }
  }

  lemma {:induction false} FoldNeverEmpty(H: Hasher, acc: Hash, i: nat, siblings: seq<Hash>)
    requires CollisionFree(H) && acc != H.empty
    ensures Fold(H, acc, i, siblings) != H.empty
    decreases |siblings|
  {
    if siblings != [] {
      FoldNeverEmpty(H, Join(H, acc, siblings[0], i), i / 2, siblings[1..]);
    }
  }

  /** Every proof from `prove` folds to the root. */
  lemma ProveVerifies(H: Hasher, leaves: seq<Bytes>, index: nat)
    requires index < |leaves|
    ensures Fold(H, H.leaf(leaves[index]), index, Siblings(H, LeafLayer(H, leaves), index)) == Root(H, leaves)
  {
    FoldReachesRoot(H, LeafLayer(H, leaves), index);
  }

  // ------------------------------------------------------------ what a root is

  lemma {:induction false} LayerRootSplits(H: Hasher, p: seq<Hash>, q: seq<Hash>, k: nat)
    requires |p| == |q| == Pow2(k)
    ensures LayerRoot(H, p + q) == H.branch(LayerRoot(H, p), LayerRoot(H, q))
    decreases k
  {
    var next := NextLayer(H, p + q);
    if k == 0 {
      assert next == [H.branch(p[0], q[0])];
    } else {
      LayerRootSplits(H, NextLayer(H, p), NextLayer(H, q), k - 1);
      forall i | 0 <= i < |next| ensures next[i] == (NextLayer(H, p) + NextLayer(H, q))[i] {
        if i >= |NextLayer(H, p)| {
          assert (p + q)[2 * i] == q[2 * i - |p|] && (p + q)[2 * i + 1] == q[2 * i + 1 - |p|];
        }
      }
      assert next == NextLayer(H, p) + NextLayer(H, q);
    }
  }

  /** The root of two full halves is the hash of their roots, the first half on the left; the root of one leaf
      is its hash; and any other list has the root of its filled list. This is all there is to a root. */
  lemma RootSplits(H: Hasher, a: seq<Bytes>, b: seq<Bytes>, k: nat)
    requires |a| == |b| == Pow2(k)
    ensures Root(H, a + b) == H.branch(Root(H, a), Root(H, b))
  {
    LayerRootSplits(H, LeafLayer(H, a), LeafLayer(H, b), k);
    assert LeafLayer(H, a + b) == LeafLayer(H, a) + LeafLayer(H, b);
  }

  lemma RootOfOne(H: Hasher, x: Bytes)
    ensures Root(H, [x]) == H.leaf(x) && Root(H, []) == H.empty
  {
    assert LeafLayer(H, [x]) == [H.leaf(x)];
  }

  lemma RootOfFilled(H: Hasher, leaves: seq<Bytes>)
    requires leaves != []
    ensures Root(H, leaves) == Root(H, Filled(leaves)) && Filled(Filled(leaves)) == Filled(leaves)
  {
    hide Filled;
    hide Root;
    FilledIsFull(leaves);
    FilledSetsRoot(H, leaves, Filled(leaves));
  }

  // ------------------------------------------------------------- equal roots

  lemma {:induction false} SamePaddedRoot(H: Hasher, a: seq<Hash>, b: seq<Hash>)
    requires a != [] && b != [] && Depth(|a|) == Depth(|b|)
    requires forall i: nat :: a[Position(|a|, i)] == b[Position(|b|, i)]
    ensures LayerRoot(H, a) == LayerRoot(H, b)
    decreases |a|
  {
    if |a| == 1 {
      assert a[Position(|a|, 0)] == b[Position(|b|, 0)];
    } else {
      var x, y := NextLayer(H, a), NextLayer(H, b);
      forall i: nat ensures x[Position(|x|, i)] == y[Position(|y|, i)] {
        PairAt(H, a, i);
        PairAt(H, b, i);
        assert a[Position(|a|, 2 * i)] == b[Position(|b|, 2 * i)];
        assert a[Position(|a|, 2 * i + 1)] == b[Position(|b|, 2 * i + 1)];
      }
      SamePaddedRoot(H, x, y);
    }
  }

  lemma PairAt(H: Hasher, layer: seq<Hash>, i: nat)
    requires |layer| > 1
    ensures var next := NextLayer(H, layer);
            next[Position(|next|, i)] == H.branch(layer[Position(|layer|, 2 * i)], layer[Position(|layer|, 2 * i + 1)])
  {
    hide Position;
    ChildAt(layer, i, 0);
    ChildAt(layer, i, 1);
  }

  /** Lists that fill up to the same list have one root. */
  lemma FilledSetsRoot(H: Hasher, a: seq<Bytes>, b: seq<Bytes>)
    requires a != [] && b != [] && Filled(a) == Filled(b)
    ensures Root(H, a) == Root(H, b)
  {
    hide Filled;
    PowerInjective(Depth(|a|), Depth(|b|));
    forall i: nat ensures LeafLayer(H, a)[Position(|a|, i)] == LeafLayer(H, b)[Position(|b|, i)] {
      PositionIsFilled(a, i);
      PositionIsFilled(b, i);
    }
    SamePaddedRoot(H, LeafLayer(H, a), LeafLayer(H, b));
  }

  lemma {:induction false} PowerInjective(j: nat, k: nat)
    ensures Pow2(j) == Pow2(k) ==> j == k
  {
    if j > 0 && k > 0 {
      PowerInjective(j - 1, k - 1);
    }
  }

  /** Only the empty list has the empty root. */
  lemma EmptyRootIff(H: Hasher, leaves: seq<Bytes>)
    requires CollisionFree(H)
    ensures Root(H, leaves) == H.empty <==> leaves == []
  {
    if leaves != [] {
      ProveVerifies(H, leaves, 0);
      FoldNeverEmpty(H, H.leaf(leaves[0]), 0, Siblings(H, LeafLayer(H, leaves), 0));
    }
  }

  /** Two lists have the same root exactly when both are empty or they fill up to the same list. */
  lemma RootsEqualIff(H: Hasher, a: seq<Bytes>, b: seq<Bytes>)
    requires CollisionFree(H)
    ensures Root(H, a) == Root(H, b) <==> (a == [] <==> b == []) && (a != [] && b != [] ==> Filled(a) == Filled(b))
  {
    hide Filled;
    hide CollisionFree;
    EmptyRootIff(H, a);
    EmptyRootIff(H, b);
    hide Root;
    if a != [] && b != [] {
      if Root(H, a) == Root(H, b) {
        SameLeafAt(H, a, b, 0);
        forall i | 0 <= i < |Filled(a)| ensures Filled(a)[i] == Filled(b)[i] {
          SameLeafAt(H, a, b, i);
        }
      }
      if Filled(a) == Filled(b) {
        FilledSetsRoot(H, a, b);
      }
    }
  }

  lemma SameLeafAt(H: Hasher, a: seq<Bytes>, b: seq<Bytes>, i: nat)
    requires CollisionFree(H) && a != [] && b != [] && Root(H, a) == Root(H, b)
    requires i < Pow2(Depth(|a|))
    ensures |Filled(a)| == |Filled(b)| && Filled(a)[i] == Filled(b)[i]
  {
    hide Filled;
    hide Fold;
    hide Root;
    hide CollisionFree;
    var leaf := Filled(a)[i];
    var proof := Proof(i, Siblings(H, LeafLayer(H, a), i));
    Remainder(i, |Filled(a)|, 0, i);
    FilledAt(a, i);
    AcceptedInLayers(H, a, leaf, proof);
    AcceptedInLayers(H, b, leaf, proof);
    PositionIsFilled(b, i);
    DepthMatches(H, a, leaf, proof);
    DepthMatches(H, b, leaf, proof);
  }

  /** A filled list is full: its length is a power of two, and filling it again changes nothing. */
  lemma {:induction false} FilledIsFull<T>(xs: seq<T>)
    requires xs != []
    ensures Depth(|Filled(xs)|) == Depth(|xs|) && Filled(Filled(xs)) == Filled(xs)
    decreases Pow2(Depth(|xs|)) - |xs|
  {
    var n, b := |xs|, LowBit(|xs|);
    if b != n {
      GrowKeepsDepth(n);
      WithinDepth(n + b);
      FilledStep(xs);
      FilledIsFull(xs + xs[n - b..]);
    }
  }

  /** Lists of one length with one root are equal. */
  lemma RootBindsLeaves(H: Hasher, a: seq<Bytes>, b: seq<Bytes>)
    requires CollisionFree(H) && |a| == |b| && Root(H, a) == Root(H, b)
    ensures a == b
  {
    hide Filled;
    if a != [] {
      RootsEqualIff(H, a, b);
      WithinDepth(|a|);
      forall i | 0 <= i < |a| ensures a[i] == b[i] {
        FilledAt(a, i);
        FilledAt(b, i);
      }
    }
  }

  /** Lists of different lengths may share a root: a list whose length is not a power of two, and the
      same list with its last complete subtree repeated. */
  lemma RepeatedSubtreeCollides(H: Hasher, leaves: seq<Bytes>)
    requires leaves != [] && LowBit(|leaves|) != |leaves|
    ensures Root(H, leaves + leaves[|leaves| - LowBit(|leaves|)..]) == Root(H, leaves)
  {
    hide Filled;
    hide Root;
    hide LowBit;
    FilledStep(leaves);
    FilledSetsRoot(H, leaves, leaves + leaves[|leaves| - LowBit(|leaves|)..]);
  }

  /** Six leaves and eight: the last two are repeated, not the last one. */
  lemma SixAndEight(H: Hasher, a: Bytes, b: Bytes, c: Bytes, d: Bytes, e: Bytes, f: Bytes)
    ensures Root(H, [a, b, c, d, e, f]) == Root(H, [a, b, c, d, e, f, e, f])
  {
    var six := [a, b, c, d, e, f];
    assert LowBit(6) == 2 * LowBit(3) == 2;
    assert six[4..] == [e, f];
    RepeatedSubtreeCollides(H, six);
    assert six + [e, f] == [a, b, c, d, e, f, e, f];
  }
}
