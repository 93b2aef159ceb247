/** Inclusion and exclusion proofs of the trie (`crates/state/src/mpt/proof.rs`). A verifier that holds
    only a root accepts exactly the stored walk of the key with the value the trie has there, or else a
    pair of payloads with one hash has been found. */
module TrieProof {
  import opened Common
  import opened Trie
  import opened TrieStore
  import opened NodeCodec
  import Merkle

  /** The hash of a payload, which the trie files its nodes under. */
  type Hashing = Bytes -> Digest

  function RecordHash(hash: Hashing): Record -> Hash {
    r => hash(Write(r))
  }

  ghost function Payload(hash: Hashing, t: Node): Bytes {
    Write(Shallow(RecordHash(hash), t))
  }

  /** The root of a tree, as in `TrieStore`. */
  ghost function RootOf(hash: Hashing, t: Node): Hash {
    HashOf(RecordHash(hash), t)
  }

  lemma RootHashesPayload(hash: Hashing, t: Node)
    ensures RootOf(hash, t) == hash(Payload(hash, t))
  {
  }

  /** The subtree a lookup goes on with, and the rest of its key. */
  ghost function Next(t: Node, key: Path): (r: Option<(Node, Path)>)
    ensures r.Some? ==> r.value.0 < t
  {
    match t
    case Extension(path, next) => if path <= key then Some((next, key[|path|..])) else None
    case Branch(children, _) => if key != [] && key[0] in children then Some((children[key[0]], key[1..])) else None
    case _ => None
  }

  /** The payloads from the root to where the lookup of `key` ends. */
  ghost function Walk(hash: Hashing, t: Node, key: Path): (w: seq<Bytes>)
    ensures w != [] && w[0] == Payload(hash, t)
    decreases t
  {
    [Payload(hash, t)] + (if Next(t, key).None? then [] else Walk(hash, Next(t, key).value.0, Next(t, key).value.1))
  }

  /** Every node on the walk fits its format. */
  ghost predicate WalkFits(hash: Hashing, t: Node, key: Path)
    decreases t
  {
    && Fits(Shallow(RecordHash(hash), t))
    && (Next(t, key).Some? ==> WalkFits(hash, Next(t, key).value.0, Next(t, key).value.1))
  }

  // ------------------------------------------------------------ what a walk shows

  /** Where a lookup goes from one record: it ends with a value, or goes on under a hash. This is the
      case split that `prove` and `walk_verify` both make. */
  datatype Turn = Ends(value: Option<Bytes>) | GoesOn(next: Hash, rest: Path)

  function TurnAt(r: Record, key: Path): Turn {
    match r
    case EmptyRec => Ends(None)
    case LeafRec(path, value) => Ends(if path == key then Some(value) else None)
    case ExtensionRec(path, next) => if path <= key then GoesOn(next, key[|path|..]) else Ends(None)
    case BranchRec(children, here) =>
      if key == [] then Ends(here)
      else if key[0] in children then GoesOn(children[key[0]], key[1..]) else Ends(None)
  }

  /** What `walk_verify` accepts. */
  predicate Shows(hash: Hashing, nodes: seq<Bytes>, key: Path, value: Option<Bytes>) {
    && nodes != [] && Read(nodes[0]).Some?
    && match TurnAt(Read(nodes[0]).value, key)
       case Ends(v) => |nodes| == 1 && value == v
       case GoesOn(next, rest) => |nodes| > 1 && next == hash(nodes[1]) && Shows(hash, nodes[1..], rest, value)
  }

  /** Two lists hold different payloads with one hash at one place. */
  ghost predicate Collide(hash: Hashing, a: seq<Bytes>, b: seq<Bytes>) {
    exists i :: 0 <= i < |a| && i < |b| && a[i] != b[i] && hash(a[i]) == hash(b[i])
  }

  lemma CollideLater(hash: Hashing, a: seq<Bytes>, b: seq<Bytes>)
    requires a != [] && b != [] && a[0] == b[0]
    ensures Collide(hash, a, b) <==> Collide(hash, a[1..], b[1..])
  {
    if i :| 0 <= i < |a| && i < |b| && a[i] != b[i] && hash(a[i]) == hash(b[i]) {
      assert a[1..][i - 1] != b[1..][i - 1] && hash(a[1..][i - 1]) == hash(b[1..][i - 1]);
    }
    if i :| 0 <= i < |a[1..]| && i < |b[1..]| && a[1..][i] != b[1..][i] && hash(a[1..][i]) == hash(b[1..][i]) {
      assert a[i + 1] != b[i + 1] && hash(a[i + 1]) == hash(b[i + 1]);
    }
  }

  /** The record of a tree sends a lookup where the tree does. */
  lemma TurnOfTree(hash: Hashing, t: Node, key: Path)
    ensures TurnAt(Shallow(RecordHash(hash), t), key)
         == if Next(t, key).None? then Ends(Get(t, key))
            else GoesOn(RootOf(hash, Next(t, key).value.0), Next(t, key).value.1)
    ensures Next(t, key).Some? ==> Get(t, key) == Get(Next(t, key).value.0, Next(t, key).value.1)
  {
  }

  /** Against the root of a tree, a walk shows a value without a collision exactly when it is the stored
      walk and the value is the one in the tree. */
  lemma {:induction false} ShowsIff(hash: Hashing, t: Node, nodes: seq<Bytes>, key: Path, value: Option<Bytes>)
    requires WalkFits(hash, t, key)
    ensures nodes != [] && hash(nodes[0]) == RootOf(hash, t) && Shows(hash, nodes, key, value)
            && !Collide(hash, nodes, Walk(hash, t, key))
            <==> nodes == Walk(hash, t, key) && value == Get(t, key)
    decreases t
  {
    hide Read;
    hide Write;
    hide Fits;
    hide TurnAt;
    hide Shallow;
    RootHashesPayload(hash, t);
    TurnOfTree(hash, t, key);
    ReadsBackIff(Shallow(RecordHash(hash), t), []);
    assert Payload(hash, t) + [] == Payload(hash, t);
    var walk := Walk(hash, t, key);
    if nodes != [] && hash(nodes[0]) == RootOf(hash, t) && nodes[0] != walk[0] {
      assert Collide(hash, nodes, walk);
    } else if nodes != [] && nodes[0] == walk[0] {
      assert nodes == walk <==> nodes[1..] == walk[1..] by {
        assert nodes == [nodes[0]] + nodes[1..] && walk == [walk[0]] + walk[1..];
      }
      CollideLater(hash, nodes, walk);
      if Next(t, key).Some? {
        var u, rest := Next(t, key).value.0, Next(t, key).value.1;
        assert walk[1..] == Walk(hash, u, rest);
        ShowsIff(hash, u, nodes[1..], rest, value);
      }
    }
  }

  /** Two walks from one hash, of any origin, show the same value, or collide. */
  lemma {:induction false} WalksBind(
    hash: Hashing, a: seq<Bytes>, b: seq<Bytes>, key: Path, v: Option<Bytes>, w: Option<Bytes>)
    requires Shows(hash, a, key, v) && Shows(hash, b, key, w) && hash(a[0]) == hash(b[0])
    ensures Collide(hash, a, b) || (a == b && v == w)
    decreases |a|
  {
    hide Read;
    hide TurnAt;
    if a[0] == b[0] {
      CollideLater(hash, a, b);
      var turn := TurnAt(Read(a[0]).value, key);
      if turn.GoesOn? {
        WalksBind(hash, a[1..], b[1..], turn.rest, v, w);
      }
      assert a == [a[0]] + a[1..] && b == [b[0]] + b[1..];
    }
  }

  // ---------------------------------------------------------------- the code

  datatype MptProof = MptProof(nodes: seq<Bytes>, value: Option<Bytes>, chain: Merkle.Proof, chainRoot: Hash)

  /** The walk with its value, bound together by a Merkle proof of its first node. */
  ghost predicate Honest(hash: Hashing, H: Merkle.Hasher, t: Node, key: Bytes, p: MptProof) {
    && p.nodes == Walk(hash, t, ToNibbles(key)) && p.value == Get(t, ToNibbles(key))
    && p.chainRoot == Merkle.Root(H, p.nodes)
    && Merkle.Fold(H, H.leaf(p.nodes[0]), p.chain.index, p.chain.siblings) == p.chainRoot
  }

  /** What `verify` accepts. */
  ghost predicate Accepts(hash: Hashing, H: Merkle.Hasher, key: Bytes, p: MptProof, root: Hash) {
    && p.nodes != [] && hash(p.nodes[0]) == root
    && Merkle.Root(H, p.nodes) == p.chainRoot
    && Merkle.Fold(H, H.leaf(p.nodes[0]), p.chain.index, p.chain.siblings) == p.chainRoot
    && Shows(hash, p.nodes, ToNibbles(key), p.value)
  }

  /** Accepted against the root of a trie and free of collisions with it, exactly when honest: inclusion
      with the value, exclusion exactly of absent keys. */
  lemma AcceptedIff(hash: Hashing, H: Merkle.Hasher, t: Node, key: Bytes, p: MptProof)
    requires WalkFits(hash, t, ToNibbles(key))
    ensures Accepts(hash, H, key, p, RootOf(hash, t)) && !Collide(hash, p.nodes, Walk(hash, t, ToNibbles(key)))
            <==> Honest(hash, H, t, key, p)
  {
    hide Shows;
    hide Walk;
    hide WalkFits;
    hide Collide;
    ShowsIff(hash, t, p.nodes, ToNibbles(key), p.value);
  }

  /** For any root at all, two accepted proofs of one key agree, or give a collision. */
  lemma AcceptedAgree(hash: Hashing, H: Merkle.Hasher, key: Bytes, p: MptProof, q: MptProof, root: Hash)
    requires Accepts(hash, H, key, p, root) && Accepts(hash, H, key, q, root)
    ensures Collide(hash, p.nodes, q.nodes) || (p.nodes == q.nodes && p.value == q.value)
  {
    hide Shows;
    WalksBind(hash, p.nodes, q.nodes, ToNibbles(key), p.value, q.value);
  }

  lemma NothingShows(hash: Hashing, key: Path, value: Option<Bytes>)
    ensures !Shows(hash, [], key, value)
  {
  }

  /** One turn of `walk_verify`, at node `i`. */
  lemma ShowsFrom(hash: Hashing, nodes: seq<Bytes>, i: nat, key: Path, value: Option<Bytes>)
    requires i < |nodes|
    ensures Shows(hash, nodes[i..], key, value)
            <==> && Read(nodes[i]).Some?
                 && match TurnAt(Read(nodes[i]).value, key)
                    case Ends(v) => i + 1 == |nodes| && value == v
                    case GoesOn(next, rest) =>
                      i + 1 < |nodes| && next == hash(nodes[i + 1]) && Shows(hash, nodes[i + 1..], rest, value)
  {
    hide Read;
    hide TurnAt;
    assert nodes[i..][1..] == nodes[i + 1..];
  }

  /** `walk_verify`. */
  method WalkVerify(hash: Hashing, nodes: seq<Bytes>, key: Bytes, expected: Option<Bytes>) returns (ok: bool)
    ensures ok <==> Shows(hash, nodes, ToNibbles(key), expected)
  {
    hide Read;
    hide TurnAt;
    hide ToNibbles;
    hide Shows;
    var rest := ToNibbles(key);
    assert nodes[0..] == nodes;
    for i := 0 to |nodes|
      invariant Shows(hash, nodes, ToNibbles(key), expected) <==> Shows(hash, nodes[i..], rest, expected)
    {
      ShowsFrom(hash, nodes, i, rest, expected);
      var node := DeserializeNode(nodes[i]);
      if node.None? {
        return false;
      }
      match TurnAt(node.value, rest) {
        case Ends(value) => return i + 1 == |nodes| && expected == value;
        case GoesOn(next, more) =>
          if i + 1 == |nodes| || next != hash(nodes[i + 1]) {
            return false;
          }
          rest := more;
      }
    }
    assert nodes[|nodes|..] == [];
    NothingShows(hash, rest, expected);
    return false;
  }

  /** `verify`. */
  method Verify(hash: Hashing, H: Merkle.Hasher, key: Bytes, p: MptProof, root: Hash) returns (ok: bool)
    ensures ok <==> Accepts(hash, H, key, p, root)
  {
    hide Shows;
    if p.nodes == [] || hash(p.nodes[0]) != root {
      return false;
    }
    var chainRoot := Merkle.ComputeRoot(H, p.nodes);
    if chainRoot != p.chainRoot {
      return false;
    }
    var bound := Merkle.Verify(H, p.nodes[0], p.chain, p.chainRoot);
    if !bound {
      return false;
    }
    ok := WalkVerify(hash, p.nodes, key, p.value);
  }

  /** The walk is on file, each payload under its hash. */
  ghost predicate OnFile(hash: Hashing, store: map<Hash, Bytes>, t: Node, key: Path)
    decreases t
  {
    && RootOf(hash, t) in store && store[RootOf(hash, t)] == Payload(hash, t)
    && (Next(t, key).Some? ==> OnFile(hash, store, Next(t, key).value.0, Next(t, key).value.1))
  }

  /** A store of records holds every walk of its trees once the records are written out. */
  lemma {:induction false} StoredOnFile(hash: Hashing, records: map<Hash, Record>, t: Node, key: Path)
    requires Stored(RecordHash(hash), records, t)
    ensures OnFile(hash, map h | h in records :: Write(records[h]), t, key)
    decreases t
  {
    hide Write;
    if Next(t, key).Some? {
      StoredOnFile(hash, records, Next(t, key).value.0, Next(t, key).value.1);
    }
  }

  /** The walk of `key` in `t` is on file and fits its format. */
  ghost predicate Kept(hash: Hashing, store: map<Hash, Bytes>, t: Node, key: Path) {
    OnFile(hash, store, t, key) && WalkFits(hash, t, key)
  }

  /** Where a lookup in `t` stands after one record: at its end, or in the next subtree. */
  ghost predicate Arrives(hash: Hashing, store: map<Hash, Bytes>, t: Node, key: Path, turn: Turn) {
    match turn
    case Ends(value) => Walk(hash, t, key) == [Payload(hash, t)] && value == Get(t, key)
    case GoesOn(next, rest) =>
      && Next(t, key).Some? && rest == Next(t, key).value.1
      && var u := Next(t, key).value.0;
      && next == RootOf(hash, u) && Kept(hash, store, u, rest)
      && Walk(hash, t, key) == [Payload(hash, t)] + Walk(hash, u, rest) && Get(t, key) == Get(u, rest)
  }

  lemma Arrival(hash: Hashing, store: map<Hash, Bytes>, t: Node, key: Path)
    requires Kept(hash, store, t, key)
    ensures RootOf(hash, t) in store && store[RootOf(hash, t)] == Payload(hash, t)
    ensures Read(Payload(hash, t)) == Some(Shallow(RecordHash(hash), t))
    ensures Arrives(hash, store, t, key, TurnAt(Shallow(RecordHash(hash), t), key))
  {
    hide Read;
    hide Write;
    hide Fits;
    hide TurnAt;
    hide Shallow;
    TurnOfTree(hash, t, key);
    ReadsBackIff(Shallow(RecordHash(hash), t), []);
    assert Payload(hash, t) + [] == Payload(hash, t);
  }

  /** The loop of `prove`: payloads down to where the lookup ends, and the value found there. */
  method Collect(hash: Hashing, store: map<Hash, Bytes>, root: Hash, key: Path, ghost t: Node)
    returns (nodes: seq<Bytes>, value: Option<Bytes>)
    requires root == RootOf(hash, t) && Kept(hash, store, t, key)
    ensures nodes == Walk(hash, t, key) && value == Get(t, key)
  {
    hide Read;
    hide TurnAt;
    hide Payload;
    hide RootOf;
    hide Shallow;
    hide Walk;
    hide Kept;
    hide Get;
    nodes, value := [], None;
    var h, rest := root, key;
    ghost var now := t;
    while true
      invariant h == RootOf(hash, now) && Kept(hash, store, now, rest)
      invariant Walk(hash, t, key) == nodes + Walk(hash, now, rest) && Get(t, key) == Get(now, rest)
      decreases now
    {
      Arrival(hash, store, now, rest);
      var bytes := store[h];
      nodes := nodes + [bytes];
      var node := DeserializeNode(bytes);
      match TurnAt(node.value, rest) {
        case Ends(v) => return nodes, v;
        case GoesOn(next, more) =>
          now := Next(now, rest).value.0;
          h, rest := next, more;
      }
    }
  }

  /** `prove` on the stored trie `t`: the proof is honest and verifies against the root. */
  method Prove(hash: Hashing, H: Merkle.Hasher, store: map<Hash, Bytes>, root: Hash, key: Bytes, ghost t: Node)
    returns (p: MptProof)
    requires root == RootOf(hash, t) && Kept(hash, store, t, ToNibbles(key))
    ensures Honest(hash, H, t, key, p) && Accepts(hash, H, key, p, root)
  {
    hide Walk;
    hide WalkFits;
    hide OnFile;
    hide Shows;
    var nodes, value := Collect(hash, store, root, ToNibbles(key), t);
    var chainRoot := Merkle.ComputeRoot(H, nodes);
    var chain := Merkle.Prove(H, nodes, 0);
    Merkle.ProveVerifies(H, nodes, 0);
    p := MptProof(nodes, value, chain.value, chainRoot);
    AcceptedIff(hash, H, t, key, p);
  }

  /** `prove_exclusion`: a proof exactly for absent keys. */
  method ProveExclusion(
    hash: Hashing, H: Merkle.Hasher, store: map<Hash, Bytes>, root: Hash, key: Bytes, ghost t: Node)
    returns (r: Option<MptProof>)
    requires root == RootOf(hash, t) && Kept(hash, store, t, ToNibbles(key))
    ensures r.Some? <==> Get(t, ToNibbles(key)) == None
    ensures r.Some? ==> Honest(hash, H, t, key, r.value) && Accepts(hash, H, key, r.value, root)
  {
    hide Kept;
    hide Walk;
    hide Shows;
    var p := Prove(hash, H, store, root, key, t);
    r := if p.value.Some? then None else Some(p);
  }
}
