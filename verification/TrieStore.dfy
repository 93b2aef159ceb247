/** The trie as the source keeps it: records addressed by their hash, a root hash, and
    recursive operations that load and store records. It refines the tree of nodes, so the root
    hash is a function of the contents alone. */
module TrieStore {
  import opened Common
  import opened Trie

  /** A node with its children replaced by their hashes. */
  datatype Record =
    | EmptyRec
    | LeafRec(path: Path, value: Bytes)
    | ExtensionRec(path: Path, next: Hash)
    | BranchRec(children: map<Nibble, Hash>, here: Option<Bytes>)

  ghost function ChildHashes(H: Record -> Hash, t: Node): (hs: map<Nibble, Hash>)
    requires t.Branch?
    ensures hs.Keys == t.children.Keys
    decreases t, 0
  {
    map n | n in t.children :: HashOf(H, t.children[n])
  }

  ghost function Shallow(H: Record -> Hash, t: Node): Record
    decreases t, 1
  {
    match t
    case Empty => EmptyRec
    case Leaf(path, value) => LeafRec(path, value)
    case Extension(path, next) => ExtensionRec(path, HashOf(H, next))
    case Branch(_, here) => BranchRec(ChildHashes(H, t), here)
  }

  ghost function HashOf(H: Record -> Hash, t: Node): Hash
    decreases t, 2
  {
    H(Shallow(H, t))
  }

  ghost predicate CollisionFree(H: Record -> Hash) {
    forall a, b :: H(a) == H(b) ==> a == b
  }

  /** Every record is filed under its own hash. */
  ghost predicate WellHashed(H: Record -> Hash, nodes: map<Hash, Record>) {
    forall h :: h in nodes ==> H(nodes[h]) == h
  }

  /** The whole tree is on file. */
  ghost predicate Stored(H: Record -> Hash, nodes: map<Hash, Record>, t: Node) {
    && HashOf(H, t) in nodes && nodes[HashOf(H, t)] == Shallow(H, t)
    && match t
       case Extension(_, next) => Stored(H, nodes, next)
       case Branch(children, _) => forall n :: n in children ==> Stored(H, nodes, children[n])
       case _ => true
  }

  ghost predicate Extends(more: map<Hash, Record>, nodes: map<Hash, Record>) {
    forall h :: h in nodes ==> h in more && more[h] == nodes[h]
  }

  lemma {:induction false} StoredGrows(H: Record -> Hash, nodes: map<Hash, Record>, more: map<Hash, Record>, t: Node)
    requires Stored(H, nodes, t) && Extends(more, nodes)
    ensures Stored(H, more, t)
    decreases t
  {
    match t {
      case Extension(_, next) => StoredGrows(H, nodes, more, next);
      case Branch(children, _) =>
        forall n | n in children ensures Stored(H, more, children[n]) {
          StoredGrows(H, nodes, more, children[n]);
        }
      case _ =>
    }
  }

  /** `hs` are the hashes of children that are on file. */
  ghost predicate Hashes(H: Record -> Hash, nodes: map<Hash, Record>, hs: map<Nibble, Hash>,
                         children: map<Nibble, Node>) {
    && hs.Keys == children.Keys
    && forall n :: n in children ==> Stored(H, nodes, children[n]) && hs[n] == HashOf(H, children[n])
  }

  lemma HashesGrow(
    H: Record -> Hash, nodes: map<Hash, Record>, more: map<Hash, Record>, hs: map<Nibble, Hash>,
    children: map<Nibble, Node>)
    requires Hashes(H, nodes, hs, children) && Extends(more, nodes)
    ensures Hashes(H, more, hs, children)
  {
    forall n | n in children ensures Stored(H, more, children[n]) {
      StoredGrows(H, nodes, more, children[n]);
    }
  }

  /** With a collision-free hash the root determines the tree. */
  lemma {:induction false} HashOfInjective(H: Record -> Hash, s: Node, t: Node)
    requires CollisionFree(H) && HashOf(H, s) == HashOf(H, t)
    ensures s == t
    decreases s
  {
    assert Shallow(H, s) == Shallow(H, t);
    match s {
      case Extension(_, next) => HashOfInjective(H, next, t.next);
      case Branch(children, _) =>
        assert ChildHashes(H, s) == ChildHashes(H, t);
        assert children.Keys == t.children.Keys;
        forall n | n in children ensures children[n] == t.children[n] {
          assert ChildHashes(H, s)[n] == ChildHashes(H, t)[n];
          HashOfInjective(H, children[n], t.children[n]);
        }
        assert children == t.children;
      case _ =>
    }
  }

  class HashedTrie {
    const H: Record -> Hash
    var nodes: map<Hash, Record>
    var root: Hash
    ghost var tree: Node

    ghost predicate Sound()
      reads this
    {
      CollisionFree(H) && WellHashed(H, nodes) && Stored(H, nodes, Empty)
    }

    ghost predicate Valid()
      reads this
    {
      Sound() && Stored(H, nodes, tree) && root == HashOf(H, tree) && Canonical(tree)
    }

    constructor (H: Record -> Hash)
      requires CollisionFree(H)
      ensures Valid() && tree == Empty && this.H == H
    {
      this.H := H;
      nodes := map[H(EmptyRec) := EmptyRec];
      root := H(EmptyRec);
      tree := Empty;
    }

    method Store(rec: Record) returns (h: Hash)
      requires Sound()
      modifies this`nodes
      ensures Sound() && Extends(nodes, old(nodes))
      ensures h == H(rec) && h in nodes && nodes[h] == rec
    {
      h := H(rec);
      nodes := nodes[h := rec];
      StoredGrows(H, old(nodes), nodes, Empty);
    }

    method GetAt(h: Hash, key: Path, ghost t: Node) returns (r: Option<Bytes>)
      requires Stored(H, nodes, t) && h == HashOf(H, t)
      ensures r == Get(t, key)
      decreases t
    {
      match nodes[h] {
        case EmptyRec => return None;
        case LeafRec(path, value) => return if path == key then Some(value) else None;
        case ExtensionRec(path, next) =>
          if path <= key {
            r := GetAt(next, key[|path|..], t.next);
          } else {
            r := None;
          }
        case BranchRec(children, here) =>
          if key == [] {
            return here;
          }
          assert children == ChildHashes(H, t);
          if key[0] in children {
            r := GetAt(children[key[0]], key[1..], t.children[key[0]]);
          } else {
            r := None;
          }
      }
    }

    method StoreLeaf(path: Path, value: Bytes) returns (h: Hash)
      requires Sound()
      modifies this`nodes
      ensures Sound() && Extends(nodes, old(nodes))
      ensures Stored(H, nodes, Leaf(path, value)) && h == HashOf(H, Leaf(path, value))
    {
      h := Store(LeafRec(path, value));
    }

    /** Put a path in front of a stored node, unless it is empty. */
    method StoreUnder(path: Path, below: Hash, ghost t: Node) returns (h: Hash)
      requires Sound() && Stored(H, nodes, t) && below == HashOf(H, t)
      modifies this`nodes
      ensures Sound() && Extends(nodes, old(nodes))
      ensures Stored(H, nodes, Under(path, t)) && h == HashOf(H, Under(path, t))
    {
      if path == [] {
        return below;
      }
      h := Store(ExtensionRec(path, below));
      StoredGrows(H, old(nodes), nodes, t);
    }

    method StoreBranch(hs: map<Nibble, Hash>, here: Option<Bytes>, ghost children: map<Nibble, Node>) returns (h: Hash)
      requires Sound() && Hashes(H, nodes, hs, children)
      modifies this`nodes
      ensures Sound() && Extends(nodes, old(nodes))
      ensures Stored(H, nodes, Branch(children, here)) && h == HashOf(H, Branch(children, here))
    {
      assert hs == ChildHashes(H, Branch(children, here));
      h := Store(BranchRec(hs, here));
      HashesGrow(H, old(nodes), nodes, hs, children);
    }

    method SplitLeaves(aRest: Path, aVal: Bytes, bRest: Path, bVal: Bytes) returns (h: Hash)
      requires Sound()
      modifies this`nodes
      ensures Sound() && Extends(nodes, old(nodes))
      ensures var t := SplitToBranch(aRest, aVal, bRest, bVal); Stored(H, nodes, t) && h == HashOf(H, t)
    {
      var hs: map<Nibble, Hash> := map[];
      ghost var children: map<Nibble, Node> := map[];
      var here: Option<Bytes> := None;
      if aRest == [] {
        here := Some(aVal);
      } else {
        var l := StoreLeaf(aRest[1..], aVal);
        hs, children := hs[aRest[0] := l], children[aRest[0] := Leaf(aRest[1..], aVal)];
      }
      if bRest == [] {
        here := Some(bVal);
      } else {
        ghost var was := nodes;
        var l := StoreLeaf(bRest[1..], bVal);
        HashesGrow(H, was, nodes, hs, children);
        hs, children := hs[bRest[0] := l], children[bRest[0] := Leaf(bRest[1..], bVal)];
      }
      h := StoreBranch(hs, here, children);
    }

    method InsertAt(h: Hash, key: Path, value: Bytes, ghost t: Node) returns (h': Hash)
      requires Sound() && Stored(H, nodes, t) && h == HashOf(H, t)
      modifies this`nodes
      ensures Sound() && Extends(nodes, old(nodes))
      ensures Stored(H, nodes, Insert(t, key, value)) && h' == HashOf(H, Insert(t, key, value))
      decreases t
    {
      match nodes[h] {
        case EmptyRec => h' := StoreLeaf(key, value);
        case LeafRec(path, prior) =>
          if path == key {
            h' := StoreLeaf(path, value);
          } else {
            var cp := CommonPrefixLen(path, key);
            var b := SplitLeaves(path[cp..], prior, key[cp..], value);
            h' := StoreUnder(path[..cp], b, SplitToBranch(path[cp..], prior, key[cp..], value));
          }
        case ExtensionRec(path, next) =>
          if path <= key {
            var n := InsertAt(next, key[|path|..], value, t.next);
            ghost var was := nodes;
            h' := Store(ExtensionRec(path, n));
            StoredGrows(H, was, nodes, Insert(t.next, key[|path|..], value));
          } else {
            h' := SplitExtensionAt(path, next, key, value, t.next);
          }
        case BranchRec(hs, here) =>
          h' := InsertInBranch(hs, here, key, value, t);
      }
    }

    method SplitExtensionAt(path: Path, below: Hash, key: Path, value: Bytes, ghost next: Node) returns (h: Hash)
      requires Sound() && Stored(H, nodes, next) && below == HashOf(H, next) && !(path <= key)
      modifies this`nodes
      ensures Sound() && Extends(nodes, old(nodes))
      ensures var t := Insert(Extension(path, next), key, value); Stored(H, nodes, t) && h == HashOf(H, t)
    {
      var cp := CommonPrefixLen(path, key);
      NotPrefix(path, key);
      var b := ForkAt(path, below, key, value, cp, next);
      h := StoreUnder(path[..cp], b, SplitExtension(path, next, key, value, cp));
    }

    method ForkAt(path: Path, below: Hash, key: Path, value: Bytes, cp: nat, ghost next: Node) returns (h: Hash)
      requires Sound() && Stored(H, nodes, next) && below == HashOf(H, next)
      requires cp < |path| && cp <= |key|
      modifies this`nodes
      ensures Sound() && Extends(nodes, old(nodes))
      ensures var t := SplitExtension(path, next, key, value, cp); Stored(H, nodes, t) && h == HashOf(H, t)
    {
      var c := StoreUnder(path[cp + 1..], below, next);
      var hs: map<Nibble, Hash> := map[path[cp] := c];
      ghost var children: map<Nibble, Node> := map[path[cp] := Under(path[cp + 1..], next)];
      if |key| == cp {
        h := StoreBranch(hs, Some(value), children);
      } else {
        ghost var was := nodes;
        var l := StoreLeaf(key[cp + 1..], value);
        HashesGrow(H, was, nodes, hs, children);
        h := StoreBranch(hs[key[cp] := l], None, children[key[cp] := Leaf(key[cp + 1..], value)]);
      }
    }

    method InsertInBranch(hs: map<Nibble, Hash>, here: Option<Bytes>, key: Path, value: Bytes, ghost t: Node)
      returns (h: Hash)
      requires Sound() && t.Branch? && Stored(H, nodes, t) && Shallow(H, t) == BranchRec(hs, here)
      modifies this`nodes
      ensures Sound() && Extends(nodes, old(nodes))
      ensures Stored(H, nodes, Insert(t, key, value)) && h == HashOf(H, Insert(t, key, value))
      decreases t, 0
    {
      assert Hashes(H, nodes, hs, t.children);
      if key == [] {
        h := StoreBranch(hs, Some(value), t.children);
        return;
      }
      var c;
      ghost var child;
      if key[0] in hs {
        c := InsertAt(hs[key[0]], key[1..], value, t.children[key[0]]);
        child := Insert(t.children[key[0]], key[1..], value);
      } else {
        c := StoreLeaf(key[1..], value);
        child := Leaf(key[1..], value);
      }
      HashesGrow(H, old(nodes), nodes, hs, t.children);
      h := StoreBranch(hs[key[0] := c], here, t.children[key[0] := child]);
    }

    ghost predicate Holds(r: Option<Hash>, t: Option<Node>)
      reads this
    {
      (r.Some? <==> t.Some?) && (r.Some? ==> Stored(H, nodes, t.value) && r.value == HashOf(H, t.value))
    }

    method PrefixChildAt(n: Nibble, c: Hash, ghost child: Node) returns (h: Hash)
      requires Sound() && Stored(H, nodes, child) && c == HashOf(H, child)
      modifies this`nodes
      ensures Sound() && Extends(nodes, old(nodes))
      ensures Stored(H, nodes, PrefixChild(n, child)) && h == HashOf(H, PrefixChild(n, child))
    {
      match nodes[c] {
        case LeafRec(path, value) => h := StoreLeaf([n] + path, value);
        case ExtensionRec(path, next) =>
          h := Store(ExtensionRec([n] + path, next));
          StoredGrows(H, old(nodes), nodes, child.next);
        case BranchRec(_, _) =>
          h := Store(ExtensionRec([n], c));
          StoredGrows(H, old(nodes), nodes, child);
        case EmptyRec => h := Store(EmptyRec);
      }
    }

    method NormalizeAt(path: Path, c: Hash, ghost next: Node) returns (h: Hash)
      requires Sound() && Stored(H, nodes, next) && c == HashOf(H, next)
      modifies this`nodes
      ensures Sound() && Extends(nodes, old(nodes))
      ensures Stored(H, nodes, NormalizeExtension(path, next)) && h == HashOf(H, NormalizeExtension(path, next))
    {
      match nodes[c] {
        case EmptyRec => h := Store(EmptyRec);
        case LeafRec(p, value) => h := StoreLeaf(path + p, value);
        case ExtensionRec(p, nn) =>
          h := Store(ExtensionRec(path + p, nn));
          StoredGrows(H, old(nodes), nodes, next.next);
        case BranchRec(_, _) =>
          h := Store(ExtensionRec(path, c));
          StoredGrows(H, old(nodes), nodes, next);
      }
    }

    method CollapseAt(hs: map<Nibble, Hash>, value: Option<Bytes>, ghost children: map<Nibble, Node>)
      returns (r: Option<Hash>)
      requires Sound() && Hashes(H, nodes, hs, children)
      modifies this`nodes
      ensures Sound() && Extends(nodes, old(nodes))
      ensures Holds(r, CollapseBranch(children, value))
    {
      assert |hs| == |children| by {
        assert |hs.Keys| == |children.Keys|;
      }
      if |hs| == 0 {
        if value == None {
          return None;
        }
        var h := StoreLeaf([], value.value);
        return Some(h);
      }
      if |hs| == 1 && value == None {
        OnlyKey(children);
        var n :| n in hs;
        var h := PrefixChildAt(n, hs[n], children[n]);
        return Some(h);
      }
      var h := StoreBranch(hs, value, children);
      return Some(h);
    }

    method RemoveAt(h: Hash, key: Path, ghost t: Node) returns (r: Option<Hash>)
      requires Sound() && Stored(H, nodes, t) && h == HashOf(H, t)
      modifies this`nodes
      ensures Sound() && Extends(nodes, old(nodes))
      ensures Holds(r, Remove(t, key))
      decreases t
    {
      match nodes[h] {
        case EmptyRec => r := None;
        case LeafRec(path, value) =>
          if path == key {
            r := None;
          } else {
            var l := StoreLeaf(path, value);
            r := Some(l);
          }
        case ExtensionRec(path, next) =>
          if path <= key {
            var n := RemoveAt(next, key[|path|..], t.next);
            if n == None {
              r := None;
            } else {
              var e := NormalizeAt(path, n.value, Remove(t.next, key[|path|..]).value);
              r := Some(e);
            }
          } else {
            r := Some(h);
          }
        case BranchRec(hs, value) =>
          r := RemoveInBranch(h, hs, value, key, t);
      }
    }

    method RemoveInBranch(h: Hash, hs: map<Nibble, Hash>, value: Option<Bytes>, key: Path, ghost t: Node)
      returns (r: Option<Hash>)
      requires Sound() && t.Branch? && Stored(H, nodes, t) && h == HashOf(H, t) && Shallow(H, t) == BranchRec(hs, value)
      modifies this`nodes
      ensures Sound() && Extends(nodes, old(nodes))
      ensures Holds(r, Remove(t, key))
      decreases t, 0
    {
      assert Hashes(H, nodes, hs, t.children);
      if key == [] {
        if value == None {
          return Some(h);
        }
        r := CollapseAt(hs, None, t.children);
        return;
      }
      var n := key[0];
      if n !in hs {
        return Some(h);
      }
      var c := RemoveAt(hs[n], key[1..], t.children[n]);
      HashesGrow(H, old(nodes), nodes, hs, t.children);
      r := ReplaceChild(hs, value, n, c, t.children, Remove(t.children[n], key[1..]));
    }

    /** Put back what is left of a child. */
    method ReplaceChild(
      hs: map<Nibble, Hash>, value: Option<Bytes>, n: Nibble, c: Option<Hash>,
      ghost children: map<Nibble, Node>, ghost left: Option<Node>) returns (r: Option<Hash>)
      requires Sound() && Hashes(H, nodes, hs, children) && Holds(c, left)
      modifies this`nodes
      ensures Sound() && Extends(nodes, old(nodes))
      ensures Holds(r, if left == None then CollapseBranch(children - {n}, value)
                       else Some(Branch(children[n := left.value], value)))
    {
      if c == None {
        assert (hs - {n}).Keys == (children - {n}).Keys;
        r := CollapseAt(hs - {n}, value, children - {n});
      } else {
        var b := StoreBranch(hs[n := c.value], value, children[n := left.value]);
        r := Some(b);
      }
    }

    /** `put`. */
    method Put(key: Bytes, value: Bytes)
      requires Valid()
      modifies this
      ensures Valid() && tree == Insert(old(tree), ToNibbles(key), value)
    {
      root := InsertAt(root, ToNibbles(key), value, tree);
      InsertCanon(tree, ToNibbles(key), value);
      tree := Insert(tree, ToNibbles(key), value);
    }

    /** `get`. */
    method Lookup(key: Bytes) returns (r: Option<Bytes>)
      requires Valid()
      ensures r == Get(tree, ToNibbles(key))
    {
      r := GetAt(root, ToNibbles(key), tree);
    }

    /** `delete`. */
    method Erase(key: Bytes)
      requires Valid()
      modifies this
      ensures Valid() && tree == Delete(old(tree), ToNibbles(key))
    {
      var present := Lookup(key);
      if present == None {
        return;
      }
      var r := RemoveAt(root, ToNibbles(key), tree);
      if r.Some? {
        root := r.value;
      } else {
        root := Store(EmptyRec);
      }
      DeleteCanonical(tree, ToNibbles(key));
      tree := Delete(tree, ToNibbles(key));
    }
  }

  // -------------------------------------------------------- whole histories

  datatype Op = PutOp(key: Bytes, value: Bytes) | EraseOp(key: Bytes)

  /** The trie after a history of operations. */
  function Built(ops: seq<Op>): Node {
    if ops == [] then Empty
    else
      var before, last := Built(ops[..|ops| - 1]), ops[|ops| - 1];
      match last
      case PutOp(key, value) => Insert(before, ToNibbles(key), value)
      case EraseOp(key) => Delete(before, ToNibbles(key))
  }

  /** The plain map after the same history. */
  function Contents(ops: seq<Op>): map<Bytes, Bytes> {
    if ops == [] then map[]
    else
      var before, last := Contents(ops[..|ops| - 1]), ops[|ops| - 1];
      match last
      case PutOp(key, value) => before[key := value]
      case EraseOp(key) => before - {key}
  }

  /** The trie is canonical and is the map: every byte key finds what the map holds, and no
      other path finds anything. */
  lemma {:induction false} RefinesMap(ops: seq<Op>)
    ensures Canonical(Built(ops))
    ensures forall key :: Get(Built(ops), ToNibbles(key)) == At(Contents(ops), key)
    ensures forall p :: Get(Built(ops), p).Some? ==> exists key :: key in Contents(ops) && ToNibbles(key) == p
  {
    if ops != [] {
      var init, last := ops[..|ops| - 1], ops[|ops| - 1];
      RefinesMap(init);
      var t, m := Built(init), Contents(init);
      if last.PutOp? {
        InsertCanon(t, ToNibbles(last.key), last.value);
      } else {
        DeleteCanonical(t, ToNibbles(last.key));
      }
      forall key: Bytes ensures Get(Built(ops), ToNibbles(key)) == At(Contents(ops), key) {
        OpLookup(t, last, ToNibbles(key));
        if ToNibbles(key) == ToNibbles(last.key) {
          ToNibblesInjective(key, last.key);
        }
      }
      forall p | Get(Built(ops), p).Some? ensures exists key :: key in Contents(ops) && ToNibbles(key) == p {
        OpLookup(t, last, p);
        if p == ToNibbles(last.key) {
          assert last.key in Contents(ops);
        } else {
          var key :| key in m && ToNibbles(key) == p;
          assert key in Contents(ops);
        }
      }
    }
  }

  lemma OpLookup(t: Node, op: Op, p: Path)
    ensures Get(if op.PutOp? then Insert(t, ToNibbles(op.key), op.value) else Delete(t, ToNibbles(op.key)), p)
         == if p == ToNibbles(op.key) then (if op.PutOp? then Some(op.value) else None) else Get(t, p)
  {
    if op.PutOp? {
      GetInsert(t, ToNibbles(op.key), op.value, p);
    } else {
      GetDelete(t, ToNibbles(op.key), p);
    }
  }

  lemma FoundInBoth(a: seq<Op>, b: seq<Op>, p: Path)
    requires Contents(a) == Contents(b)
    ensures Get(Built(a), p).Some? ==> Get(Built(b), p) == Get(Built(a), p)
  {
    RefinesMap(a);
    RefinesMap(b);
    if Get(Built(a), p).Some? {
      var key :| key in Contents(a) && ToNibbles(key) == p;
      assert Get(Built(b), ToNibbles(key)) == At(Contents(b), key);
    }
  }

  /** History independence: two histories give the same root exactly when they leave the same
      contents. */
  lemma RootIffContents(H: Record -> Hash, a: seq<Op>, b: seq<Op>)
    requires CollisionFree(H)
    ensures HashOf(H, Built(a)) == HashOf(H, Built(b)) <==> Contents(a) == Contents(b)
  {
    RefinesMap(a);
    RefinesMap(b);
    if Contents(a) == Contents(b) {
      forall p ensures Get(Built(a), p) == Get(Built(b), p) {
        FoundInBoth(a, b, p);
        FoundInBoth(b, a, p);
      }
      CanonUnique(Built(a), Built(b));
    }
    if HashOf(H, Built(a)) == HashOf(H, Built(b)) {
      HashOfInjective(H, Built(a), Built(b));
      forall key: Bytes ensures SameEntry(Contents(a), Contents(b), key) {
        assert At(Contents(a), key) == Get(Built(a), ToNibbles(key)) == At(Contents(b), key);
      }
      SameEverywhere(Contents(a), Contents(b));
    }
  }

  /** The stored trie, driven through any history, ends at that root. */
  method Drive(H: Record -> Hash, ops: seq<Op>) returns (root: Hash)
    requires CollisionFree(H)
    ensures root == HashOf(H, Built(ops))
  {
    var trie := new HashedTrie(H);
    for i := 0 to |ops|
      invariant fresh(trie) && trie.Valid() && trie.H == H && trie.tree == Built(ops[..i])
    {
      assert ops[..i + 1][..i] == ops[..i];
      match ops[i] {
        case PutOp(key, value) => trie.Put(key, value);
        case EraseOp(key) => trie.Erase(key);
      }
    }
    assert ops[..|ops|] == ops;
    root := trie.root;
  }
}
