/** The hexary Patricia trie of `crates/state/src/mpt/mod.rs` as a tree of nodes: lookup,
    insertion and removal, refinement of a plain map, and canonical shape. */
module Trie {
  import opened Common

  type Nibble = x: int | 0 <= x < 16
  type Path = seq<Nibble>

  datatype Node =
    | Empty
    | Leaf(path: Path, value: Bytes)
    | Extension(path: Path, next: Node)
    | Branch(children: map<Nibble, Node>, here: Option<Bytes>)

  /** Nibbles of a byte string, high nibble first. */
  function ToNibbles(key: Bytes): (p: Path)
    ensures |p| == 2 * |key|
  {
    if key == [] then [] else [key[0] / 16, key[0] % 16] + ToNibbles(key[1..])
  }

  lemma {:induction false} ToNibblesInjective(a: Bytes, b: Bytes)
    requires ToNibbles(a) == ToNibbles(b)
    ensures a == b
  {
    if a != [] && b != [] {
      assert ToNibbles(a)[0] == ToNibbles(b)[0] && ToNibbles(a)[1] == ToNibbles(b)[1];
      assert ToNibbles(a)[2..] == ToNibbles(a[1..]) && ToNibbles(b)[2..] == ToNibbles(b[1..]);
      ToNibblesInjective(a[1..], b[1..]);
      assert a[0] == b[0];
      assert a == [a[0]] + a[1..] && b == [b[0]] + b[1..];
    }
  }

  lemma {:induction false} ToNibblesAppend(key: Bytes, b: u8)
    ensures ToNibbles(key + [b]) == ToNibbles(key) + [b / 16, b % 16]
  {
    if key == [] {
      assert [b][1..] == [];
    } else {
      ToNibblesAppend(key[1..], b);
      assert (key + [b])[1..] == key[1..] + [b];
    }
  }

  function CommonPrefixLen(a: Path, b: Path): (n: nat)
    ensures n <= |a| && n <= |b|
    ensures a[..n] == b[..n]
    ensures n < |a| && n < |b| ==> a[n] != b[n]
  {
    if a == [] || b == [] || a[0] != b[0] then 0
    else
      var n := CommonPrefixLen(a[1..], b[1..]);
      assert a[..1 + n] == [a[0]] + a[1..][..n] && b[..1 + n] == [b[0]] + b[1..][..n];
      1 + n
  }

  function Get(t: Node, key: Path): Option<Bytes> {
    match t
    case Empty => None
    case Leaf(path, value) => if path == key then Some(value) else None
    case Extension(path, next) => if path <= key then Get(next, key[|path|..]) else None
    case Branch(children, value) =>
      if key == [] then value
      else if key[0] in children then Get(children[key[0]], key[1..]) else None
  }

  /** Put a path in front of a node unless it is empty. */
  function Under(path: Path, t: Node): Node {
    if path == [] then t else Extension(path, t)
  }

  /** A child reached by `rest`, or the value of the branch itself when nothing is left. */
  function SplitToBranch(aRest: Path, aVal: Bytes, bRest: Path, bVal: Bytes): Node {
    var none: map<Nibble, Node> := map[];
    var withA := if aRest == [] then none else none[aRest[0] := Leaf(aRest[1..], aVal)];
    var children := if bRest == [] then withA else withA[bRest[0] := Leaf(bRest[1..], bVal)];
    Branch(children, if bRest == [] then Some(bVal) else if aRest == [] then Some(aVal) else None)
  }

  /** Split an extension that the key leaves after `cp` nibbles. */
  function SplitExtension(path: Path, next: Node, key: Path, value: Bytes, cp: nat): Node
    requires cp < |path| && cp <= |key|
  {
    var prior: map<Nibble, Node> := map[path[cp] := Under(path[cp + 1..], next)];
    if |key| == cp then Branch(prior, Some(value))
    else Branch(prior[key[cp] := Leaf(key[cp + 1..], value)], None)
  }

  function Insert(t: Node, key: Path, value: Bytes): Node {
    match t
    case Empty => Leaf(key, value)
    case Leaf(path, prior) =>
      if path == key then Leaf(path, value)
      else
        var cp := CommonPrefixLen(path, key);
        Under(path[..cp], SplitToBranch(path[cp..], prior, key[cp..], value))
    case Extension(path, next) =>
      if path <= key then Extension(path, Insert(next, key[|path|..], value))
      else
        var cp := CommonPrefixLen(path, key);
        Under(path[..cp], SplitExtension(path, next, key, value, cp))
    case Branch(children, prior) =>
      if key == [] then Branch(children, Some(value))
      else
        var child := if key[0] in children then Insert(children[key[0]], key[1..], value) else Leaf(key[1..], value);
        Branch(children[key[0] := child], prior)
  }

  function PrefixChild(n: Nibble, child: Node): Node {
    match child
    case Leaf(path, value) => Leaf([n] + path, value)
    case Extension(path, next) => Extension([n] + path, next)
    case Branch(_, _) => Extension([n], child)
    case Empty => Empty
  }

  function NormalizeExtension(path: Path, next: Node): Node {
    match next
    case Empty => Empty
    case Leaf(p, value) => Leaf(path + p, value)
    case Extension(p, nn) => Extension(path + p, nn)
    case Branch(_, _) => Extension(path, next)
  }

  lemma OnlyKey(m: map<Nibble, Node>)
    requires |m| == 1
    ensures forall a, b :: a in m && b in m ==> a == b
  {
    var k :| k in m;
    assert |m.Keys - {k}| == 0;
    assert m.Keys == {k};
  }

  function CollapseBranch(children: map<Nibble, Node>, value: Option<Bytes>): Option<Node> {
    if |children| == 0 then (if value == None then None else Some(Leaf([], value.value)))
    else if |children| == 1 && value == None then
      OnlyKey(children);
      var n :| n in children;
      Some(PrefixChild(n, children[n]))
    else Some(Branch(children, value))
  }

  /** Removal; nothing is left when the subtree became empty. */
  function Remove(t: Node, key: Path): Option<Node> {
    match t
    case Empty => None
    case Leaf(path, _) => if path == key then None else Some(t)
    case Extension(path, next) =>
      if !(path <= key) then Some(t)
      else
        var r := Remove(next, key[|path|..]);
        if r == None then None else Some(NormalizeExtension(path, r.value))
    case Branch(children, value) =>
      if key == [] then
        if value == None then Some(t) else CollapseBranch(children, None)
      else if key[0] !in children then Some(t)
      else
        var r := Remove(children[key[0]], key[1..]);
        if r == None then CollapseBranch(children - {key[0]}, value)
        else Some(Branch(children[key[0] := r.value], value))
  }

  function OrEmpty(t: Option<Node>): Node {
    if t == None then Empty else t.value
  }

  /** `delete`: a key that is not there leaves the trie alone. */
  function Delete(t: Node, key: Path): Node {
    if Get(t, key) == None then t else OrEmpty(Remove(t, key))
  }

  // ----------------------------------------------------------------- lookups

  lemma GetUnder(path: Path, t: Node, key: Path)
    ensures Get(Under(path, t), key) == if path <= key then Get(t, key[|path|..]) else None
  {
    assert path == [] ==> key[|path|..] == key;
  }

  /** Keys of a split leaf. */
  lemma GetSplit(a: Path, aVal: Bytes, b: Path, bVal: Bytes, key: Path)
    requires a != b && (a != [] && b != [] ==> a[0] != b[0])
    ensures Get(SplitToBranch(a, aVal, b, bVal), key) == if key == b then Some(bVal) else if key == a then Some(aVal)
            else None
  {
    if key != [] {
      assert a != [] ==> (key == a <==> key[0] == a[0] && key[1..] == a[1..]);
      assert b != [] ==> (key == b <==> key[0] == b[0] && key[1..] == b[1..]);
    }
  }

  lemma SplitAt(k: Path, cp: nat)
    requires cp <= |k|
    ensures k == k[..cp] + k[cp..]
  {
  }

  lemma GetInsertLeaf(path: Path, prior: Bytes, key: Path, value: Bytes, q: Path)
    requires path != key
    ensures Get(Insert(Leaf(path, prior), key, value), q) == if q == key then Some(value) else Get(Leaf(path, prior), q)
  {
    var cp := CommonPrefixLen(path, key);
    SplitAt(path, cp);
    SplitAt(key, cp);
    assert path[cp..] != key[cp..];
    GetUnder(path[..cp], SplitToBranch(path[cp..], prior, key[cp..], value), q);
    if path[..cp] <= q {
      SplitAt(q, cp);
      GetSplit(path[cp..], prior, key[cp..], value, q[cp..]);
    }
  }

  /** Below the split, the old extension answers as before. */
  lemma GetOldSide(path: Path, next: Node, cp: nat, q: Path)
    requires cp < |path| && cp < |q| && path[..cp] <= q && path[cp] == q[cp]
    ensures Get(Under(path[cp + 1..], next), q[cp + 1..]) == Get(Extension(path, next), q)
  {
    var tail, rest := path[cp + 1..], q[cp + 1..];
    GetUnder(tail, next, rest);
    assert path == path[..cp] + [path[cp]] + tail;
    assert q == path[..cp] + [path[cp]] + rest;
    if tail <= rest {
      assert path <= q;
      assert rest[|tail|..] == q[|path|..];
    }
  }

  lemma GetSplitExtension(path: Path, next: Node, key: Path, value: Bytes, q: Path)
    requires !(path <= key)
    ensures var cp := CommonPrefixLen(path, key);
            path[..cp] <= q ==>
              Get(SplitExtension(path, next, key, value, cp), q[cp..])
              == if q == key then Some(value) else Get(Extension(path, next), q)
  {
    var cp := CommonPrefixLen(path, key);
    NotPrefix(path, key);
    if path[..cp] <= q && |q| > cp {
      assert q[cp..][0] == q[cp] && q[cp..][1..] == q[cp + 1..];
      if q[cp] == path[cp] {
        GetOldSide(path, next, cp, q);
      } else {
        assert q == q[..cp] + [q[cp]] + q[cp + 1..];
        if cp < |key| {
          assert key == q[..cp] + [key[cp]] + key[cp + 1..];
        }
      }
    }
  }

  lemma NotPrefix(path: Path, key: Path)
    requires !(path <= key)
    ensures CommonPrefixLen(path, key) < |path|
  {
    var cp := CommonPrefixLen(path, key);
    assert path == path[..|path|];
  }

  /** Insertion is map update. */
  lemma {:induction false} GetInsert(t: Node, key: Path, value: Bytes, q: Path)
    ensures Get(Insert(t, key, value), q) == if q == key then Some(value) else Get(t, q)
    decreases t
  {
    match t {
      case Empty =>
      case Leaf(path, prior) =>
        if path != key {
          GetInsertLeaf(path, prior, key, value, q);
        }
      case Extension(path, next) =>
        if path <= key {
          if path <= q {
            GetInsert(next, key[|path|..], value, q[|path|..]);
            SplitAt(q, |path|);
            SplitAt(key, |path|);
          }
        } else {
          var cp := CommonPrefixLen(path, key);
          NotPrefix(path, key);
          GetUnder(path[..cp], SplitExtension(path, next, key, value, cp), q);
          GetSplitExtension(path, next, key, value, q);
        }
      case Branch(children, prior) =>
        if key != [] && q != [] {
          assert q == key <==> q[0] == key[0] && q[1..] == key[1..];
          if q[0] == key[0] && key[0] in children {
            GetInsert(children[key[0]], key[1..], value, q[1..]);
          }
        }
    }
  }

  // ---------------------------------------------------------- canonical form

  /** Occupants of a branch: its children and its own value. */
  function Occupants(children: map<Nibble, Node>, here: Option<Bytes>): nat {
    |children| + (if here.Some? then 1 else 0)
  }

  /** No extension over a leaf or an extension, no empty path in an extension, no branch with
      fewer than two occupants, no empty node below the root. */
  ghost predicate Canon(t: Node) {
    match t
    case Empty => false
    case Leaf(_, _) => true
    case Extension(path, next) => path != [] && next.Branch? && Canon(next)
    case Branch(children, here) =>
      Occupants(children, here) >= 2 && forall n :: n in children ==> Canon(children[n])
  }

  ghost predicate Canonical(t: Node) {
    t == Empty || Canon(t)
  }

  lemma SplitCanon(a: Path, aVal: Bytes, b: Path, bVal: Bytes)
    requires a != b && (a != [] && b != [] ==> a[0] != b[0])
    ensures SplitToBranch(a, aVal, b, bVal).Branch? && Canon(SplitToBranch(a, aVal, b, bVal))
  {
    var none: map<Nibble, Node> := map[];
    if a != [] && b != [] {
      var children := none[a[0] := Leaf(a[1..], aVal)][b[0] := Leaf(b[1..], bVal)];
      assert children.Keys == {a[0], b[0]};
      assert |children| == 2;
    }
  }

  lemma SplitExtensionCanon(path: Path, next: Node, key: Path, value: Bytes, cp: nat)
    requires cp < |path| && cp <= |key| && (cp < |key| ==> path[cp] != key[cp])
    requires next.Branch? && Canon(next)
    ensures Canon(SplitExtension(path, next, key, value, cp))
  {
    var none: map<Nibble, Node> := map[];
    var one := none[path[cp] := Under(path[cp + 1..], next)];
    if cp < |key| {
      var two := one[key[cp] := Leaf(key[cp + 1..], value)];
      assert two.Keys == {path[cp], key[cp]};
      assert |two| == 2;
    } else {
      assert |one| == 1;
    }
  }

  lemma UpdateKeepsOccupants(children: map<Nibble, Node>, n: Nibble, t: Node)
    ensures |children[n := t]| == if n in children then |children| else |children| + 1
  {
    if n in children {
      assert children[n := t].Keys == children.Keys;
    } else {
      assert children[n := t].Keys == children.Keys + {n};
    }
  }

  /** Insertion keeps the canonical form, and a branch stays a branch. */
  lemma {:induction false} InsertCanon(t: Node, key: Path, value: Bytes)
    requires Canonical(t)
    ensures Canon(Insert(t, key, value))
    ensures t.Branch? ==> Insert(t, key, value).Branch?
    decreases t
  {
    match t {
      case Empty =>
      case Leaf(path, prior) =>
        if path != key {
          var cp := CommonPrefixLen(path, key);
          SplitAt(path, cp);
          SplitAt(key, cp);
          SplitCanon(path[cp..], prior, key[cp..], value);
        }
      case Extension(path, next) =>
        if path <= key {
          InsertCanon(next, key[|path|..], value);
        } else {
          NotPrefix(path, key);
          SplitExtensionCanon(path, next, key, value, CommonPrefixLen(path, key));
        }
      case Branch(children, here) =>
        if key != [] {
          var child := if key[0] in children then Insert(children[key[0]], key[1..], value) else Leaf(key[1..], value);
          if key[0] in children {
            InsertCanon(children[key[0]], key[1..], value);
          }
          UpdateKeepsOccupants(children, key[0], child);
        }
    }
  }

  lemma CollapseCanon(children: map<Nibble, Node>, value: Option<Bytes>)
    requires Occupants(children, value) >= 1
    requires forall n :: n in children ==> Canon(children[n])
    ensures CollapseBranch(children, value).Some? && Canon(CollapseBranch(children, value).value)
  {
  }

  /** Removal keeps the canonical form; a branch never vanishes. */
  lemma {:induction false} RemoveCanon(t: Node, key: Path)
    requires Canon(t)
    ensures Remove(t, key).Some? ==> Canon(Remove(t, key).value)
    ensures t.Branch? ==> Remove(t, key).Some?
    decreases t
  {
    match t {
      case Leaf(_, _) =>
      case Extension(path, next) =>
        if path <= key {
          RemoveCanon(next, key[|path|..]);
        }
      case Branch(children, value) =>
        if key == [] {
          if value.Some? {
            CollapseCanon(children, None);
          }
        } else if key[0] in children {
          var n := key[0];
          RemoveCanon(children[n], key[1..]);
          var r := Remove(children[n], key[1..]);
          if r == None {
            assert (children - {n}).Keys == children.Keys - {n};
            CollapseCanon(children - {n}, value);
          } else {
            UpdateKeepsOccupants(children, n, r.value);
          }
        }
    }
  }

  lemma DeleteCanonical(t: Node, key: Path)
    requires Canonical(t)
    ensures Canonical(Delete(t, key))
  {
    if Canon(t) {
      RemoveCanon(t, key);
    }
  }

  // ------------------------------------------------------- removal is correct

  lemma GetPrefixChild(n: Nibble, child: Node, q: Path)
    ensures Get(PrefixChild(n, child), q) == if q != [] && q[0] == n then Get(child, q[1..]) else None
  {
    if q != [] {
      assert q == [q[0]] + q[1..];
      match child {
        case Leaf(path, _) => assert [n] + path == q <==> q[0] == n && path == q[1..];
        case Extension(path, _) =>
          assert [n] + path <= q <==> q[0] == n && path <= q[1..];
          assert [n] + path <= q ==> q[|path| + 1..] == q[1..][|path|..];
        case _ =>
      }
    }
  }

  lemma GetNormalize(path: Path, next: Node, q: Path)
    ensures Get(NormalizeExtension(path, next), q) == if path <= q then Get(next, q[|path|..]) else None
  {
    match next {
      case Leaf(p, _) => assert path <= q ==> (path + p == q <==> p == q[|path|..]);
      case Extension(p, _) =>
        assert path <= q ==> (path + p <= q <==> p <= q[|path|..]);
        assert path + p <= q ==> q[|path + p|..] == q[|path|..][|p|..];
      case _ =>
    }
  }

  lemma GetCollapse(children: map<Nibble, Node>, value: Option<Bytes>, q: Path)
    ensures Get(OrEmpty(CollapseBranch(children, value)), q) == Get(Branch(children, value), q)
  {
    if |children| == 1 && value == None {
      OnlyKey(children);
      var n :| n in children;
      GetPrefixChild(n, children[n], q);
    }
  }

  /** Removal deletes the key and nothing else. */
  lemma {:induction false} GetRemove(t: Node, key: Path, q: Path)
    ensures Get(OrEmpty(Remove(t, key)), q) == if q == key then None else Get(t, q)
    decreases t
  {
    match t {
      case Empty =>
      case Leaf(_, _) =>
      case Extension(path, next) =>
        if path <= key {
          var r := Remove(next, key[|path|..]);
          SplitAt(key, |path|);
          if path <= q {
            GetRemove(next, key[|path|..], q[|path|..]);
            SplitAt(q, |path|);
          }
          if r.Some? {
            GetNormalize(path, r.value, q);
          }
        }
      case Branch(children, value) =>
        if key == [] {
          if value.Some? {
            GetCollapse(children, None, q);
          }
        } else if key[0] in children {
          var n := key[0];
          var r := Remove(children[n], key[1..]);
          if q != [] {
            assert q == key <==> q[0] == n && q[1..] == key[1..];
            GetRemove(children[n], key[1..], q[1..]);
          }
          if r == None {
            GetCollapse(children - {n}, value, q);
          }
        }
    }
  }

  lemma GetDelete(t: Node, key: Path, q: Path)
    ensures Get(Delete(t, key), q) == if q == key then None else Get(t, q)
  {
    GetRemove(t, key, q);
  }

  // --------------------------------------------------------------- uniqueness

  /** Every canonical node holds some key. */
  lemma {:induction false} SomeKey(t: Node) returns (k: Path)
    requires Canon(t)
    ensures Get(t, k).Some?
    decreases t
  {
    match t {
      case Leaf(path, _) => k := path;
      case Extension(path, next) =>
        var rest := SomeKey(next);
        k := path + rest;
        assert k[|path|..] == rest;
      case Branch(children, here) =>
        if here.Some? {
          k := [];
        } else {
          var n :| n in children;
          var rest := SomeKey(children[n]);
          k := [n] + rest;
          assert k[1..] == rest;
        }
    }
  }

  /** The first nibble of a key, if it has one. */
  function Head(k: Path): Option<Nibble> {
    if k == [] then None else Some(k[0])
  }

  /** A canonical branch holds two keys that part at once. */
  lemma TwoKeys(t: Node) returns (a: Path, b: Path)
    requires t.Branch? && Canon(t)
    ensures Get(t, a).Some? && Get(t, b).Some? && Head(a) != Head(b)
  {
    var children := t.children;
    var n :| n in children;
    var rest := SomeKey(children[n]);
    a := [n] + rest;
    assert a[1..] == rest;
    if t.here.Some? {
      b := [];
    } else {
      assert |children.Keys - {n}| >= 1;
      var m :| m in children.Keys - {n};
      var rest' := SomeKey(children[m]);
      b := [m] + rest';
      assert b[1..] == rest';
    }
  }

  ghost predicate SameKeys(s: Node, t: Node) {
    forall k :: Get(s, k) == Get(t, k)
  }

  /** All keys of an extension start with its path. */
  lemma UnderPath(t: Node, k: Path)
    requires t.Extension? && Get(t, k).Some?
    ensures t.path <= k
  {
  }

  /** A canonical branch holds a key that does not start with a given nibble. */
  lemma KeyElsewhere(t: Node, n: Nibble) returns (k: Path)
    requires t.Branch? && Canon(t)
    ensures Get(t, k).Some? && Head(k) != Some(n)
  {
    var a, b := TwoKeys(t);
    k := if Head(a) != Some(n) then a else b;
  }

  lemma BranchVsExtension(s: Node, t: Node)
    requires s.Branch? && Canon(s) && t.Extension? && Canon(t)
    ensures !SameKeys(s, t)
  {
    var k := KeyElsewhere(s, t.path[0]);
    assert !(t.path <= k);
    assert Get(s, k) != Get(t, k);
  }

  lemma BranchVsLeaf(s: Node, t: Node)
    requires s.Branch? && Canon(s) && t.Leaf?
    ensures !SameKeys(s, t)
  {
    var a, b := TwoKeys(s);
    assert Get(s, a) != Get(t, a) || Get(s, b) != Get(t, b);
  }

  lemma ExtensionVsLeaf(s: Node, t: Node)
    requires s.Extension? && Canon(s) && t.Leaf?
    ensures !SameKeys(s, t)
  {
    var a, b := TwoKeys(s.next);
    var p, q := s.path + a, s.path + b;
    assert p[|s.path|..] == a && q[|s.path|..] == b;
    assert Get(s, p) != Get(t, p) || Get(s, q) != Get(t, q);
  }

  /** Extensions of different lengths differ: the branch below the shorter one holds a key that
      leaves the longer one. */
  lemma LongerExtension(s: Node, t: Node)
    requires s.Extension? && Canon(s) && t.Extension? && Canon(t) && |s.path| < |t.path|
    ensures !SameKeys(s, t)
  {
    var k := KeyElsewhere(s.next, t.path[|s.path|]);
    var full := s.path + k;
    assert full[|s.path|..] == k;
    assert k != [] ==> full[|s.path|] == k[0];
    assert !(t.path <= full);
    assert Get(s, full) != Get(t, full);
  }

  lemma ExtensionPathsEqual(s: Node, t: Node)
    requires s.Extension? && Canon(s) && t.Extension? && Canon(t) && SameKeys(s, t)
    ensures s.path == t.path && SameKeys(s.next, t.next)
  {
    if |s.path| < |t.path| {
      LongerExtension(s, t);
    } else if |t.path| < |s.path| {
      LongerExtension(t, s);
    }
    var k := SomeKey(s);
    UnderPath(s, k);
    UnderPath(t, k);
    assert s.path == t.path;
    forall k ensures Get(s.next, k) == Get(t.next, k) {
      var full := s.path + k;
      assert full[|s.path|..] == k;
      assert Get(s, full) == Get(t, full);
    }
  }

  lemma BranchParts(s: Node, t: Node)
    requires s.Branch? && Canon(s) && t.Branch? && Canon(t) && SameKeys(s, t)
    ensures s.here == t.here && s.children.Keys == t.children.Keys
    ensures forall n :: n in s.children ==> SameKeys(s.children[n], t.children[n])
  {
    assert Get(s, []) == Get(t, []);
    BranchKeysWithin(s, t);
    BranchKeysWithin(t, s);
    forall n, k | n in s.children ensures Get(s.children[n], k) == Get(t.children[n], k) {
      assert ([n] + k)[1..] == k;
      assert Get(s, [n] + k) == Get(t, [n] + k);
    }
  }

  lemma BranchKeysWithin(s: Node, t: Node)
    requires s.Branch? && Canon(s) && t.Branch? && SameKeys(s, t)
    ensures s.children.Keys <= t.children.Keys
  {
    forall n | n in s.children ensures n in t.children {
      var rest := SomeKey(s.children[n]);
      assert ([n] + rest)[1..] == rest;
      assert Get(s, [n] + rest).Some?;
      assert Get(t, [n] + rest).Some?;
    }
  }

  /** A set of bindings has exactly one canonical trie. */
  lemma {:induction false} CanonUnique(s: Node, t: Node)
    requires Canonical(s) && Canonical(t) && SameKeys(s, t)
    ensures s == t
    decreases s
  {
    if s == Empty || t == Empty {
      if s != t {
        var k := SomeKey(if s == Empty then t else s);
      }
    } else if s.Leaf? && t.Leaf? {
      assert Get(s, s.path) == Get(t, s.path);
    } else if s.Extension? && t.Extension? {
      ExtensionPathsEqual(s, t);
      CanonUnique(s.next, t.next);
    } else if s.Branch? && t.Branch? {
      BranchParts(s, t);
      forall n | n in s.children ensures s.children[n] == t.children[n] {
        CanonUnique(s.children[n], t.children[n]);
      }
      assert s.children == t.children;
    } else if s.Branch? {
      if t.Leaf? { BranchVsLeaf(s, t); } else { BranchVsExtension(s, t); }
    } else if t.Branch? {
      if s.Leaf? { BranchVsLeaf(t, s); } else { BranchVsExtension(t, s); }
    } else if s.Extension? {
      ExtensionVsLeaf(s, t);
    } else {
      ExtensionVsLeaf(t, s);
    }
  }
}
