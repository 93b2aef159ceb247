/** Node payloads of the trie (`crates/state/src/mpt/node.rs`): how a record is written, what reading
    accepts, and exactly which records read back. */
module NodeCodec {
  import opened Common
  import opened Codec
  import opened Trie
  import opened HexPrefix
  import opened TrieStore

  /** A hash that fills the 32 bytes it is written in. */
  predicate IsDigest(h: Hash) {
    0 <= h < Pow256(32)
  }

  type Digest = h: Hash | IsDigest(h) witness 0

  // ----------------------------------------------------------------- writing

  function Pairs(p: Path): (b: Bytes)
    requires |p| % 2 == 0
    ensures |b| == |p| / 2 && ToNibbles(b) == p
  {
    if p == [] then [] else [Joined(p[0], p[1])] + Pairs(p[2..])
  }

  /** The packed form of a path, which `HexPrefix.Pack` computes. */
  function Packed(p: Path, leaf: bool): (b: Bytes)
    ensures |b| == 1 + |p| / 2 && Packs(p, leaf, b)
  {
    var b := [FirstByte(p, leaf)] + Pairs(p[|p| % 2..]);
    assert b[1..] == Pairs(p[|p| % 2..]);
    b
  }

  lemma PacksIsPacked(p: Path, leaf: bool, b: Bytes)
    requires Packs(p, leaf, b)
    ensures b == Packed(p, leaf)
  {
    hide ToNibbles;
    hide FirstByte;
    hide Packed;
    var c := Packed(p, leaf);
    ToNibblesInjective(b[1..], c[1..]);
    assert b == [b[0]] + b[1..] && c == [c[0]] + c[1..];
  }

  /** A length in four bytes, truncated to 32 bits, and the bytes themselves. */
  function Counted(b: Bytes): Bytes { Len32(b) + b }

  function WriteHash(h: Hash): (b: Bytes)
    ensures |b| == 32
  {
    Word(if h < 0 then 0 else h, 32)
  }

  function WriteSlot(h: Option<Hash>): Bytes {
    match h
    case None => [0]
    case Some(h) => [1] + WriteHash(h)
  }

  /** The slots of children `n` to 15. */
  function WriteSlots(children: map<Nibble, Hash>, n: nat): Bytes
    requires n <= 16
    decreases 16 - n, children
  {
    if n == 16 then [] else WriteSlot(At(children, n)) + WriteSlots(children, n + 1)
  }

  function WriteValue(here: Option<Bytes>): Bytes {
    match here
    case None => [0]
    case Some(v) => [1] + Counted(v)
  }

  function Write(r: Record): Bytes {
    match r
    case EmptyRec => [0]
    case LeafRec(path, value) => [1] + (Counted(Packed(path, true)) + Counted(value))
    case ExtensionRec(path, next) => [2] + (Counted(Packed(path, false)) + WriteHash(next))
    case BranchRec(children, here) => [3] + (WriteSlots(children, 0) + WriteValue(here))
  }

  // ----------------------------------------------------------------- reading

  function ReadCounted(b: Bytes): Option<(Bytes, Bytes)> {
    if |b| < 4 || |b| < 4 + Number4(b[..4]) then None
    else Some((b[4..4 + Number4(b[..4])], b[4 + Number4(b[..4])..]))
  }

  function ReadPath(b: Bytes, leaf: bool): Option<(Path, Bytes)> {
    match ReadCounted(b)
    case None => None
    case Some((packed, rest)) =>
      match Unpacked(packed)
      case Err(_) => None
      case Ok((path, flag)) => if flag == leaf then Some((path, rest)) else None
  }

  function ReadLeaf(b: Bytes): Option<Record> {
    match ReadPath(b, true)
    case None => None
    case Some((path, rest)) =>
      match ReadCounted(rest)
      case None => None
      case Some((value, _)) => Some(LeafRec(path, value))
  }

  function ReadExtension(b: Bytes): Option<Record> {
    match ReadPath(b, false)
    case None => None
    case Some((path, rest)) => if |rest| < 32 then None else Some(ExtensionRec(path, Number(rest[..32])))
  }

  /** The children from slot `n` on, and what is left. */
  function ReadSlots(b: Bytes, n: nat): (r: Option<(map<Nibble, Hash>, Bytes)>)
    requires n <= 16
    ensures r.Some? ==> forall k :: k in r.value.0 ==> n <= k
    decreases 16 - n, b
  {
    if n == 16 then Some((map[], b))
    else if b == [] then None
    else if b[0] == 0 then ReadSlots(b[1..], n + 1)
    else if b[0] == 1 && |b| >= 33 then
      match ReadSlots(b[33..], n + 1)
      case None => None
      case Some((children, rest)) => Some((children[n := Number(b[1..33])], rest))
    else None
  }

  function ReadValue(b: Bytes): Option<Option<Bytes>> {
    if b == [] then None
    else if b[0] == 0 then Some(None)
    else if b[0] == 1 then
      match ReadCounted(b[1..])
      case None => None
      case Some((value, _)) => Some(Some(value))
    else None
  }

  function ReadBranch(b: Bytes): Option<Record> {
    match ReadSlots(b, 0)
    case None => None
    case Some((children, rest)) =>
      match ReadValue(rest)
      case None => None
      case Some(here) => Some(BranchRec(children, here))
  }

  /** Whatever follows a complete node is ignored. */
  function Read(b: Bytes): Option<Record> {
    if b == [] then None
    else if b[0] == 0 then Some(EmptyRec)
    else if b[0] == 1 then ReadLeaf(b[1..])
    else if b[0] == 2 then ReadExtension(b[1..])
    else if b[0] == 3 then ReadBranch(b[1..])
    else None
  }

  // ---------------------------------------------------------------- the code

  method PackCounted(p: Path, leaf: bool) returns (b: Bytes)
    ensures b == Counted(Packed(p, leaf))
  {
    hide ToNibbles;
    hide FirstByte;
    hide Packed;
    var packed := Pack(p, leaf);
    PacksIsPacked(p, leaf, packed);
    b := Len32(packed) + packed;
  }

  method SerializeSlots(children: map<Nibble, Hash>) returns (b: Bytes)
    ensures b == WriteSlots(children, 0)
  {
    hide WriteSlots;
    hide WriteSlot;
    b := [];
    for n := 0 to 16
      invariant b + WriteSlots(children, n) == WriteSlots(children, 0)
    {
      SlotsFrom(children, n);
      b := b + WriteSlot(At(children, n));
    }
    SlotsFrom(children, 16);
  }

  lemma SlotsFrom(children: map<Nibble, Hash>, n: nat)
    requires n <= 16
    ensures WriteSlots(children, n) == if n == 16 then [] else WriteSlot(At(children, n)) + WriteSlots(children, n + 1)
  {
    hide WriteSlot;
  }

  /** `serialize_node`. */
  method SerializeNode(r: Record) returns (b: Bytes)
    ensures b == Write(r)
  {
    hide Counted;
    hide Packed;
    hide WriteSlots;
    match r {
      case EmptyRec => b := [0];
      case LeafRec(path, value) =>
        var packed := PackCounted(path, true);
        b := [1] + (packed + Counted(value));
      case ExtensionRec(path, next) =>
        var packed := PackCounted(path, false);
        b := [2] + (packed + WriteHash(next));
      case BranchRec(children, here) =>
        var slots := SerializeSlots(children);
        b := [3] + (slots + WriteValue(here));
    }
  }

  /** `deserialize_node`. */
  method DeserializeNode(b: Bytes) returns (r: Option<Record>)
    ensures r == Read(b)
  {
    if b == [] {
      return None;
    }
    if b[0] != 3 {
      return if b[0] == 0 then Some(EmptyRec) else if b[0] == 1 then ReadLeaf(b[1..])
             else if b[0] == 2 then ReadExtension(b[1..]) else None;
    }
    var rest := b[1..];
    var children: map<Nibble, Hash> := map[];
    NothingReadYet(rest);
    for n := 0 to 16
      invariant Continues(ReadSlots(b[1..], 0), children, rest, n)
    {
      ReadOn(ReadSlots(b[1..], 0), children, rest, n);
      if rest == [] {
        return None;
      }
      if rest[0] == 0 {
        rest := rest[1..];
      } else if rest[0] == 1 && |rest| >= 33 {
        children := children[n := Number(rest[1..33])];
        rest := rest[33..];
      } else {
        return None;
      }
    }
    ReadAll(ReadSlots(b[1..], 0), children, rest);
    var here := ReadValue(rest);
    r := if here.None? then None else Some(BranchRec(children, here.value));
  }

  /** What the loop has read so far, children below `n`, and the rest give what the whole gives. */
  ghost predicate Continues(
    whole: Option<(map<Nibble, Hash>, Bytes)>, children: map<Nibble, Hash>, rest: Bytes, n: nat)
    requires n <= 16
  {
    && (forall k :: k in children ==> k < n)
    && whole == match ReadSlots(rest, n)
                case None => None
                case Some((more, left)) => Some((children + more, left))
  }

  lemma NothingReadYet(b: Bytes)
    ensures Continues(ReadSlots(b, 0), map[], b, 0)
  {
    var r := ReadSlots(b, 0);
    if r.Some? {
      assert map[] + r.value.0 == r.value.0;
    }
  }

  lemma ReadOn(whole: Option<(map<Nibble, Hash>, Bytes)>, children: map<Nibble, Hash>, rest: Bytes, n: nat)
    requires n < 16 && Continues(whole, children, rest, n)
    ensures rest == [] || rest[0] > 1 || (rest[0] == 1 && |rest| < 33) ==> whole == None
    ensures rest != [] && rest[0] == 0 ==> Continues(whole, children, rest[1..], n + 1)
    ensures rest != [] && rest[0] == 1 && |rest| >= 33 ==>
              Continues(whole, children[n := Number(rest[1..33])], rest[33..], n + 1)
  {
    hide Number;
    if rest != [] && rest[0] == 1 && |rest| >= 33 && ReadSlots(rest[33..], n + 1).Some? {
      var more, h := ReadSlots(rest[33..], n + 1).value.0, Number(rest[1..33]);
      assert children + more[n := h] == children[n := h] + more;
    }
  }

  lemma ReadAll(whole: Option<(map<Nibble, Hash>, Bytes)>, children: map<Nibble, Hash>, rest: Bytes)
    requires Continues(whole, children, rest, 16)
    ensures whole == Some((children, rest))
  {
    var none: map<Nibble, Hash> := map[];
    assert children + none == children;
  }

  // -------------------------------------------------------------- reading back

  lemma CountedReads(b: Bytes, more: Bytes)
    ensures var n := |b| % (U32_MAX + 1); ReadCounted(Counted(b) + more) == Some((b[..n], b[n..] + more))
  {
    hide Word;
    hide Number;
    var n, all := |b| % (U32_MAX + 1), Counted(b) + more;
    assert all[..4] == Len32(b) && all == Len32(b) + (b + more);
    Word4Iff(all[..4], n);
    assert all[4..] == b + more;
    assert all[4..4 + n] == b[..n];
    assert all[4 + n..] == b[n..] + more;
  }

  predicate PathFits(p: Path) { 1 + |p| / 2 <= U32_MAX }

  lemma PathReads(p: Path, leaf: bool, more: Bytes)
    ensures var r := ReadPath(Counted(Packed(p, leaf)) + more, leaf);
            if PathFits(p) then r == Some((p, more)) else r.None? || r.value.0 != p
  {
    hide Counted;
    hide ReadCounted;
    hide ToNibbles;
    hide HasOddFlag;
    hide HasLeafFlag;
    hide FirstByte;
    hide Packs;
    hide Packed;
    var packed := Packed(p, leaf);
    var n := |packed| % (U32_MAX + 1);
    CountedReads(packed, more);
    if PathFits(p) {
      assert packed[..n] == packed && packed[n..] + more == more;
      PackedIff(p, leaf, packed);
    } else {
      assert n < |packed| && |packed[..n]| == n;
    }
  }

  lemma HashReads(h: Hash)
    ensures IsDigest(Number(WriteHash(h)))
    ensures Number(WriteHash(h)) == h <==> IsDigest(h)
  {
    hide Word;
    hide Number;
    hide Pow256;
    NumberBound(WriteHash(h));
    if IsDigest(h) {
      NumberWord(h, 32);
    }
  }

  /** The children from slot `n` on as they are read back. */
  function AsRead(children: map<Nibble, Hash>, n: nat): map<Nibble, Hash> {
    map k: Nibble | k in children && n <= k :: Number(WriteHash(children[k]))
  }

  lemma SlotReads(h: Option<Hash>, rest: Bytes, n: nat)
    requires n < 16
    ensures ReadSlots(WriteSlot(h) + rest, n)
         == match ReadSlots(rest, n + 1)
            case None => None
            case Some((children, left)) =>
              Some((if h.None? then children else children[n := Number(WriteHash(h.value))], left))
  {
    hide WriteHash;
    hide Number;
    var all := WriteSlot(h) + rest;
    match h {
      case None => assert all[1..] == rest;
      case Some(h) => assert all[1..33] == WriteHash(h) && all[33..] == rest;
    }
  }

  lemma AsReadFrom(children: map<Nibble, Hash>, n: nat)
    requires n < 16
    ensures var rest := AsRead(children, n + 1);
            AsRead(children, n) == if n in children then rest[n := Number(WriteHash(children[n]))] else rest
  {
    hide WriteHash;
    hide Number;
  }

  lemma {:induction false} SlotsRead(children: map<Nibble, Hash>, n: nat, more: Bytes)
    requires n <= 16
    ensures ReadSlots(WriteSlots(children, n) + more, n) == Some((AsRead(children, n), more))
    decreases 16 - n
  {
    hide WriteHash;
    hide Number;
    hide WriteSlot;
    hide WriteSlots;
    SlotsFrom(children, n);
    if n == 16 {
      assert [] + more == more && AsRead(children, n) == map[];
    } else {
      hide ReadSlots;
      hide AsRead;
      var rest := WriteSlots(children, n + 1) + more;
      SlotsRead(children, n + 1, more);
      assert WriteSlots(children, n) + more == WriteSlot(At(children, n)) + rest;
      SlotReads(At(children, n), rest, n);
      AsReadFrom(children, n);
    }
  }

  lemma ValueReads(here: Option<Bytes>, more: Bytes)
    ensures ReadValue(WriteValue(here) + more) == Some(here) <==> here.Some? ==> |here.value| <= U32_MAX
  {
    hide Counted;
    hide ReadCounted;
    match here {
      case None =>
      case Some(v) =>
        var all := WriteValue(here) + more;
        assert all[1..] == Counted(v) + more;
        CountedReads(v, more);
        if |v| <= U32_MAX {
          assert v[..|v|] == v;
        }
    }
  }

  /** The lengths of a record fit their four bytes, and its hashes their thirty-two. */
  predicate Fits(r: Record) {
    match r
    case EmptyRec => true
    case LeafRec(path, value) => PathFits(path) && |value| <= U32_MAX
    case ExtensionRec(path, next) => PathFits(path) && IsDigest(next)
    case BranchRec(children, here) =>
      (forall k :: k in children ==> IsDigest(children[k])) && (here.Some? ==> |here.value| <= U32_MAX)
  }

  lemma LeafReads(path: Path, value: Bytes, more: Bytes)
    ensures ReadLeaf(Counted(Packed(path, true)) + Counted(value) + more) == Some(LeafRec(path, value))
            <==> PathFits(path) && |value| <= U32_MAX
  {
    hide Counted;
    hide ReadCounted;
    hide ReadPath;
    hide Packed;
    var rest := Counted(value) + more;
    assert Counted(Packed(path, true)) + Counted(value) + more == Counted(Packed(path, true)) + rest;
    PathReads(path, true, rest);
    CountedReads(value, more);
    if |value| <= U32_MAX {
      assert value[..|value|] == value;
    }
  }

  lemma ExtensionReads(path: Path, next: Hash, more: Bytes)
    ensures ReadExtension(Counted(Packed(path, false)) + WriteHash(next) + more) == Some(ExtensionRec(path, next))
            <==> PathFits(path) && IsDigest(next)
  {
    hide Counted;
    hide ReadPath;
    hide Packed;
    hide WriteHash;
    hide Number;
    hide IsDigest;
    var rest := WriteHash(next) + more;
    assert Counted(Packed(path, false)) + WriteHash(next) + more == Counted(Packed(path, false)) + rest;
    PathReads(path, false, rest);
    assert rest[..32] == WriteHash(next);
    HashReads(next);
  }

  lemma BranchReads(children: map<Nibble, Hash>, here: Option<Bytes>, more: Bytes)
    ensures ReadBranch(WriteSlots(children, 0) + WriteValue(here) + more) == Some(BranchRec(children, here))
            <==> Fits(BranchRec(children, here))
  {
    hide ReadSlots;
    hide WriteSlots;
    hide ReadValue;
    hide WriteValue;
    hide WriteHash;
    hide Number;
    hide IsDigest;
    var rest := WriteValue(here) + more;
    assert WriteSlots(children, 0) + WriteValue(here) + more == WriteSlots(children, 0) + rest;
    SlotsRead(children, 0, rest);
    ValueReads(here, more);
    forall k | k in children ensures AsRead(children, 0)[k] == children[k] <==> IsDigest(children[k]) {
      HashReads(children[k]);
    }
    assert AsRead(children, 0) == children <==> forall k :: k in children ==> IsDigest(children[k]);
  }

  /** A record reads back, whatever follows it, exactly when it fits. */
  lemma ReadsBackIff(r: Record, more: Bytes)
    ensures Read(Write(r) + more) == Some(r) <==> Fits(r)
  {
    hide Counted;
    hide Packed;
    hide WriteSlots;
    hide WriteValue;
    hide WriteHash;
    hide IsDigest;
    hide ReadLeaf;
    hide ReadExtension;
    hide ReadBranch;
    match r {
      case EmptyRec =>
      case LeafRec(path, value) =>
        AfterTag(1, Counted(Packed(path, true)) + Counted(value), more);
        LeafReads(path, value, more);
      case ExtensionRec(path, next) =>
        AfterTag(2, Counted(Packed(path, false)) + WriteHash(next), more);
        ExtensionReads(path, next, more);
      case BranchRec(children, here) =>
        AfterTag(3, WriteSlots(children, 0) + WriteValue(here), more);
        BranchReads(children, here, more);
    }
  }

  lemma AfterTag(tag: u8, body: Bytes, more: Bytes)
    ensures ([tag] + body + more)[0] == tag && ([tag] + body + more)[1..] == body + more
  {
  }
}
