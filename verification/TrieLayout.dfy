/** Where nibbles, path flags and node fields stand in the bytes of the trie, said apart from the writers
    and readers (`crates/state/src/mpt/{path,node}.rs`). */
module TrieLayout {
  import opened Common
  import opened Codec
  import opened Trie
  import opened HexPrefix
  import opened TrieStore
  import opened NodeCodec
  import opened Layout

  /** The high nibble of every byte comes first. */
  lemma {:induction false} NibblesAt(key: Bytes, i: nat)
    requires i < |key|
    ensures ToNibbles(key)[2 * i] == key[i] / 16 && ToNibbles(key)[2 * i + 1] == key[i] % 16
  {
    if i > 0 {
      NibblesAt(key[1..], i - 1);
      assert ToNibbles(key)[2..] == ToNibbles(key[1..]);
      assert ToNibbles(key)[2 * i] == ToNibbles(key)[2..][2 * (i - 1)];
      assert ToNibbles(key)[2 * i + 1] == ToNibbles(key)[2..][2 * (i - 1) + 1];
    }
  }

  /** A packed path. The high half of the first byte holds the flags, 2 for a leaf and 1 for an odd path; the
      low half is the first nibble of an odd path. The other nibbles come two to a byte. */
  ghost predicate PathBytes(p: Path, leaf: bool, b: Bytes) {
    var odd := |p| % 2;
    && |b| == 1 + |p| / 2
    && b[0] / 16 == (if leaf then 2 else 0) + odd && b[0] % 16 == (if odd == 1 then p[0] else 0)
    && forall i :: 0 <= i < |p| / 2 ==> b[1 + i] / 16 == p[odd + 2 * i] && b[1 + i] % 16 == p[odd + 2 * i + 1]
  }

  lemma FlagByteIff(p: Path, leaf: bool, b: u8)
    ensures b == FirstByte(p, leaf)
            <==> b / 16 == (if leaf then 2 else 0) + |p| % 2 && b % 16 == (if |p| % 2 == 1 then p[0] else 0)
  {
  }

  lemma PathBytesIff(p: Path, leaf: bool, b: Bytes)
    ensures Packs(p, leaf, b) <==> PathBytes(p, leaf, b)
  {
    hide ToNibbles;
    hide FirstByte;
    if b != [] {
      FlagByteIff(p, leaf, b[0]);
      var odd, tail := |p| % 2, b[1..];
      var rest := p[odd..];
      if |b| == 1 + |p| / 2 {
        NibblesDecide(tail, rest);
        assert forall i :: 0 <= i < |tail| ==>
          tail[i] == b[1 + i] && rest[2 * i] == p[odd + 2 * i] && rest[2 * i + 1] == p[odd + 2 * i + 1];
      } else {
        assert |ToNibbles(tail)| == 2 * |tail|;
      }
    }
  }

  /** Bytes and nibbles agree exactly when they agree pair by pair. */
  lemma NibblesDecide(b: Bytes, p: Path)
    requires |p| == 2 * |b|
    ensures ToNibbles(b) == p <==> forall i :: 0 <= i < |b| ==> b[i] / 16 == p[2 * i] && b[i] % 16 == p[2 * i + 1]
  {
    hide ToNibbles;
    var q := ToNibbles(b);
    forall i | 0 <= i < |b| ensures q[2 * i] == b[i] / 16 && q[2 * i + 1] == b[i] % 16 {
      NibblesAt(b, i);
    }
    if forall i :: 0 <= i < |b| ==> b[i] / 16 == p[2 * i] && b[i] % 16 == p[2 * i + 1] {
      forall j | 0 <= j < |q| ensures q[j] == p[j] {
        var i := j / 2;
        assert b[i] / 16 == p[2 * i];
        assert j == 2 * i || j == 2 * i + 1;
      }
    }
  }

  // ------------------------------------------------------------------- nodes

  ghost function Flat(parts: seq<Bytes>): Bytes {
    if parts == [] then [] else parts[0] + Flat(parts[1..])
  }

  /** A child slot: 0, or 1 and the hash. */
  ghost predicate SlotBytes(h: Option<Hash>, b: Bytes) {
    match h
    case None => b == [0]
    case Some(h) => |b| == 33 && b[0] == 1 && h >= 0 && BigEndian(b[1..], h)
  }

  /** Bytes behind their length. */
  ghost predicate CountedBytes(x: Bytes, b: Bytes) {
    |b| == 4 + |x| && BigEndian(b[..4], |x|) && b[4..] == x
  }

  /** A value slot: 0, or 1 and the value behind its length. */
  ghost predicate ValueBytes(here: Option<Bytes>, b: Bytes) {
    match here
    case None => b == [0]
    case Some(v) => b != [] && b[0] == 1 && CountedBytes(v, b[1..])
  }

  /** The fields of a node, one after the other: the tag byte; for a leaf the path and the value, for an
      extension the path and the hash of the next node, for a branch sixteen slots in order and the value. */
  ghost predicate NodeFields(r: Record, parts: seq<Bytes>) {
    match r
    case EmptyRec => parts == [[0]]
    case LeafRec(path, value) =>
      && |parts| == 3 && parts[0] == [1] && CountedBytes(value, parts[2])
      && exists packed :: PathBytes(path, true, packed) && CountedBytes(packed, parts[1])
    case ExtensionRec(path, next) =>
      && |parts| == 3 && parts[0] == [2] && |parts[2]| == 32 && next >= 0 && BigEndian(parts[2], next)
      && exists packed :: PathBytes(path, false, packed) && CountedBytes(packed, parts[1])
    case BranchRec(children, here) =>
      && |parts| == 18 && parts[0] == [3] && ValueBytes(here, parts[17])
      && forall n: Nibble :: SlotBytes(At(children, n), parts[1 + n])
  }

  lemma CountedIff(x: Bytes, b: Bytes)
    requires |x| <= U32_MAX
    ensures CountedBytes(x, b) <==> b == Counted(x)
  {
    hide Word;
    hide BigEndian;
    if |b| == 4 + |x| {
      WordSlice(|x|, 4, b, 0, 4);
      assert b[..4] == b[0..4] && b == b[..4] + b[4..];
      assert Counted(x)[..4] == Word(|x|, 4) && Counted(x)[4..] == x;
    }
  }

  lemma SlotIff(h: Option<Hash>, b: Bytes)
    requires h.Some? ==> IsDigest(h.value)
    ensures SlotBytes(h, b) <==> b == WriteSlot(h)
  {
    hide Word;
    hide BigEndian;
    hide Pow256;
    if h.Some? && |b| == 33 {
      WordIff(h.value, b[1..]);
      assert b == [b[0]] + b[1..];
      assert WriteSlot(h)[0] == 1 && WriteSlot(h)[1..] == WriteHash(h.value);
    }
  }

  lemma ValueIff(here: Option<Bytes>, b: Bytes)
    requires here.Some? ==> |here.value| <= U32_MAX
    ensures ValueBytes(here, b) <==> b == WriteValue(here)
  {
    hide CountedBytes;
    hide Counted;
    if here.Some? && b != [] {
      CountedIff(here.value, b[1..]);
      assert b == [b[0]] + b[1..];
      assert WriteValue(here)[0] == 1 && WriteValue(here)[1..] == Counted(here.value);
    }
  }

  /** A packed path behind its length. */
  lemma CountedPathIff(p: Path, leaf: bool, b: Bytes)
    requires PathFits(p)
    ensures (exists packed :: PathBytes(p, leaf, packed) && CountedBytes(packed, b)) <==> b == Counted(Packed(p, leaf))
  {
    hide PathBytes;
    hide CountedBytes;
    hide Counted;
    hide Packed;
    hide Packs;
    forall packed ensures PathBytes(p, leaf, packed) <==> packed == Packed(p, leaf) {
      PathBytesIff(p, leaf, packed);
      if Packs(p, leaf, packed) {
        PacksIsPacked(p, leaf, packed);
      }
    }
    CountedIff(Packed(p, leaf), b);
  }

  lemma {:induction false} FlatConcat(a: seq<Bytes>, z: seq<Bytes>)
    ensures Flat(a + z) == Flat(a) + Flat(z)
  {
    if a == [] {
      assert a + z == z;
    } else {
      FlatConcat(a[1..], z);
      assert (a + z)[1..] == a[1..] + z;
      assert a[0] + (Flat(a[1..]) + Flat(z)) == a[0] + Flat(a[1..]) + Flat(z);
    }
  }

  lemma FlatThree(a: Bytes, b: Bytes, c: Bytes)
    ensures Flat([a, b, c]) == a + (b + c)
  {
    assert [a, b, c][1..] == [b, c] && [b, c][1..] == [c] && [c][1..] == [];
    assert Flat([c]) == c && Flat([b, c]) == b + c;
  }

  lemma {:induction false} FlatSlots(children: map<Nibble, Hash>, n: nat, slots: seq<Bytes>)
    requires n <= 16 && |slots| == 16 - n
    requires forall i :: 0 <= i < |slots| ==> slots[i] == WriteSlot(At(children, n + i))
    ensures Flat(slots) == WriteSlots(children, n)
    decreases 16 - n
  {
    hide WriteSlot;
    hide WriteSlots;
    SlotsFrom(children, n);
    if n < 16 {
      FlatSlots(children, n + 1, slots[1..]);
    }
  }

  lemma BranchFlat(children: map<Nibble, Hash>, here: Option<Bytes>, parts: seq<Bytes>)
    requires |parts| == 18 && parts[0] == [3] && parts[17] == WriteValue(here)
    requires forall n: Nibble :: parts[1 + n] == WriteSlot(At(children, n))
    ensures Flat(parts) == Write(BranchRec(children, here))
  {
    hide WriteSlot;
    hide WriteSlots;
    hide WriteValue;
    var slots := parts[1..17];
    forall i | 0 <= i < 16 ensures slots[i] == WriteSlot(At(children, 0 + i)) {
      var n: Nibble := i;
      assert parts[1 + n] == WriteSlot(At(children, n));
    }
    FlatSlots(children, 0, slots);
    assert parts == [parts[0]] + (slots + [parts[17]]) && parts[1..] == slots + [parts[17]];
    FlatConcat(slots, [parts[17]]);
    FlatOne(parts[17]);
  }

  /** A list of fields fits a record exactly when each is what the writer writes there. */
  lemma FieldsFlat(r: Record, parts: seq<Bytes>)
    requires Fits(r) && NodeFields(r, parts)
    ensures Flat(parts) == Write(r)
  {
    hide SlotBytes;
    hide ValueBytes;
    hide CountedBytes;
    hide PathBytes;
    hide IsDigest;
    hide Counted;
    hide Packed;
    hide WriteSlots;
    hide WriteSlot;
    hide WriteValue;
    hide Flat;
    match r {
      case EmptyRec => FlatOne([0]);
      case LeafRec(path, value) =>
        CountedPathIff(path, true, parts[1]);
        CountedIff(value, parts[2]);
        FlatThree(parts[0], parts[1], parts[2]);
        assert parts == [parts[0], parts[1], parts[2]];
      case ExtensionRec(path, next) =>
        CountedPathIff(path, false, parts[1]);
        WordIff(next, parts[2]);
        FlatThree(parts[0], parts[1], parts[2]);
        assert parts == [parts[0], parts[1], parts[2]];
      case BranchRec(children, here) =>
        ValueIff(here, parts[17]);
        forall n: Nibble ensures parts[1 + n] == WriteSlot(At(children, n)) {
          SlotIff(At(children, n), parts[1 + n]);
        }
        BranchFlat(children, here, parts);
    }
  }

  lemma FlatOne(a: Bytes)
    ensures Flat([a]) == a
  {
    assert [a][1..] == [];
  }

  lemma FieldsExist(r: Record) returns (parts: seq<Bytes>)
    requires Fits(r)
    ensures NodeFields(r, parts)
  {
    hide SlotBytes;
    hide ValueBytes;
    hide CountedBytes;
    hide PathBytes;
    hide IsDigest;
    hide Counted;
    hide Packed;
    hide WriteSlot;
    hide WriteValue;
    hide BigEndian;
    match r {
      case EmptyRec => parts := [[0]];
      case LeafRec(path, value) =>
        parts := [[1], Counted(Packed(path, true)), Counted(value)];
        CountedPathIff(path, true, parts[1]);
        CountedIff(value, parts[2]);
      case ExtensionRec(path, next) =>
        parts := [[2], Counted(Packed(path, false)), WriteHash(next)];
        CountedPathIff(path, false, parts[1]);
        HashIs(next);
      case BranchRec(children, here) =>
        var slots := seq(16, n requires 0 <= n < 16 => WriteSlot(At(children, n)));
        parts := [[3]] + slots + [WriteValue(here)];
        ValueIff(here, parts[17]);
        forall n: Nibble ensures SlotBytes(At(children, n), parts[1 + n]) {
          assert parts[1 + n] == slots[n];
          SlotIff(At(children, n), parts[1 + n]);
        }
    }
  }

  lemma HashIs(h: Hash)
    requires IsDigest(h)
    ensures h >= 0 && BigEndian(WriteHash(h), h)
  {
    hide Word;
    WordIff(h, WriteHash(h));
  }

  /** The bytes of a node are its fields in this order, and no other bytes are. */
  lemma NodeBytesIff(r: Record, b: Bytes)
    requires Fits(r)
    ensures b == Write(r) <==> exists parts :: NodeFields(r, parts) && b == Flat(parts)
  {
    hide NodeFields;
    hide Write;
    hide Fits;
    forall parts | NodeFields(r, parts) ensures Flat(parts) == Write(r) {
      FieldsFlat(r, parts);
    }
    var parts := FieldsExist(r);
  }
}
