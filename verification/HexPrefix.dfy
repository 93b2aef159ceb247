/** Hex-prefix packing of nibble paths (`crates/state/src/mpt/path.rs`; Appendix C of the
    Ethereum Yellow Paper). */
module HexPrefix {
  import opened Common
  import opened Codec
  import opened Trie

  const LEAF_FLAG: u8 := 0x20
  const ODD_FLAG: u8 := 0x10

  predicate HasLeafFlag(b: u8) { b / LEAF_FLAG % 2 == 1 }

  predicate HasOddFlag(b: u8) { b / ODD_FLAG % 2 == 1 }

  function FirstByte(p: Path, leaf: bool): u8 {
    (if leaf then LEAF_FLAG else 0) + if |p| % 2 == 1 then ODD_FLAG + p[0] else 0
  }

  function Joined(high: int, low: int): (b: u8)
    requires 0 <= high < 16 && 0 <= low < 16
    ensures b / 16 == high && b % 16 == low
  {
    high * 16 + low
  }

  /** `pack_hex_prefix`: the flag byte, then the remaining nibbles two to a byte. */
  method Pack(p: Path, leaf: bool) returns (b: Bytes)
    ensures |b| == 1 + |p| / 2 && b[0] == FirstByte(p, leaf)
    ensures ToNibbles(b[1..]) == p[|p| % 2..]
  {
    hide FirstByte;
    b := [FirstByte(p, leaf)];
    assert ToNibbles(b[1..]) == [];
    hide ToNibbles;
    var i := |p| % 2;
    while i < |p|
      invariant |p| % 2 <= i <= |p| && (|p| - i) % 2 == 0
      invariant |b| == 1 + i / 2 && b[0] == FirstByte(p, leaf)
      invariant ToNibbles(b[1..]) == p[|p| % 2..i]
    {
      PackStep(p, b, i);
      b := b + [Joined(p[i], p[i + 1])];
      i := i + 2;
    }
    assert p[|p| % 2..i] == p[|p| % 2..];
  }

  lemma PackStep(p: Path, b: Bytes, i: nat)
    requires b != [] && |p| % 2 <= i < |p| - 1 && ToNibbles(b[1..]) == p[|p| % 2..i]
    ensures ToNibbles((b + [Joined(p[i], p[i + 1])])[1..]) == p[|p| % 2..i + 2]
  {
    hide ToNibbles;
    hide Joined;
    var s, byte := |p| % 2, Joined(p[i], p[i + 1]);
    ToNibblesAppend(b[1..], byte);
    assert (b + [byte])[1..] == b[1..] + [byte];
    assert p[s..i + 2] == p[s..i] + [p[i], p[i + 1]];
  }

  /** What a packed path stands for. */
  function Unpacked(b: Bytes): Decoded<(Path, bool)> {
    if b == [] then Err(BadLength(1, 0))
    else Ok(((if HasOddFlag(b[0]) then [b[0] % 16] else []) + ToNibbles(b[1..]), HasLeafFlag(b[0])))
  }

  /** `unpack_hex_prefix`. */
  method Unpack(b: Bytes) returns (r: Decoded<(Path, bool)>)
    ensures r == Unpacked(b)
  {
    hide HasOddFlag;
    hide HasLeafFlag;
    assert ToNibbles([]) == [];
    hide ToNibbles;
    if b == [] {
      return Err(BadLength(1, 0));
    }
    var nibbles: Path := if HasOddFlag(b[0]) then [b[0] % 16] else [];
    ghost var head := nibbles;
    var rest := b[1..];
    for i := 0 to |rest|
      invariant nibbles == head + ToNibbles(rest[..i])
    {
      ToNibblesStep(rest, i);
      nibbles := nibbles + [rest[i] / 16, rest[i] % 16];
    }
    assert rest[..|rest|] == rest;
    r := Ok((nibbles, HasLeafFlag(b[0])));
  }

  lemma ToNibblesStep(b: Bytes, i: nat)
    requires i < |b|
    ensures ToNibbles(b[..i + 1]) == ToNibbles(b[..i]) + [b[i] / 16, b[i] % 16]
  {
    ToNibblesAppend(b[..i], b[i]);
    assert b[..i + 1] == b[..i] + [b[i]];
  }

  /** Bytes that `pack_hex_prefix` can produce: the top two bits are clear, and so is the low nibble
      of the flag byte of an even path. */
  predicate Clean(b: Bytes) {
    b != [] && b[0] < 64 && (!HasOddFlag(b[0]) ==> b[0] % 16 == 0)
  }

  /** The two conditions `Pack` guarantees pin its result down to one byte string. */
  ghost predicate Packs(p: Path, leaf: bool, b: Bytes) {
    |b| > 0 && b[0] == FirstByte(p, leaf) && ToNibbles(b[1..]) == p[|p| % 2..]
  }

  /** A clean byte string is the packing of exactly the path it unpacks to. */
  lemma PackedIff(p: Path, leaf: bool, b: Bytes)
    ensures Packs(p, leaf, b) <==> Clean(b) && Unpacked(b) == Ok((p, leaf))
  {
    hide ToNibbles;
    hide Packs;
    hide Clean;
    if Packs(p, leaf, b) {
      PackedUnpacks(p, leaf, b);
    }
    if Clean(b) && Unpacked(b) == Ok((p, leaf)) {
      CleanPacks(p, leaf, b);
    }
  }

  lemma PackedUnpacks(p: Path, leaf: bool, b: Bytes)
    requires Packs(p, leaf, b)
    ensures Clean(b) && Unpacked(b) == Ok((p, leaf))
  {
    hide ToNibbles;
    var odd := |p| % 2;
    assert p == p[..odd] + p[odd..];
    if odd == 1 {
      assert p[..1] == [p[0]];
    } else {
      assert p[..0] == [];
    }
  }

  lemma CleanPacks(p: Path, leaf: bool, b: Bytes)
    requires Clean(b) && Unpacked(b) == Ok((p, leaf))
    ensures Packs(p, leaf, b)
  {
    hide ToNibbles;
    var head: Path := if HasOddFlag(b[0]) then [b[0] % 16] else [];
    assert p == head + ToNibbles(b[1..]) && |p| % 2 == |head|;
    assert p[|head|..] == ToNibbles(b[1..]);
    FlagsDecide(b[0], leaf);
  }

  lemma FlagsDecide(b: u8, leaf: bool)
    requires b < 64 && leaf == HasLeafFlag(b)
    ensures b == (if leaf then LEAF_FLAG else 0) + (if HasOddFlag(b) then ODD_FLAG else 0) + b % 16
  {
  }

  /** Packing and then unpacking is the identity, for every nibble list. */
  method RoundTrip(p: Path, leaf: bool) returns (r: Decoded<(Path, bool)>)
    ensures r == Ok((p, leaf))
  {
    var b := Pack(p, leaf);
    PackedIff(p, leaf, b);
    r := Unpack(b);
  }

  /** Unpacking and then packing again gives the bytes back exactly when they are clean. */
  method Repack(b: Bytes) returns (same: bool)
    requires b != []
    ensures same <==> Clean(b)
  {
    var r := Unpack(b);
    var again := Pack(r.value.0, r.value.1);
    PackedIff(r.value.0, r.value.1, again);
    PackedIff(r.value.0, r.value.1, b);
    same := again == b;
    if Clean(b) {
      ToNibblesInjective(again[1..], b[1..]);
      assert b == [b[0]] + b[1..] && again == [again[0]] + again[1..];
    }
  }

  /** The stored form of a path: `decode_path` reads back what `encode_path` wrote exactly when the
      packed path fits the envelope. */
  method StoredPath(p: Path, leaf: bool) returns (r: Decoded<(Path, bool)>)
    ensures r == Ok((p, leaf)) <==> 1 + |p| / 2 <= U32_MAX
  {
    hide Wrap;
    hide Unwrap;
    var b := Pack(p, leaf);
    PackedIff(p, leaf, b);
    var body := Unwrap(Wrap(b));
    if body.Err? {
      UnwrapIff(Wrap(b), b);
      return Err(body.error);
    }
    UnwrapIff(Wrap(b), body.value);
    WrapInjective(b, body.value);
    r := Unpack(body.value);
  }

  lemma WrapInjective(a: Bytes, b: Bytes)
    requires Wrap(a) == Wrap(b)
    ensures a == b
  {
    hide Word;
    assert a == Wrap(a)[5..] && b == Wrap(b)[5..];
  }
}
