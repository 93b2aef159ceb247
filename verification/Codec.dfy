/** The canonical byte formats: envelope, transactions, signed transactions and block bodies
    (`crates/types/src/{encoding,tx}.rs`, `crates/storage/src/codec.rs`). */
module Codec {
  import opened Common
  import opened Staking

  datatype CodecError =
    | Truncated
    | Version(byte: u8)
    | Length(expected: nat, actual: nat)
    | BadLength(expected: nat, actual: nat)
    | UnknownTag

  datatype Decoded<+T> = Ok(value: T) | Err(error: CodecError)

  // -------------------------------------------------------- big-endian words

  function Pow256(w: nat): (p: nat)
    ensures p > 0
  {
    if w == 0 then 1 else 256 * Pow256(w - 1)
  }

  function Word(n: nat, w: nat): (b: Bytes)
    ensures |b| == w
  {
    if w == 0 then [] else Word(n / 256, w - 1) + [n % 256]
  }

  function Number(b: Bytes): nat {
    if b == [] then 0 else 256 * Number(b[..|b| - 1]) + b[|b| - 1]
  }

  lemma {:induction false} NumberBound(b: Bytes)
    ensures Number(b) < Pow256(|b|)
  {
    if b != [] {
      NumberBound(b[..|b| - 1]);
    }
  }

  lemma {:induction false} WordNumber(b: Bytes)
    ensures Word(Number(b), |b|) == b
  {
    if b != [] {
      var init, last := b[..|b| - 1], b[|b| - 1];
      WordNumber(init);
      assert Number(b) / 256 == Number(init) && Number(b) % 256 == last;
    }
  }

  lemma {:induction false} NumberWord(n: nat, w: nat)
    requires n < Pow256(w)
    ensures Number(Word(n, w)) == n
  {
    if w > 0 {
      NumberWord(n / 256, w - 1);
    }
  }

  lemma Widths()
    ensures Pow256(4) == U32_MAX + 1 && Pow256(8) == U64_MAX + 1 && Pow256(16) == U128_MAX + 1
  {
    assert Pow256(4) == U32_MAX + 1;
    assert Pow256(8) == 256 * (256 * (256 * (256 * Pow256(4))));
    assert Pow256(12) == 256 * (256 * (256 * (256 * Pow256(8))));
    assert Pow256(16) == 256 * (256 * (256 * (256 * Pow256(12))));
  }

  function Number4(b: Bytes): (n: u32)
    requires |b| == 4
  {
    Widths(); NumberBound(b); Number(b)
  }

  function Number8(b: Bytes): (n: u64)
    requires |b| == 8
  {
    Widths(); NumberBound(b); Number(b)
  }

  function Number16(b: Bytes): (n: u128)
    requires |b| == 16
  {
    Widths(); NumberBound(b); Number(b)
  }

  lemma Word4Iff(b: Bytes, n: u32)
    requires |b| == 4
    ensures Number4(b) == n <==> b == Word(n, 4)
  {
    hide Word;
    Widths();
    WordNumber(b);
    NumberWord(n, 4);
  }

  lemma Word8Iff(b: Bytes, n: u64)
    requires |b| == 8
    ensures Number8(b) == n <==> b == Word(n, 8)
  {
    hide Word;
    Widths();
    WordNumber(b);
    NumberWord(n, 8);
  }

  lemma Word16Iff(b: Bytes, n: u128)
    requires |b| == 16
    ensures Number16(b) == n <==> b == Word(n, 16)
  {
    hide Word;
    Widths();
    WordNumber(b);
    NumberWord(n, 16);
  }

  // ---------------------------------------------------------------- envelope

  const CODEC_VERSION: u8 := 1

  function Wrap(payload: Bytes): Bytes {
    [CODEC_VERSION] + Word(Min(|payload|, U32_MAX), 4) + payload
  }

  function Unwrap(buf: Bytes): Decoded<Bytes> {
    if |buf| < 5 then Err(Truncated)
    else if buf[0] != CODEC_VERSION then Err(Version(buf[0]))
    else
      var len, rest := Number4(buf[1..5]), buf[5..];
      if |rest| != len then Err(Length(len, |rest|)) else Ok(rest)
  }

  /** The envelope is opened exactly when it was made, from a payload whose length fits. */
  lemma UnwrapIff(buf: Bytes, p: Bytes)
    ensures Unwrap(buf) == Ok(p) <==> |p| <= U32_MAX && buf == Wrap(p)
  {
    hide Word;
    if Unwrap(buf) == Ok(p) {
      Word4Iff(buf[1..5], |p|);
      assert buf == [buf[0]] + buf[1..5] + buf[5..];
    }
    if |p| <= U32_MAX && buf == Wrap(p) {
      assert buf[1..5] == Word(|p|, 4) && buf[5..] == p;
      Word4Iff(buf[1..5], |p|);
    }
  }

  // ------------------------------------------------------------ transactions

  type Bytes32 = b: Bytes | |b| == 32 witness seq(32, _ => 0)
  type Bytes48 = b: Bytes | |b| == 48 witness seq(48, _ => 0)
  type Bytes64 = b: Bytes | |b| == 64 witness seq(64, _ => 0)

  datatype WirePayload =
    | Transfer(to: Bytes32, amount: u128)
    | Stake(kind: StakeKind, validator: Option<Bytes48>, amount: u128)
    | Deploy(code: Bytes)
    | Call(to: Bytes32, data: Bytes)

  datatype WireTx = WireTx(chainId: u64, nonce: u64, gasLimit: u64, maxFee: u128, payload: WirePayload)

  /** Encoding a stake transaction other than a withdrawal needs its target. */
  predicate Encodable(p: WirePayload) {
    p.Stake? && p.kind != Withdraw ==> p.validator.Some?
  }

  function KindTag(kind: StakeKind): u8 {
    match kind
    case Bond => 1
    case Unbond => 2
    case Delegate => 3
    case Undelegate => 4
    case Withdraw => 5
  }

  function Tag(p: WirePayload): u8 {
    match p
    case Transfer(_, _) => 0
    case Stake(kind, _, _) => KindTag(kind)
    case Deploy(_) => 6
    case Call(_, _) => 7
  }

  /** `len as u32` keeps the low 32 bits. */
  function Len32(b: Bytes): Bytes {
    Word(|b| % (U32_MAX + 1), 4)
  }

  function Tail(p: WirePayload): Bytes
    requires Encodable(p)
  {
    match p
    case Transfer(to, amount) => to + Word(amount, 16)
    case Stake(kind, validator, amount) => (if kind == Withdraw then [] else validator.value) + Word(amount, 16)
    case Deploy(code) => Len32(code) + code
    case Call(to, data) => to + Len32(data) + data
  }

  function Head(chainId: u64, nonce: u64, gasLimit: u64, maxFee: u128, tag: u8): (b: Bytes)
    ensures |b| == 41
  {
    Word(chainId, 8) + Word(nonce, 8) + Word(gasLimit, 8) + Word(maxFee, 16) + [tag]
  }

  function PayloadBytes(t: WireTx): Bytes
    requires Encodable(t.payload)
  {
    Head(t.chainId, t.nonce, t.gasLimit, t.maxFee, Tag(t.payload)) + Tail(t.payload)
  }

  function EncodeTx(t: WireTx): Bytes
    requires Encodable(t.payload)
  {
    Wrap(PayloadBytes(t))
  }

  function StakeKindOf(tag: u8): StakeKind
    requires 1 <= tag <= 4
  {
    if tag == 1 then Bond else if tag == 2 then Unbond else if tag == 3 then Delegate else Undelegate
  }

  /** The part of `Tx::decode` after the tag byte. */
  function DecodeTail(tag: u8, b: Bytes): Decoded<WirePayload> {
    if tag == 0 then
      if |b| != 48 then Err(BadLength(89, 41 + |b|)) else Ok(Transfer(b[..32], Number16(b[32..])))
    else if tag <= 4 then
      if |b| != 64 then Err(BadLength(105, 41 + |b|)) else Ok(Stake(StakeKindOf(tag), Some(b[..48]), Number16(b[48..])))
    else if tag == 5 then
      if |b| != 16 then Err(BadLength(57, 41 + |b|)) else Ok(Stake(Withdraw, None, Number16(b)))
    else if tag == 6 then
      if |b| < 4 then Err(BadLength(45, 41 + |b|))
      else if |b| != 4 + Number4(b[..4]) then Err(BadLength(45 + Number4(b[..4]), 41 + |b|))
      else Ok(Deploy(b[4..]))
    else if tag == 7 then
      if |b| < 36 then Err(BadLength(77, 41 + |b|))
      else if |b| != 36 + Number4(b[32..36]) then Err(BadLength(77 + Number4(b[32..36]), 41 + |b|))
      else Ok(Call(b[..32], b[36..]))
    else Err(UnknownTag)
  }

  function DecodeFields(raw: Bytes): Decoded<WireTx> {
    if |raw| < 41 then Err(BadLength(41, |raw|))
    else
      match DecodeTail(raw[40], raw[41..])
      case Ok(p) => Ok(WireTx(Number8(raw[0..8]), Number8(raw[8..16]), Number8(raw[16..24]), Number16(raw[24..40]), p))
      case Err(e) => Err(e)
  }

  function DecodeTx(buf: Bytes): Decoded<WireTx> {
    match Unwrap(buf)
    case Ok(raw) => DecodeFields(raw)
    case Err(e) => Err(e)
  }

  /** A payload the format can carry: only a withdrawal goes without a target. */
  predicate Carried(p: WirePayload) {
    p.Stake? ==> (p.validator.Some? <==> p.kind != Withdraw)
  }

  lemma TailIff(tag: u8, b: Bytes, p: WirePayload)
    requires |b| <= U32_MAX
    ensures DecodeTail(tag, b) == Ok(p) <==> Carried(p) && tag == Tag(p) && b == Tail(p)
  {
    hide Word;
    hide Number4;
    hide Number16;
    if DecodeTail(tag, b) == Ok(p) {
      match p
      case Transfer(_, amount) => assert b == b[..32] + b[32..]; Word16Iff(b[32..], amount);
      case Stake(kind, _, amount) =>
        if kind == Withdraw {
          Word16Iff(b, amount);
        } else {
          assert b == b[..48] + b[48..];
          Word16Iff(b[48..], amount);
        }
      case Deploy(code) => assert b == b[..4] + b[4..]; Word4Iff(b[..4], |code|);
      case Call(_, data) => assert b == b[..32] + b[32..36] + b[36..]; Word4Iff(b[32..36], |data|);
    }
    if Carried(p) && tag == Tag(p) && b == Tail(p) {
      TailDecodes(p);
    }
  }

  lemma TailDecodes(p: WirePayload)
    requires Carried(p) && |Tail(p)| <= U32_MAX
    ensures DecodeTail(Tag(p), Tail(p)) == Ok(p)
  {
    hide Word;
    hide Number4;
    hide Number16;
    var b := Tail(p);
    match p
    case Transfer(to, amount) => assert b[..32] == to && b[32..] == Word(amount, 16); Word16Iff(b[32..], amount);
    case Stake(kind, v, amount) =>
      if kind == Withdraw {
        Word16Iff(b, amount);
      } else {
        assert b[..48] == v.value && b[48..] == Word(amount, 16);
        Word16Iff(b[48..], amount);
      }
    case Deploy(code) => assert b[..4] == Word(|code|, 4) && b[4..] == code; Word4Iff(b[..4], |code|);
    case Call(to, data) =>
      assert b[..32] == to && b[32..36] == Word(|data|, 4) && b[36..] == data;
      Word4Iff(b[32..36], |data|);
  }

  lemma HeadIff(raw: Bytes, c: u64, n: u64, g: u64, f: u128, tag: u8)
    requires |raw| >= 41
    ensures (&& Number8(raw[0..8]) == c && Number8(raw[8..16]) == n && Number8(raw[16..24]) == g
             && Number16(raw[24..40]) == f && raw[40] == tag)
            <==> raw[..41] == Head(c, n, g, f, tag)
  {
    hide Word;
    hide Number8;
    hide Number16;
    Word8Iff(raw[0..8], c);
    Word8Iff(raw[8..16], n);
    Word8Iff(raw[16..24], g);
    Word16Iff(raw[24..40], f);
    var h := raw[..41];
    assert h == raw[0..8] + raw[8..16] + raw[16..24] + raw[24..40] + [raw[40]];
    var e := Head(c, n, g, f, tag);
    assert e[0..8] == Word(c, 8) && e[8..16] == Word(n, 8) && e[16..24] == Word(g, 8) && e[24..40] == Word(f, 16)
           && e[40] == tag;
    if h == e {
      assert raw[0..8] == h[0..8] && raw[8..16] == h[8..16] && raw[16..24] == h[16..24] && raw[24..40] == h[24..40]
             && raw[40] == h[40];
    }
  }

  lemma FieldsIff(raw: Bytes, t: WireTx)
    requires |raw| <= U32_MAX
    ensures DecodeFields(raw) == Ok(t) <==> Carried(t.payload) && raw == PayloadBytes(t)
  {
    hide DecodeTail;
    hide Tail;
    hide Head;
    hide Number8;
    hide Number16;
    if |raw| >= 41 {
      HeadIff(raw, t.chainId, t.nonce, t.gasLimit, t.maxFee, Tag(t.payload));
      TailIff(raw[40], raw[41..], t.payload);
      assert raw == raw[..41] + raw[41..];
    }
    if Carried(t.payload) && raw == PayloadBytes(t) {
      assert raw[..41] == Head(t.chainId, t.nonce, t.gasLimit, t.maxFee, Tag(t.payload))
             && raw[41..] == Tail(t.payload);
    }
  }

  /** Transactions whose encoding can be read back. */
  predicate TxFits(t: WireTx) {
    Carried(t.payload) && |PayloadBytes(t)| <= U32_MAX
  }

  /** Decoding yields `t` from its encoding and from nothing else. */
  lemma TxIff(buf: Bytes, t: WireTx)
    ensures DecodeTx(buf) == Ok(t) <==> TxFits(t) && buf == EncodeTx(t)
  {
    hide DecodeFields;
    hide PayloadBytes;
    hide Wrap;
    hide Unwrap;
    if Unwrap(buf).Ok? {
      var raw := Unwrap(buf).value;
      UnwrapIff(buf, raw);
      FieldsIff(raw, t);
    }
    if TxFits(t) && buf == EncodeTx(t) {
      UnwrapIff(buf, PayloadBytes(t));
    }
  }

  /** What a sender encodes is read back exactly when it carries no stray target and fits. */
  lemma TxRoundTripIff(t: WireTx)
    requires Encodable(t.payload)
    ensures DecodeTx(EncodeTx(t)) == Ok(t) <==> TxFits(t)
  {
    TxIff(EncodeTx(t), t);
  }

  // ---------------------------------------------------- signed transactions

  datatype WireSigned = WireSigned(tx: WireTx, signature: Bytes64, publicKey: Bytes32)

  function SignedBytes(s: WireSigned): Bytes
    requires Encodable(s.tx.payload)
  {
    Len32(EncodeTx(s.tx)) + EncodeTx(s.tx) + s.signature + s.publicKey
  }

  function EncodeSigned(s: WireSigned): Bytes
    requires Encodable(s.tx.payload)
  {
    Wrap(SignedBytes(s))
  }

  function DecodeSignedBytes(p: Bytes): Decoded<WireSigned> {
    if |p| < 100 then Err(BadLength(100, |p|))
    else
      var tlen := Number4(p[0..4]);
      if |p| != 100 + tlen then Err(BadLength(100 + tlen, |p|))
      else
        match DecodeTx(p[4..4 + tlen])
        case Ok(tx) => Ok(WireSigned(tx, p[4 + tlen..4 + tlen + 64], p[4 + tlen + 64..]))
        case Err(e) => Err(e)
  }

  function DecodeSigned(buf: Bytes): Decoded<WireSigned> {
    match Unwrap(buf)
    case Ok(p) => DecodeSignedBytes(p)
    case Err(e) => Err(e)
  }

  predicate SignedFits(s: WireSigned) {
    TxFits(s.tx) && |SignedBytes(s)| <= U32_MAX
  }

  lemma SignedBytesIff(p: Bytes, s: WireSigned)
    requires |p| <= U32_MAX
    ensures DecodeSignedBytes(p) == Ok(s) <==> TxFits(s.tx) && p == SignedBytes(s)
  {
    hide DecodeTx;
    hide EncodeTx;
    hide TxFits;
    hide Word;
    hide Number4;
    if DecodeSignedBytes(p) == Ok(s) {
      var tlen := Number4(p[0..4]);
      TxIff(p[4..4 + tlen], s.tx);
      Word4Iff(p[0..4], tlen);
      assert p == p[0..4] + p[4..4 + tlen] + p[4 + tlen..4 + tlen + 64] + p[4 + tlen + 64..];
    }
    if TxFits(s.tx) {
      TxFitsCarried(s.tx);
      var e := EncodeTx(s.tx);
      if p == SignedBytes(s) {
        assert p[0..4] == Word(|e|, 4);
        Word4Iff(p[0..4], |e|);
        assert p[4..4 + |e|] == e && p[4 + |e|..4 + |e| + 64] == s.signature && p[4 + |e| + 64..] == s.publicKey;
        TxIff(e, s.tx);
      }
    }
  }

  lemma TxFitsCarried(t: WireTx)
    requires TxFits(t)
    ensures Encodable(t.payload)
  {
  }

  lemma SignedIff(buf: Bytes, s: WireSigned)
    ensures DecodeSigned(buf) == Ok(s) <==> SignedFits(s) && buf == EncodeSigned(s)
  {
    hide DecodeSignedBytes;
    hide SignedBytes;
    hide Wrap;
    hide Unwrap;
    if Unwrap(buf).Ok? {
      var p := Unwrap(buf).value;
      UnwrapIff(buf, p);
      SignedBytesIff(p, s);
    }
    if SignedFits(s) && buf == EncodeSigned(s) {
      UnwrapIff(buf, SignedBytes(s));
    }
  }

  // ------------------------------------------------------------ block bodies

  datatype WireBlock = WireBlock(height: u64, round: u32, proposer: Bytes48, timestamp: u64, txs: seq<WireSigned>)

  predicate AllEncodable(txs: seq<WireSigned>) {
    forall i :: 0 <= i < |txs| ==> Encodable(txs[i].tx.payload)
  }

  function Item(s: WireSigned): Bytes
    requires Encodable(s.tx.payload)
  {
    Len32(EncodeSigned(s)) + EncodeSigned(s)
  }

  function Items(txs: seq<WireSigned>): Bytes
    requires AllEncodable(txs)
  {
    if txs == [] then [] else Item(txs[0]) + Items(txs[1..])
  }

  function BlockHead(b: WireBlock): (h: Bytes)
    ensures |h| == 72
  {
    Word(b.height, 8) + Word(b.round, 4) + b.proposer + Word(b.timestamp, 8) + Word(|b.txs| % (U32_MAX + 1), 4)
  }

  function BlockBytes(b: WireBlock): Bytes
    requires AllEncodable(b.txs)
  {
    BlockHead(b) + Items(b.txs)
  }

  /** The transaction list of a body, from position `i`, when `n` are still announced. */
  function DecodeItems(p: Bytes, i: nat, n: nat): Decoded<seq<WireSigned>>
    requires i <= |p|
    decreases n
  {
    if n == 0 then if i != |p| then Err(Length(i, |p|)) else Ok([])
    else if i + 4 > |p| then Err(Truncated)
    else
      var elen := Number4(p[i..i + 4]);
      if i + 4 + elen > |p| then Err(Truncated)
      else
        match DecodeSigned(p[i + 4..i + 4 + elen])
        case Err(e) => Err(e)
        case Ok(s) => Prepend([s], DecodeItems(p, i + 4 + elen, n - 1))
  }

  function Prepend(before: seq<WireSigned>, r: Decoded<seq<WireSigned>>): Decoded<seq<WireSigned>> {
    match r
    case Ok(rest) => Ok(before + rest)
    case Err(e) => Err(e)
  }

  predicate AllFit(txs: seq<WireSigned>) {
    forall i :: 0 <= i < |txs| ==> SignedFits(txs[i])
  }

  lemma ItemAt(p: Bytes, i: nat, s: WireSigned)
    requires i + 4 <= |p| && |p| <= U32_MAX && Encodable(s.tx.payload)
    ensures (i + 4 + Number4(p[i..i + 4]) <= |p| && p[i + 4..i + 4 + Number4(p[i..i + 4])] == EncodeSigned(s))
            <==> Item(s) <= p[i..]
  {
    hide EncodeSigned;
    hide Word;
    hide Number4;
    var e, n := EncodeSigned(s), Number4(p[i..i + 4]);
    if i + 4 + n <= |p| && p[i + 4..i + 4 + n] == e {
      Word4Iff(p[i..i + 4], n);
      assert p[i..][..4 + n] == p[i..i + 4] + p[i + 4..i + 4 + n];
    }
    if Item(s) <= p[i..] {
      assert |Item(s)| == 4 + |e| <= |p| - i;
      assert p[i..i + 4] == p[i..][..4] == Item(s)[..4] == Word(|e|, 4);
      Word4Iff(p[i..i + 4], |e|);
      assert p[i + 4..i + 4 + |e|] == p[i..][4..4 + |e|] == Item(s)[4..] == e;
    }
  }

  lemma {:induction false} ItemsIff(p: Bytes, i: nat, n: nat, txs: seq<WireSigned>)
    requires i <= |p| <= U32_MAX
    ensures DecodeItems(p, i, n) == Ok(txs) <==> |txs| == n && AllFit(txs) && AllEncodable(txs) && p[i..] == Items(txs)
    decreases n
  {
    hide DecodeSigned;
    hide EncodeSigned;
    hide SignedFits;
    hide Number4;
    hide Word;
    hide Encodable;
    if n > 0 {
      if DecodeItems(p, i, n) == Ok(txs) {
        ItemsRead(p, i, n, txs);
      }
      if |txs| == n && AllFit(txs) && AllEncodable(txs) && p[i..] == Items(txs) {
        ItemsWritten(p, i, n, txs);
      }
    }
  }

  lemma ItemsRead(p: Bytes, i: nat, n: nat, txs: seq<WireSigned>)
    requires i <= |p| <= U32_MAX && n > 0 && DecodeItems(p, i, n) == Ok(txs)
    ensures |txs| == n && AllFit(txs) && AllEncodable(txs) && p[i..] == Items(txs)
    decreases n, 0
  {
    hide DecodeSigned;
    hide EncodeSigned;
    hide SignedFits;
    hide Number4;
    hide Word;
    hide Encodable;
    var elen := Number4(p[i..i + 4]);
    var j := i + 4 + elen;
    var s := DecodeSigned(p[i + 4..j]).value;
    var rest := DecodeItems(p, j, n - 1).value;
    assert txs == [s] + rest;
    SignedIff(p[i + 4..j], s);
    ItemsIff(p, j, n - 1, rest);
    SignedEncodable(s);
    ItemAt(p, i, s);
    assert txs[0] == s && txs[1..] == rest;
    assert |Item(s)| == 4 + elen;
    assert p[i..] == p[i..][..4 + elen] + p[j..];
  }

  lemma SignedEncodable(s: WireSigned)
    requires SignedFits(s)
    ensures Encodable(s.tx.payload)
  {
  }

  lemma ItemsWritten(p: Bytes, i: nat, n: nat, txs: seq<WireSigned>)
    requires i <= |p| <= U32_MAX && n > 0 && |txs| == n && AllFit(txs) && AllEncodable(txs) && p[i..] == Items(txs)
    ensures DecodeItems(p, i, n) == Ok(txs)
    decreases n, 0
  {
    hide DecodeSigned;
    hide EncodeSigned;
    hide SignedFits;
    hide Number4;
    hide Word;
    hide Encodable;
    var s, rest := txs[0], txs[1..];
    assert Item(s) <= p[i..];
    ItemAt(p, i, s);
    var elen := Number4(p[i..i + 4]);
    var j := i + 4 + elen;
    SignedIff(p[i + 4..j], s);
    assert |Item(s)| == 4 + elen;
    assert p[j..] == p[i..][4 + elen..] == Items(rest);
    ItemsIff(p, j, n - 1, rest);
    assert txs == [s] + rest;
  }

  /** The loop of `encode_block_body`. */
  method EncodeBlockBody(b: WireBlock) returns (buf: Bytes)
    requires AllEncodable(b.txs)
    ensures buf == Wrap(BlockBytes(b))
  {
    hide Item;
    hide Word;
    hide Encodable;
    var p: Bytes := BlockHead(b);
    for i := 0 to |b.txs|
      invariant p == BlockHead(b) + Items(b.txs[..i])
    {
      ItemsAppend(b.txs[..i], b.txs[i]);
      assert b.txs[..i + 1] == b.txs[..i] + [b.txs[i]];
      p := p + Item(b.txs[i]);
    }
    assert b.txs[..|b.txs|] == b.txs;
    buf := Wrap(p);
  }

  lemma {:induction false} ItemsAppend(txs: seq<WireSigned>, s: WireSigned)
    requires AllEncodable(txs) && Encodable(s.tx.payload)
    ensures AllEncodable(txs + [s]) && Items(txs + [s]) == Items(txs) + Item(s)
  {
    hide Item;
    hide Encodable;
    if txs == [] {
      assert [s][1..] == [];
    } else {
      ItemsAppend(txs[1..], s);
      assert (txs + [s])[1..] == txs[1..] + [s];
      assert Items(txs + [s]) == Item(txs[0]) + (Items(txs[1..]) + Item(s));
    }
  }

  /** What a body decodes to. */
  function DecodeBody(p: Bytes): Decoded<WireBlock> {
    if |p| < 72 then Err(BadLength(72, |p|))
    else
      match DecodeItems(p, 72, Number4(p[68..72]))
      case Ok(txs) => Ok(WireBlock(Number8(p[0..8]), Number4(p[8..12]), p[12..60], Number8(p[60..68]), txs))
      case Err(e) => Err(e)
  }

  /** The loop of `decode_block_body`. */
  method DecodeBlockBody(buf: Bytes) returns (r: Decoded<WireBlock>)
    ensures r == match Unwrap(buf) case Ok(p) => DecodeBody(p) case Err(e) => Err(e)
  {
    hide DecodeSigned;
    hide Number4;
    hide Number8;
    var body := Unwrap(buf);
    if body.Err? {
      return Err(body.error);
    }
    var p := body.value;
    if |p| < 72 {
      return Err(BadLength(72, |p|));
    }
    var n := Number4(p[68..72]);
    var i: nat := 72;
    var txs: seq<WireSigned> := [];
    PrependNothing(DecodeItems(p, i, n));
    for k := 0 to n
      invariant i <= |p|
      invariant DecodeItems(p, 72, n) == Prepend(txs, DecodeItems(p, i, n - k))
    {
      if i + 4 > |p| {
        return Err(Truncated);
      }
      var elen := Number4(p[i..i + 4]);
      if i + 4 + elen > |p| {
        return Err(Truncated);
      }
      var one := DecodeSigned(p[i + 4..i + 4 + elen]);
      if one.Err? {
        return Err(one.error);
      }
      PrependTwice(txs, one.value, DecodeItems(p, i + 4 + elen, n - k - 1));
      txs := txs + [one.value];
      i := i + 4 + elen;
    }
    if i != |p| {
      return Err(Length(i, |p|));
    }
    assert txs + [] == txs;
    r := Ok(WireBlock(Number8(p[0..8]), Number4(p[8..12]), p[12..60], Number8(p[60..68]), txs));
  }

  lemma PrependNothing(r: Decoded<seq<WireSigned>>)
    ensures Prepend([], r) == r
  {
    if r.Ok? {
      assert [] + r.value == r.value;
    }
  }

  lemma PrependTwice(txs: seq<WireSigned>, s: WireSigned, r: Decoded<seq<WireSigned>>)
    ensures Prepend(txs, Prepend([s], r)) == Prepend(txs + [s], r)
  {
    if r.Ok? {
      assert txs + ([s] + r.value) == txs + [s] + r.value;
    }
  }

  predicate BlockFits(b: WireBlock) {
    AllFit(b.txs) && AllEncodable(b.txs) && |BlockBytes(b)| <= U32_MAX
  }

  lemma BlockHeadIff(p: Bytes, b: WireBlock)
    requires |p| >= 72 && |b.txs| <= U32_MAX
    ensures (Number8(p[0..8]) == b.height && Number4(p[8..12]) == b.round && p[12..60] == b.proposer
             && Number8(p[60..68]) == b.timestamp && Number4(p[68..72]) == |b.txs|)
            <==> p[..72] == BlockHead(b)
  {
    hide Word;
    hide Number8;
    hide Number4;
    Word8Iff(p[0..8], b.height);
    Word4Iff(p[8..12], b.round);
    Word8Iff(p[60..68], b.timestamp);
    Word4Iff(p[68..72], |b.txs|);
    var h, e := p[..72], BlockHead(b);
    assert h == p[0..8] + p[8..12] + p[12..60] + p[60..68] + p[68..72];
    assert e[0..8] == Word(b.height, 8) && e[8..12] == Word(b.round, 4) && e[12..60] == b.proposer
           && e[60..68] == Word(b.timestamp, 8) && e[68..72] == Word(|b.txs|, 4);
    if h == e {
      assert p[0..8] == h[0..8] && p[8..12] == h[8..12] && p[12..60] == h[12..60] && p[60..68] == h[60..68]
             && p[68..72] == h[68..72];
    }
  }

  lemma {:induction false} ItemsLong(txs: seq<WireSigned>)
    requires AllEncodable(txs)
    ensures |Items(txs)| >= 4 * |txs|
  {
    hide Encodable;
    hide EncodeSigned;
    hide Word;
    if txs != [] {
      ItemsLong(txs[1..]);
    }
  }

  lemma BodyIff(p: Bytes, b: WireBlock)
    requires |p| <= U32_MAX
    ensures DecodeBody(p) == Ok(b) <==> AllFit(b.txs) && AllEncodable(b.txs) && p == BlockBytes(b)
  {
    hide Items;
    hide DecodeItems;
    hide AllFit;
    hide AllEncodable;
    hide BlockHead;
    hide Number4;
    hide Number8;
    if DecodeBody(p) == Ok(b) {
      var n := Number4(p[68..72]);
      ItemsIff(p, 72, n, b.txs);
      BlockHeadIff(p, b);
      assert p == p[..72] + p[72..];
    }
    if AllFit(b.txs) && AllEncodable(b.txs) && p == BlockBytes(b) {
      ItemsLong(b.txs);
      assert p[..72] == BlockHead(b) && p[72..] == Items(b.txs);
      BlockHeadIff(p, b);
      ItemsIff(p, 72, |b.txs|, b.txs);
    }
  }

  /** Block bodies: decoding yields `b` from its encoding and from nothing else. */
  lemma BlockIff(buf: Bytes, b: WireBlock)
    ensures (Unwrap(buf).Ok? && DecodeBody(Unwrap(buf).value) == Ok(b)) <==> BlockFits(b) && buf == Wrap(BlockBytes(b))
  {
    hide DecodeBody;
    hide BlockBytes;
    hide AllFit;
    hide AllEncodable;
    hide Wrap;
    hide Unwrap;
    if Unwrap(buf).Ok? {
      UnwrapIff(buf, Unwrap(buf).value);
      BodyIff(Unwrap(buf).value, b);
    }
    if BlockFits(b) && buf == Wrap(BlockBytes(b)) {
      UnwrapIff(buf, BlockBytes(b));
    }
  }

  /** Storing a block and loading it again gives the same block. */
  method StoreAndLoad(b: WireBlock) returns (r: Decoded<WireBlock>)
    requires AllEncodable(b.txs)
    ensures r == Ok(b) <==> BlockFits(b)
  {
    hide DecodeBody;
    hide BlockBytes;
    hide Wrap;
    hide Unwrap;
    hide BlockFits;
    var buf := EncodeBlockBody(b);
    r := DecodeBlockBody(buf);
    BlockIff(buf, b);
  }
}
