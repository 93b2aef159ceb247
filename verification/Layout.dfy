/** The bytes themselves: where every field of the wire formats stands and in which order its bytes come,
    said with positions and powers of 256, apart from the writers and readers
    (`crates/types/src/{encoding,tx,block}.rs`, `crates/state/src/mpt/{path,node}.rs`). */
module Layout {
  import opened Common
  import opened Staking
  import opened Codec

  // ------------------------------------------------------------------- words

  /** The number `n` in the bytes `b`, most significant byte first. */
  ghost predicate BigEndian(b: Bytes, n: nat) {
    forall i :: 0 <= i < |b| ==> b[i] == n / Pow256(|b| - 1 - i) % 256
  }

  lemma Regroup(q: nat, d: nat)
    ensures 256 * (q * d) == q * (256 * d)
  {
  }

  lemma QuotientFrom(n: nat, d: nat, q: nat)
    requires d > 0 && q * d <= n < (q + 1) * d
    ensures n / d == q
  {
    QuotientIs(n, d);
    OneQuotient(n, d, n / d, q);
  }

  lemma Scaled(n: nat, low: nat, high: nat)
    requires low <= n / 256 < high
    ensures 256 * low <= n < 256 * high
  {
  }

  lemma DivideTwice(n: nat, d: nat)
    requires d > 0
    ensures n / 256 / d == n / (256 * d)
  {
    var q := n / 256 / d;
    QuotientIs(n / 256, d);
    Scaled(n, q * d, (q + 1) * d);
    Regroup(q, d);
    Regroup(q + 1, d);
    QuotientFrom(n, 256 * d, q);
  }

  lemma {:induction false} WordAt(n: nat, w: nat, i: nat)
    requires i < w
    ensures Word(n, w)[i] == n / Pow256(w - 1 - i) % 256
    decreases w
  {
    if i < w - 1 {
      WordAt(n / 256, w - 1, i);
      DivideTwice(n, Pow256(w - 2 - i));
    } else {
      assert Pow256(0) == 1;
    }
  }

  /** A word is the big-endian form of its number, and nothing else of that length is. */
  lemma WordIff(n: nat, b: Bytes)
    ensures b == Word(n, |b|) <==> BigEndian(b, n)
  {
    hide Word;
    hide Pow256;
    forall i | 0 <= i < |b| ensures Word(n, |b|)[i] == n / Pow256(|b| - 1 - i) % 256 {
      WordAt(n, |b|, i);
    }
  }

  lemma WordSlice(n: nat, w: nat, b: Bytes, i: nat, j: nat)
    requires i <= j <= |b| && j - i == w
    ensures b[i..j] == Word(n, w) <==> BigEndian(b[i..j], n)
  {
    WordIff(n, b[i..j]);
  }

  // ---------------------------------------------------------------- envelopes

  /** Version 1, the length in four bytes, and the payload. */
  ghost predicate EnvelopeBytes(payload: Bytes, b: Bytes) {
    |b| == 5 + |payload| && b[0] == 1 && BigEndian(b[1..5], |payload|) && b[5..] == payload
  }

  lemma EnvelopeIff(payload: Bytes, b: Bytes)
    requires |payload| <= U32_MAX
    ensures b == Wrap(payload) <==> EnvelopeBytes(payload, b)
  {
    hide Word;
    hide BigEndian;
    if |b| == 5 + |payload| {
      WordSlice(|payload|, 4, b, 1, 5);
      assert b == [b[0]] + b[1..5] + b[5..];
      var w := Wrap(payload);
      assert w[0] == 1 && w[1..5] == Word(|payload|, 4) && w[5..] == payload;
    }
  }

  // ------------------------------------------------------------- transactions

  /** The tag byte of each kind of payload. */
  function TagByte(p: WirePayload): u8 {
    if p.Transfer? then 0
    else if p.Deploy? then 6
    else if p.Call? then 7
    else if p.kind == Bond then 1
    else if p.kind == Unbond then 2
    else if p.kind == Delegate then 3
    else if p.kind == Undelegate then 4
    else 5
  }

  /** The fields after the tag, from byte 41 on. */
  ghost predicate TailBytes(p: WirePayload, b: Bytes)
    requires |b| >= 41
  {
    match p
    case Transfer(to, amount) => |b| == 89 && b[41..73] == to && BigEndian(b[73..89], amount)
    case Stake(kind, validator, amount) =>
      if kind == Withdraw then |b| == 57 && BigEndian(b[41..57], amount)
      else |b| == 105 && Some(b[41..89]) == validator && BigEndian(b[89..105], amount)
    case Deploy(code) => |b| == 45 + |code| && BigEndian(b[41..45], |code|) && b[45..] == code
    case Call(to, data) =>
      |b| == 77 + |data| && b[41..73] == to && BigEndian(b[73..77], |data|) && b[77..] == data
  }

  /** A transaction inside its envelope. */
  ghost predicate TxBytes(t: WireTx, b: Bytes) {
    && |b| >= 41
    && BigEndian(b[0..8], t.chainId) && BigEndian(b[8..16], t.nonce) && BigEndian(b[16..24], t.gasLimit)
    && BigEndian(b[24..40], t.maxFee)
    && b[40] == TagByte(t.payload) && TailBytes(t.payload, b)
  }

  lemma HeadBytesIff(t: WireTx, b: Bytes)
    requires |b| >= 41
    ensures b[..41] == Head(t.chainId, t.nonce, t.gasLimit, t.maxFee, TagByte(t.payload))
            <==> && BigEndian(b[0..8], t.chainId) && BigEndian(b[8..16], t.nonce) && BigEndian(b[16..24], t.gasLimit)
                 && BigEndian(b[24..40], t.maxFee) && b[40] == TagByte(t.payload)
  {
    hide Word;
    hide BigEndian;
    hide TagByte;
    WordSlice(t.chainId, 8, b, 0, 8);
    WordSlice(t.nonce, 8, b, 8, 16);
    WordSlice(t.gasLimit, 8, b, 16, 24);
    WordSlice(t.maxFee, 16, b, 24, 40);
    var h := Head(t.chainId, t.nonce, t.gasLimit, t.maxFee, TagByte(t.payload));
    assert h[0..8] == Word(t.chainId, 8) && h[8..16] == Word(t.nonce, 8) && h[16..24] == Word(t.gasLimit, 8);
    assert h[24..40] == Word(t.maxFee, 16) && h[40] == TagByte(t.payload);
    assert b[..41] == b[0..8] + b[8..16] + b[16..24] + b[24..40] + [b[40]];
  }

  lemma TailBytesIff(p: WirePayload, b: Bytes)
    requires |b| >= 41 && Encodable(p)
    requires (p.Deploy? ==> |p.code| <= U32_MAX) && (p.Call? ==> |p.data| <= U32_MAX)
    ensures b[41..] == Tail(p) <==> TailBytes(p, b)
  {
    hide Word;
    hide BigEndian;
    var tail := Tail(p);
    match p {
      case Transfer(to, amount) =>
        if |b| == 89 {
          WordSlice(amount, 16, b, 73, 89);
          assert b[41..] == b[41..73] + b[73..89];
          assert tail[..32] == to && tail[32..] == Word(amount, 16);
        }
      case Stake(kind, validator, amount) =>
        if kind == Withdraw {
          if |b| == 57 {
            WordSlice(amount, 16, b, 41, 57);
            assert b[41..] == b[41..57];
          }
        } else if |b| == 105 {
          WordSlice(amount, 16, b, 89, 105);
          assert b[41..] == b[41..89] + b[89..105];
          assert tail[..48] == validator.value && tail[48..] == Word(amount, 16);
        }
      case Deploy(code) =>
        if |b| == 45 + |code| {
          WordSlice(|code|, 4, b, 41, 45);
          assert b[41..] == b[41..45] + b[45..];
          assert tail[..4] == Word(|code|, 4) && tail[4..] == code;
        }
      case Call(to, data) =>
        if |b| == 77 + |data| {
          WordSlice(|data|, 4, b, 73, 77);
          assert b[41..] == b[41..73] + b[73..77] + b[77..];
          assert tail[..32] == to && tail[32..36] == Word(|data|, 4) && tail[36..] == data;
        }
    }
  }

  /** The bytes of a transaction are these, and no other bytes are. */
  lemma TxBytesIff(t: WireTx, b: Bytes)
    requires Encodable(t.payload) && |PayloadBytes(t)| <= U32_MAX
    ensures b == PayloadBytes(t) <==> TxBytes(t, b)
  {
    hide BigEndian;
    hide Word;
    if |b| >= 41 {
      HeadBytesIff(t, b);
      TailBytesIff(t.payload, b);
      hide Head;
      hide Tail;
      assert b == b[..41] + b[41..];
      var p := PayloadBytes(t);
      assert Tag(t.payload) == TagByte(t.payload);
      assert p[..41] == Head(t.chainId, t.nonce, t.gasLimit, t.maxFee, Tag(t.payload)) && p[41..] == Tail(t.payload);
    }
  }

  // ------------------------------------------------- signed transactions, blocks

  /** The length of the encoded transaction, the transaction, the signature, the key. */
  ghost predicate SignedTxBytes(s: WireSigned, b: Bytes)
    requires Encodable(s.tx.payload)
  {
    var e := EncodeTx(s.tx);
    && |b| == 100 + |e| && BigEndian(b[0..4], |e|) && b[4..4 + |e|] == e
    && b[4 + |e|..68 + |e|] == s.signature && b[68 + |e|..] == s.publicKey
  }

  lemma SignedTxBytesIff(s: WireSigned, b: Bytes)
    requires Encodable(s.tx.payload) && |SignedBytes(s)| <= U32_MAX
    ensures b == SignedBytes(s) <==> SignedTxBytes(s, b)
  {
    hide Word;
    hide BigEndian;
    hide EncodeTx;
    var e := EncodeTx(s.tx);
    if |b| == 100 + |e| {
      WordSlice(|e|, 4, b, 0, 4);
      assert b == b[0..4] + b[4..4 + |e|] + b[4 + |e|..68 + |e|] + b[68 + |e|..];
      var p := SignedBytes(s);
      assert p[0..4] == Word(|e|, 4) && p[4..4 + |e|] == e;
      assert p[4 + |e|..68 + |e|] == s.signature && p[68 + |e|..] == s.publicKey;
    }
  }

  /** Height, round, proposer, timestamp and number of transactions. */
  ghost predicate BlockHeadBytes(k: WireBlock, b: Bytes) {
    && |b| == 72
    && BigEndian(b[0..8], k.height) && BigEndian(b[8..12], k.round) && b[12..60] == k.proposer
    && BigEndian(b[60..68], k.timestamp) && BigEndian(b[68..72], |k.txs|)
  }

  lemma BlockHeadBytesIff(k: WireBlock, b: Bytes)
    requires |k.txs| <= U32_MAX
    ensures b == BlockHead(k) <==> BlockHeadBytes(k, b)
  {
    hide Word;
    hide BigEndian;
    if |b| == 72 {
      WordSlice(k.height, 8, b, 0, 8);
      WordSlice(k.round, 4, b, 8, 12);
      WordSlice(k.timestamp, 8, b, 60, 68);
      WordSlice(|k.txs|, 4, b, 68, 72);
      assert b == b[0..8] + b[8..12] + b[12..60] + b[60..68] + b[68..72];
      var h := BlockHead(k);
      assert h[0..8] == Word(k.height, 8) && h[8..12] == Word(k.round, 4) && h[12..60] == k.proposer;
      assert h[60..68] == Word(k.timestamp, 8) && h[68..72] == Word(|k.txs|, 4);
    }
  }

  lemma {:induction false} ItemsConcat(a: seq<WireSigned>, z: seq<WireSigned>)
    requires AllEncodable(a) && AllEncodable(z)
    ensures AllEncodable(a + z) && Items(a + z) == Items(a) + Items(z)
  {
    hide Item;
    hide Encodable;
    if a == [] {
      assert a + z == z;
    } else {
      ItemsConcat(a[1..], z);
      assert (a + z)[1..] == a[1..] + z;
      assert Items(a + z) == Item(a[0]) + (Items(a[1..]) + Items(z));
    }
  }

  lemma ItemsSplit(a: seq<WireSigned>, s: WireSigned, z: seq<WireSigned>)
    requires AllEncodable(a) && Encodable(s.tx.payload) && AllEncodable(z)
    ensures AllEncodable(a + [s] + z) && Items(a + [s] + z) == Items(a) + Item(s) + Items(z)
  {
    hide Item;
    hide Encodable;
    assert Items([s]) == Item(s) + Items([s][1..]) && [s][1..] == [];
    ItemsConcat(a, [s]);
    ItemsConcat(a + [s], z);
  }

  lemma FourParts(a: Bytes, w: Bytes, e: Bytes, z: Bytes)
    requires |w| == 4
    ensures var (all, n) := (a + (w + e) + z, |a|);
            && |all| == n + 4 + |e| + |z| && all[..n] == a && all[n..n + 4] == w
            && all[n + 4..n + 4 + |e|] == e && all[n + 4 + |e|..] == z
  {
    var all, n, front := a + (w + e) + z, |a|, a + w;
    assert all == front + e + z && |front| == n + 4;
    assert all[..|front|] == front && front[..n] == a && front[n..] == w;
    assert all[|front|..|front| + |e|] == e && all[|front| + |e|..] == z;
  }

  /** The transactions of a block stand one after the other, each behind its length. */
  lemma ItemsInOrder(a: seq<WireSigned>, s: WireSigned, z: seq<WireSigned>)
    requires AllEncodable(a) && Encodable(s.tx.payload) && AllEncodable(z) && |EncodeSigned(s)| <= U32_MAX
    ensures AllEncodable(a + [s] + z)
    ensures var (all, n, e) := (Items(a + [s] + z), |Items(a)|, EncodeSigned(s));
            && |all| == n + 4 + |e| + |Items(z)| && all[..n] == Items(a) && BigEndian(all[n..n + 4], |e|)
            && all[n + 4..n + 4 + |e|] == e && all[n + 4 + |e|..] == Items(z)
  {
    hide Word;
    hide BigEndian;
    hide EncodeSigned;
    hide Encodable;
    hide Items;
    var e := EncodeSigned(s);
    ItemsSplit(a, s, z);
    FourParts(Items(a), Word(|e|, 4), e, Items(z));
    WordIff(|e|, Word(|e|, 4));
  }
}
