/** Selection of transactions for a block (`crates/mempool/src/{queue,order}.rs`,
    `crates/execution/src/{fees,builder}.rs`). */
module Mempool {
  import opened Common
  import opened Ledger

  type Queues = map<Address, map<nat, SignedTx>>

  /** Length of the encoded envelope. */
  type Size = SignedTx -> nat

  function Lookup(q: Queues, a: Address, n: nat): Option<SignedTx> {
    if a in q && n in q[a] then Some(q[a][n]) else None
  }

  function NonceOf(m: map<Address, u64>, a: Address): u64 {
    if a in m then m[a] else 0
  }

  /** `fee_priority`: fee per gas, scaled by 2^64 and capped at 128 bits. */
  function FeePriority(t: SignedTx): Option<nat> {
    var gas := GasMeter(t.tx);
    if gas == None then None
    else Some(Min(t.tx.maxFee * 0x1_0000_0000_0000_0000, U128_MAX) / (if gas.value == 0 then 1 else gas.value))
  }

  // ------------------------------------------------------------ fee per gas

  /** A metered transaction costs 21000 gas, or 50000 for a deployment. */
  lemma GasIs(t: SignedTx)
    requires GasMeter(t.tx).Some?
    ensures GasMeter(t.tx).value == if t.tx.payload.Deploy? then 50_000 else 21_000
  {
  }

  /** Fees up to here are scaled without a cap. */
  predicate Uncapped(t: SignedTx) { t.tx.maxFee < 0x1_0000_0000_0000_0000 }

  /** The priority is the fee per gas scaled by 2^64 and rounded down. */
  lemma PriorityIs(t: SignedTx)
    requires FeePriority(t).Some?
    ensures var (p, gas) := (FeePriority(t).value, GasMeter(t.tx).value);
            if Uncapped(t) then p * gas <= t.tx.maxFee * 0x1_0000_0000_0000_0000 < (p + 1) * gas
            else p * gas <= U128_MAX < (p + 1) * gas
  {
    GasIs(t);
  }

  /** Priorities order transactions by fee per gas exactly: rounding never hides a difference. */
  lemma PriorityOrder(t: SignedTx, t': SignedTx)
    requires FeePriority(t).Some? && FeePriority(t').Some? && Uncapped(t) && Uncapped(t')
    ensures FeePriority(t).value > FeePriority(t').value
            <==> t.tx.maxFee * GasMeter(t'.tx).value > t'.tx.maxFee * GasMeter(t.tx).value
  {
    GasIs(t);
    GasIs(t');
    hide GasMeter;
    RateOrder(t.tx.maxFee, GasMeter(t.tx).value, t'.tx.maxFee, GasMeter(t'.tx).value);
  }

  lemma RateOrder(fee: nat, gas: nat, fee': nat, gas': nat)
    requires gas in {21_000, 50_000} && gas' in {21_000, 50_000}
    ensures fee * 0x1_0000_0000_0000_0000 / gas > fee' * 0x1_0000_0000_0000_0000 / gas' <==> fee * gas' > fee' * gas
  {
  }

  /** The transaction an account offers next, if it can be priced and is not skipped. */
  ghost predicate Offers(q: Queues, local: map<Address, u64>, skip: set<(Address, nat)>, a: Address) {
    var n := NonceOf(local, a);
    && Lookup(q, a, n).Some?
    && (a, n) !in skip
    && FeePriority(q[a][n]).Some?
  }

  /** `t` of account `a` goes before `t'` of account `a'`, or is the same offer. */
  ghost predicate NoWorse(a: Address, t: SignedTx, a': Address, t': SignedTx)
    requires FeePriority(t).Some? && FeePriority(t').Some?
  {
    var p, p' := FeePriority(t).value, FeePriority(t').value;
    p > p' || (p == p' && a <= a')
  }

  /** `t` is what `a` offers, and no other offer goes before it. */
  ghost predicate BestOffer(q: Queues, local: map<Address, u64>, skip: set<(Address, nat)>, a: Address, t: SignedTx) {
    && Offers(q, local, skip, a) && t == q[a][NonceOf(local, a)]
    && forall a' :: Offers(q, local, skip, a') ==> NoWorse(a, t, a', q[a'][NonceOf(local, a')])
  }

  method PeekBestReady(q: Queues, local: map<Address, u64>, skip: set<(Address, nat)>)
    returns (best: Option<(Address, SignedTx)>)
    ensures best.None? ==> forall a :: !Offers(q, local, skip, a)
    ensures best.Some? ==> BestOffer(q, local, skip, best.value.0, best.value.1)
  {
    best := None;
    var todo := q.Keys;
    while todo != {}
      invariant todo <= q.Keys
      invariant best.None? ==> forall a :: a in q.Keys - todo ==> !Offers(q, local, skip, a)
      invariant best.Some? ==>
                  var a := best.value.0;
                  && Offers(q, local, skip, a) && best.value.1 == q[a][NonceOf(local, a)]
                  && forall a' :: a' in q.Keys - todo && Offers(q, local, skip, a')
                                  ==> NoWorse(a, best.value.1, a', q[a'][NonceOf(local, a')])
    {
      var a :| a in todo;
      todo := todo - {a};
      var n := NonceOf(local, a);
      if n in q[a] && (a, n) !in skip {
        var t := q[a][n];
        var p := FeePriority(t);
        if p.Some? {
          if best == None {
            best := Some((a, t));
          } else {
            var bp := FeePriority(best.value.1).value;
            if p.value > bp || (p.value == bp && a < best.value.0) {
              best := Some((a, t));
            }
          }
        }
      }
    }
  }

  // ------------------------------------------------------------------ budget

  function Cost(t: SignedTx): nat {
    if GasMeter(t.tx).Some? then GasMeter(t.tx).value else 0
  }

  function Len(size: Size, t: SignedTx): u32 {
    Min(size(t), U32_MAX)
  }

  function SatAdd32(a: u32, b: u32): u32 { Min(a + b, U32_MAX) }

  ghost function GasSum(ts: seq<SignedTx>): nat {
    if ts == [] then 0 else GasSum(ts[..|ts| - 1]) + Cost(ts[|ts| - 1])
  }

  ghost function ByteSum(size: Size, ts: seq<SignedTx>): nat {
    if ts == [] then 0 else ByteSum(size, ts[..|ts| - 1]) + Len(size, ts[|ts| - 1])
  }

  /** The saturating budget test, after `ts` have been taken. */
  ghost predicate FitsAfter(size: Size, ts: seq<SignedTx>, t: SignedTx, maxGas: u64, maxBytes: u32) {
    && SatAdd64(Min(GasSum(ts), U64_MAX), Cost(t)) <= maxGas
    && SatAdd32(Min(ByteSum(size, ts), U32_MAX), Len(size, t)) <= maxBytes
  }

  /** Every transaction fitted when its turn came. */
  ghost predicate AllFit(size: Size, ts: seq<SignedTx>, maxGas: u64, maxBytes: u32) {
    forall i :: 0 <= i < |ts| ==> GasMeter(ts[i].tx).Some? && FitsAfter(size, ts[..i], ts[i], maxGas, maxBytes)
  }

  /** Below the type limits the saturating test bounds the true totals. */
  lemma {:induction false} TrueTotalsWithinCaps(size: Size, ts: seq<SignedTx>, maxGas: u64, maxBytes: u32)
    requires AllFit(size, ts, maxGas, maxBytes) && maxGas < U64_MAX && maxBytes < U32_MAX
    ensures GasSum(ts) <= maxGas && ByteSum(size, ts) <= maxBytes
    ensures forall t :: t in ts ==> size(t) == Len(size, t)
  {
    hide AllFit;
    hide Cost;
    hide FitsAfter;
    hide Len;
    if ts != [] {
      var before, last := ts[..|ts| - 1], ts[|ts| - 1];
      AllFitShorter(size, ts, maxGas, maxBytes);
      TrueTotalsWithinCaps(size, before, maxGas, maxBytes);
      FitIsTrue(size, before, last, maxGas, maxBytes);
      assert ts == before + [last];
    }
  }

  lemma FitIsTrue(size: Size, ts: seq<SignedTx>, t: SignedTx, maxGas: u64, maxBytes: u32)
    requires FitsAfter(size, ts, t, maxGas, maxBytes) && maxGas < U64_MAX && maxBytes < U32_MAX
    requires GasSum(ts) <= maxGas && ByteSum(size, ts) <= maxBytes
    ensures GasSum(ts) + Cost(t) <= maxGas && ByteSum(size, ts) + Len(size, t) <= maxBytes && size(t) == Len(size, t)
  {
    hide GasMeter;
    hide GasSum;
    hide ByteSum;
  }

  lemma AllFitShorter(size: Size, ts: seq<SignedTx>, maxGas: u64, maxBytes: u32)
    requires AllFit(size, ts, maxGas, maxBytes) && ts != []
    ensures AllFit(size, ts[..|ts| - 1], maxGas, maxBytes)
    ensures FitsAfter(size, ts[..|ts| - 1], ts[|ts| - 1], maxGas, maxBytes)
  {
    hide GasMeter;
    hide FitsAfter;
    var before := ts[..|ts| - 1];
    forall i | 0 <= i < |before| ensures before[..i] == ts[..i] && before[i] == ts[i] {}
  }

  /** The budget test as the code runs it, on the saturated running totals. */
  method Fits(size: Size, gas: u64, bytes: u32, t: SignedTx, maxGas: u64, maxBytes: u32, ghost ts: seq<SignedTx>)
    returns (ok: bool, gas': u64, bytes': u32)
    requires gas == Min(GasSum(ts), U64_MAX) && bytes == Min(ByteSum(size, ts), U32_MAX)
    ensures ok <==> GasMeter(t.tx).Some? && FitsAfter(size, ts, t, maxGas, maxBytes)
    ensures gas' == Min(GasSum(ts) + Cost(t), U64_MAX) && bytes' == Min(ByteSum(size, ts) + Len(size, t), U32_MAX)
  {
    var g := GasMeter(t.tx);
    gas', bytes' := SatAdd64(gas, Cost(t)), SatAdd32(bytes, Len(size, t));
    ok := g.Some? && gas' <= maxGas && bytes' <= maxBytes;
  }

  /** The budget filter of `build_local`: it drops nothing from a list that already fits. */
  method BuildLocal(size: Size, candidates: seq<SignedTx>, maxGas: u64, maxBytes: u32) returns (txs: seq<SignedTx>)
    ensures AllFit(size, txs, maxGas, maxBytes)
    ensures AllFit(size, candidates, maxGas, maxBytes) ==> txs == candidates
  {
    hide FitsAfter;
    hide GasMeter;
    var gas: u64, bytes: u32 := 0, 0;
    txs := [];
    for i := 0 to |candidates|
      invariant AllFit(size, txs, maxGas, maxBytes)
      invariant gas == Min(GasSum(txs), U64_MAX) && bytes == Min(ByteSum(size, txs), U32_MAX)
      invariant AllFit(size, candidates, maxGas, maxBytes) ==> txs == candidates[..i]
    {
      var t := candidates[i];
      var ok, gas', bytes' := Fits(size, gas, bytes, t, maxGas, maxBytes, txs);
      if ok {
        AllFitGrows(size, txs, t, maxGas, maxBytes);
        gas, bytes, txs := gas', bytes', txs + [t];
      }
      assert candidates[..i + 1] == candidates[..i] + [t];
    }
    assert candidates[..|candidates|] == candidates;
  }

  lemma AllFitGrows(size: Size, ts: seq<SignedTx>, t: SignedTx, maxGas: u64, maxBytes: u32)
    requires AllFit(size, ts, maxGas, maxBytes) && GasMeter(t.tx).Some? && FitsAfter(size, ts, t, maxGas, maxBytes)
    ensures AllFit(size, ts + [t], maxGas, maxBytes)
    ensures GasSum(ts + [t]) == GasSum(ts) + Cost(t) && ByteSum(size, ts + [t]) == ByteSum(size, ts) + Len(size, t)
  {
    var more := ts + [t];
    assert more[..|ts|] == ts;
    forall i | 0 <= i < |more|
      ensures GasMeter(more[i].tx).Some? && FitsAfter(size, more[..i], more[i], maxGas, maxBytes)
    {
      if i < |ts| {
        assert more[..i] == ts[..i];
      }
    }
  }

  // --------------------------------------------------------------- selection

  /** Where a picked transaction sat. */
  type Pick = (Address, nat)

  ghost function Count(picks: seq<Pick>, a: Address): nat {
    if picks == [] then 0 else Count(picks[..|picks| - 1], a) + (if picks[|picks| - 1].0 == a then 1 else 0)
  }

  /** The nonce an account is at after some picks. */
  ghost function NonceAfter(start: map<Address, u64>, picks: seq<Pick>, a: Address): nat {
    NonceOf(start, a) + Count(picks, a)
  }

  /** What the pool holds without the picked entries. */
  ghost predicate Without(q: Queues, q0: Queues, picks: seq<Pick>) {
    forall a: Address, n: nat :: Lookup(q, a, n) == if (a, n) in picks then None else Lookup(q0, a, n)
  }

  /** The `i`-th pick takes its account's next nonce, and no other account's next transaction
      that still fitted was better. */
  ghost predicate GreedyPick(
    size: Size, q0: Queues, start: map<Address, u64>, picks: seq<Pick>, out: seq<SignedTx>, i: nat, maxGas: u64,
    maxBytes: u32)
    requires i < |picks| == |out|
  {
    var (a, n) := picks[i];
    && Lookup(q0, a, n) == Some(out[i]) && FeePriority(out[i]).Some?
    && n == NonceAfter(start, picks[..i], a)
    && forall a' :: var n' := NonceAfter(start, picks[..i], a');
                    n' <= U64_MAX && Lookup(q0, a', n').Some? && FeePriority(q0[a'][n']).Some?
                    && FitsAfter(size, out[..i], q0[a'][n'], maxGas, maxBytes)
                    ==> NoWorse(a, out[i], a', q0[a'][n'])
  }

  /** The whole selection. */
  ghost predicate Greedy(
    size: Size, q0: Queues, start: map<Address, u64>, picks: seq<Pick>, out: seq<SignedTx>, maxGas: u64, maxBytes: u32)
  {
    && |picks| == |out|
    && (forall i, j :: 0 <= i < j < |picks| ==> picks[i] != picks[j])
    && (forall i :: 0 <= i < |picks| ==> GreedyPick(size, q0, start, picks, out, i, maxGas, maxBytes))
    && AllFit(size, out, maxGas, maxBytes)
  }

  /** Nothing priced that an account could offer next still fits. */
  ghost predicate Saturated(
    size: Size, q0: Queues, start: map<Address, u64>, picks: seq<Pick>, out: seq<SignedTx>, maxGas: u64, maxBytes: u32)
  {
    forall a :: var n := NonceAfter(start, picks, a);
                n <= U64_MAX && Lookup(q0, a, n).Some? && FeePriority(q0[a][n]).Some?
                ==> !FitsAfter(size, out, q0[a][n], maxGas, maxBytes)
  }

  ghost function Entries(q: Queues): set<Pick> {
    set a, n | a in q && n in q[a] :: (a, n)
  }

  /** Exactly one entry has gone. */
  ghost predicate Removed(q': Queues, q: Queues, addr: Address, n: nat) {
    forall a: Address, m: nat :: Lookup(q', a, m) == if a == addr && m == n then None else Lookup(q, a, m)
  }

  class Pool {
    const size: Size
    var queued: Queues
    var accountNonce: map<Address, u64>

    /** Transactions are filed under their own nonce. */
    ghost predicate Valid()
      reads this
    {
      forall a: Address, n: nat :: a in queued && n in queued[a] ==> queued[a][n].tx.nonce == n
    }

    constructor (size: Size)
      ensures Valid() && queued == map[] && accountNonce == map[] && this.size == size
    {
      this.size := size;
      queued, accountNonce := map[], map[];
    }

    /** `observe_account`: record the committed nonce and drop what is behind it. */
    method ObserveAccount(addr: Address, nonce: u64)
      requires Valid()
      modifies this
      ensures Valid() && accountNonce == old(accountNonce)[addr := nonce]
      ensures forall a: Address, n: nat ::
                Lookup(queued, a, n) == if a == addr && n < nonce then None else Lookup(old(queued), a, n)
    {
      accountNonce := accountNonce[addr := nonce];
      if addr in queued {
        var kept := map n | n in queued[addr] && n >= nonce :: queued[addr][n];
        assert forall n :: n in queued[addr] && n >= nonce ==> n in kept;
        if kept == map[] {
          queued := queued - {addr};
        } else {
          queued := queued[addr := kept];
        }
      }
    }

    /** `admit_preverified`. */
    method Admit(t: SignedTx, addr: Address)
      requires Valid()
      modifies this`queued
      ensures Valid()
      ensures forall a: Address, n: nat ::
                Lookup(queued, a, n) == if a == addr && n == t.tx.nonce then Some(t) else Lookup(old(queued), a, n)
    {
      var m := if addr in queued then queued[addr] else map[];
      queued := queued[addr := m[t.tx.nonce := t]];
    }

    method RemoveEntry(addr: Address, nonce: nat)
      requires Valid()
      modifies this`queued
      ensures Valid() && Removed(queued, old(queued), addr, nonce)
    {
      if addr in queued {
        var m := queued[addr] - {nonce};
        assert forall n :: n in queued[addr] && n != nonce ==> n in m;
        if m == map[] {
          queued := queued - {addr};
        } else {
          queued := queued[addr := m];
        }
      }
    }

    /** `take_ready`: pick greedily until nothing that is next for its account fits. */
    method TakeReady(maxGas: u64, maxBytes: u32) returns (out: seq<SignedTx>, ghost picks: seq<Pick>)
      requires Valid()
      modifies this`queued
      ensures Valid()
      ensures Greedy(size, old(queued), accountNonce, picks, out, maxGas, maxBytes)
      ensures Without(queued, old(queued), picks)
      ensures Saturated(size, old(queued), accountNonce, picks, out, maxGas, maxBytes)
    {
      hide FitsAfter;
      hide GasMeter;
      hide Greedy;
      hide Without;
      hide Saturated;
      hide Selecting;
      hide BestOffer;
      hide Offers;
      hide Entries;
      hide GasSum;
      hide ByteSum;
      hide Removed;
      var local: map<Address, u64> := accountNonce;
      var skip: set<Pick> := {};
      out, picks := [], [];
      var gas: u64, bytes: u32 := 0, 0;
      NothingPicked(size, queued, accountNonce, maxGas, maxBytes);
      while true
        invariant Valid()
        invariant Selecting(size, old(queued), queued, accountNonce, local, skip, picks, out, maxGas, maxBytes)
        invariant gas == Min(GasSum(out), U64_MAX) && bytes == Min(ByteSum(size, out), U32_MAX)
        decreases Entries(queued) - skip
      {
        var best := PeekBestReady(queued, local, skip);
        if best == None {
          SaturatedAtExit(size, old(queued), queued, accountNonce, local, skip, picks, out, maxGas, maxBytes);
          return;
        }
        var (addr, signed) := best.value;
        var n := signed.tx.nonce;
        OfferFacts(queued, local, skip, addr, signed);
        ghost var left := Entries(queued) - skip;
        var ok, gas', bytes' := Fits(size, gas, bytes, signed, maxGas, maxBytes, out);
        if !ok {
          SkipStep(size, old(queued), queued, accountNonce, local, skip, picks, out, addr, signed, maxGas, maxBytes);
          skip := skip + {(addr, n)};
        } else {
          ghost var before := queued;
          RemoveEntry(addr, n);
          TakeStep(size, old(queued), before, queued, accountNonce, local, skip, picks, out, addr, signed,
                   maxGas, maxBytes);
          local := local[addr := NextNonce(n)];
          gas, bytes := gas', bytes';
          out, picks := out + [signed], picks + [(addr, n)];
        }
        assert Entries(queued) - skip == left - {(addr, n)};
      }
    }
  }

  /** The proposer's selection as a whole: everything `take_ready` hands over ends up in the block. */
  method BuildFrom(pool: Pool, maxGas: u64, maxBytes: u32) returns (txs: seq<SignedTx>, ghost picks: seq<Pick>)
    requires pool.Valid()
    modifies pool`queued
    ensures pool.Valid() && Without(pool.queued, old(pool.queued), picks)
    ensures Greedy(pool.size, old(pool.queued), pool.accountNonce, picks, txs, maxGas, maxBytes)
    ensures Saturated(pool.size, old(pool.queued), pool.accountNonce, picks, txs, maxGas, maxBytes)
  {
    hide GreedyPick;
    hide AllFit;
    hide Without;
    hide Saturated;
    var candidates;
    candidates, picks := pool.TakeReady(maxGas, maxBytes);
    txs := BuildLocal(pool.size, candidates, maxGas, maxBytes);
  }

  /** What greedy means in fees: of all transactions that are next for their account and fit, a pick pays the
      most per gas; at equal gas no higher fee is passed over, at equal fee no smaller gas. Fees of 2^64 and
      more all count alike. */
  lemma PicksPayBest(
    size: Size, q0: Queues, start: map<Address, u64>, picks: seq<Pick>, out: seq<SignedTx>, maxGas: u64, maxBytes: u32,
    i: nat, a: Address, rival: SignedTx)
    requires Greedy(size, q0, start, picks, out, maxGas, maxBytes) && i < |picks|
    requires NonceAfter(start, picks[..i], a) <= U64_MAX
    requires Lookup(q0, a, NonceAfter(start, picks[..i], a)) == Some(rival)
    requires GasMeter(rival.tx).Some? && FitsAfter(size, out[..i], rival, maxGas, maxBytes)
    ensures GasMeter(out[i].tx).Some?
    ensures var (fee, gas, fee', gas') :=
              (out[i].tx.maxFee, GasMeter(out[i].tx).value, rival.tx.maxFee, GasMeter(rival.tx).value);
            && (Uncapped(out[i]) && Uncapped(rival) ==> fee' * gas <= fee * gas')
            && (Uncapped(out[i]) && gas == gas' ==> fee' <= fee)
            && (fee == fee' && fee > 0 ==> gas <= gas')
  {
    hide FitsAfter;
    hide AllFit;
    hide NonceAfter;
    assert GreedyPick(size, q0, start, picks, out, i, maxGas, maxBytes);
    assert NoWorse(picks[i].0, out[i], a, rival);
    hide GreedyPick;
    GasIs(out[i]);
    GasIs(rival);
    if Uncapped(out[i]) && Uncapped(rival) {
      PriorityOrder(rival, out[i]);
    }
  }

  // -------------------------------------------------------------- loop facts

  /** Local nonces follow the picks, stopping at the largest nonce. */
  ghost predicate LocalFollows(start: map<Address, u64>, local: map<Address, u64>, picks: seq<Pick>) {
    forall a: Address :: && NonceOf(local, a) == Min(NonceAfter(start, picks, a), U64_MAX)
                && (NonceAfter(start, picks, a) > U64_MAX ==> (a, U64_MAX) in picks)
  }

  /** Skipped entries are still queued and do not fit. */
  ghost predicate SkipsMisfit(size: Size, q: Queues, skip: set<Pick>, out: seq<SignedTx>, maxGas: u64, maxBytes: u32) {
    forall a: Address, n: nat ::
      (a, n) in skip ==> Lookup(q, a, n).Some? && !FitsAfter(size, out, q[a][n], maxGas, maxBytes)
  }

  /** What holds along the selection. */
  ghost predicate Selecting(
    size: Size, q0: Queues, q: Queues, start: map<Address, u64>, local: map<Address, u64>, skip: set<Pick>,
    picks: seq<Pick>, out: seq<SignedTx>, maxGas: u64, maxBytes: u32)
  {
    && Greedy(size, q0, start, picks, out, maxGas, maxBytes) && Without(q, q0, picks)
    && LocalFollows(start, local, picks) && SkipsMisfit(size, q, skip, out, maxGas, maxBytes)
  }

  lemma NothingPicked(size: Size, q0: Queues, start: map<Address, u64>, maxGas: u64, maxBytes: u32)
    ensures Selecting(size, q0, q0, start, start, {}, [], [], maxGas, maxBytes)
    ensures GasSum([]) == 0 && ByteSum(size, []) == 0
  {
  }

  lemma OfferFacts(q: Queues, local: map<Address, u64>, skip: set<Pick>, a: Address, t: SignedTx)
    requires BestOffer(q, local, skip, a, t)
    ensures (a, NonceOf(local, a)) in Entries(q) - skip && Lookup(q, a, NonceOf(local, a)) == Some(t)
    ensures GasMeter(t.tx).Some?
  {
  }

  lemma SkipStep(
    size: Size, q0: Queues, q: Queues, start: map<Address, u64>, local: map<Address, u64>, skip: set<Pick>,
    picks: seq<Pick>, out: seq<SignedTx>, addr: Address, signed: SignedTx, maxGas: u64, maxBytes: u32)
    requires Selecting(size, q0, q, start, local, skip, picks, out, maxGas, maxBytes)
    requires BestOffer(q, local, skip, addr, signed) && !FitsAfter(size, out, signed, maxGas, maxBytes)
    ensures Selecting(size, q0, q, start, local, skip + {(addr, NonceOf(local, addr))}, picks, out, maxGas, maxBytes)
  {
    hide Greedy;
    hide Without;
    hide LocalFollows;
  }

  lemma TakeStep(
    size: Size, q0: Queues, q: Queues, q': Queues, start: map<Address, u64>, local: map<Address, u64>, skip: set<Pick>,
    picks: seq<Pick>, out: seq<SignedTx>, addr: Address, signed: SignedTx, maxGas: u64, maxBytes: u32)
    requires Selecting(size, q0, q, start, local, skip, picks, out, maxGas, maxBytes)
    requires BestOffer(q, local, skip, addr, signed) && FitsAfter(size, out, signed, maxGas, maxBytes)
    requires Removed(q', q, addr, NonceOf(local, addr))
    ensures var n := NonceOf(local, addr);
            && Selecting(size, q0, q', start, local[addr := NextNonce(n)], skip, picks + [(addr, n)], out + [signed],
                         maxGas, maxBytes)
            && Entries(q') == Entries(q) - {(addr, n)}
    ensures GasSum(out + [signed]) == GasSum(out) + Cost(signed)
    ensures ByteSum(size, out + [signed]) == ByteSum(size, out) + Len(size, signed)
  {
    hide FitsAfter;
    hide Greedy;
    hide Without;
    hide LocalFollows;
    hide SkipsMisfit;
    hide AllFit;
    hide BestOffer;
    hide Removed;
    var n := NonceOf(local, addr);
    OfferFacts(q, local, skip, addr, signed);
    PickIsGreedy(size, q0, q, start, local, skip, picks, out, addr, signed, maxGas, maxBytes);
    SkipsStay(size, q, q', skip, out, signed, maxGas, maxBytes, addr, n);
    EntriesShrink(q, q', addr, n);
    RemovedFromPool(q0, q, q', picks, addr, n);
    AllFitGrows(size, out, signed, maxGas, maxBytes);
  }

  lemma {:induction false} CountGrows(picks: seq<Pick>, j: nat, a: Address)
    requires j <= |picks|
    ensures Count(picks[..j], a) <= Count(picks, a)
    ensures j < |picks| && picks[j].0 == a ==> Count(picks[..j], a) < Count(picks, a)
    decreases |picks|
  {
    if j == |picks| {
      assert picks[..j] == picks;
    } else {
      var init := picks[..|picks| - 1];
      CountGrows(init, j, a);
      assert init[..j] == picks[..j];
    }
  }

  lemma CountAfter(picks: seq<Pick>, p: Pick, a: Address)
    ensures Count(picks + [p], a) == Count(picks, a) + (if p.0 == a then 1 else 0)
  {
    assert (picks + [p])[..|picks|] == picks;
  }

  /** An account's next nonce has not been picked yet. */
  lemma NextNotPicked(
    size: Size, q0: Queues, start: map<Address, u64>, picks: seq<Pick>, out: seq<SignedTx>, maxGas: u64, maxBytes: u32,
    a: Address)
    requires Greedy(size, q0, start, picks, out, maxGas, maxBytes)
    requires NonceAfter(start, picks, a) <= U64_MAX
    ensures (a, NonceAfter(start, picks, a)) !in picks
  {
    forall j | 0 <= j < |picks| ensures picks[j] != (a, NonceAfter(start, picks, a)) {
      assert GreedyPick(size, q0, start, picks, out, j, maxGas, maxBytes);
      CountGrows(picks, j, a);
    }
  }

  /** A next transaction that is priced and fits is on offer. */
  lemma NextIsOffered(
    size: Size, q0: Queues, q: Queues, start: map<Address, u64>, local: map<Address, u64>, skip: set<Pick>,
    picks: seq<Pick>, out: seq<SignedTx>, maxGas: u64, maxBytes: u32, a: Address)
    requires Greedy(size, q0, start, picks, out, maxGas, maxBytes) && Without(q, q0, picks)
    requires LocalFollows(start, local, picks) && SkipsMisfit(size, q, skip, out, maxGas, maxBytes)
    requires var n := NonceAfter(start, picks, a);
             n <= U64_MAX && Lookup(q0, a, n).Some? && FeePriority(q0[a][n]).Some?
             && FitsAfter(size, out, q0[a][n], maxGas, maxBytes)
    ensures Offers(q, local, skip, a) && NonceOf(local, a) == NonceAfter(start, picks, a)
    ensures q[a][NonceOf(local, a)] == q0[a][NonceOf(local, a)]
  {
    var n := NonceAfter(start, picks, a);
    NextNotPicked(size, q0, start, picks, out, maxGas, maxBytes, a);
    assert NonceOf(local, a) == n;
    assert Lookup(q, a, n) == Lookup(q0, a, n);
    assert (a, n) !in skip;
  }

  lemma SaturatedAtExit(
    size: Size, q0: Queues, q: Queues, start: map<Address, u64>, local: map<Address, u64>, skip: set<Pick>,
    picks: seq<Pick>, out: seq<SignedTx>, maxGas: u64, maxBytes: u32)
    requires Selecting(size, q0, q, start, local, skip, picks, out, maxGas, maxBytes)
    requires forall a :: !Offers(q, local, skip, a)
    ensures Saturated(size, q0, start, picks, out, maxGas, maxBytes)
    ensures Greedy(size, q0, start, picks, out, maxGas, maxBytes) && Without(q, q0, picks)
  {
    forall a | var n := NonceAfter(start, picks, a);
               n <= U64_MAX && Lookup(q0, a, n).Some? && FeePriority(q0[a][n]).Some?
      ensures !FitsAfter(size, out, q0[a][NonceAfter(start, picks, a)], maxGas, maxBytes)
    {
      if FitsAfter(size, out, q0[a][NonceAfter(start, picks, a)], maxGas, maxBytes) {
        NextIsOffered(size, q0, q, start, local, skip, picks, out, maxGas, maxBytes, a);
      }
    }
  }

  /** The best offer is the account's next nonce, and no better next transaction fits. */
  lemma OfferIsGreedy(
    size: Size, q0: Queues, q: Queues, start: map<Address, u64>, local: map<Address, u64>, skip: set<Pick>,
    picks: seq<Pick>, out: seq<SignedTx>, addr: Address, signed: SignedTx, maxGas: u64, maxBytes: u32)
    requires Greedy(size, q0, start, picks, out, maxGas, maxBytes) && Without(q, q0, picks)
    requires LocalFollows(start, local, picks) && SkipsMisfit(size, q, skip, out, maxGas, maxBytes)
    requires BestOffer(q, local, skip, addr, signed)
    ensures (addr, NonceOf(local, addr)) !in picks
    ensures NonceOf(local, addr) == NonceAfter(start, picks, addr)
    ensures GreedyPick(size, q0, start, picks + [(addr, NonceOf(local, addr))], out + [signed], |picks|,
                       maxGas, maxBytes)
  {
    var n := NonceOf(local, addr);
    assert Lookup(q, addr, n).Some?;
    assert (addr, n) !in picks;
    assert n == NonceAfter(start, picks, addr);
    var more, outs := picks + [(addr, n)], out + [signed];
    assert more[..|picks|] == picks && outs[..|out|] == out;
    forall a | var m := NonceAfter(start, picks, a);
               m <= U64_MAX && Lookup(q0, a, m).Some? && FeePriority(q0[a][m]).Some?
               && FitsAfter(size, out, q0[a][m], maxGas, maxBytes)
      ensures NoWorse(addr, signed, a, q0[a][NonceAfter(start, picks, a)])
    {
      NextIsOffered(size, q0, q, start, local, skip, picks, out, maxGas, maxBytes, a);
    }
  }

  lemma PickIsGreedy(
    size: Size, q0: Queues, q: Queues, start: map<Address, u64>, local: map<Address, u64>, skip: set<Pick>,
    picks: seq<Pick>, out: seq<SignedTx>, addr: Address, signed: SignedTx, maxGas: u64, maxBytes: u32)
    requires Greedy(size, q0, start, picks, out, maxGas, maxBytes) && Without(q, q0, picks)
    requires LocalFollows(start, local, picks) && SkipsMisfit(size, q, skip, out, maxGas, maxBytes)
    requires BestOffer(q, local, skip, addr, signed)
    requires GasMeter(signed.tx).Some? && FitsAfter(size, out, signed, maxGas, maxBytes)
    ensures AllFit(size, out, maxGas, maxBytes)
    ensures var n := NonceOf(local, addr);
            && Greedy(size, q0, start, picks + [(addr, n)], out + [signed], maxGas, maxBytes)
            && LocalFollows(start, local[addr := NextNonce(n)], picks + [(addr, n)])
  {
    hide BestOffer;
    hide SkipsMisfit;
    hide LocalFollows;
    hide Without;
    hide FitsAfter;
    hide NonceOf;
    var n := NonceOf(local, addr);
    var more, outs := picks + [(addr, n)], out + [signed];
    OfferIsGreedy(size, q0, q, start, local, skip, picks, out, addr, signed, maxGas, maxBytes);
    AllFitGrows(size, out, signed, maxGas, maxBytes);
    forall i | 0 <= i < |more| ensures GreedyPick(size, q0, start, more, outs, i, maxGas, maxBytes) {
      if i < |picks| {
        assert more[..i] == picks[..i] && outs[..i] == out[..i];
        assert GreedyPick(size, q0, start, picks, out, i, maxGas, maxBytes);
      }
    }
    LocalStillFollows(start, local, picks, addr);
  }

  lemma LocalStillFollows(start: map<Address, u64>, local: map<Address, u64>, picks: seq<Pick>, addr: Address)
    requires LocalFollows(start, local, picks)
    requires NonceOf(local, addr) == NonceAfter(start, picks, addr)
    ensures LocalFollows(start, local[addr := NextNonce(NonceOf(local, addr))], picks + [(addr, NonceOf(local, addr))])
  {
    var p: Pick := (addr, NonceOf(local, addr));
    forall a: Address
      ensures && NonceOf(local[addr := NextNonce(p.1)], a) == Min(NonceAfter(start, picks + [p], a), U64_MAX)
                     && (NonceAfter(start, picks + [p], a) > U64_MAX ==> (a, U64_MAX) in picks + [p])
    {
      CountAfter(picks, p, a);
      assert p in picks + [p];
    }
  }

  /** Skipped entries stay queued, and still do not fit once more is taken. */
  lemma SkipsStay(
    size: Size, q: Queues, q': Queues, skip: set<Pick>, out: seq<SignedTx>, t: SignedTx, maxGas: u64, maxBytes: u32,
    addr: Address, n: nat)
    requires SkipsMisfit(size, q, skip, out, maxGas, maxBytes) && (addr, n) !in skip
    requires Removed(q', q, addr, n)
    ensures SkipsMisfit(size, q', skip, out + [t], maxGas, maxBytes)
  {
    assert (out + [t])[..|out|] == out;
    forall a: Address, m: nat | (a, m) in skip
      ensures Lookup(q', a, m).Some? && !FitsAfter(size, out + [t], q'[a][m], maxGas, maxBytes)
    {
      assert Lookup(q', a, m) == Lookup(q, a, m);
    }
  }

  lemma RemovedFromPool(q0: Queues, q: Queues, q': Queues, picks: seq<Pick>, addr: Address, n: nat)
    requires Without(q, q0, picks)
    requires Removed(q', q, addr, n)
    ensures Without(q', q0, picks + [(addr, n)])
  {
  }

  lemma EntriesShrink(q: Queues, q': Queues, addr: Address, n: nat)
    requires Lookup(q, addr, n).Some?
    requires Removed(q', q, addr, n)
    ensures Entries(q') == Entries(q) - {(addr, n)} && (addr, n) in Entries(q)
  {
    forall a: Address, m: nat ensures (a, m) in Entries(q') <==> (a, m) in Entries(q) - {(addr, n)} {
      assert (a, m) in Entries(q') <==> Lookup(q', a, m).Some?;
      assert (a, m) in Entries(q) <==> Lookup(q, a, m).Some?;
    }
  }
}
