/** What the waves of `crates/execution/src/stm/schedule.rs` are for: the transactions of one wave can run in
    any order, exactly on ledgers where no transaction leaks an operator. */
module Waves {
  import opened Common
  import opened Staking
  import opened Ledger
  import opened Footprint
  import opened Optimistic
  import opened Schedule

  /** The keys a transaction read and wrote when it was speculated on `pre`. */
  ghost function AccessOf(env: Env, pre: State, s: SignedTx): Access {
    var r := Effect(env, pre, s);
    Access(SpecReads(env, s, r), SpecWrites(env, s, r))
  }

  ghost function Accesses(env: Env, pre: State, txs: seq<SignedTx>): seq<Access> {
    seq(|txs|, i requires 0 <= i < |txs| => AccessOf(env, pre, txs[i]))
  }

  /** Nothing that one of them writes is read or written by another. */
  ghost predicate Apart(env: Env, pre: State, txs: seq<SignedTx>) {
    forall i, j :: 0 <= i < |txs| && 0 <= j < |txs| && i != j ==>
                     !Hits(AccessOf(env, pre, txs[i]), AccessOf(env, pre, txs[j]))
  }

  ghost predicate NoLeak(env: Env, pre: State, txs: seq<SignedTx>) {
    forall s :: s in txs ==> !Leaks(env, pre, s)
  }

  /** Everything the speculations wrote. */
  ghost function Written(env: Env, pre: State, txs: seq<SignedTx>): set<Key> {
    if txs == [] then {}
    else Written(env, pre, txs[..|txs| - 1]) + AccessOf(env, pre, txs[|txs| - 1]).writeSet
  }

  lemma {:induction false} WrittenIff(env: Env, pre: State, txs: seq<SignedTx>, k: Key)
    ensures k in Written(env, pre, txs) <==> exists i :: 0 <= i < |txs| && k in AccessOf(env, pre, txs[i]).writeSet
  {
    hide AccessOf;
    if txs != [] {
      var n := |txs| - 1;
      WrittenIff(env, pre, txs[..n], k);
      if i :| 0 <= i < |txs| && k in AccessOf(env, pre, txs[i]).writeSet {
        assert i < n ==> txs[..n][i] == txs[i];
      }
      if i :| 0 <= i < n && k in AccessOf(env, pre, txs[..n][i]).writeSet {
        assert txs[..n][i] == txs[i];
      }
    }
  }

  /** A leak is decided under the transaction's own keys. */
  lemma LeakLocal(env: Env, v: State, w: State, s: SignedTx)
    requires SameOn(v, w, InferredKeys(env, s))
    ensures Leaks(env, v, s) <==> Leaks(env, w, s)
  {
    if s.sender.Some? && s.tx.payload.Stake? {
      assert SameAt(v, w, AccountKey(s.sender.value)) && SameAt(v, w, StakingKey);
    }
  }

  // -------------------------------------------------------------- entry by entry

  /** Two states agree on one entry; an account key stands for the account and its code alone. */
  ghost predicate EqAt(v: State, w: State, k: Key) {
    match k
    case AccountKey(a) => SameEntry(v.accounts, w.accounts, a) && SameEntry(v.code, w.code, a)
    case StorageKey(slot) => SameEntry(v.storage, w.storage, slot)
    case StakingKey => v.staking == w.staking
  }

  lemma EqEverywhere(v: State, w: State)
    requires forall k: Key :: EqAt(v, w, k)
    ensures v == w
  {
    forall a: Address ensures SameEntry(v.accounts, w.accounts, a) && SameEntry(v.code, w.code, a) {
      assert EqAt(v, w, AccountKey(a));
    }
    forall slot: SlotKey ensures SameEntry(v.storage, w.storage, slot) {
      assert EqAt(v, w, StorageKey(slot));
    }
    SameEverywhere(v.accounts, w.accounts);
    SameEverywhere(v.code, w.code);
    SameEverywhere(v.storage, w.storage);
    assert EqAt(v, w, StakingKey);
  }

  /** Nothing is deleted on the way from `pre` to `src`. */
  ghost predicate Grows(pre: State, src: State) {
    pre.accounts.Keys <= src.accounts.Keys && pre.code.Keys <= src.code.Keys && pre.storage.Keys <= src.storage.Keys
  }

  lemma MergeAt(pre: State, dst: State, src: State, keys: set<Key>, k: Key)
    requires Grows(pre, src) && (k in keys ==> EqAt(dst, pre, k))
    ensures EqAt(Merge(dst, src, keys), if k in keys then src else dst, k)
  {
    match k {
      case AccountKey(a) => assert a in Addresses(keys) <==> k in keys;
      case StorageKey(slot) => assert slot in SlotsOf(keys) <==> k in keys;
      case StakingKey =>
    }
  }

  /** After a wave every entry is what the one speculation that wrote it left, or what it was before. */
  ghost predicate Settled(env: Env, pre: State, txs: seq<SignedTx>, w: State, k: Key) {
    && (forall i :: 0 <= i < |txs| && k in AccessOf(env, pre, txs[i]).writeSet ==>
                      EqAt(w, Effect(env, pre, txs[i]).state, k))
    && (k !in Written(env, pre, txs) ==> EqAt(w, pre, k))
  }

  lemma EqAtTrans(u: State, v: State, w: State, k: Key)
    requires EqAt(u, v, k) && EqAt(v, w, k)
    ensures EqAt(u, w, k)
  {
  }

  lemma EffectGrows(env: Env, pre: State, s: SignedTx)
    ensures Grows(pre, Effect(env, pre, s).state)
  {
    hide Effect;
    EffectFrame(env, pre, s);
  }

  /** One more transaction of the wave finds its keys as they were. */
  lemma NextIsFresh(env: Env, pre: State, txs: seq<SignedTx>)
    requires txs != [] && Apart(env, pre, txs)
    ensures var (before, last) := (txs[..|txs| - 1], AccessOf(env, pre, txs[|txs| - 1]));
            && Apart(env, pre, before)
            && forall k :: k in last.readSet + last.writeSet ==> k !in Written(env, pre, before)
  {
    hide AccessOf;
    var n := |txs| - 1;
    var before, last := txs[..n], AccessOf(env, pre, txs[n]);
    forall k | k in last.readSet + last.writeSet ensures k !in Written(env, pre, before) {
      WrittenIff(env, pre, before, k);
      forall i | 0 <= i < n ensures k !in AccessOf(env, pre, before[i]).writeSet {
        assert before[i] == txs[i] && !Hits(AccessOf(env, pre, txs[i]), last);
        assert k !in AccessOf(env, pre, txs[i]).writeSet * (last.readSet + last.writeSet);
      }
    }
  }

  /** One more speculation is merged. */
  lemma SettledStep(env: Env, pre: State, txs: seq<SignedTx>, now: State, k: Key)
    requires txs != [] && Apart(env, pre, txs)
    requires Settled(env, pre, txs[..|txs| - 1], now, k)
    ensures var s := txs[|txs| - 1];
            Settled(env, pre, txs, Merge(now, Effect(env, pre, s).state, AccessOf(env, pre, s).writeSet), k)
  {
    hide Effect;
    hide AccessOf;
    hide Merge;
    hide EqAt;
    var n := |txs| - 1;
    var before, s := txs[..n], txs[n];
    var spec, keys := Effect(env, pre, s), AccessOf(env, pre, s).writeSet;
    var w := Merge(now, spec.state, keys);
    NextIsFresh(env, pre, txs);
    EffectGrows(env, pre, s);
    MergeAt(pre, now, spec.state, keys, k);
    forall i | 0 <= i < |txs| && k in AccessOf(env, pre, txs[i]).writeSet
      ensures EqAt(w, Effect(env, pre, txs[i]).state, k)
    {
      if i < n {
        assert before[i] == txs[i];
        WrittenIff(env, pre, before, k);
        EqAtTrans(w, now, Effect(env, pre, txs[i]).state, k);
      }
    }
    if k !in Written(env, pre, txs) {
      EqAtTrans(w, now, pre, k);
    }
  }

  /** A wave runs as if each of its transactions ran alone. */
  lemma {:induction false} WaveSettles(env: Env, pre: State, txs: seq<SignedTx>)
    requires Apart(env, pre, txs) && NoLeak(env, pre, txs)
    ensures var run := RunTxs(env, pre, txs);
            && UnmovedIsPre(pre, run.state, Written(env, pre, txs))
            && (forall k: Key :: Settled(env, pre, txs, run.state, k))
            && forall i :: 0 <= i < |txs| ==> run.receipts[i] == Effect(env, pre, txs[i]).receipt
  {
    hide Effect;
    hide Merge;
    hide EqAt;
    hide Leaks;
    if txs == [] {
      forall k: Key ensures EqAt(pre, pre, k) {
        EqAtSelf(pre, k);
      }
    } else {
      var n := |txs| - 1;
      var before, s := txs[..n], txs[n];
      NextIsFresh(env, pre, txs);
      WaveSettles(env, pre, before);
      var now, moved := RunTxs(env, pre, before).state, Written(env, pre, before);
      assert !Stale(env, pre, moved, s);
      UnflaggedAgrees(env, pre, now, moved, s);
      LeakLocal(env, pre, now, s);
      assert s in txs;
      MergeIsEffect(env, pre, now, s);
      CommitKeepsUnmoved(env, pre, now, s, moved, AccessOf(env, pre, s).writeSet);
      EffectLocal(env, pre, now, s);
      forall k: Key ensures Settled(env, pre, txs, RunTxs(env, pre, txs).state, k) {
        SettledStep(env, pre, txs, now, k);
      }
      forall i | 0 <= i < n ensures before[i] == txs[i] {}
    }
  }

  lemma EqAtSelf(w: State, k: Key)
    ensures EqAt(w, w, k)
  {
  }

  // ------------------------------------------------------------------ any order

  predicate Within(order: seq<nat>, n: nat) {
    forall p :: 0 <= p < |order| ==> order[p] < n
  }

  /** The transactions of a block at these positions, in this order. */
  function Pick(block: seq<SignedTx>, order: seq<nat>): seq<SignedTx>
    requires Within(order, |block|)
  {
    seq(|order|, p requires 0 <= p < |order| => block[order[p]])
  }

  ghost predicate NoRepeats(order: seq<nat>) {
    forall p, q :: 0 <= p < q < |order| ==> order[p] != order[q]
  }

  /** The same positions, each once, in another order. */
  ghost predicate Reordered(wave: seq<nat>, order: seq<nat>) {
    NoRepeats(wave) && NoRepeats(order) && forall i :: i in wave <==> i in order
  }

  lemma PickApart(env: Env, pre: State, block: seq<SignedTx>, order: seq<nat>)
    requires Within(order, |block|) && NoRepeats(order)
    requires NoClash(Accesses(env, pre, block), order)
    ensures Apart(env, pre, Pick(block, order))
  {
    hide AccessOf;
    hide Hits;
    var txs, specs := Pick(block, order), Accesses(env, pre, block);
    forall p, q | 0 <= p < |txs| && 0 <= q < |txs| && p != q
      ensures !Hits(AccessOf(env, pre, txs[p]), AccessOf(env, pre, txs[q]))
    {
      assert order[p] in order && order[q] in order && order[p] != order[q];
      assert specs[order[p]] == AccessOf(env, pre, txs[p]) && specs[order[q]] == AccessOf(env, pre, txs[q]);
    }
  }

  /** Settled entries do not know the order. */
  lemma SettledSame(env: Env, pre: State, a: seq<SignedTx>, b: seq<SignedTx>, v: State, w: State, k: Key)
    requires (forall s :: s in a <==> s in b) && Settled(env, pre, a, v, k) && Settled(env, pre, b, w, k)
    ensures EqAt(v, w, k)
  {
    hide Effect;
    hide AccessOf;
    hide Written;
    WrittenIff(env, pre, a, k);
    WrittenIff(env, pre, b, k);
    if i :| 0 <= i < |a| && k in AccessOf(env, pre, a[i]).writeSet {
      assert a[i] in b;
      var j :| 0 <= j < |b| && b[j] == a[i];
      EqAtSym(w, Effect(env, pre, a[i]).state, k);
      EqAtTrans(v, Effect(env, pre, a[i]).state, w, k);
    } else {
      forall j | 0 <= j < |b| ensures k !in AccessOf(env, pre, b[j]).writeSet {
        assert b[j] in a;
        var i :| 0 <= i < |a| && a[i] == b[j];
      }
      EqAtSym(w, pre, k);
      EqAtTrans(v, pre, w, k);
    }
  }

  lemma EqAtSym(v: State, w: State, k: Key)
    requires EqAt(v, w, k)
    ensures EqAt(w, v, k)
  {
  }

  /** The transactions of a wave end in one state in every order, each with the receipt of its speculation. */
  lemma AnyOrder(env: Env, pre: State, block: seq<SignedTx>, wave: seq<nat>, order: seq<nat>)
    requires Within(wave, |block|) && Reordered(wave, order)
    requires NoClash(Accesses(env, pre, block), wave) && NoLeak(env, pre, Pick(block, wave))
    ensures Within(order, |block|)
    ensures RunTxs(env, pre, Pick(block, order)).state == RunTxs(env, pre, Pick(block, wave)).state
    ensures forall p :: 0 <= p < |order| ==>
              RunTxs(env, pre, Pick(block, order)).receipts[p] == Effect(env, pre, block[order[p]]).receipt
  {
    hide Effect;
    hide RunTxs;
    hide Settled;
    hide EqAt;
    hide UnmovedIsPre;
    hide Leaks;
    forall p | 0 <= p < |order| ensures order[p] < |block| {
      assert order[p] in wave;
    }
    var a, b := Pick(block, wave), Pick(block, order);
    PickApart(env, pre, block, wave);
    PickApart(env, pre, block, order);
    SamePicks(block, wave, order);
    WaveSettles(env, pre, a);
    WaveSettles(env, pre, b);
    var v, w := RunTxs(env, pre, b).state, RunTxs(env, pre, a).state;
    forall k: Key ensures EqAt(v, w, k) {
      SettledSame(env, pre, b, a, v, w, k);
    }
    EqEverywhere(v, w);
  }

  lemma SamePicks(block: seq<SignedTx>, wave: seq<nat>, order: seq<nat>)
    requires Within(wave, |block|) && Within(order, |block|) && (forall i :: i in wave <==> i in order)
    ensures forall s :: s in Pick(block, wave) <==> s in Pick(block, order)
  {
    forall s ensures s in Pick(block, wave) <==> s in Pick(block, order) {
      PickedIff(block, wave, s);
      PickedIff(block, order, s);
    }
  }

  lemma PickedIff(block: seq<SignedTx>, order: seq<nat>, s: SignedTx)
    requires Within(order, |block|)
    ensures s in Pick(block, order) <==> exists i: nat :: i in order && i < |block| && block[i] == s
  {
    var txs := Pick(block, order);
    if s in txs {
      var p :| 0 <= p < |txs| && txs[p] == s;
      assert order[p] in order && order[p] < |block|;
    }
    if i: nat :| i in order && i < |block| && block[i] == s {
      var p :| 0 <= p < |order| && order[p] == i;
      assert txs[p] == s;
    }
  }

  /** Every wave of every block on this ledger may run in any order. */
  ghost predicate Commutes(env: Env, pre: State) {
    forall block, wave, order ::
      Within(wave, |block|) && Within(order, |block|) && Reordered(wave, order)
      && NoClash(Accesses(env, pre, block), wave)
      ==> RunTxs(env, pre, Pick(block, order)).state == RunTxs(env, pre, Pick(block, wave)).state
  }

  /** The sender of a leaking bond taking the whole bond out again, with the same nonce. */
  function TakeOut(pre: State, s: SignedTx): SignedTx
    requires s.tx.payload.Stake? && s.tx.payload.stake.validator.Some?
  {
    var id := s.tx.payload.stake.validator;
    s.(tx := Tx(s.tx.nonce, 21_000, 0, Stake(StakePayload(Unbond, id, SelfBond(pre.staking, id.value)))))
  }

  /** Before the leak the sender has no right to the bond; after it, it has. */
  lemma TakeOutNeedsLeak(env: Env, pre: State, s: SignedTx)
    requires Leaks(env, pre, s)
    ensures var (t, id) := (TakeOut(pre, s), s.tx.payload.stake.validator.value);
            var leaked := Effect(env, pre, s).state;
            && SelfBond(pre.staking, id) > 0
            && leaked == pre.(staking := pre.staking.(operator := pre.staking.operator[id := s.sender.value]))
            && Effect(env, pre, t).state == pre && !Effect(env, pre, t).receipt.success
            && SelfBond(Effect(env, leaked, t).state.staking, id) == 0
  {
  }

  lemma RunTwo(env: Env, pre: State, a: SignedTx, b: SignedTx)
    ensures RunTxs(env, pre, [a, b]).state == Effect(env, Effect(env, pre, a).state, b).state
  {
    hide Effect;
    assert [a, b][..1] == [a] && [a][..0] == [];
    assert RunTxs(env, pre, [a]).state == Effect(env, pre, a).state;
  }

  lemma LeakBreaksOrder(env: Env, pre: State, s: SignedTx)
    requires Leaks(env, pre, s)
    ensures !Commutes(env, pre)
  {
    hide Effect;
    hide Hits;
    LeakRefused(env, pre, s);
    TakeOutNeedsLeak(env, pre, s);
    var t := TakeOut(pre, s);
    hide Leaks;
    var block, wave, order := [s, t], [0, 1], [1, 0];
    RunTwo(env, pre, s, t);
    RunTwo(env, pre, t, s);
    assert Pick(block, wave) == [s, t] && Pick(block, order) == [t, s];
    NoWrites(env, pre, s, t);
    assert 0 in wave && 1 in wave && 0 in order && 1 in order;
    assert Reordered(wave, order);
  }

  /** Two refused transactions do not clash. */
  lemma NoWrites(env: Env, pre: State, s: SignedTx, t: SignedTx)
    requires !Effect(env, pre, s).receipt.success && !Effect(env, pre, t).receipt.success
    ensures NoClash(Accesses(env, pre, [s, t]), [0, 1])
  {
    hide Effect;
    RefusalLeavesStateIff(env, pre, s);
    RefusalLeavesStateIff(env, pre, t);
    assert AccessOf(env, pre, s).writeSet == {} && AccessOf(env, pre, t).writeSet == {};
    hide AccessOf;
    var specs := Accesses(env, pre, [s, t]);
    assert specs[0] == AccessOf(env, pre, s) && specs[1] == AccessOf(env, pre, t);
  }

  /** The waves of a ledger keep their promise exactly when no transaction leaks on it. */
  lemma WavesCommuteIff(env: Env, pre: State)
    ensures Commutes(env, pre) <==> forall s :: !Leaks(env, pre, s)
  {
    hide Leaks;
    hide RunTxs;
    hide NoClash;
    hide Reordered;
    if s :| Leaks(env, pre, s) {
      LeakBreaksOrder(env, pre, s);
    } else {
      forall block, wave, order |
        Within(wave, |block|) && Within(order, |block|) && Reordered(wave, order)
        && NoClash(Accesses(env, pre, block), wave)
        ensures RunTxs(env, pre, Pick(block, order)).state == RunTxs(env, pre, Pick(block, wave)).state
      {
        AnyOrder(env, pre, block, wave, order);
      }
    }
  }
}
