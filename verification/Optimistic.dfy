/** The commit loop of `crates/execution/src/stm/reexec.rs` as a function, and exactly when it agrees
    with sequential execution. */
module Optimistic {
  import opened Common
  import opened Staking
  import opened Ledger
  import opened Footprint
  import opened History

  /** What is committed so far, and every key some commit has bumped. */
  datatype Progress = Progress(run: Run, moved: set<Key>)

  /** One turn: re-run a flagged transaction, merge the speculation of any other. */
  ghost function Turn(env: Env, pre: State, at: Progress, s: SignedTx, flagged: bool): Progress {
    if flagged then
      var e := Effect(env, at.run.state, s);
      Progress(Run(e.state, at.run.receipts + [e.receipt]),
               at.moved + ((if e.receipt.success then InferredKeys(env, s) else {}) + StorageKeys(e.writeSet)))
    else
      var spec := Effect(env, pre, s);
      Progress(Run(Merge(at.run.state, spec.state, SpecWrites(env, s, spec)), at.run.receipts + [spec.receipt]),
               at.moved + SpecWrites(env, s, spec))
  }

  /** Something the speculation read has been bumped since. */
  ghost predicate Stale(env: Env, pre: State, moved: set<Key>, s: SignedTx) {
    exists k :: k in SpecReads(env, s, Effect(env, pre, s)) && k in moved
  }

  /** Commit in block order, with the transactions in `forced` flagged from the start. */
  ghost function CommitAll(env: Env, pre: State, txs: seq<SignedTx>, forced: set<nat>): Progress {
    if txs == [] then Progress(Run(pre, []), {})
    else
      var n, s := |txs| - 1, txs[|txs| - 1];
      var before := CommitAll(env, pre, txs[..n], forced);
      Turn(env, pre, before, s, n in forced || Stale(env, pre, before.moved, s))
  }

  /** The speculation of `s` writes something the one of `t` reads or writes. */
  ghost predicate Clobbers(env: Env, pre: State, s: SignedTx, t: SignedTx) {
    var mine, theirs := Effect(env, pre, s), Effect(env, pre, t);
    SpecWrites(env, s, mine) * (SpecReads(env, t, theirs) + SpecWrites(env, t, theirs)) != {}
  }

  ghost function Clobbered(env: Env, pre: State, txs: seq<SignedTx>): set<nat> {
    set j | 0 <= j < |txs| && exists i :: 0 <= i < j && Clobbers(env, pre, txs[i], txs[j])
  }

  /** What the engine makes of a block. */
  ghost function EngineRun(env: Env, pre: State, txs: seq<SignedTx>): Run {
    CommitAll(env, pre, txs, Clobbered(env, pre, txs)).run
  }

  // ---------------------------------------------------------- sufficient per block

  /** A key no commit has bumped holds its pre-block contents. */
  ghost predicate UnmovedIsPre(pre: State, w: State, moved: set<Key>) {
    forall k :: k !in moved ==> SameAt(pre, w, k)
  }

  /** A staking transaction of the sequential run has succeeded. */
  ghost predicate StakingMoved(env: Env, pre: State, txs: seq<SignedTx>) {
    exists j :: && 0 <= j < |txs| && txs[j].tx.payload.Stake?
                && Effect(env, RunTxs(env, pre, txs[..j]).state, txs[j]).receipt.success
  }

  /** In the sequential run, a refused bond that still records an operator only comes after a
      staking transaction of the same block has succeeded. */
  ghost predicate NoLostLeak(env: Env, pre: State, txs: seq<SignedTx>) {
    forall i ::
      0 <= i < |txs| && Leaks(env, RunTxs(env, pre, txs[..i]).state, txs[i]) ==> StakingMoved(env, pre, txs[..i])
  }

  lemma SameAtTrans(u: State, v: State, w: State, k: Key)
    requires SameAt(u, v, k) && SameAt(v, w, k)
    ensures SameAt(u, w, k)
  {
    if k.AccountKey? {
      forall s: SlotKey | s.contract == k.addr ensures SameEntry(u.storage, w.storage, s) {
        assert SameEntry(u.storage, v.storage, s) && SameEntry(v.storage, w.storage, s);
      }
    }
  }

  /** A refused transaction changes the staking book at most. */
  lemma RefusalKeepsTheRest(env: Env, w: State, s: SignedTx)
    requires !Effect(env, w, s).receipt.success
    ensures Effect(env, w, s).state == w.(staking := Effect(env, w, s).state.staking)
  {
    hide Staking.Apply;
  }

  /** Committing a transaction and bumping its keys keeps unmoved keys at their pre-block contents.
      A successful call bumps the contract's account key, so the agreement on the contract's whole
      storage survives even though single slots are not tracked. */
  lemma CommitKeepsUnmoved(env: Env, pre: State, w: State, s: SignedTx, moved: set<Key>, keys: set<Key>)
    requires UnmovedIsPre(pre, w, moved)
    requires Leaks(env, w, s) ==> StakingKey in moved
    requires Effect(env, w, s).receipt.success ==> InferredKeys(env, s) <= keys
    ensures UnmovedIsPre(pre, Effect(env, w, s).state, moved + keys)
  {
    hide Effect;
    hide Leaks;
    var w' := Effect(env, w, s).state;
    EffectFrame(env, w, s);
    if !Effect(env, w, s).receipt.success {
      RefusalLeavesStateIff(env, w, s);
      RefusalKeepsTheRest(env, w, s);
    }
    forall k | k !in moved + keys ensures SameAt(pre, w', k) {
      assert SameAt(pre, w, k);
      assert SameAt(w, w', k);
      SameAtTrans(pre, w, w', k);
    }
  }

  /** While the committed state agrees with the pre-block state on a transaction's keys, merging its
      speculation is running it, exactly when it does not leak. */
  lemma CommitIffNoLeak(env: Env, pre: State, w: State, s: SignedTx)
    requires SameOn(pre, w, InferredKeys(env, s))
    ensures var spec := Effect(env, pre, s);
            Merge(w, spec.state, SpecWrites(env, s, spec)) == Effect(env, w, s).state <==> !Leaks(env, w, s)
  {
    hide Effect;
    var spec := Effect(env, pre, s);
    if Leaks(env, w, s) {
      LeakRefused(env, w, s);
      EffectLocal(env, pre, w, s);
      RefusalLeavesStateIff(env, w, s);
      RefusalLeavesStateIff(env, pre, s);
      assert SpecWrites(env, s, spec) == {};
      MergeNothing(w, spec.state);
    } else {
      MergeIsEffect(env, pre, w, s);
    }
  }

  /** A leaking bond is refused, and the sender stays recorded as the operator there was none of. */
  lemma LeakRefused(env: Env, w: State, s: SignedTx)
    requires Leaks(env, w, s)
    ensures !Effect(env, w, s).receipt.success
    ensures Effect(env, w, s).state.staking.operator
         == w.staking.operator[s.tx.payload.stake.validator.value := s.sender.value] != w.staking.operator
  {
    assert s.tx.payload.stake.validator.value in Effect(env, w, s).state.staking.operator;
  }

  lemma UnflaggedAgrees(env: Env, pre: State, w: State, moved: set<Key>, s: SignedTx)
    requires UnmovedIsPre(pre, w, moved) && !Stale(env, pre, moved, s)
    ensures SameOn(pre, w, InferredKeys(env, s))
  {
    hide Effect;
    forall k | k in InferredKeys(env, s) ensures SameAt(pre, w, k) {
      assert k in SpecReads(env, s, Effect(env, pre, s));
    }
  }

  /** One turn of the loop is one sequential step, unless it loses a leak. */
  lemma TurnIsStep(env: Env, pre: State, at: Progress, s: SignedTx, forced: bool)
    requires UnmovedIsPre(pre, at.run.state, at.moved)
    requires Leaks(env, at.run.state, s) ==> StakingKey in at.moved
    ensures var e := Effect(env, at.run.state, s);
            var after := Turn(env, pre, at, s, forced || Stale(env, pre, at.moved, s));
            && after.run == Run(e.state, at.run.receipts + [e.receipt])
            && UnmovedIsPre(pre, e.state, after.moved)
            && (StakingKey in after.moved <==> StakingKey in at.moved || (s.tx.payload.Stake? && e.receipt.success))
  {
    hide Effect;
    hide Leaks;
    hide Merge;
    var w := at.run.state;
    var e, spec := Effect(env, w, s), Effect(env, pre, s);
    if forced || Stale(env, pre, at.moved, s) {
      var keys := (if e.receipt.success then InferredKeys(env, s) else {}) + StorageKeys(e.writeSet);
      CommitKeepsUnmoved(env, pre, w, s, at.moved, keys);
    } else {
      if Leaks(env, w, s) {
        LeakReadsStaking(env, pre, w, s);
      }
      UnflaggedAgrees(env, pre, w, at.moved, s);
      MergeIsEffect(env, pre, w, s);
      CommitKeepsUnmoved(env, pre, w, s, at.moved, SpecWrites(env, s, spec));
    }
  }

  lemma LeakReadsStaking(env: Env, pre: State, w: State, s: SignedTx)
    requires Leaks(env, w, s)
    ensures StakingKey in SpecReads(env, s, Effect(env, pre, s))
  {
    hide Effect;
  }

  /** Whatever was flagged beforehand, a block that loses no leak is committed as it runs sequentially. */
  lemma {:induction false} CommitIsSequential(env: Env, pre: State, txs: seq<SignedTx>, forced: set<nat>)
    requires NoLostLeak(env, pre, txs)
    ensures var p := CommitAll(env, pre, txs, forced);
            && p.run == RunTxs(env, pre, txs) && UnmovedIsPre(pre, p.run.state, p.moved)
            && (StakingKey in p.moved <==> StakingMoved(env, pre, txs))
  {
    hide Effect;
    hide Turn;
    hide Leaks;
    if txs != [] {
      var n, s := |txs| - 1, txs[|txs| - 1];
      forall i | 0 <= i < n ensures txs[..n][..i] == txs[..i] {}
      CommitIsSequential(env, pre, txs[..n], forced);
      var before := CommitAll(env, pre, txs[..n], forced);
      TurnIsStep(env, pre, before, s, n in forced);
      StakingMovedStep(env, pre, txs);
    }
  }

  lemma StakingMovedStep(env: Env, pre: State, txs: seq<SignedTx>)
    requires txs != []
    ensures var n := |txs| - 1;
            StakingMoved(env, pre, txs) <==>
              StakingMoved(env, pre, txs[..n])
              || (txs[n].tx.payload.Stake? && Effect(env, RunTxs(env, pre, txs[..n]).state, txs[n]).receipt.success)
  {
    hide Effect;
    var n := |txs| - 1;
    forall i | 0 <= i < n ensures txs[..n][..i] == txs[..i] && txs[..n][i] == txs[i] {}
    if StakingMoved(env, pre, txs[..n]) {
      var j :| 0 <= j < n && txs[..n][j].tx.payload.Stake?
               && Effect(env, RunTxs(env, pre, txs[..n][..j]).state, txs[..n][j]).receipt.success;
      assert txs[j].tx.payload.Stake? && Effect(env, RunTxs(env, pre, txs[..j]).state, txs[j]).receipt.success;
    }
  }

  /** A block of one transaction: the engine agrees exactly when the transaction does not leak. */
  lemma OneTransactionIff(env: Env, pre: State, s: SignedTx)
    ensures EngineRun(env, pre, [s]) == RunTxs(env, pre, [s]) <==> !Leaks(env, pre, s)
  {
    hide Effect;
    hide Leaks;
    hide Merge;
    var spec := Effect(env, pre, s);
    assert [s][..0] == [];
    var start := CommitAll(env, pre, [s][..0], {});
    assert start == Progress(Run(pre, []), {});
    assert Clobbered(env, pre, [s]) == {} && !Stale(env, pre, start.moved, s);
    assert EngineRun(env, pre, [s]) == Run(Merge(pre, spec.state, SpecWrites(env, s, spec)), [spec.receipt]);
    assert RunTxs(env, pre, [s]) == Run(spec.state, [spec.receipt]);
    CommitIffNoLeak(env, pre, pre, s);
  }

  // ---------------------------------------------------------- exact per ledger

  /** Somebody could gather enough liquid balance to overflow the bond of a validator that has bonded
      tokens, no operator and no tombstone. */
  ghost predicate Overflowable(p: Params, w: State) {
    var n := Min(Sum(w.accounts, BalanceOf), U128_MAX);
    && p.minSelfBond <= n
    && exists id :: Exposed(w.staking, id, n)
  }

  ghost predicate Exposed(b: Book, id: ValidatorId, n: nat) {
    id !in b.tombstones && id !in b.operator && SelfBond(b, id) + n > U128_MAX
  }

  lemma TransferOnlyFalls(w: State, tx: Tx, to: Address, amount: u128, from: Address, gas: u64)
    ensures Sum(ApplyTransfer(w, tx, to, amount, from, gas).state.accounts, BalanceOf) <= Sum(w.accounts, BalanceOf)
  {
    var sender := AccountOf(w, from);
    if amount + tx.maxFee <= sender.balance {
      var paid := PutAccount(w, from, Charged(sender, amount + tx.maxFee));
      PutBalance(w.accounts, from, Charged(sender, amount + tx.maxFee));
      var recv := AccountOf(paid, to);
      PutBalance(paid.accounts, to, recv.(balance := AddOrKeep(recv.balance, amount)));
    }
  }

  /** Transactions other than staking never add to the liquid balances. */
  lemma BalancesOnlyFall(env: Env, w: State, s: SignedTx)
    requires !s.tx.payload.Stake?
    ensures Sum(Effect(env, w, s).state.accounts, BalanceOf) <= Sum(w.accounts, BalanceOf)
  {
    OthersKeepBook(env, w, s);
    hide ApplyTransfer;
    hide ApplyDeploy;
    hide ApplyCall;
    if s.signatureOk && s.sender.Some? && AccountOf(w, s.sender.value).nonce == s.tx.nonce && GasMeter(s.tx).Some? {
      var from, gas := s.sender.value, GasMeter(s.tx).value;
      match s.tx.payload
      case Transfer(to, amount) => TransferOnlyFalls(w, s.tx, to, amount, from, gas);
      case Deploy(code) => DeployConserves(env, w, s.tx, code, from, gas);
      case Call(c) => CallConserves(env, w, s.tx, c, from, gas);
    }
  }

  lemma OthersKeepBook(env: Env, w: State, s: SignedTx)
    requires !s.tx.payload.Stake?
    ensures Effect(env, w, s).state.staking == w.staking
  {
    hide RunGuest;
  }

  lemma LeakNeedsExposure(env: Env, pre: State, w: State, s: SignedTx)
    requires w.staking == pre.staking && Sum(w.accounts, BalanceOf) <= Sum(pre.accounts, BalanceOf)
    requires Leaks(env, w, s)
    ensures Overflowable(env.params, pre)
  {
    BalanceWithinSupply(w, s.sender.value);
    assert Exposed(pre.staking, s.tx.payload.stake.validator.value, Min(Sum(pre.accounts, BalanceOf), U128_MAX));
  }

  /** Until a staking transaction succeeds, the book is the pre-block one and balances have not grown. */
  lemma {:induction false} BookUntouched(env: Env, pre: State, txs: seq<SignedTx>)
    requires !Overflowable(env.params, pre) && !StakingMoved(env, pre, txs)
    ensures var w := RunTxs(env, pre, txs).state;
            w.staking == pre.staking && Sum(w.accounts, BalanceOf) <= Sum(pre.accounts, BalanceOf)
  {
    hide Effect;
    hide Leaks;
    hide Overflowable;
    if txs != [] {
      var n, s := |txs| - 1, txs[|txs| - 1];
      StakingMovedStep(env, pre, txs);
      BookUntouched(env, pre, txs[..n]);
      var w := RunTxs(env, pre, txs[..n]).state;
      if s.tx.payload.Stake? {
        if Leaks(env, w, s) {
          LeakNeedsExposure(env, pre, w, s);
        }
        RefusalLeavesStateIff(env, w, s);
      } else {
        OthersKeepBook(env, w, s);
        BalancesOnlyFall(env, w, s);
      }
    }
  }

  lemma NoExposureNoLostLeak(env: Env, pre: State, txs: seq<SignedTx>)
    requires !Overflowable(env.params, pre)
    ensures NoLostLeak(env, pre, txs)
  {
    hide Leaks;
    hide Overflowable;
    forall i | 0 <= i < |txs| && Leaks(env, RunTxs(env, pre, txs[..i]).state, txs[i])
      ensures StakingMoved(env, pre, txs[..i])
    {
      if !StakingMoved(env, pre, txs[..i]) {
        BookUntouched(env, pre, txs[..i]);
        LeakNeedsExposure(env, pre, RunTxs(env, pre, txs[..i]).state, txs[i]);
      }
    }
  }

  // A block that diverges: gather the balance, overflow the bond, and if the bond was re-run, overwrite
  // the book with a speculation that has not seen it.

  ghost predicate NoStaking(txs: seq<SignedTx>) {
    forall i :: 0 <= i < |txs| ==> !txs[i].tx.payload.Stake?
  }

  lemma {:induction false} NoStakingKeepsBook(env: Env, pre: State, txs: seq<SignedTx>)
    requires NoStaking(txs)
    ensures RunTxs(env, pre, txs).state.staking == pre.staking && !StakingMoved(env, pre, txs)
            && NoLostLeak(env, pre, txs)
  {
    hide Effect;
    if txs != [] {
      var n := |txs| - 1;
      NoStakingKeepsBook(env, pre, txs[..n]);
      OthersKeepBook(env, RunTxs(env, pre, txs[..n]).state, txs[n]);
    }
  }

  /** The engine bumps only inferred keys and storage slots. */
  lemma {:induction false} MovedWithin(env: Env, pre: State, txs: seq<SignedTx>, forced: set<nat>, k: Key)
    requires k in CommitAll(env, pre, txs, forced).moved
    ensures k.StorageKey? || exists i :: 0 <= i < |txs| && k in InferredKeys(env, txs[i])
  {
    hide Effect;
    hide InferredKeys;
    hide Merge;
    var n := |txs| - 1;
    if k in CommitAll(env, pre, txs[..n], forced).moved {
      MovedWithin(env, pre, txs[..n], forced, k);
      if !k.StorageKey? {
        var i :| 0 <= i < n && k in InferredKeys(env, txs[..n][i]);
        assert k in InferredKeys(env, txs[i]);
      }
    } else if !k.StorageKey? {
      assert k in InferredKeys(env, txs[n]);
    }
  }

  /** Flags past the end do not matter, and the static ones depend on earlier transactions only. */
  lemma {:induction false} FlagsWithin(env: Env, pre: State, txs: seq<SignedTx>, f: set<nat>, g: set<nat>)
    requires forall i :: 0 <= i < |txs| ==> (i in f <==> i in g)
    ensures CommitAll(env, pre, txs, f) == CommitAll(env, pre, txs, g)
  {
    hide Turn;
    hide Stale;
    if txs != [] {
      FlagsWithin(env, pre, txs[..|txs| - 1], f, g);
    }
  }

  lemma ClobberedPrefix(env: Env, pre: State, txs: seq<SignedTx>, t: SignedTx)
    ensures forall i :: 0 <= i < |txs| ==> (i in Clobbered(env, pre, txs + [t]) <==> i in Clobbered(env, pre, txs))
  {
    hide Clobbers;
    var more := txs + [t];
    forall j | 0 <= j < |txs| ensures j in Clobbered(env, pre, more) <==> j in Clobbered(env, pre, txs) {
      assert forall i :: 0 <= i <= j ==> more[i] == txs[i];
      if j in Clobbered(env, pre, more) {
        var i :| 0 <= i < j && Clobbers(env, pre, more[i], more[j]);
        assert Clobbers(env, pre, txs[i], txs[j]);
      }
      if j in Clobbered(env, pre, txs) {
        var i :| 0 <= i < j && Clobbers(env, pre, txs[i], txs[j]);
        assert Clobbers(env, pre, more[i], more[j]);
      }
    }
  }

  /** The engine on a block with one transaction more. */
  lemma EngineExtends(env: Env, pre: State, txs: seq<SignedTx>, t: SignedTx)
    ensures var flags := Clobbered(env, pre, txs + [t]);
            var before := CommitAll(env, pre, txs, Clobbered(env, pre, txs));
            CommitAll(env, pre, txs + [t], flags)
                == Turn(env, pre, before, t, |txs| in flags || Stale(env, pre, before.moved, t))
  {
    hide Turn;
    hide Stale;
    hide Clobbered;
    ClobberedPrefix(env, pre, txs, t);
    FlagsWithin(env, pre, txs, Clobbered(env, pre, txs + [t]), Clobbered(env, pre, txs));
    assert (txs + [t])[..|txs|] == txs;
  }

  lemma SeqExtends(env: Env, pre: State, txs: seq<SignedTx>, t: SignedTx)
    ensures RunTxs(env, pre, txs + [t]).state == Effect(env, RunTxs(env, pre, txs).state, t).state
  {
    hide Effect;
    assert (txs + [t])[..|txs|] == txs;
  }

  lemma {:induction false} FreshAddress(used: set<Address>) returns (a: Address)
    ensures forall u: Address :: u in used ==> u < a
  {
    if used == {} {
      a := 0;
    } else {
      var u :| u in used;
      var b := FreshAddress(used - {u});
      a := if u < b then b else u + 1;
      assert forall x: Address :: x in used ==> x == u || x in used - {u};
    }
  }

  ghost function AddressesOf(env: Env, txs: seq<SignedTx>): set<Address> {
    if txs == [] then {} else Addresses(InferredKeys(env, txs[|txs| - 1])) + AddressesOf(env, txs[..|txs| - 1])
  }

  lemma {:induction false} InAddressesOf(env: Env, txs: seq<SignedTx>, i: nat, a: Address)
    requires i < |txs| && AccountKey(a) in InferredKeys(env, txs[i])
    ensures a in AddressesOf(env, txs)
  {
    hide InferredKeys;
    if i < |txs| - 1 {
      InAddressesOf(env, txs[..|txs| - 1], i, a);
    }
  }

  /** A free withdrawal of nothing: always accepted, and it leaves the book as it was. */
  function Nothing(pre: State, a: Address): SignedTx {
    SignedTx(Tx(AccountOf(pre, a).nonce, GAS_TRANSFER, 0, Stake(StakePayload(Withdraw, None, 0))), true, Some(a))
  }

  lemma NothingHappens(env: Env, pre: State, a: Address)
    ensures var t := Nothing(pre, a);
            && Effect(env, pre, t).receipt.success && Effect(env, pre, t).state.staking == pre.staking
            && Effect(env, pre, t).readSet == {} && Effect(env, pre, t).writeSet == {}
            && InferredKeys(env, t) == {AccountKey(a), StakingKey}
  {
    assert GasMeter(Nothing(pre, a).tx) == Some(GAS_TRANSFER);
  }

  lemma WithdrawKeepsOperators(env: Env, w: State, s: SignedTx)
    requires s.tx.payload.Stake? && s.tx.payload.stake.kind == Withdraw
    ensures Effect(env, w, s).state.staking.operator == w.staking.operator
  {
    hide Drain;
    hide Withdrawable;
    hide WithdrawRefusal;
    hide GasMeter;
  }

  /** The leaking bond is refused on the pre-block state too, whatever the balances are. */
  lemma LeakRefusedEarlier(env: Env, pre: State, w: State, s: SignedTx)
    requires w.staking == pre.staking && Leaks(env, w, s)
    ensures !Effect(env, pre, s).receipt.success && SpecWrites(env, s, Effect(env, pre, s)) == {}
  {
  }

  /** The speculations before `t` write nothing that `t` touches. */
  lemma NothingUnclobbered(env: Env, pre: State, txs: seq<SignedTx>, s: SignedTx, a: Address)
    requires NoStaking(txs) && SpecWrites(env, s, Effect(env, pre, s)) == {}
    requires a !in AddressesOf(env, txs)
    ensures |txs| + 1 !in Clobbered(env, pre, txs + [s] + [Nothing(pre, a)])
  {
    hide Effect;
    hide Nothing;
    var t := Nothing(pre, a);
    var block := txs + [s] + [t];
    NothingHappens(env, pre, a);
    var touched := SpecReads(env, t, Effect(env, pre, t)) + SpecWrites(env, t, Effect(env, pre, t));
    assert touched == {AccountKey(a), StakingKey};
    forall i | 0 <= i < |txs| + 1 ensures !Clobbers(env, pre, block[i], t) {
      var mine := SpecWrites(env, block[i], Effect(env, pre, block[i]));
      if i < |txs| {
        assert block[i] == txs[i];
        if AccountKey(a) in InferredKeys(env, txs[i]) {
          InAddressesOf(env, txs, i, a);
        }
        assert AccountKey(a) !in mine && StakingKey !in mine;
      } else {
        assert block[i] == s;
      }
      assert mine * touched == {};
    }
  }

  /** If the leaking bond was re-run, a later speculation that has not seen it overwrites the book. */
  lemma OverwriteDiverges(env: Env, pre: State, txs: seq<SignedTx>, s: SignedTx, a: Address)
    requires NoStaking(txs) && Leaks(env, RunTxs(env, pre, txs).state, s)
    requires a !in AddressesOf(env, txs)
    requires EngineRun(env, pre, txs + [s]).state == RunTxs(env, pre, txs + [s]).state
    requires CommitAll(env, pre, txs + [s], Clobbered(env, pre, txs + [s])).moved
             == CommitAll(env, pre, txs, Clobbered(env, pre, txs)).moved
    ensures var block := txs + [s] + [Nothing(pre, a)]; EngineRun(env, pre, block) != RunTxs(env, pre, block)
  {
    hide Effect;
    hide Leaks;
    hide Nothing;
    hide Clobbered;
    hide CommitAll;
    var t := Nothing(pre, a);
    var block := txs + [s] + [t];
    var w := RunTxs(env, pre, txs).state;
    var w' := RunTxs(env, pre, txs + [s]).state;
    NoStakingKeepsBook(env, pre, txs);
    LeakRefusedEarlier(env, pre, w, s);
    NothingUnclobbered(env, pre, txs, s, a);
    NothingHappens(env, pre, a);
    NothingUnmoved(env, pre, txs, a);
    EngineExtends(env, pre, txs + [s], t);
    SeqExtends(env, pre, txs + [s], t);
    SeqExtends(env, pre, txs, s);
    WithdrawOfNothing(pre, a);
    WithdrawKeepsOperators(env, w', t);
    LeakRefused(env, w, s);
    assert StakingKey in SpecWrites(env, t, Effect(env, pre, t));
  }

  lemma WithdrawOfNothing(pre: State, a: Address)
    ensures Nothing(pre, a).tx.payload.Stake? && Nothing(pre, a).tx.payload.stake.kind == Withdraw
  {
  }

  lemma NothingUnmoved(env: Env, pre: State, txs: seq<SignedTx>, a: Address)
    requires NoStaking(txs) && a !in AddressesOf(env, txs)
    ensures !Stale(env, pre, CommitAll(env, pre, txs, Clobbered(env, pre, txs)).moved, Nothing(pre, a))
  {
    hide Effect;
    hide Nothing;
    hide Clobbered;
    hide CommitAll;
    NothingHappens(env, pre, a);
    var forced := Clobbered(env, pre, txs);
    var moved := CommitAll(env, pre, txs, forced).moved;
    if AccountKey(a) in moved {
      MovedWithin(env, pre, txs, forced, AccountKey(a));
      var i :| 0 <= i < |txs| && AccountKey(a) in InferredKeys(env, txs[i]);
      InAddressesOf(env, txs, i, a);
    }
    NoStakingKeepsBook(env, pre, txs);
    CommitIsSequential(env, pre, txs, forced);
    assert StakingKey !in moved;
  }

  /** From a ledger where a block without staking reaches a leaking bond, some block diverges. */
  lemma LeakDiverges(env: Env, pre: State, txs: seq<SignedTx>, s: SignedTx) returns (block: seq<SignedTx>)
    requires NoStaking(txs) && Leaks(env, RunTxs(env, pre, txs).state, s)
    ensures EngineRun(env, pre, block) != RunTxs(env, pre, block)
  {
    hide Effect;
    hide Leaks;
    hide Clobbered;
    hide CommitAll;
    hide Merge;
    NoStakingKeepsBook(env, pre, txs);
    CommitIsSequential(env, pre, txs, Clobbered(env, pre, txs));
    EngineExtends(env, pre, txs, s);
    SeqExtends(env, pre, txs, s);
    block := txs + [s];
    var before := CommitAll(env, pre, txs, Clobbered(env, pre, txs));
    if |txs| in Clobbered(env, pre, block) || Stale(env, pre, before.moved, s) {
      LeakRefused(env, before.run.state, s);
      RefusalLeavesStateIff(env, before.run.state, s);
      assert StorageKeys({}) == {};
      var a := FreshAddress(AddressesOf(env, txs));
      OverwriteDiverges(env, pre, txs, s, a);
      block := block + [Nothing(pre, a)];
    } else {
      UnflaggedAgrees(env, pre, before.run.state, before.moved, s);
      CommitIffNoLeak(env, pre, before.run.state, s);
    }
  }

  // Gathering the balance: every account sends what it has to one new address.

  function Send(w: State, from: Address, to: Address, amount: u128): SignedTx {
    SignedTx(Tx(AccountOf(w, from).nonce, GAS_TRANSFER, 0, Transfer(to, amount)), true, Some(from))
  }

  lemma SendMoves(env: Env, w: State, from: Address, to: Address, amount: u128)
    requires from != to && amount <= AccountOf(w, from).balance && AccountOf(w, to).balance + amount <= U128_MAX
    ensures var w' := Effect(env, w, Send(w, from, to, amount)).state;
            && AccountOf(w', to) == AccountOf(w, to).(balance := AccountOf(w, to).balance + amount)
            && w'.accounts.Keys == w.accounts.Keys + {from, to}
            && forall b :: b != from && b != to && b in w.accounts ==> w'.accounts[b] == w.accounts[b]
  {
    assert GasMeter(Send(w, from, to, amount).tx) == Some(GAS_TRANSFER);
  }

  lemma {:induction false} RunFirst(env: Env, w: State, s: SignedTx, rest: seq<SignedTx>)
    ensures RunTxs(env, w, [s] + rest).state == RunTxs(env, Effect(env, w, s).state, rest).state
    decreases |rest|
  {
    hide Effect;
    if rest == [] {
      assert [s] + rest == [s] && [s][..0] == [];
    } else {
      var n := |rest| - 1;
      RunFirst(env, w, s, rest[..n]);
      assert ([s] + rest)[..n + 1] == [s] + rest[..n];
    }
  }

  ghost function Part(w: State, from: set<Address>): map<Address, Account> {
    map a | a in w.accounts && a in from :: w.accounts[a]
  }

  /** Liquid balance of the accounts in `from`. */
  ghost function Liquid(w: State, from: set<Address>): nat {
    Sum(Part(w, from), BalanceOf)
  }

  lemma LiquidStep(w: State, from: set<Address>, a: Address)
    requires a in from && a in w.accounts
    ensures Liquid(w, from) == w.accounts[a].balance + Liquid(w, from - {a})
  {
    SumRemove<Address, Account>(Part(w, from), a, BalanceOf);
    assert Part(w, from) - {a} == Part(w, from - {a});
  }

  lemma LiquidFrame(w: State, w': State, from: set<Address>)
    requires forall a :: a in from ==>
               (a in w.accounts <==> a in w'.accounts) && (a in w.accounts ==> w.accounts[a] == w'.accounts[a])
    ensures Liquid(w, from) == Liquid(w', from)
  {
    assert Part(w, from) == Part(w', from);
  }

  /** Transfers can gather any part of what a set of accounts owns at an address outside it. */
  lemma {:induction false} Gather(env: Env, w: State, from: set<Address>, to: Address, need: nat)
    returns (txs: seq<SignedTx>)
    requires to !in from && from <= w.accounts.Keys && need <= Liquid(w, from)
             && AccountOf(w, to).balance + need <= U128_MAX
    ensures NoStaking(txs)
    ensures AccountOf(RunTxs(env, w, txs).state, to) == AccountOf(w, to).(balance := AccountOf(w, to).balance + need)
    decreases |from|
  {
    hide Effect;
    if from == {} {
      assert Liquid(w, from) == 0;
      txs := [];
    } else {
      var a :| a in from;
      LiquidStep(w, from, a);
      var part: u128 := Min(w.accounts[a].balance, need);
      var s := Send(w, a, to, part);
      SendMoves(env, w, a, to, part);
      var w' := Effect(env, w, s).state;
      LiquidFrame(w, w', from - {a});
      var rest := Gather(env, w', from - {a}, to, need - part);
      RunFirst(env, w, s, rest);
      txs := [s] + rest;
    }
  }

  /** An exposed ledger has a block on which the engine and sequential execution part. */
  lemma ExposedDiverges(env: Env, pre: State) returns (block: seq<SignedTx>)
    requires Overflowable(env.params, pre)
    ensures EngineRun(env, pre, block) != RunTxs(env, pre, block)
  {
    hide RunTxs;
    hide EngineRun;
    var n: u128 := Min(Sum(pre.accounts, BalanceOf), U128_MAX);
    var id :| Exposed(pre.staking, id, n);
    var to := FreshAddress(pre.accounts.Keys);
    assert Part(pre, pre.accounts.Keys) == pre.accounts;
    var txs := Gather(env, pre, pre.accounts.Keys, to, n);
    NoStakingKeepsBook(env, pre, txs);
    var s := SignedTx(Tx(0, GAS_TRANSFER, 0, Stake(StakePayload(Bond, Some(id), n))), true, Some(to));
    assert GasMeter(s.tx) == Some(GAS_TRANSFER);
    assert Leaks(env, RunTxs(env, pre, txs).state, s);
    block := LeakDiverges(env, pre, txs, s);
  }

  /** The engine computes what sequential execution does on every block of a ledger, exactly when the
      ledger has no unoperated bond that its liquid balances could overflow. */
  lemma EngineAgreesIff(env: Env, pre: State)
    ensures (forall txs :: EngineRun(env, pre, txs) == RunTxs(env, pre, txs)) <==> !Overflowable(env.params, pre)
  {
    hide EngineRun;
    hide RunTxs;
    hide Overflowable;
    if Overflowable(env.params, pre) {
      var block := ExposedDiverges(env, pre);
    } else {
      forall txs ensures EngineRun(env, pre, txs) == RunTxs(env, pre, txs) {
        EngineAgrees(env, pre, txs);
      }
    }
  }

  lemma EngineAgrees(env: Env, pre: State, txs: seq<SignedTx>)
    requires !Overflowable(env.params, pre) || NoLostLeak(env, pre, txs)
    ensures EngineRun(env, pre, txs) == RunTxs(env, pre, txs)
  {
    if !Overflowable(env.params, pre) {
      NoExposureNoLostLeak(env, pre, txs);
    }
    CommitIsSequential(env, pre, txs, Clobbered(env, pre, txs));
  }

  /** Ledgers whose bonds are all operated, and ledgers whose supply fits in 128 bits, are not exposed. */
  lemma SoundLedgersNotExposed(p: Params, w: State)
    requires BondsOwned(w.staking) || Supply(w) <= U128_MAX
    ensures !Overflowable(p, w)
  {
    var n := Min(Sum(w.accounts, BalanceOf), U128_MAX);
    forall id ensures !Exposed(w.staking, id, n) {
      SelfBondWithinHeld(w.staking, id);
    }
  }
}
