/** Whole histories of the chain: transactions interleaved with observed commits.
    Exact supply accounting, consecutive nonces and time-locked withdrawals. */
module History {
  import opened Common
  import opened Staking
  import opened Ledger
  import opened Footprint

  /** A transaction is applied, or a finalized height is observed. */
  datatype Step = TxStep(s: SignedTx) | CommitStep(height: u64)

  function StepState(env: Env, w: State, step: Step): State {
    match step
    case TxStep(s) => Effect(env, w, s).state
    case CommitStep(h) => w.(staking := w.staking.(lastCommitHeight := h))
  }

  function Play(env: Env, w: State, steps: seq<Step>): State {
    if steps == [] then w
    else StepState(env, Play(env, w, steps[..|steps| - 1]), steps[|steps| - 1])
  }

  /** The step is a transaction and it was accepted in `w`. */
  predicate Accepted(env: Env, w: State, step: Step) {
    step.TxStep? && Effect(env, w, step.s).receipt.success
  }

  // ------------------------------------------------------------------ supply

  function BalanceOf(a: Account): nat { a.balance }
  function Whole(a: u128): nat { a }
  function AmountOf(e: UnbondEntry): nat { e.amount }

  /** Everything anybody owns: liquid, self-bonded, delegated and unbonding. */
  ghost function Supply(w: State): nat {
    Sum(w.accounts, BalanceOf) + Sum(w.staking.selfBond, Whole)
    + Sum(w.staking.delegations, Whole) + Sum(w.staking.pending, AmountOf)
  }

  /** The pending unbond that an accepted payload would overwrite: the id counter saturates, and the
      entry under the last id is then replaced by the next one. */
  function Overwritten(b: Book, s: StakePayload, w: UnbondEntry -> nat): nat {
    if s.kind == Unbond && b.nextUnbond in b.pending then w(b.pending[b.nextUnbond]) else 0
  }

  /** What an accepted transaction burns by design: the fee, and an undelegated amount. */
  function BurnOf(s: SignedTx): nat {
    s.tx.maxFee
        + (if s.tx.payload.Stake? && s.tx.payload.stake.kind == Undelegate then s.tx.payload.stake.amount else 0)
  }

  /** What an accepted transaction loses to an overwritten unbond. */
  function LossOf(b: Book, s: SignedTx): nat {
    if s.tx.payload.Stake? then Overwritten(b, s.tx.payload.stake, AmountOf) else 0
  }

  lemma PutBalance(m: map<Address, Account>, a: Address, account: Account)
    ensures Sum(m[a := account], BalanceOf) + (if a in m then m[a].balance else 0)
            == Sum(m, BalanceOf) + account.balance
  {
    SumInsert(m, a, account, BalanceOf);
  }

  lemma BalanceWithinSupply(w: State, a: Address)
    ensures AccountOf(w, a).balance <= Sum(w.accounts, BalanceOf)
  {
    if a in w.accounts {
      SumAtLeast(w.accounts, a, BalanceOf);
    }
  }

  lemma TransferConserves(w: State, tx: Tx, to: Address, amount: u128, from: Address, gas: u64)
    requires Supply(w) <= U128_MAX
    ensures var r := ApplyTransfer(w, tx, to, amount, from, gas);
            Supply(r.state) + (if r.receipt.success then tx.maxFee else 0) == Supply(w)
  {
    var sender := AccountOf(w, from);
    if amount + tx.maxFee <= sender.balance {
      var paid := PutAccount(w, from, Charged(sender, amount + tx.maxFee));
      PutBalance(w.accounts, from, Charged(sender, amount + tx.maxFee));
      BalanceWithinSupply(paid, to);
      var recv := AccountOf(paid, to);
      PutBalance(paid.accounts, to, recv.(balance := AddOrKeep(recv.balance, amount)));
    }
  }

  lemma DeployConserves(env: Env, w: State, tx: Tx, code: Bytes, from: Address, gas: u64)
    ensures var r := ApplyDeploy(env, w, tx, code, from, gas);
            Supply(r.state) + (if r.receipt.success then tx.maxFee else 0) == Supply(w)
  {
    var sender := AccountOf(w, from);
    if tx.maxFee <= sender.balance {
      var paid := PutAccount(w, from, Charged(sender, tx.maxFee));
      PutBalance(w.accounts, from, Charged(sender, tx.maxFee));
      var addr := env.createAddress(from, tx.nonce);
      PutBalance(paid.accounts, addr, AccountOf(paid, addr).(codeHash := env.codeHash(code)));
    }
  }

  lemma CallConserves(env: Env, w: State, tx: Tx, c: Address, from: Address, gas: u64)
    ensures var r := ApplyCall(env, w, tx, c, from, gas);
            Supply(r.state) + (if r.receipt.success then tx.maxFee else 0) == Supply(w)
  {
    if tx.maxFee <= AccountOf(w, from).balance {
      PutBalance(w.accounts, from, Charged(AccountOf(w, from), tx.maxFee));
    }
  }

  /** Tokens held by the staking book. */
  ghost function Held(b: Book): nat {
    Sum(b.selfBond, Whole) + Sum(b.delegations, Whole) + Sum(b.pending, AmountOf)
  }

  /** Signed change of the book's holdings when a payload is accepted. */
  function HeldDelta(s: StakePayload): int {
    match s.kind
    case Bond => s.amount
    case Delegate => s.amount
    case Unbond => 0
    case Undelegate => -(s.amount as int)
    case Withdraw => -(s.amount as int)
  }

  lemma WithdrawPays(b: Book, from: Address, amount: u128)
    requires ApplyWithdraw(b, from, amount).error == None
    ensures amount <= Sum(b.pending, AmountOf)
    ensures Sum(ApplyWithdraw(b, from, amount).book.pending, AmountOf) + amount == Sum(b.pending, AmountOf)
  {
    var keys := SortedKeys(b.pending.Keys);
    FoldBounded(b.pending, keys, from, b.lastCommitHeight, 0);
    DrainPaysExactly(b.pending, keys, from, b.lastCommitHeight, amount, AmountOf);
  }

  lemma UnbondMovesHoldings(b: Book, p: Params, from: Address, id: ValidatorId, amount: u128)
    requires ApplyUnbond(b, p, from, id, amount).error == None
    ensures Held(ApplyUnbond(b, p, from, id, amount).book)
            + Overwritten(b, StakePayload(Unbond, Some(id), amount), AmountOf) == Held(b)
  {
    var next: u128 := SelfBond(b, id) - amount;
    var entry := UnbondEntry(from, id, amount, Unlock(b.lastCommitHeight, p), UnlockEpoch(b.lastCommitHeight, p));
    SumInsert<ValidatorId, u128>(b.selfBond, id, next, Whole);
    SumInsert<nat, UnbondEntry>(b.pending, b.nextUnbond, entry, AmountOf);
    var b' := ApplyUnbond(b, p, from, id, amount).book;
    assert b'.pending == b.pending[b.nextUnbond := entry];
    assert b'.selfBond == b.selfBond[id := next];
  }

  /** An accepted unbond keeps the holdings exactly when nothing of value sits under the next id. */
  lemma UnbondKeepsHoldingsIff(b: Book, p: Params, from: Address, id: ValidatorId, amount: u128)
    requires ApplyUnbond(b, p, from, id, amount).error == None
    ensures Held(ApplyUnbond(b, p, from, id, amount).book) == Held(b)
            <==> (b.nextUnbond in b.pending ==> b.pending[b.nextUnbond].amount == 0)
  {
    UnbondMovesHoldings(b, p, from, id, amount);
  }

  /** Once the id counter is saturated, two accepted unbonds in a row lose the first amount. */
  lemma SaturatedIdsLose(b: Book, p: Params, from: Address, id: ValidatorId, amount: u128,
                         from': Address, id': ValidatorId, amount': u128)
    requires b.nextUnbond == U64_MAX && b.nextUnbond !in b.pending
    requires ApplyUnbond(b, p, from, id, amount).error == None
    requires ApplyUnbond(ApplyUnbond(b, p, from, id, amount).book, p, from', id', amount').error == None
    ensures Held(ApplyUnbond(ApplyUnbond(b, p, from, id, amount).book, p, from', id', amount').book) + amount == Held(b)
  {
    hide Held;
    var first := ApplyUnbond(b, p, from, id, amount).book;
    UnbondMovesHoldings(b, p, from, id, amount);
    UnbondMovesHoldings(first, p, from', id', amount');
    assert first.nextUnbond == U64_MAX && first.pending[U64_MAX].amount == amount;
  }

  lemma BondMovesHoldings(b: Book, p: Params, from: Address, id: ValidatorId, amount: u128)
    requires ApplyBond(b, p, from, id, amount).error == None
    ensures Held(ApplyBond(b, p, from, id, amount).book) == Held(b) + amount
  {
    SumInsert<ValidatorId, u128>(b.selfBond, id, SelfBond(b, id) + amount, Whole);
  }

  lemma DelegateMovesHoldings(b: Book, from: Address, id: ValidatorId, amount: u128)
    requires ApplyDelegate(b, from, id, amount).error == None
    ensures Held(ApplyDelegate(b, from, id, amount).book) == Held(b) + amount
  {
    var key := (from, id);
    SumInsert<(Address, ValidatorId), u128>(b.delegations, key, Delegation(b, key) + amount, Whole);
  }

  lemma UndelegateBurns(b: Book, from: Address, id: ValidatorId, amount: u128)
    requires ApplyUndelegate(b, from, id, amount).error == None
    ensures Held(ApplyUndelegate(b, from, id, amount).book) + amount == Held(b)
  {
    var key := (from, id);
    var next: u128 := Delegation(b, key) - amount;
    if next == 0 {
      if key in b.delegations {
        SumRemove<(Address, ValidatorId), u128>(b.delegations, key, Whole);
      } else {
        assert b.delegations - {key} == b.delegations;
      }
    } else {
      SumInsert<(Address, ValidatorId), u128>(b.delegations, key, next, Whole);
    }
  }

  lemma WithdrawMovesHoldings(b: Book, from: Address, amount: u128)
    requires ApplyWithdraw(b, from, amount).error == None
    ensures Held(ApplyWithdraw(b, from, amount).book) + amount == Held(b)
  {
    hide Withdrawable;
    hide Drain;
    WithdrawPays(b, from, amount);
  }

  /** How an accepted payload moves bonds, delegations and pending unbonds together. */
  lemma StakeMovesHoldings(b: Book, p: Params, from: Address, s: StakePayload)
    requires Apply(b, p, from, s).error == None
    ensures Held(Apply(b, p, from, s).book) + Overwritten(b, s, AmountOf) == Held(b) + HeldDelta(s)
  {
    hide Held;
    hide ApplyBond;
    hide ApplyUnbond;
    hide ApplyDelegate;
    hide ApplyUndelegate;
    hide ApplyWithdraw;
    match s.kind {
      case Withdraw => WithdrawMovesHoldings(b, from, s.amount);
      case Bond => BondMovesHoldings(b, p, from, s.validator.value, s.amount);
      case Unbond => UnbondMovesHoldings(b, p, from, s.validator.value, s.amount);
      case Delegate => DelegateMovesHoldings(b, from, s.validator.value, s.amount);
      case Undelegate => UndelegateBurns(b, from, s.validator.value, s.amount);
    }
  }

  lemma SelfBondWithinHeld(b: Book, id: ValidatorId)
    ensures SelfBond(b, id) <= Held(b)
  {
    if id in b.selfBond {
      SumAtLeast(b.selfBond, id, Whole);
    }
  }

  lemma RefusedStakeConserves(w: State, p: Params, s: StakePayload, from: Address)
    requires Supply(w) <= U128_MAX && Debit(s) <= AccountOf(w, from).balance && Apply(w.staking, p, from, s).error.Some?
    ensures Apply(w.staking, p, from, s).book == w.staking
  {
    hide Apply;
    RefusalAtomicIff(w.staking, p, from, s);
    BalanceWithinSupply(w, from);
    if s.validator.Some? {
      SelfBondWithinHeld(w.staking, s.validator.value);
    }
  }

  lemma AcceptedStakeConserves(env: Env, w: State, tx: Tx, p: StakePayload, from: Address, gas: u64)
    requires Supply(w) <= U128_MAX
    requires Debit(p) + tx.maxFee <= AccountOf(w, from).balance && Apply(w.staking, env.params, from, p).error == None
    ensures Supply(ApplyStake(env, w, tx, p, from, gas).state) + tx.maxFee
            + (if p.kind == Undelegate then p.amount else 0)
              + Overwritten(w.staking, p, AmountOf) == Supply(w)
  {
    hide Apply;
    StakeMovesHoldings(w.staking, env.params, from, p);
    BalanceWithinSupply(w, from);
    PutBalance(w.accounts, from, ApplyStake(env, w, tx, p, from, gas).state.accounts[from]);
    if p.kind == Withdraw {
      WithdrawCovered(w.staking, env.params, from, p);
    }
  }

  lemma WithdrawCovered(b: Book, p: Params, from: Address, s: StakePayload)
    requires s.kind == Withdraw && Apply(b, p, from, s).error == None
    ensures s.amount <= Sum(b.pending, AmountOf)
  {
    WithdrawPays(b, from, s.amount);
  }

  lemma StakeConserves(env: Env, w: State, tx: Tx, p: StakePayload, from: Address, gas: u64)
    requires Supply(w) <= U128_MAX
    ensures var r := ApplyStake(env, w, tx, p, from, gas);
            Supply(r.state) + (if r.receipt.success
                               then tx.maxFee + (if p.kind == Undelegate then p.amount else 0)
                                   + Overwritten(w.staking, p, AmountOf)
                               else 0) == Supply(w)
  {
    hide Apply;
    hide Supply;
    hide Overwritten;
    if Debit(p) + tx.maxFee <= AccountOf(w, from).balance {
      if Apply(w.staking, env.params, from, p).error.Some? {
        RefusedStakeConserves(w, env.params, p, from);
      } else {
        AcceptedStakeConserves(env, w, tx, p, from, gas);
      }
    }
  }

  /** One transaction: the supply falls by exactly the fee of an accepted transaction, an undelegated
      amount, and the pending unbond that an accepted unbond overwrites. */
  lemma TxConserves(env: Env, w: State, s: SignedTx)
    requires Supply(w) <= U128_MAX
    ensures Supply(Effect(env, w, s).state)
            + (if Effect(env, w, s).receipt.success then BurnOf(s) + LossOf(w.staking, s) else 0) == Supply(w)
  {
    hide Supply;
    hide ApplyTransfer;
    hide ApplyDeploy;
    hide ApplyCall;
    hide ApplyStake;
    if s.signatureOk && s.sender.Some? && AccountOf(w, s.sender.value).nonce == s.tx.nonce && GasMeter(s.tx).Some? {
      var from, gas := s.sender.value, GasMeter(s.tx).value;
      match s.tx.payload {
        case Transfer(to, amount) => TransferConserves(w, s.tx, to, amount, from, gas);
        case Deploy(code) => DeployConserves(env, w, s.tx, code, from, gas);
        case Call(c) => CallConserves(env, w, s.tx, c, from, gas);
        case Stake(p) => StakeConserves(env, w, s.tx, p, from, gas);
      }
    }
  }

  /** Total burned by design along a history. */
  ghost function Burned(env: Env, w: State, steps: seq<Step>): nat {
    if steps == [] then 0
    else
      var before, last := steps[..|steps| - 1], steps[|steps| - 1];
      Burned(env, w, before) + (if Accepted(env, Play(env, w, before), last) then BurnOf(last.s) else 0)
  }

  /** Total lost to overwritten unbonds along a history. */
  ghost function Lost(env: Env, w: State, steps: seq<Step>): nat {
    if steps == [] then 0
    else
      var before, last := steps[..|steps| - 1], steps[|steps| - 1];
      var now := Play(env, w, before);
      Lost(env, w, before) + (if Accepted(env, now, last) then LossOf(now.staking, last.s) else 0)
  }

  /** Exact supply over any history that starts with a supply that fits in 128 bits. */
  lemma {:induction false} SupplyExact(env: Env, w: State, steps: seq<Step>)
    requires Supply(w) <= U128_MAX
    ensures Supply(Play(env, w, steps)) + Burned(env, w, steps) + Lost(env, w, steps) == Supply(w)
  {
    hide Effect;
    if steps != [] {
      var before, last := steps[..|steps| - 1], steps[|steps| - 1];
      SupplyExact(env, w, before);
      if last.TxStep? {
        TxConserves(env, Play(env, w, before), last.s);
      }
    }
  }

  /** A ledger whose unbond ids are used up: an unbond of 1 silently destroys a pending unbond of 5. */
  lemma LostUnbondExample(env: Env) returns (w: State, s: SignedTx)
    ensures Supply(w) <= U128_MAX && Effect(env, w, s).receipt.success
    ensures Supply(Effect(env, w, s).state) + 1 + 5 == Supply(w) && BurnOf(s) == 1
  {
    var entry := UnbondEntry(1, 7, 5, 0, 0);
    var book := EMPTY_BOOK.(selfBond := map[7 := 1], operator := map[7 := 1], pending := map[U64_MAX := entry],
                            nextUnbond := U64_MAX);
    var rich := Account(10, 0, 0);
    w := State(map[1 := rich], map[], map[], book);
    s := SignedTx(Tx(0, 21_000, 1, Stake(StakePayload(Unbond, Some(7), 1))), true, Some(1));
    var none: map<Address, Account>, bonds: map<ValidatorId, u128>, queue: map<nat, UnbondEntry> := map[], map[], map[];
    SumInsert<Address, Account>(none, 1, rich, BalanceOf);
    SumInsert<ValidatorId, u128>(bonds, 7, 1, Whole);
    SumInsert<nat, UnbondEntry>(queue, U64_MAX, entry, AmountOf);
    assert none[1 := rich] == w.accounts && bonds[7 := 1] == book.selfBond && queue[U64_MAX := entry] == book.pending;
    assert Supply(w) == 16;
    assert GasMeter(s.tx) == Some(21_000);
    TxConserves(env, w, s);
  }

  // ---------------------------------------------------------------- fresh ids

  /** Unbond ids are handed out in order and have not run out. */
  ghost predicate IdsFresh(b: Book) {
    forall k :: k in b.pending ==> k < b.nextUnbond
  }

  lemma IdsStayFresh(b: Book, p: Params, from: Address, s: StakePayload)
    requires IdsFresh(b) && b.nextUnbond < U64_MAX
    ensures IdsFresh(Apply(b, p, from, s).book)
    ensures b.nextUnbond <= Apply(b, p, from, s).book.nextUnbond <= b.nextUnbond + 1
  {
    hide Drain;
    hide SortedKeys;
    if s.kind == Withdraw {
      DrainTouchesOnlyMatured(b.pending, SortedKeys(b.pending.Keys), from, b.lastCommitHeight, s.amount);
    }
  }

  lemma TxKeepsIdsFresh(env: Env, w: State, s: SignedTx)
    requires IdsFresh(w.staking) && w.staking.nextUnbond < U64_MAX
    ensures IdsFresh(Effect(env, w, s).state.staking)
    ensures Effect(env, w, s).state.staking.nextUnbond <= w.staking.nextUnbond + 1
  {
    hide Apply;
    hide RunGuest;
    if s.sender.Some? && s.tx.payload.Stake? {
      IdsStayFresh(w.staking, env.params, s.sender.value, s.tx.payload.stake);
    }
  }

  /** While the counter lasts, ids stay fresh and nothing is ever overwritten. */
  lemma {:induction false} IdsFreshAlong(env: Env, w: State, steps: seq<Step>)
    requires IdsFresh(w.staking) && w.staking.nextUnbond + |steps| <= U64_MAX
    ensures IdsFresh(Play(env, w, steps).staking) && Lost(env, w, steps) == 0
    ensures Play(env, w, steps).staking.nextUnbond <= w.staking.nextUnbond + |steps|
  {
    hide Effect;
    if steps != [] {
      var before, last := steps[..|steps| - 1], steps[|steps| - 1];
      IdsFreshAlong(env, w, before);
      if last.TxStep? {
        TxKeepsIdsFresh(env, Play(env, w, before), last.s);
      }
    }
  }

  // ---------------------------------------------------------------- overflow

  /** Some guarded sum of amounts that the transaction reaches after its balance check passes the
      128-bit limit: the credit of a transfer or withdrawal, a bond, a delegation, or the matured total. */
  ghost predicate Overflows(env: Env, w: State, s: SignedTx) {
    && s.signatureOk && s.sender.Some?
    && var from := s.sender.value;
    && var balance := AccountOf(w, from).balance;
    match s.tx.payload
    case Transfer(to, amount) =>
      && amount + s.tx.maxFee <= balance
      && AccountOf(PutAccount(w, from, Charged(AccountOf(w, from), amount + s.tx.maxFee)), to).balance
          + amount > U128_MAX
    case Stake(p) =>
      && Debit(p) + s.tx.maxFee <= balance
      && StakeOverflows(w.staking, env.params, from, p, balance - Debit(p) - s.tx.maxFee)
    case Deploy(_) => false
    case Call(_) => false
  }

  ghost predicate StakeOverflows(b: Book, p: Params, from: Address, s: StakePayload, left: nat) {
    match s.kind
    case Bond => s.validator.Some? && SelfBond(b, s.validator.value) + s.amount > U128_MAX
    case Delegate => s.validator.Some? && Delegation(b, (from, s.validator.value)) + s.amount > U128_MAX
    case Withdraw =>
      || MaturedTotal(b.pending, SortedKeys(b.pending.Keys), from, b.lastCommitHeight) > U128_MAX
      || (Apply(b, p, from, s).error == None && left + s.amount > U128_MAX)
    case Unbond => false
    case Undelegate => false
  }

  lemma {:induction false} MaturedWithinPending(pending: map<nat, UnbondEntry>, keys: seq<nat>, owner: Address,
                                                now: u64)
    requires Ascending(keys)
    ensures MaturedTotal(pending, keys, owner, now) <= Sum(pending, AmountOf)
    decreases |keys|
  {
    if keys != [] {
      var k, rest := keys[0], keys[1..];
      if k in pending {
        MaturedWithinPending(pending - {k}, rest, owner, now);
        MaturedTotalFrame(pending, pending - {k}, rest, owner, now);
        SumRemove<nat, UnbondEntry>(pending, k, AmountOf);
      } else {
        MaturedWithinPending(pending, rest, owner, now);
      }
    }
  }

  lemma DelegationWithinHeld(b: Book, key: (Address, ValidatorId))
    ensures Delegation(b, key) <= Held(b)
  {
    if key in b.delegations {
      SumAtLeast(b.delegations, key, Whole);
    }
  }

  lemma StakeFitsHeld(b: Book, p: Params, from: Address, s: StakePayload, left: nat)
    requires Held(b) + Debit(s) + left <= U128_MAX
    ensures !StakeOverflows(b, p, from, s, left)
  {
    hide SortedKeys;
    hide Drain;
    hide MaturedTotal;
    if s.validator.Some? {
      SelfBondWithinHeld(b, s.validator.value);
      DelegationWithinHeld(b, (from, s.validator.value));
    }
    if s.kind == Withdraw {
      MaturedWithinPending(b.pending, SortedKeys(b.pending.Keys), from, b.lastCommitHeight);
      if Apply(b, p, from, s).error == None {
        WithdrawCovered(b, p, from, s);
      }
    }
  }

  /** A supply that fits in 128 bits keeps every guarded sum of amounts within them. */
  lemma SupplyPreventsOverflow(env: Env, w: State, s: SignedTx)
    requires Supply(w) <= U128_MAX
    ensures !Overflows(env, w, s)
  {
    hide StakeOverflows;
    hide Apply;
    if s.sender.Some? {
      var from := s.sender.value;
      var sender := AccountOf(w, from);
      BalanceWithinSupply(w, from);
      match s.tx.payload
      case Transfer(to, amount) =>
        if amount + s.tx.maxFee <= sender.balance {
          PutBalance(w.accounts, from, Charged(sender, amount + s.tx.maxFee));
          BalanceWithinSupply(PutAccount(w, from, Charged(sender, amount + s.tx.maxFee)), to);
        }
      case Stake(p) =>
        if Debit(p) + s.tx.maxFee <= sender.balance {
          StakeFitsHeld(w.staking, env.params, from, p, sender.balance - Debit(p) - s.tx.maxFee);
        }
      case Deploy(_) =>
      case Call(_) =>
    }
  }

  /** No transaction of any history reaches an overflow, nor the leak that hides behind one. */
  lemma NoOverflowAlong(env: Env, w: State, steps: seq<Step>)
    requires Supply(w) <= U128_MAX
    ensures forall i :: 0 <= i < |steps| && steps[i].TxStep? ==>
                          var now := Play(env, w, steps[..i]);
                          Supply(now) <= U128_MAX && !Overflows(env, now, steps[i].s) && !Leaks(env, now, steps[i].s)
  {
    hide Overflows;
    hide Leaks;
    hide Supply;
    forall i | 0 <= i < |steps| && steps[i].TxStep?
      ensures var now := Play(env, w, steps[..i]);
              Supply(now) <= U128_MAX && !Overflows(env, now, steps[i].s) && !Leaks(env, now, steps[i].s)
    {
      SupplyExact(env, w, steps[..i]);
      SupplyPreventsOverflow(env, Play(env, w, steps[..i]), steps[i].s);
      SupplyPreventsLeak(env, Play(env, w, steps[..i]), steps[i].s);
    }
  }

  /** The leak needs an overflowing bond. */
  lemma SupplyPreventsLeak(env: Env, w: State, s: SignedTx)
    requires Supply(w) <= U128_MAX
    ensures !Leaks(env, w, s)
  {
    SupplyPreventsOverflow(env, w, s);
  }

  // ------------------------------------------------------------------ nonces

  /** Nonce of `a` after a result for sender `from`: it moves exactly when the sender is `a` and was accepted. */
  ghost predicate NonceFollows(r: TxResult, w: State, from: Address, a: Address) {
    AccountOf(r.state, a).nonce
    == if r.receipt.success && from == a then NextNonce(AccountOf(w, a).nonce) else AccountOf(w, a).nonce
  }

  lemma TransferNonce(w: State, tx: Tx, to: Address, amount: u128, from: Address, gas: u64, a: Address)
    ensures NonceFollows(ApplyTransfer(w, tx, to, amount, from, gas), w, from, a)
  {
  }

  lemma DeployNonce(env: Env, w: State, tx: Tx, code: Bytes, from: Address, gas: u64, a: Address)
    ensures NonceFollows(ApplyDeploy(env, w, tx, code, from, gas), w, from, a)
  {
  }

  lemma CallNonce(env: Env, w: State, tx: Tx, c: Address, from: Address, gas: u64, a: Address)
    ensures NonceFollows(ApplyCall(env, w, tx, c, from, gas), w, from, a)
  {
    hide RunGuest;
  }

  lemma StakeNonce(env: Env, w: State, tx: Tx, p: StakePayload, from: Address, gas: u64, a: Address)
    ensures NonceFollows(ApplyStake(env, w, tx, p, from, gas), w, from, a)
  {
    hide Staking.Apply;
  }

  lemma NonceStep(env: Env, w: State, s: SignedTx, a: Address)
    ensures var accepted := Effect(env, w, s).receipt.success && s.sender == Some(a);
            && AccountOf(Effect(env, w, s).state, a).nonce
               == (if accepted then NextNonce(AccountOf(w, a).nonce) else AccountOf(w, a).nonce)
            && (accepted ==> s.tx.nonce == AccountOf(w, a).nonce)
  {
    hide ApplyTransfer;
    hide ApplyDeploy;
    hide ApplyCall;
    hide ApplyStake;
    if s.sender.Some? && GasMeter(s.tx).Some? {
      var from, gas := s.sender.value, GasMeter(s.tx).value;
      match s.tx.payload {
        case Transfer(to, amount) => TransferNonce(w, s.tx, to, amount, from, gas, a);
        case Deploy(code) => DeployNonce(env, w, s.tx, code, from, gas, a);
        case Call(c) => CallNonce(env, w, s.tx, c, from, gas, a);
        case Stake(p) => StakeNonce(env, w, s.tx, p, from, gas, a);
      }
    }
  }

  /** Nonces of the accepted transactions of one sender, in order. */
  ghost function AcceptedNonces(env: Env, w: State, steps: seq<Step>, a: Address): seq<nat> {
    if steps == [] then []
    else
      var before, last := steps[..|steps| - 1], steps[|steps| - 1];
      AcceptedNonces(env, w, before, a)
      + (if Accepted(env, Play(env, w, before), last) && last.s.sender == Some(a) then [last.s.tx.nonce] else [])
  }

  /** Each sender's accepted transactions carry consecutive nonces from its starting one, until the
      largest 64-bit nonce, which is then accepted again and again. */
  lemma {:induction false} NoncesConsecutive(env: Env, w: State, steps: seq<Step>, a: Address)
    ensures var ns := AcceptedNonces(env, w, steps, a);
            && |ns| <= |steps|
            && (forall k :: 0 <= k < |ns| ==> ns[k] == Min(AccountOf(w, a).nonce + k, U64_MAX))
            && AccountOf(Play(env, w, steps), a).nonce == Min(AccountOf(w, a).nonce + |ns|, U64_MAX)
  {
    hide Effect;
    if steps != [] {
      var before, last := steps[..|steps| - 1], steps[|steps| - 1];
      NoncesConsecutive(env, w, before, a);
      if last.TxStep? {
        NonceStep(env, Play(env, w, before), last.s, a);
      }
    }
  }

  ghost predicate NoRepeat(ns: seq<nat>) {
    forall j, k :: 0 <= j < k < |ns| ==> ns[j] != ns[k]
  }

  /** No nonce of a sender is accepted twice, exactly as long as its nonces have not run out. */
  lemma NoReplayIff(env: Env, w: State, steps: seq<Step>, a: Address)
    ensures var ns := AcceptedNonces(env, w, steps, a);
            NoRepeat(ns) <==> AccountOf(w, a).nonce + |ns| <= U64_MAX + 1
  {
    hide AcceptedNonces;
    hide Play;
    NoncesConsecutive(env, w, steps, a);
    var ns, start := AcceptedNonces(env, w, steps, a), AccountOf(w, a).nonce;
    if start + |ns| > U64_MAX + 1 {
      assert ns[|ns| - 2] == U64_MAX == ns[|ns| - 1];
    }
  }

  /** The same transfer twice, at the largest nonce: both are accepted. */
  lemma ReplayExample(env: Env) returns (w: State, s: SignedTx)
    ensures AcceptedNonces(env, w, [TxStep(s), TxStep(s)], 1) == [U64_MAX, U64_MAX]
  {
    w := State(map[1 := Account(10, U64_MAX, 0)], map[], map[], EMPTY_BOOK);
    s := SignedTx(Tx(U64_MAX, 21_000, 1, Transfer(2, 3)), true, Some(1));
    assert GasMeter(s.tx) == Some(21_000);
    var once := Effect(env, w, s);
    assert once.receipt.success && AccountOf(once.state, 1) == Account(6, U64_MAX, 0);
    assert Effect(env, once.state, s).receipt.success;
    var steps := [TxStep(s), TxStep(s)];
    hide Effect;
    assert steps[..1] == [TxStep(s)] && steps[..1][..0] == [];
    assert Play(env, w, steps[..1]) == once.state;
    assert AcceptedNonces(env, w, steps[..1], 1) == [U64_MAX];
  }

  // ------------------------------------------------------- failure atomicity

  /** From a book whose bonds are all operated, every refused transaction of every history
      leaves the state as it was. */
  lemma {:induction false} RefusalsLeaveNoTrace(env: Env, w: State, steps: seq<Step>)
    requires BondsOwned(w.staking)
    ensures BondsOwned(Play(env, w, steps).staking)
    ensures forall i :: 0 <= i < |steps| && steps[i].TxStep? && !Accepted(env, Play(env, w, steps[..i]), steps[i])
                        ==> Play(env, w, steps[..i + 1]) == Play(env, w, steps[..i])
  {
    hide Effect;
    if steps != [] {
      var before, last := steps[..|steps| - 1], steps[|steps| - 1];
      RefusalsLeaveNoTrace(env, w, before);
      assert steps[..|steps|] == steps;
      forall i | 0 <= i <= |before| ensures steps[..i] == before[..i] {}
      if last.TxStep? {
        OwnedBondsStep(env, Play(env, w, before), last.s);
      }
    }
  }

  lemma OwnedBondsStep(env: Env, w: State, s: SignedTx)
    requires BondsOwned(w.staking)
    ensures BondsOwned(Effect(env, w, s).state.staking)
    ensures !Leaks(env, w, s)
    ensures !Effect(env, w, s).receipt.success ==> Effect(env, w, s).state == w
  {
    hide Staking.Apply;
    if s.sender.Some? && s.tx.payload.Stake? {
      BondsOwnedPreserved(w.staking, env.params, s.sender.value, s.tx.payload.stake);
    }
    if !Effect(env, w, s).receipt.success {
      RefusalLeavesStateIff(env, w, s);
    }
  }

  // -------------------------------------------------- time-locked withdrawal

  /** Weight of an entry that `owner` can withdraw once height `h` is observed. */
  function DueBy(owner: Address, h: u64): UnbondEntry -> nat {
    e => if Matured(e, owner, h) then e.amount else 0
  }

  /** The last step of a history as a staking payload accepted from `owner`. */
  predicate StakedBy(env: Env, w: State, step: Step, owner: Address, kind: StakeKind) {
    && Accepted(env, w, step) && step.s.sender == Some(owner)
    && step.s.tx.payload.Stake? && step.s.tx.payload.stake.kind == kind
  }

  function WithdrawnAt(env: Env, w: State, step: Step, owner: Address): nat {
    if StakedBy(env, w, step, owner, Withdraw) then step.s.tx.payload.stake.amount else 0
  }

  /** What `owner` unbonds in this step that unlocks by height `h`. */
  function UnbondedAt(env: Env, w: State, step: Step, owner: Address, h: u64): nat {
    if StakedBy(env, w, step, owner, Unbond) && Unlock(w.staking.lastCommitHeight, env.params) <= h
    then step.s.tx.payload.stake.amount else 0
  }

  /** What was due to `owner` by height `h` and is overwritten in this step. */
  function DueLostAt(env: Env, w: State, step: Step, owner: Address, h: u64): nat {
    if Accepted(env, w, step) && step.s.tx.payload.Stake?
    then Overwritten(w.staking, step.s.tx.payload.stake, DueBy(owner, h)) else 0
  }

  /** An unbond unlocks by height `h` when the period has passed, except that the largest height
      unlocks everything. */
  lemma UnlockIff(lastCommit: u64, p: Params, h: u64)
    ensures Unlock(lastCommit, p) <= h <==> lastCommit + p.unbondingPeriod <= h || h == U64_MAX
  {
  }

  ghost function Withdrawn(env: Env, w: State, steps: seq<Step>, owner: Address): nat {
    if steps == [] then 0
    else
      var before := steps[..|steps| - 1];
      Withdrawn(env, w, before, owner) + WithdrawnAt(env, Play(env, w, before), steps[|steps| - 1], owner)
  }

  /** What `owner` unbonded that unlocks by height `h`. */
  ghost function UnbondedInTime(env: Env, w: State, steps: seq<Step>, owner: Address, h: u64): nat {
    if steps == [] then 0
    else
      var before := steps[..|steps| - 1];
      UnbondedInTime(env, w, before, owner, h) + UnbondedAt(env, Play(env, w, before), steps[|steps| - 1], owner, h)
  }

  ghost function DueLost(env: Env, w: State, steps: seq<Step>, owner: Address, h: u64): nat {
    if steps == [] then 0
    else
      var before := steps[..|steps| - 1];
      DueLost(env, w, before, owner, h) + DueLostAt(env, Play(env, w, before), steps[|steps| - 1], owner, h)
  }

  /** Observed heights never go down. */
  ghost predicate HeightsRise(env: Env, w: State, steps: seq<Step>) {
    forall i :: 0 <= i < |steps| && steps[i].CommitStep?
                ==> Play(env, w, steps[..i]).staking.lastCommitHeight <= steps[i].height
  }

  /** What a payload pays out to `owner`. */
  function PaidOut(from: Address, s: StakePayload, owner: Address): nat {
    if s.kind == Withdraw && from == owner then s.amount else 0
  }

  /** What a payload accepted at height `now` makes due to `owner` by height `h`. */
  function MadeDue(p: Params, now: u64, from: Address, s: StakePayload, owner: Address, h: u64): nat {
    if s.kind == Unbond && from == owner && Unlock(now, p) <= h then s.amount else 0
  }

  lemma DueAfterWithdraw(b: Book, from: Address, amount: u128, owner: Address, h: u64)
    requires b.lastCommitHeight <= h && ApplyWithdraw(b, from, amount).error == None
    ensures Sum(ApplyWithdraw(b, from, amount).book.pending, DueBy(owner, h)) + (if from == owner then amount else 0)
         == Sum(b.pending, DueBy(owner, h))
  {
    var keys := SortedKeys(b.pending.Keys);
    FoldBounded(b.pending, keys, from, b.lastCommitHeight, 0);
    DrainPaysExactly(b.pending, keys, from, b.lastCommitHeight, amount, DueBy(owner, h));
  }

  lemma DueAfterUnbond(b: Book, p: Params, from: Address, id: ValidatorId, amount: u128, owner: Address, h: u64)
    requires ApplyUnbond(b, p, from, id, amount).error == None
    ensures Sum(ApplyUnbond(b, p, from, id, amount).book.pending, DueBy(owner, h))
            + Overwritten(b, StakePayload(Unbond, Some(id), amount), DueBy(owner, h))
         == Sum(b.pending, DueBy(owner, h))
             + (if from == owner && Unlock(b.lastCommitHeight, p) <= h then amount else 0)
  {
    var entry := UnbondEntry(from, id, amount, Unlock(b.lastCommitHeight, p), UnlockEpoch(b.lastCommitHeight, p));
    SumInsert<nat, UnbondEntry>(b.pending, b.nextUnbond, entry, DueBy(owner, h));
    assert ApplyUnbond(b, p, from, id, amount).book.pending == b.pending[b.nextUnbond := entry];
  }

  lemma DueAfterPayload(b: Book, p: Params, from: Address, s: StakePayload, owner: Address, h: u64)
    requires b.lastCommitHeight <= h && Apply(b, p, from, s).error == None
    ensures Sum(Apply(b, p, from, s).book.pending, DueBy(owner, h)) + PaidOut(from, s, owner)
            + Overwritten(b, s, DueBy(owner, h))
         == Sum(b.pending, DueBy(owner, h)) + MadeDue(p, b.lastCommitHeight, from, s, owner, h)
  {
    hide Unlock;
    if s.kind == Withdraw {
      DueAfterWithdraw(b, from, s.amount, owner, h);
    } else if s.kind == Unbond {
      DueAfterUnbond(b, p, from, s.validator.value, s.amount, owner, h);
    }
  }

  lemma DueAfterStake(env: Env, w: State, tx: Tx, p: StakePayload, from: Address, gas: u64, owner: Address, h: u64)
    requires w.staking.lastCommitHeight <= h
    ensures var r := ApplyStake(env, w, tx, p, from, gas);
            if r.receipt.success then
              Sum(r.state.staking.pending, DueBy(owner, h)) + PaidOut(from, p, owner)
                  + Overwritten(w.staking, p, DueBy(owner, h))
              == Sum(w.staking.pending, DueBy(owner, h))
                  + MadeDue(env.params, w.staking.lastCommitHeight, from, p, owner, h)
            else r.state.staking.pending == w.staking.pending
  {
    hide Staking.Apply;
    if Staking.Apply(w.staking, env.params, from, p).error == None {
      DueAfterPayload(w.staking, env.params, from, p, owner, h);
    } else {
      RefusalKeepsPending(w.staking, env.params, from, p);
    }
  }

  lemma DueAfterTx(env: Env, w: State, s: SignedTx, owner: Address, h: u64)
    requires w.staking.lastCommitHeight <= h
    ensures Sum(Effect(env, w, s).state.staking.pending, DueBy(owner, h)) + WithdrawnAt(env, w, TxStep(s), owner)
            + DueLostAt(env, w, TxStep(s), owner, h)
         == Sum(w.staking.pending, DueBy(owner, h)) + UnbondedAt(env, w, TxStep(s), owner, h)
  {
    hide ApplyStake;
    hide Overwritten;
    hide Unlock;
    if s.tx.payload.Stake? && s.signatureOk && s.sender.Some? && GasMeter(s.tx).Some? {
      DueAfterStake(env, w, s.tx, s.tx.payload.stake, s.sender.value, GasMeter(s.tx).value, owner, h);
    }
  }

  /** Over any history with rising heights, what was due to an owner at the start plus what it
      unbonded in time is exactly what it withdrew, what is still due, and what was overwritten. */
  lemma {:induction false} WithdrawalsTimeLocked(env: Env, w: State, steps: seq<Step>, owner: Address, h: u64)
    requires HeightsRise(env, w, steps) && Play(env, w, steps).staking.lastCommitHeight <= h
    ensures w.staking.lastCommitHeight <= Play(env, w, steps).staking.lastCommitHeight
    ensures Withdrawn(env, w, steps, owner) + Sum(Play(env, w, steps).staking.pending, DueBy(owner, h))
            + DueLost(env, w, steps, owner, h)
         == Sum(w.staking.pending, DueBy(owner, h)) + UnbondedInTime(env, w, steps, owner, h)
  {
    hide Effect;
    hide DueBy;
    if steps != [] {
      var before, last := steps[..|steps| - 1], steps[|steps| - 1];
      forall i | 0 <= i < |before| ensures steps[..i] == before[..i] {}
      var now := Play(env, w, before);
      if last.TxStep? {
        HeightKept(env, now, last.s);
        DueAfterTx(env, now, last.s, owner, h);
      } else {
        assert steps[..|steps| - 1] == before;
      }
      WithdrawalsTimeLocked(env, w, before, owner, h);
    }
  }

  lemma HeightKept(env: Env, w: State, s: SignedTx)
    ensures Effect(env, w, s).state.staking.lastCommitHeight == w.staking.lastCommitHeight
  {
    if s.tx.payload.Stake? {
      if s.sender.Some? {
        ApplyKeepsHeight(w.staking, env.params, s.sender.value, s.tx.payload.stake);
      }
    } else {
      EffectFrame(env, w, s);
      assert StakingKey !in InferredKeys(env, s);
      assert SameAt(Effect(env, w, s).state, w, StakingKey);
    }
  }
}
