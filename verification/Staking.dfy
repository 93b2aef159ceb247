/** The staking book of `crates/execution/src/staking.rs`: bonds, delegations and
    the queue of unbonds that mature after the unbonding period. */
module Staking {
  import opened Common

  datatype RejectReason =
    | Signature | WrongNonce | InsufficientBalance | Gas
    | StakeMinBond | StakeTombstone | StakeUnbonding | StakeInsufficient
    | WasmInvalid | WasmGas | WasmReentrancy | WasmNoCode

  datatype StakeKind = Bond | Unbond | Delegate | Undelegate | Withdraw

  datatype StakePayload = StakePayload(kind: StakeKind, validator: Option<ValidatorId>, amount: u128)

  /** Registry values the staking code looks up, defaults already applied. */
  datatype Params = Params(minSelfBond: u64, unbondingPeriod: u64, epochLength: u64)

  datatype UnbondEntry =
    UnbondEntry(owner: Address, validator: ValidatorId, amount: u128, unlockHeight: u64, unlockEpoch: u64)

  datatype Book = Book(
    selfBond: map<ValidatorId, u128>,
    operator: map<ValidatorId, Address>,
    delegations: map<(Address, ValidatorId), u128>,
    pending: map<nat, UnbondEntry>,
    nextUnbond: u64,
    tombstones: set<ValidatorId>,
    lastCommitHeight: u64)

  const EMPTY_BOOK := Book(map[], map[], map[], map[], 0, {}, 0)

  /** A book after a staking payload, and why the payload was refused. */
  datatype Staked = Staked(book: Book, error: Option<RejectReason>)

  // ---------------------------------------------------------------- lookups

  function SelfBond(b: Book, id: ValidatorId): u128 {
    if id in b.selfBond then b.selfBond[id] else 0
  }

  function Delegation(b: Book, key: (Address, ValidatorId)): u128 {
    if key in b.delegations then b.delegations[key] else 0
  }

  predicate Matured(e: UnbondEntry, owner: Address, now: u64) {
    e.owner == owner && e.unlockHeight <= now
  }

  function Unlock(lastCommit: u64, p: Params): u64 {
    SatAdd64(lastCommit, p.unbondingPeriod)
  }

  function UnlockEpoch(lastCommit: u64, p: Params): u64 {
    if p.epochLength == 0 then 0 else Unlock(lastCommit, p) / p.epochLength
  }

  /** The fold of `matured_withdrawable`: an addition that would overflow is skipped. */
  function MaturedFold(pending: map<nat, UnbondEntry>, keys: seq<nat>, owner: Address, now: u64, acc: u128): u128
  {
    if keys == [] then acc
    else if keys[0] in pending && Matured(pending[keys[0]], owner, now) then
      MaturedFold(pending, keys[1..], owner, now, AddOrKeep(acc, pending[keys[0]].amount))
    else
      MaturedFold(pending, keys[1..], owner, now, acc)
  }

  function Withdrawable(b: Book, owner: Address): u128 {
    MaturedFold(b.pending, SortedKeys(b.pending.Keys), owner, b.lastCommitHeight, 0)
  }

  /** What the withdraw loop leaves of the queue when `left` is still to be paid and
      `keys` are still to be visited. */
  function Drain(pending: map<nat, UnbondEntry>, keys: seq<nat>, owner: Address, now: u64, left: u128)
    : map<nat, UnbondEntry>
  {
    if keys == [] || left == 0 then pending
    else
      var k := keys[0];
      if k !in pending || !Matured(pending[k], owner, now) then Drain(pending, keys[1..], owner, now, left)
      else if pending[k].amount <= left then
        Drain(pending - {k}, keys[1..], owner, now, left - pending[k].amount)
      else pending[k := pending[k].(amount := pending[k].amount - left)]
  }

  // -------------------------------------------------------- the transition

  function ApplyBond(b: Book, p: Params, from: Address, id: ValidatorId, amount: u128): Staked {
    if id in b.tombstones then Staked(b, Some(StakeTombstone))
    else if amount < p.minSelfBond then Staked(b, Some(StakeMinBond))
    else if id in b.operator && b.operator[id] != from then Staked(b, Some(StakeInsufficient))
    else
      // The operator is recorded before the addition is checked.
      var owned := if id in b.operator then b else b.(operator := b.operator[id := from]);
      if SelfBond(b, id) + amount > U128_MAX then Staked(owned, Some(StakeInsufficient))
      else Staked(owned.(selfBond := owned.selfBond[id := SelfBond(b, id) + amount]), None)
  }

  function ApplyUnbond(b: Book, p: Params, from: Address, id: ValidatorId, amount: u128): Staked {
    if id !in b.operator || b.operator[id] != from then Staked(b, Some(StakeInsufficient))
    else if SelfBond(b, id) < amount then Staked(b, Some(StakeInsufficient))
    else
      var next := SelfBond(b, id) - amount;
      if next != 0 && next < p.minSelfBond then Staked(b, Some(StakeMinBond))
      else
        var entry := UnbondEntry(from, id, amount, Unlock(b.lastCommitHeight, p), UnlockEpoch(b.lastCommitHeight, p));
        Staked(b.(selfBond := b.selfBond[id := next],
                  pending := b.pending[b.nextUnbond := entry],
                  nextUnbond := SatAdd64(b.nextUnbond, 1)), None)
  }

  function ApplyDelegate(b: Book, from: Address, id: ValidatorId, amount: u128): Staked {
    if id in b.tombstones then Staked(b, Some(StakeTombstone))
    else if Delegation(b, (from, id)) + amount > U128_MAX then Staked(b, Some(StakeInsufficient))
    else Staked(b.(delegations := b.delegations[(from, id) := Delegation(b, (from, id)) + amount]), None)
  }

  function ApplyUndelegate(b: Book, from: Address, id: ValidatorId, amount: u128): Staked {
    if Delegation(b, (from, id)) < amount then Staked(b, Some(StakeInsufficient))
    else
      var next := Delegation(b, (from, id)) - amount;
      Staked(b.(delegations := if next == 0 then b.delegations - {(from, id)}
                               else b.delegations[(from, id) := next]), None)
  }

  function WithdrawRefusal(b: Book, from: Address): RejectReason {
    if exists k :: k in b.pending && b.pending[k].owner == from then StakeUnbonding else StakeInsufficient
  }

  function ApplyWithdraw(b: Book, from: Address, amount: u128): Staked {
    if amount > Withdrawable(b, from) then Staked(b, Some(WithdrawRefusal(b, from)))
    else
      Staked(b.(pending := Drain(b.pending, SortedKeys(b.pending.Keys), from, b.lastCommitHeight, amount)), None)
  }

  /** `apply_stake_tx` as a function of the book. */
  function Apply(b: Book, p: Params, from: Address, s: StakePayload): Staked {
    if s.kind == Withdraw then ApplyWithdraw(b, from, s.amount)
    else if s.validator == None then Staked(b, Some(Gas))
    else
      var id := s.validator.value;
      if s.kind == Bond then ApplyBond(b, p, from, id, s.amount)
      else if s.kind == Unbond then ApplyUnbond(b, p, from, id, s.amount)
      else if s.kind == Delegate then ApplyDelegate(b, from, id, s.amount)
      else ApplyUndelegate(b, from, id, s.amount)
  }

  /** The mutable ledger the transaction code works on. */
  class StakingLedger {
    var selfBond: map<ValidatorId, u128>
    var operator: map<ValidatorId, Address>
    var delegations: map<(Address, ValidatorId), u128>
    var pending: map<nat, UnbondEntry>
    var nextUnbond: u64
    var tombstones: set<ValidatorId>
    var lastCommitHeight: u64

    function View(): Book
      reads this
    {
      Book(selfBond, operator, delegations, pending, nextUnbond, tombstones, lastCommitHeight)
    }

    constructor (b: Book)
      ensures View() == b
    {
      selfBond, operator, delegations := b.selfBond, b.operator, b.delegations;
      pending, nextUnbond := b.pending, b.nextUnbond;
      tombstones, lastCommitHeight := b.tombstones, b.lastCommitHeight;
    }

    method Restore(b: Book)
      modifies this
      ensures View() == b
    {
      selfBond, operator, delegations := b.selfBond, b.operator, b.delegations;
      pending, nextUnbond := b.pending, b.nextUnbond;
      tombstones, lastCommitHeight := b.tombstones, b.lastCommitHeight;
    }

    method ApplyStakeTx(p: Params, from: Address, s: StakePayload) returns (error: Option<RejectReason>)
      modifies this
      ensures Staked(View(), error) == Apply(old(View()), p, from, s)
    {
      if s.kind == Withdraw {
        error := ApplyWithdrawTx(from, s.amount);
        return;
      }
      if s.validator == None {
        return Some(Gas);
      }
      var id := s.validator.value;
      if s.kind == Bond {
        if id in tombstones {
          return Some(StakeTombstone);
        }
        if s.amount < p.minSelfBond {
          return Some(StakeMinBond);
        }
        if id in operator {
          if operator[id] != from {
            return Some(StakeInsufficient);
          }
        } else {
          operator := operator[id := from];
        }
        var cur := if id in selfBond then selfBond[id] else 0;
        if cur + s.amount > U128_MAX {
          return Some(StakeInsufficient);
        }
        selfBond := selfBond[id := cur + s.amount];
      } else if s.kind == Unbond {
        if id !in operator || operator[id] != from {
          return Some(StakeInsufficient);
        }
        var cur := if id in selfBond then selfBond[id] else 0;
        if cur < s.amount {
          return Some(StakeInsufficient);
        }
        var next := cur - s.amount;
        if next != 0 && next < p.minSelfBond {
          return Some(StakeMinBond);
        }
        selfBond := selfBond[id := next];
        var entry := UnbondEntry(from, id, s.amount, Unlock(lastCommitHeight, p), UnlockEpoch(lastCommitHeight, p));
        pending := pending[nextUnbond := entry];
        nextUnbond := SatAdd64(nextUnbond, 1);
      } else if s.kind == Delegate {
        if id in tombstones {
          return Some(StakeTombstone);
        }
        var cur := if (from, id) in delegations then delegations[(from, id)] else 0;
        if cur + s.amount > U128_MAX {
          return Some(StakeInsufficient);
        }
        delegations := delegations[(from, id) := cur + s.amount];
      } else {
        var cur := if (from, id) in delegations then delegations[(from, id)] else 0;
        if cur < s.amount {
          return Some(StakeInsufficient);
        }
        if cur == s.amount {
          delegations := delegations - {(from, id)};
        } else {
          delegations := delegations[(from, id) := cur - s.amount];
        }
      }
      return None;
    }

    method ApplyWithdrawTx(from: Address, amount: u128) returns (error: Option<RejectReason>)
      modifies this`pending
      ensures Staked(View(), error) == ApplyWithdraw(old(View()), from, amount)
    {
      if amount > Withdrawable(View(), from) {
        return Some(WithdrawRefusal(View(), from));
      }
      DrainPending(SortedKeys(pending.Keys), from, amount);
      return None;
    }

    method DrainPending(keys: seq<nat>, from: Address, amount: u128)
      modifies this`pending
      ensures pending == Drain(old(pending), keys, from, lastCommitHeight, amount)
    {
      var left: u128 := amount;
      var i := 0;
      while i < |keys| && left != 0
        invariant 0 <= i <= |keys|
        invariant Drain(pending, keys[i..], from, lastCommitHeight, left)
               == Drain(old(pending), keys, from, lastCommitHeight, amount)
      {
        var k := keys[i];
        assert keys[i..][0] == k && keys[i..][1..] == keys[i + 1..];
        if k in pending && Matured(pending[k], from, lastCommitHeight) {
          if pending[k].amount <= left {
            left := left - pending[k].amount;
            pending := pending - {k};
          } else {
            pending := pending[k := pending[k].(amount := pending[k].amount - left)];
            left := 0;
          }
        }
        i := i + 1;
      }
    }

    /** `observe_commit`. */
    method ObserveCommit(height: u64)
      modifies this
      ensures View() == old(View()).(lastCommitHeight := height)
    {
      lastCommitHeight := height;
    }
  }

  /** A refused payload leaves the queue alone. */
  lemma RefusalKeepsPending(b: Book, p: Params, from: Address, s: StakePayload)
    requires Apply(b, p, from, s).error.Some?
    ensures Apply(b, p, from, s).book.pending == b.pending
  {
  }

  /** Payloads never touch the observed height. */
  lemma ApplyKeepsHeight(b: Book, p: Params, from: Address, s: StakePayload)
    ensures Apply(b, p, from, s).book.lastCommitHeight == b.lastCommitHeight
  {
  }

  // ----------------------------------------------- what the withdraw loop does

  /** Exact total of the owner's matured entries under `keys`. */
  ghost function MaturedTotal(pending: map<nat, UnbondEntry>, keys: seq<nat>, owner: Address, now: u64): nat
  {
    if keys == [] then 0
    else (if keys[0] in pending && Matured(pending[keys[0]], owner, now) then pending[keys[0]].amount else 0)
         + MaturedTotal(pending, keys[1..], owner, now)
  }

  lemma {:induction false} FoldBounded(pending: map<nat, UnbondEntry>, keys: seq<nat>, owner: Address, now: u64,
                                       acc: u128)
    ensures acc <= MaturedFold(pending, keys, owner, now, acc) <= acc + MaturedTotal(pending, keys, owner, now)
    ensures acc + MaturedTotal(pending, keys, owner, now) <= U128_MAX
            ==> MaturedFold(pending, keys, owner, now, acc) == acc + MaturedTotal(pending, keys, owner, now)
  {
    if keys != [] {
      var k := keys[0];
      if k in pending && Matured(pending[k], owner, now) {
        FoldBounded(pending, keys[1..], owner, now, AddOrKeep(acc, pending[k].amount));
      } else {
        FoldBounded(pending, keys[1..], owner, now, acc);
      }
    }
  }

  lemma {:induction false} MaturedTotalFrame(
    p: map<nat, UnbondEntry>, q: map<nat, UnbondEntry>, keys: seq<nat>, owner: Address, now: u64)
    requires forall k :: k in keys ==> (k in p <==> k in q) && (k in p ==> p[k] == q[k])
    ensures MaturedTotal(p, keys, owner, now) == MaturedTotal(q, keys, owner, now)
  {
    if keys != [] {
      assert keys[0] in keys;
      MaturedTotalFrame(p, q, keys[1..], owner, now);
    }
  }

  /** The loop pays exactly `left`: any total that counts the owner's matured entries at
      face value drops by `left`, and any total that does not count them is unchanged. */
  lemma {:induction false} DrainPaysExactly(
    pending: map<nat, UnbondEntry>, keys: seq<nat>, owner: Address, now: u64, left: u128, w: UnbondEntry -> nat)
    requires Ascending(keys)
    requires left <= MaturedTotal(pending, keys, owner, now)
    ensures (forall e :: Matured(e, owner, now) ==> w(e) == e.amount)
            ==> Sum(Drain(pending, keys, owner, now, left), w) + left == Sum(pending, w)
    ensures (forall e :: Matured(e, owner, now) ==> w(e) == 0)
            ==> Sum(Drain(pending, keys, owner, now, left), w) == Sum(pending, w)
  {
    if keys != [] && left != 0 {
      var k := keys[0];
      assert forall j :: j in keys[1..] ==> j != k;
      if k in pending && Matured(pending[k], owner, now) {
        var e := pending[k];
        if e.amount <= left {
          SumRemove(pending, k, w);
          MaturedTotalFrame(pending, pending - {k}, keys[1..], owner, now);
          DrainPaysExactly(pending - {k}, keys[1..], owner, now, left - e.amount, w);
        } else {
          SumInsert(pending, k, e.(amount := e.amount - left), w);
          assert Matured(e.(amount := e.amount - left), owner, now);
        }
      } else {
        DrainPaysExactly(pending, keys[1..], owner, now, left, w);
      }
    }
  }

  /** Entries that are not the owner's matured ones survive untouched; the others only
      shrink, and none is added. */
  lemma {:induction false} DrainTouchesOnlyMatured(
    pending: map<nat, UnbondEntry>, keys: seq<nat>, owner: Address, now: u64, left: u128)
    ensures var q := Drain(pending, keys, owner, now, left);
            && q.Keys <= pending.Keys
            && (forall k :: k in pending && !Matured(pending[k], owner, now) ==> k in q && q[k] == pending[k])
            && (forall k :: k in q ==> q[k].amount <= pending[k].amount && q[k] == pending[k].(amount := q[k].amount))
  {
    if keys != [] && left != 0 {
      var k := keys[0];
      if k in pending && Matured(pending[k], owner, now) {
        if pending[k].amount <= left {
          DrainTouchesOnlyMatured(pending - {k}, keys[1..], owner, now, left - pending[k].amount);
        }
      } else {
        DrainTouchesOnlyMatured(pending, keys[1..], owner, now, left);
      }
    }
  }

  // ------------------------------------------------------- failure atomicity

  /** The one refusal that leaves a trace: a first bond whose self-bond addition overflows. */
  predicate OperatorLeak(b: Book, p: Params, from: Address, s: StakePayload) {
    && s.kind == Bond
    && s.validator.Some?
    && var id := s.validator.value;
       && id !in b.tombstones
       && id !in b.operator
       && p.minSelfBond <= s.amount
       && SelfBond(b, id) + s.amount > U128_MAX
  }

  /** A refused payload leaves the book unchanged exactly when it is not an operator leak. */
  lemma RefusalAtomicIff(b: Book, p: Params, from: Address, s: StakePayload)
    requires Apply(b, p, from, s).error.Some?
    ensures Apply(b, p, from, s).book == b <==> !OperatorLeak(b, p, from, s)
  {
    if OperatorLeak(b, p, from, s) {
      assert s.validator.value in Apply(b, p, from, s).book.operator;
    }
  }

  /** A validator nobody operates has nothing bonded. */
  ghost predicate BondsOwned(b: Book) {
    forall id :: id in b.selfBond && id !in b.operator ==> b.selfBond[id] == 0
  }

  lemma BondsOwnedPreserved(b: Book, p: Params, from: Address, s: StakePayload)
    requires BondsOwned(b)
    ensures BondsOwned(Apply(b, p, from, s).book)
    ensures !OperatorLeak(b, p, from, s)
  {
  }
}
