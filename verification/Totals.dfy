/** Every history entry by entry: balances, bonds and delegations are the sums of the accepted transactions,
    each validator answers to one operator, and code and storage are what was last deployed and stored. */
module Totals {
  import opened Common
  import opened Staking
  import opened Ledger
  import opened History
  import opened HostLog
  import opened Stakes
  import opened Statement

  /** What the accepted transactions of a history moved. */
  ghost function Total(env: Env, w: State, steps: seq<Step>, f: Flow): nat {
    if steps == [] then 0
    else
      var before, last := steps[..|steps| - 1], steps[|steps| - 1];
      Total(env, w, before, f) + if Accepted(env, Play(env, w, before), last) then InFlow(last.s, f) else 0
  }

  // ---------------------------------------------------------------- balances

  function Balance(w: State, a: Address): nat { AccountOf(w, a).balance }

  /** Credits that 128 bits could not hold. */
  ghost function DroppedIn(env: Env, w: State, steps: seq<Step>, a: Address): nat {
    if steps == [] then 0
    else
      var before, last := steps[..|steps| - 1], steps[|steps| - 1];
      var now := Play(env, w, before);
      DroppedIn(env, w, before, a) + if Accepted(env, now, last) then Dropped(now, last.s, a) else 0
  }

  lemma BalanceStep(env: Env, w: State, s: SignedTx, a: Address)
    ensures var r := Effect(env, w, s);
            Balance(r.state, a)
            == if r.receipt.success then Balance(w, a) - Paid(s, a) + Got(s, a) - Dropped(w, s, a) else Balance(w, a)
  {
    hide Effect;
    hide Passes;
    hide ReceiptFor;
    hide CodeFits;
    hide SlotsFit;
    hide BookFits;
    hide Paid;
    hide Got;
    hide Dropped;
    EffectDescribed(env, w, s);
    AcceptedIff(env, w, s);
    if Passes(env, w, s) {
      assert AccountAt(env, w, s, Effect(env, w, s).state.accounts, a);
      if !Touches(env, s, a) {
        UntouchedPaysNothing(env, w, s, a);
      }
    }
  }

  lemma UntouchedPaysNothing(env: Env, w: State, s: SignedTx, a: Address)
    requires !Touches(env, s, a)
    ensures Paid(s, a) == Got(s, a) == Dropped(w, s, a) == 0
  {
  }

  /** Over every history an account ends with what it began with and was paid, less what it paid. */
  lemma {:induction false} BalanceExact(env: Env, w: State, steps: seq<Step>, a: Address)
    ensures Balance(Play(env, w, steps), a)
            + Total(env, w, steps, SentBy(a)) + Total(env, w, steps, BondedBy(a))
            + Total(env, w, steps, DelegatedBy(a)) + Total(env, w, steps, FeesOf(a))
            + DroppedIn(env, w, steps, a)
         == Balance(w, a) + Total(env, w, steps, ReceivedBy(a)) + Total(env, w, steps, WithdrawnBy(a))
  {
    hide Effect;
    hide InFlow;
    hide Dropped;
    if steps != [] {
      var before, last := steps[..|steps| - 1], steps[|steps| - 1];
      BalanceExact(env, w, before, a);
      if last.TxStep? {
        BalanceStep(env, Play(env, w, before), last.s, a);
      }
    }
  }

  lemma FitsWithoutDrop(env: Env, w: State, s: SignedTx, a: Address)
    requires Supply(w) <= U128_MAX && Effect(env, w, s).receipt.success
    ensures Dropped(w, s, a) == 0
  {
    hide Supply;
    hide RunGuest;
    hide Apply;
    SupplyPreventsOverflow(env, w, s);
  }

  /** Nothing is dropped as long as everything there is fits in 128 bits. */
  lemma {:induction false} NothingDropped(env: Env, w: State, steps: seq<Step>, a: Address)
    requires Supply(w) <= U128_MAX
    ensures DroppedIn(env, w, steps, a) == 0
  {
    hide Effect;
    hide Dropped;
    hide Supply;
    if steps != [] {
      var before, last := steps[..|steps| - 1], steps[|steps| - 1];
      NothingDropped(env, w, before, a);
      SupplyExact(env, w, before);
      var now := Play(env, w, before);
      if Accepted(env, now, last) {
        FitsWithoutDrop(env, now, last.s, a);
      }
    }
  }

  // ---------------------------------------------------- bonds and delegations

  /** The book after a transaction, read entry by entry. */
  ghost predicate BookStep(env: Env, w: State, s: SignedTx, r: Book) {
    if Passes(env, w, s) then
      if s.tx.payload.Stake? then BookFits(w.staking, env.params, Sender(s), s.tx.payload.stake, r) else r == w.staking
    else r == if RefusedLate(env, w, s) then Recorded(w.staking, s) else w.staking
  }

  lemma BookAfter(env: Env, w: State, s: SignedTx)
    ensures BookStep(env, w, s, Effect(env, w, s).state.staking)
    ensures Effect(env, w, s).receipt.success <==> Passes(env, w, s)
    ensures Passes(env, w, s) || RefusedLate(env, w, s) ==> s.sender == Some(Sender(s))
  {
    hide Effect;
    hide AccountsFit;
    hide CodeFits;
    hide SlotsFit;
    hide BookFits;
    hide ReceiptFor;
    hide PayloadChecks;
    EffectDescribed(env, w, s);
    AcceptedIff(env, w, s);
    Unroll(CommonChecks(w, s));
    FirstFailureAppend(CommonChecks(w, s), PayloadChecks(env, w, Sender(s), s.tx));
  }

  lemma BondStep(env: Env, w: State, s: SignedTx, id: ValidatorId)
    ensures var r := Effect(env, w, s);
            SelfBond(r.state.staking, id)
            == SelfBond(w.staking, id)
               + if r.receipt.success then InFlow(s, BondedTo(id)) - InFlow(s, UnbondedFrom(id)) else 0
  {
    hide Effect;
    hide Passes;
    hide RefusedLate;
    hide OperatorsFit;
    hide DelegationsFit;
    hide PendingFits;
    BookAfter(env, w, s);
    if Passes(env, w, s) && s.tx.payload.Stake? {
      assert BondFits(w.staking, s.tx.payload.stake, Effect(env, w, s).state.staking.selfBond, id);
    }
  }

  /** A self-bond is what was bonded to it less what was unbonded from it. */
  lemma {:induction false} SelfBondExact(env: Env, w: State, steps: seq<Step>, id: ValidatorId)
    ensures SelfBond(Play(env, w, steps).staking, id) + Total(env, w, steps, UnbondedFrom(id))
         == SelfBond(w.staking, id) + Total(env, w, steps, BondedTo(id))
  {
    hide Effect;
    hide InFlow;
    if steps != [] {
      var before, last := steps[..|steps| - 1], steps[|steps| - 1];
      SelfBondExact(env, w, before, id);
      if last.TxStep? {
        BondStep(env, Play(env, w, before), last.s, id);
      }
    }
  }

  lemma DelegationStep(env: Env, w: State, s: SignedTx, a: Address, id: ValidatorId)
    ensures var r := Effect(env, w, s);
            Delegation(r.state.staking, (a, id))
            == Delegation(w.staking, (a, id))
               + if r.receipt.success then InFlow(s, DelegatedTo(a, id)) - InFlow(s, UndelegatedFrom(a, id)) else 0
  {
    hide Effect;
    hide Passes;
    hide RefusedLate;
    hide OperatorsFit;
    hide BondsFit;
    hide PendingFits;
    BookAfter(env, w, s);
    if Passes(env, w, s) && s.tx.payload.Stake? {
      var r := Effect(env, w, s).state.staking;
      assert DelegationFits(w.staking, Sender(s), s.tx.payload.stake, r.delegations, a, id);
    }
  }

  /** A delegation is what its owner delegated less what its owner took back. */
  lemma {:induction false} DelegationExact(env: Env, w: State, steps: seq<Step>, a: Address, id: ValidatorId)
    ensures Delegation(Play(env, w, steps).staking, (a, id)) + Total(env, w, steps, UndelegatedFrom(a, id))
         == Delegation(w.staking, (a, id)) + Total(env, w, steps, DelegatedTo(a, id))
  {
    hide Effect;
    hide InFlow;
    if steps != [] {
      var before, last := steps[..|steps| - 1], steps[|steps| - 1];
      DelegationExact(env, w, before, a, id);
      if last.TxStep? {
        DelegationStep(env, Play(env, w, before), last.s, a, id);
      }
    }
  }

  // --------------------------------------------------------------- operators

  /** The step bonds to `id`, or is the bond that is refused after its sender was recorded. */
  ghost predicate Claims(env: Env, w: State, step: Step, id: ValidatorId) {
    step.TxStep? && Aims(step.s, Bond, id) && (Accepted(env, w, step) || RefusedLate(env, w, step.s))
  }

  /** Who operates `id` after a history: the operator there was, or whoever claimed it first. */
  ghost function FirstClaim(env: Env, w: State, steps: seq<Step>, id: ValidatorId): Option<Address> {
    if steps == [] then OperatorOf(w.staking, id)
    else
      var before, last := steps[..|steps| - 1], steps[|steps| - 1];
      var first := FirstClaim(env, w, before, id);
      if first == None && Claims(env, Play(env, w, before), last, id) then last.s.sender else first
  }

  lemma OperatorStep(env: Env, w: State, s: SignedTx, id: ValidatorId)
    ensures OperatorOf(Effect(env, w, s).state.staking, id)
         == if OperatorOf(w.staking, id) == None && Claims(env, w, TxStep(s), id) then s.sender
            else OperatorOf(w.staking, id)
    ensures Accepted(env, w, TxStep(s)) && Aims(s, Unbond, id) ==> OperatorOf(w.staking, id) == s.sender
    ensures Accepted(env, w, TxStep(s)) && Aims(s, Bond, id) ==>
              OperatorOf(Effect(env, w, s).state.staking, id) == s.sender
  {
    hide Effect;
    hide BondsFit;
    hide DelegationsFit;
    hide PendingFits;
    BookAfter(env, w, s);
    if Passes(env, w, s) && s.tx.payload.Stake? {
      BonderOperates(env, w, s);
    }
    hide Passes;
  }

  /** Bonds and unbonds pass only for whoever operates the validator, or may come to. */
  lemma BonderOperates(env: Env, w: State, s: SignedTx)
    requires Passes(env, w, s) && s.tx.payload.Stake?
    ensures var (p, operator) := (s.tx.payload.stake, OperatorOf(w.staking, Target(s.tx.payload.stake)));
            && (p.kind == Bond ==> p.validator.Some? && operator in {None, Some(Sender(s))})
            && (p.kind == Unbond ==> p.validator.Some? && operator == Some(Sender(s)))
  {
    hide CommonChecks;
    FirstFailureAppend(CommonChecks(w, s), PayloadChecks(env, w, Sender(s), s.tx));
    Unroll(StakeChecks(w.staking, env.params, Sender(s), s.tx.payload.stake));
  }

  /** The operator of a validator is the first claim, and stays. */
  lemma {:induction false} OperatorIs(env: Env, w: State, steps: seq<Step>, id: ValidatorId)
    ensures OperatorOf(Play(env, w, steps).staking, id) == FirstClaim(env, w, steps, id)
  {
    hide Effect;
    hide RefusedLate;
    if steps != [] {
      var before, last := steps[..|steps| - 1], steps[|steps| - 1];
      OperatorIs(env, w, before, id);
      if last.TxStep? {
        OperatorStep(env, Play(env, w, before), last.s, id);
      }
    }
  }

  /** All bonds and unbonds of a validator that a history accepts come from one address: its operator. */
  lemma {:induction false} OneBonder(env: Env, w: State, steps: seq<Step>, id: ValidatorId, i: nat)
    requires i < |steps| && Accepted(env, Play(env, w, steps[..i]), steps[i])
    requires Aims(steps[i].s, Bond, id) || Aims(steps[i].s, Unbond, id)
    ensures OperatorOf(Play(env, w, steps).staking, id) == steps[i].s.sender
    ensures steps[i].s.sender.Some?
    decreases |steps|
  {
    hide Effect;
    hide RefusedLate;
    var before, last := steps[..|steps| - 1], steps[|steps| - 1];
    var now := Play(env, w, before);
    BookAfter(env, Play(env, w, steps[..i]), steps[i].s);
    if i == |steps| - 1 {
      OperatorStep(env, now, last.s, id);
    } else {
      assert before[..i] == steps[..i];
      OneBonder(env, w, before, id, i);
      if last.TxStep? {
        OperatorStep(env, now, last.s, id);
      }
    }
  }

  // --------------------------------------------------------------- contracts

  /** The code last deployed at an address. */
  ghost function LastDeployed(env: Env, w: State, steps: seq<Step>, a: Address): Option<Bytes> {
    if steps == [] then At(w.code, a)
    else
      var before, last := steps[..|steps| - 1], steps[|steps| - 1];
      if Accepted(env, Play(env, w, before), last) && Creates(env, last.s, a) then Some(last.s.tx.payload.code)
      else LastDeployed(env, w, before, a)
  }

  lemma CodeStep(env: Env, w: State, s: SignedTx, a: Address)
    ensures At(Effect(env, w, s).state.code, a)
         == if Effect(env, w, s).receipt.success && Creates(env, s, a) then Some(s.tx.payload.code) else At(w.code, a)
  {
    hide Effect;
    hide AccountsFit;
    hide SlotsFit;
    hide BookFits;
    hide ReceiptFor;
    hide Passes;
    EffectDescribed(env, w, s);
    AcceptedIff(env, w, s);
  }

  /** The code at an address is what was last deployed there. */
  lemma {:induction false} CodeExact(env: Env, w: State, steps: seq<Step>, a: Address)
    ensures At(Play(env, w, steps).code, a) == LastDeployed(env, w, steps, a)
  {
    hide Effect;
    hide Creates;
    if steps != [] {
      var before, last := steps[..|steps| - 1], steps[|steps| - 1];
      CodeExact(env, w, before, a);
      if last.TxStep? {
        CodeStep(env, Play(env, w, before), last.s, a);
      }
    }
  }

  /** The conversation that an accepted call of contract `c` had in step `step`. */
  ghost function TalkAt(env: Env, w: State, step: Step, c: Address): seq<HostEvent> {
    if Accepted(env, w, step) && step.s.tx.payload == Call(c) then CallTalk(env, w, step.s.tx).0 else []
  }

  /** What was last stored in a slot, by the conversations of the accepted calls of its contract. */
  ghost function LastKept(env: Env, w: State, steps: seq<Step>, k: SlotKey): Option<Bytes> {
    if steps == [] then At(w.storage, k)
    else
      var before, last := steps[..|steps| - 1], steps[|steps| - 1];
      match LastStore(TalkAt(env, Play(env, w, before), last, k.contract), k.slot)
      case Some(value) => Some(env.bytesOf(value))
      case None => LastKept(env, w, before, k)
  }

  lemma SlotStep(env: Env, w: State, s: SignedTx, k: SlotKey)
    ensures At(Effect(env, w, s).state.storage, k)
         == Holds(env, w.storage, TalkAt(env, w, TxStep(s), k.contract), k.contract, k.slot)
  {
    hide Effect;
    hide AccountsFit;
    hide CodeFits;
    hide BookFits;
    hide ReceiptFor;
    hide CallTalk;
    hide Passes;
    EffectDescribed(env, w, s);
    AcceptedIff(env, w, s);
  }

  /** A slot holds what was last stored there. */
  lemma {:induction false} SlotExact(env: Env, w: State, steps: seq<Step>, k: SlotKey)
    ensures At(Play(env, w, steps).storage, k) == LastKept(env, w, steps, k)
  {
    hide Effect;
    hide TalkAt;
    if steps != [] {
      var before, last := steps[..|steps| - 1], steps[|steps| - 1];
      SlotExact(env, w, before, k);
      if last.TxStep? {
        SlotStep(env, Play(env, w, before), last.s, k);
      } else {
        NoTalk(env, Play(env, w, before), last, k);
      }
    }
  }

  lemma NoTalk(env: Env, w: State, step: Step, k: SlotKey)
    requires !step.TxStep?
    ensures TalkAt(env, w, step, k.contract) == []
  {
  }

  /** What any load of any accepted call answers: the last store of its own call before it, or else the last
      store of the earlier calls, read as a word. */
  lemma LoadAnswers(env: Env, w: State, steps: seq<Step>, step: Step, c: Address, i: nat)
    requires var log := TalkAt(env, Play(env, w, steps), step, c); i < |log| && log[i].Loaded?
    ensures var log := TalkAt(env, Play(env, w, steps), step, c);
            var k := SlotKey(c, log[i].slot);
            log[i].answer
            == WordIn(env, match LastStore(log[..i], k.slot)
                           case Some(value) => Some(env.bytesOf(value))
                           case None => LastKept(env, w, steps, k))
  {
    hide Effect;
    hide LastKept;
    hide LastStore;
    hide Over;
    hide Answers;
    var now := Play(env, w, steps);
    var log := TalkAt(env, now, step, c);
    SlotExact(env, w, steps, SlotKey(c, log[i].slot));
    assert Talk(env, now.code[c], c, now.storage, log);
  }
}
