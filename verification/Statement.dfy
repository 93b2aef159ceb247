/** What one transaction does, said apart from how `apply_tx` computes it: the checks in order, the
    receipt, and every account, bond, delegation and contract entry by entry. Over every history the
    entries are then the sums of the transactions that were accepted. */
module Statement {
  import opened Common
  import opened Staking
  import opened Ledger
  import opened Footprint
  import opened History
  import opened HostLog
  import opened Stakes

  /** Gas a payload costs. */
  function GasCost(p: Payload): nat {
    if p.Deploy? then 50_000 else 21_000
  }

  /** What the sender puts up beside the fee. */
  function PutUp(p: Payload): nat {
    match p
    case Transfer(_, amount) => amount
    case Stake(s) => if s.kind in {Bond, Delegate} then s.amount else 0
    case _ => 0
  }

  /** The conversation of a called contract, with what the gas limit leaves as fuel. */
  ghost function CallTalk(env: Env, w: State, tx: Tx): (seq<HostEvent>, Option<RejectReason>) {
    if tx.payload.Call? && tx.payload.contract in w.code then
      var c := tx.payload.contract;
      TalkOf(env, w.code[c], c, w.storage, if tx.gasLimit < 21_000 then 0 else tx.gasLimit - 21_000)
    else ([], None)
  }

  ghost function PayloadChecks(env: Env, w: State, from: Address, tx: Tx): seq<Check> {
    match tx.payload
    case Transfer(_, _) => []
    case Stake(s) => StakeChecks(w.staking, env.params, from, s)
    case Deploy(code) => [Check(env.validWasm(code), WasmInvalid)]
    case Call(c) =>
      var error := CallTalk(env, w, tx).1;
      [Check(c in w.code, WasmNoCode), Check(c in w.code ==> env.validWasm(w.code[c]), WasmInvalid),
       Check(error == None, if error.Some? then error.value else WasmInvalid)]
  }

  function Sender(s: SignedTx): Address {
    if s.sender.Some? then s.sender.value else 0
  }

  /** What every transaction needs. */
  ghost function CommonChecks(w: State, s: SignedTx): seq<Check> {
    var sender := AccountOf(w, Sender(s));
    [Check(s.signatureOk && s.sender.Some?, Signature),
     Check(s.tx.nonce == sender.nonce, WrongNonce),
     Check(GasCost(s.tx.payload) <= s.tx.gasLimit <= 50_000_000, RejectReason.Gas),
     Check(PutUp(s.tx.payload) + s.tx.maxFee <= sender.balance, InsufficientBalance)]
  }

  /** Everything a transaction needs, in the order in which it is asked for. */
  ghost function TxChecks(env: Env, w: State, s: SignedTx): seq<Check> {
    CommonChecks(w, s) + PayloadChecks(env, w, Sender(s), s.tx)
  }

  /** Nothing is refused for. */
  ghost predicate Passes(env: Env, w: State, s: SignedTx) {
    FirstFailure(TxChecks(env, w, s)) == None
  }

  function EventOf(env: Env, s: SignedTx): Event {
    var from := Sender(s);
    match s.tx.payload
    case Transfer(to, amount) => Moved(from, to, amount)
    case Stake(p) => Event.Staked(from, p.amount)
    case Deploy(_) => Wasm(from, env.createAddress(from, s.tx.nonce))
    case Call(c) => Wasm(from, c)
  }

  /** The receipt of a transaction: the first check that fails, or the cost and what happened. */
  ghost function ReceiptFor(env: Env, w: State, s: SignedTx): Receipt {
    match FirstFailure(TxChecks(env, w, s))
    case Some(reason) => Receipt(false, 0, [], Some(reason))
    case None => Receipt(true, GasCost(s.tx.payload), [EventOf(env, s)], None)
  }

  lemma CallEnds(env: Env, w: State, tx: Tx)
    requires tx.payload.Call? && tx.payload.contract in w.code && tx.gasLimit >= 21_000
    ensures var c := tx.payload.contract;
            var run := RunGuest(env, w.code[c], c, [], tx.gasLimit - 21_000, GuestRun(None, w.storage, {}, {}));
            run.error == CallTalk(env, w, tx).1 && Follows(env, c, w.storage, CallTalk(env, w, tx).0, run)
  {
    hide Follows;
    hide WholeTalk;
    var c := tx.payload.contract;
    var log := RunIsTalk(env, w.code[c], c, w.storage, tx.gasLimit - 21_000);
  }

  /** The receipt, once signature, nonce, gas and balance are in order. */
  ghost predicate ReceiptFits(env: Env, w: State, s: SignedTx, r: Receipt) {
    match FirstFailure(PayloadChecks(env, w, Sender(s), s.tx))
    case Some(reason) => r == Receipt(false, 0, [], Some(reason))
    case None => r == Receipt(true, GasCost(s.tx.payload), [EventOf(env, s)], None)
  }

  lemma StakeReceipt(env: Env, w: State, s: SignedTx)
    requires s.tx.payload.Stake? && FirstFailure(CommonChecks(w, s)) == None
    ensures ReceiptFits(env, w, s, ApplyStake(env, w, s.tx, s.tx.payload.stake, Sender(s), 21_000).receipt)
  {
    hide Apply;
    hide StakeChecks;
    Unroll(CommonChecks(w, s));
    StakeRefusedFor(w.staking, env.params, Sender(s), s.tx.payload.stake);
  }

  lemma CallReceipt(env: Env, w: State, s: SignedTx)
    requires s.tx.payload.Call? && FirstFailure(CommonChecks(w, s)) == None
    ensures ReceiptFits(env, w, s, ApplyCall(env, w, s.tx, s.tx.payload.contract, Sender(s), 21_000).receipt)
  {
    hide Follows;
    hide RunGuest;
    hide CallTalk;
    Unroll(CommonChecks(w, s));
    Unroll(PayloadChecks(env, w, Sender(s), s.tx));
    if s.tx.payload.contract in w.code {
      CallEnds(env, w, s.tx);
    }
  }

  lemma DeployReceipt(env: Env, w: State, s: SignedTx)
    requires s.tx.payload.Deploy? && FirstFailure(CommonChecks(w, s)) == None
    ensures ReceiptFits(env, w, s, ApplyDeploy(env, w, s.tx, s.tx.payload.code, Sender(s), 50_000).receipt)
  {
    Unroll(CommonChecks(w, s));
    Unroll(PayloadChecks(env, w, Sender(s), s.tx));
  }

  lemma TransferReceipt(env: Env, w: State, s: SignedTx)
    requires s.tx.payload.Transfer? && FirstFailure(CommonChecks(w, s)) == None
    ensures var p := s.tx.payload;
            ReceiptFits(env, w, s, ApplyTransfer(w, s.tx, p.to, p.amount, Sender(s), 21_000).receipt)
  {
    Unroll(CommonChecks(w, s));
  }

  /** A transaction failing a common check is refused for the first of them. */
  lemma RefusedEarly(env: Env, w: State, s: SignedTx)
    requires FirstFailure(CommonChecks(w, s)).Some?
    ensures Effect(env, w, s).receipt == Receipt(false, 0, [], FirstFailure(CommonChecks(w, s)))
  {
    hide Apply;
    hide RunGuest;
    Unroll(CommonChecks(w, s));
  }

  /** The receipt of every transaction: refused for the first check that fails, accepted if there is none. */
  lemma ReceiptIs(env: Env, w: State, s: SignedTx)
    ensures Effect(env, w, s).receipt == ReceiptFor(env, w, s)
  {
    hide ApplyStake;
    hide ApplyCall;
    hide ApplyDeploy;
    hide ApplyTransfer;
    hide PayloadChecks;
    hide EventOf;
    FirstFailureAppend(CommonChecks(w, s), PayloadChecks(env, w, Sender(s), s.tx));
    if FirstFailure(CommonChecks(w, s)).Some? {
      RefusedEarly(env, w, s);
    } else {
      Unroll(CommonChecks(w, s));
      hide FirstFailure;
      match s.tx.payload {
        case Stake(_) => StakeReceipt(env, w, s);
        case Call(_) => CallReceipt(env, w, s);
        case Deploy(_) => DeployReceipt(env, w, s);
        case Transfer(_, _) => TransferReceipt(env, w, s);
      }
    }
  }

  /** So a transaction is accepted exactly when every check passes. */
  lemma AcceptedIff(env: Env, w: State, s: SignedTx)
    ensures Effect(env, w, s).receipt.success <==> Passes(env, w, s)
  {
    ReceiptIs(env, w, s);
  }

  // ---------------------------------------------------------------- accounts

  /** Amounts that accepted transactions move, by whom and where. */
  datatype Flow =
    | SentBy(a: Address) | ReceivedBy(a: Address) | FeesOf(a: Address)
    | BondedBy(a: Address) | DelegatedBy(a: Address) | WithdrawnBy(a: Address)
    | BondedTo(id: ValidatorId) | UnbondedFrom(id: ValidatorId)
    | DelegatedTo(a: Address, id: ValidatorId) | UndelegatedFrom(a: Address, id: ValidatorId)

  predicate IsStake(s: SignedTx, kind: StakeKind) {
    s.tx.payload.Stake? && s.tx.payload.stake.kind == kind
  }

  /** The payload is of this kind and aims at this validator. */
  predicate Aims(s: SignedTx, kind: StakeKind, id: ValidatorId) {
    IsStake(s, kind) && s.tx.payload.stake.validator == Some(id)
  }

  function InFlow(s: SignedTx, f: Flow): nat {
    var p := s.tx.payload;
    match f
    case SentBy(a) => if p.Transfer? && s.sender == Some(a) then p.amount else 0
    case ReceivedBy(a) => if p.Transfer? && p.to == a then p.amount else 0
    case FeesOf(a) => if s.sender == Some(a) then s.tx.maxFee else 0
    case BondedBy(a) => if IsStake(s, Bond) && s.sender == Some(a) then p.stake.amount else 0
    case DelegatedBy(a) => if IsStake(s, Delegate) && s.sender == Some(a) then p.stake.amount else 0
    case WithdrawnBy(a) => if IsStake(s, Withdraw) && s.sender == Some(a) then p.stake.amount else 0
    case BondedTo(id) => if Aims(s, Bond, id) then p.stake.amount else 0
    case UnbondedFrom(id) => if Aims(s, Unbond, id) then p.stake.amount else 0
    case DelegatedTo(a, id) => if Aims(s, Delegate, id) && s.sender == Some(a) then p.stake.amount else 0
    case UndelegatedFrom(a, id) => if Aims(s, Undelegate, id) && s.sender == Some(a) then p.stake.amount else 0
  }

  /** What an account pays, and what it is paid, if the transaction is accepted. */
  function Paid(s: SignedTx, a: Address): nat {
    InFlow(s, SentBy(a)) + InFlow(s, BondedBy(a)) + InFlow(s, DelegatedBy(a)) + InFlow(s, FeesOf(a))
  }

  function Got(s: SignedTx, a: Address): nat {
    InFlow(s, ReceivedBy(a)) + InFlow(s, WithdrawnBy(a))
  }

  /** A credit that 128 bits cannot hold is dropped. */
  function Dropped(w: State, s: SignedTx, a: Address): nat {
    if AccountOf(w, a).balance - Paid(s, a) + Got(s, a) > U128_MAX then Got(s, a) else 0
  }

  /** The contract that a deployment creates. */
  predicate Creates(env: Env, s: SignedTx, a: Address) {
    s.tx.payload.Deploy? && a == env.createAddress(Sender(s), s.tx.nonce)
  }

  /** The account `r` that `a` has after an accepted transaction. */
  ghost predicate AccountFits(env: Env, w: State, s: SignedTx, a: Address, r: Account) {
    var was := AccountOf(w, a);
    && r.balance == was.balance - Paid(s, a) + Got(s, a) - Dropped(w, s, a)
    && r.nonce == (if s.sender == Some(a) then Min(was.nonce + 1, U64_MAX) else was.nonce)
    && r.codeHash == (if Creates(env, s, a) then env.codeHash(s.tx.payload.code) else was.codeHash)
  }

  /** An accepted transaction leaves an entry for these accounts even if there was none. */
  predicate Touches(env: Env, s: SignedTx, a: Address) {
    s.sender == Some(a) || (s.tx.payload.Transfer? && s.tx.payload.to == a) || Creates(env, s, a)
  }

  ghost predicate AccountAt(env: Env, w: State, s: SignedTx, r: map<Address, Account>, a: Address) {
    if Touches(env, s, a) then a in r && AccountFits(env, w, s, a, r[a]) else SameEntry(r, w.accounts, a)
  }

  ghost predicate AccountsFit(env: Env, w: State, s: SignedTx, r: map<Address, Account>) {
    forall a: Address :: AccountAt(env, w, s, r, a)
  }

  lemma TransferAccounts(env: Env, w: State, s: SignedTx)
    requires s.tx.payload.Transfer? && FirstFailure(CommonChecks(w, s)) == None
    ensures var p := s.tx.payload;
            AccountsFit(env, w, s, ApplyTransfer(w, s.tx, p.to, p.amount, Sender(s), 21_000).state.accounts)
  {
    Unroll(CommonChecks(w, s));
    hide FirstFailure;
    hide CommonChecks;
    var r := ApplyTransfer(w, s.tx, s.tx.payload.to, s.tx.payload.amount, Sender(s), 21_000);
    if r.receipt.success {
      forall a: Address ensures AccountAt(env, w, s, r.state.accounts, a) {
      }
    }
  }

  lemma StakeAccounts(env: Env, w: State, s: SignedTx)
    requires s.tx.payload.Stake? && FirstFailure(CommonChecks(w, s)) == None
    ensures var r := ApplyStake(env, w, s.tx, s.tx.payload.stake, Sender(s), 21_000);
            if r.receipt.success then AccountsFit(env, w, s, r.state.accounts) else r.state.accounts == w.accounts
  {
    hide Apply;
    Unroll(CommonChecks(w, s));
  }

  lemma DeployAccounts(env: Env, w: State, s: SignedTx)
    requires s.tx.payload.Deploy? && FirstFailure(CommonChecks(w, s)) == None
    ensures var r := ApplyDeploy(env, w, s.tx, s.tx.payload.code, Sender(s), 50_000);
            if r.receipt.success then AccountsFit(env, w, s, r.state.accounts) else r.state == w
  {
    Unroll(CommonChecks(w, s));
    hide FirstFailure;
    hide CommonChecks;
    var r := ApplyDeploy(env, w, s.tx, s.tx.payload.code, Sender(s), 50_000);
    if r.receipt.success {
      forall a: Address ensures AccountAt(env, w, s, r.state.accounts, a) {
      }
    }
  }

  lemma CallAccounts(env: Env, w: State, s: SignedTx)
    requires s.tx.payload.Call? && FirstFailure(CommonChecks(w, s)) == None
    ensures var r := ApplyCall(env, w, s.tx, s.tx.payload.contract, Sender(s), 21_000);
            if r.receipt.success then AccountsFit(env, w, s, r.state.accounts) else r.state == w
  {
    hide RunGuest;
    Unroll(CommonChecks(w, s));
  }

  // --------------------------------------------------------- contracts

  /** Code after an accepted transaction. */
  ghost predicate CodeFits(env: Env, w: State, s: SignedTx, r: map<Address, Bytes>) {
    forall a :: At(r, a) == if Creates(env, s, a) then Some(s.tx.payload.code) else At(w.code, a)
  }

  /** Storage and recorded slots after an accepted transaction: what the conversation of the call left. */
  ghost predicate SlotsFit(env: Env, w: State, s: SignedTx, r: TxResult) {
    if s.tx.payload.Call? then
      Follows(env, s.tx.payload.contract, w.storage, CallTalk(env, w, s.tx).0,
              GuestRun(None, r.state.storage, r.readSet, r.writeSet))
    else r.state.storage == w.storage && r.readSet == {} && r.writeSet == {}
  }

  // ----------------------------------------------------------- all together

  /** The whole result of a transaction. */
  ghost predicate Describes(env: Env, w: State, s: SignedTx, r: TxResult) {
    && r.receipt == ReceiptFor(env, w, s)
    && if Passes(env, w, s) then
         && AccountsFit(env, w, s, r.state.accounts) && CodeFits(env, w, s, r.state.code) && SlotsFit(env, w, s, r)
         && if s.tx.payload.Stake? then BookFits(w.staking, env.params, Sender(s), s.tx.payload.stake, r.state.staking)
            else r.state.staking == w.staking
       else
         && r.readSet == {} && r.writeSet == {}
         && r.state == w.(staking := if RefusedLate(env, w, s) then Recorded(w.staking, s) else w.staking)
  }

  /** The sender as operator of the validator it aims at. */
  function Recorded(b: Book, s: SignedTx): Book
    requires s.tx.payload.Stake?
  {
    b.(operator := b.operator[Target(s.tx.payload.stake) := Sender(s)])
  }

  /** Only the overflowing first bond is refused after something was written down. */
  ghost predicate RefusedLate(env: Env, w: State, s: SignedTx) {
    && FirstFailure(CommonChecks(w, s)) == None && s.tx.payload.Stake?
    && RecordsAnyway(w.staking, env.params, Sender(s), s.tx.payload.stake)
  }

  /** The parts of a result beside accounts and receipt. */
  ghost predicate RestFits(env: Env, w: State, s: SignedTx, r: TxResult) {
    if r.receipt.success then
      && CodeFits(env, w, s, r.state.code) && SlotsFit(env, w, s, r)
      && if s.tx.payload.Stake? then BookFits(w.staking, env.params, Sender(s), s.tx.payload.stake, r.state.staking)
         else r.state.staking == w.staking
    else
      && r.readSet == {} && r.writeSet == {}
      && r.state == w.(staking := if RefusedLate(env, w, s) then Recorded(w.staking, s) else w.staking)
  }

  lemma StakeRest(env: Env, w: State, s: SignedTx)
    requires s.tx.payload.Stake? && FirstFailure(CommonChecks(w, s)) == None
    ensures RestFits(env, w, s, ApplyStake(env, w, s.tx, s.tx.payload.stake, Sender(s), 21_000))
  {
    hide Apply;
    hide BookFits;
    hide RecordsAnyway;
    Unroll(CommonChecks(w, s));
    BookIs(w.staking, env.params, Sender(s), s.tx.payload.stake);
  }

  lemma CallRest(env: Env, w: State, s: SignedTx)
    requires s.tx.payload.Call? && FirstFailure(CommonChecks(w, s)) == None
    ensures RestFits(env, w, s, ApplyCall(env, w, s.tx, s.tx.payload.contract, Sender(s), 21_000))
  {
    hide CallTalk;
    hide RunGuest;
    hide Holds;
    hide Slots;
    hide StoredSlots;
    Unroll(CommonChecks(w, s));
    if s.tx.payload.contract in w.code {
      CallEnds(env, w, s.tx);
    }
  }

  lemma DeployRest(env: Env, w: State, s: SignedTx)
    requires s.tx.payload.Deploy? && FirstFailure(CommonChecks(w, s)) == None
    ensures RestFits(env, w, s, ApplyDeploy(env, w, s.tx, s.tx.payload.code, Sender(s), 50_000))
  {
    Unroll(CommonChecks(w, s));
  }

  lemma TransferRest(env: Env, w: State, s: SignedTx)
    requires s.tx.payload.Transfer? && FirstFailure(CommonChecks(w, s)) == None
    ensures var p := s.tx.payload;
            RestFits(env, w, s, ApplyTransfer(w, s.tx, p.to, p.amount, Sender(s), 21_000))
  {
    Unroll(CommonChecks(w, s));
  }

  /** A transaction that fails a common check leaves everything as it was. */
  lemma EarlyRest(env: Env, w: State, s: SignedTx)
    requires FirstFailure(CommonChecks(w, s)).Some?
    ensures Effect(env, w, s).state == w && Effect(env, w, s).readSet == {} && Effect(env, w, s).writeSet == {}
  {
    hide Apply;
    hide RunGuest;
    Unroll(CommonChecks(w, s));
  }

  lemma EffectDescribed(env: Env, w: State, s: SignedTx)
    ensures Describes(env, w, s, Effect(env, w, s))
  {
    hide ApplyStake;
    hide ApplyCall;
    hide ApplyDeploy;
    hide ApplyTransfer;
    hide AccountsFit;
    hide CodeFits;
    hide SlotsFit;
    hide BookFits;
    hide Recorded;
    hide ReceiptFor;
    AcceptedIff(env, w, s);
    ReceiptIs(env, w, s);
    hide Passes;
    if FirstFailure(CommonChecks(w, s)).Some? {
      EarlyRest(env, w, s);
      RefusedEarly(env, w, s);
    } else {
      Unroll(CommonChecks(w, s));
      hide FirstFailure;
      hide RecordsAnyway;
      match s.tx.payload {
        case Stake(_) =>
          StakeAccounts(env, w, s);
          StakeRest(env, w, s);
        case Call(_) =>
          CallAccounts(env, w, s);
          CallRest(env, w, s);
        case Deploy(_) =>
          DeployAccounts(env, w, s);
          DeployRest(env, w, s);
        case Transfer(_, _) =>
          TransferAccounts(env, w, s);
          TransferRest(env, w, s);
      }
    }
  }

  lemma OneAccount(env: Env, w: State, s: SignedTx, q: map<Address, Account>, r: map<Address, Account>)
    requires AccountsFit(env, w, s, q) && AccountsFit(env, w, s, r)
    ensures q == r
  {
    hide Paid;
    hide Got;
    hide Dropped;
    forall a: Address ensures SameEntry(q, r, a) {
      assert AccountAt(env, w, s, q, a) && AccountAt(env, w, s, r, a);
    }
    SameEverywhere(q, r);
  }

  lemma SameLookups<K(!new), V>(q: map<K, V>, r: map<K, V>)
    requires forall k: K :: At(q, k) == At(r, k)
    ensures q == r
  {
    forall k: K ensures SameEntry(q, r, k) {
      assert At(q, k) == At(r, k);
    }
    SameEverywhere(q, r);
  }

  lemma OneContract(env: Env, w: State, s: SignedTx, q: TxResult, r: TxResult)
    requires CodeFits(env, w, s, q.state.code) && CodeFits(env, w, s, r.state.code)
    requires SlotsFit(env, w, s, q) && SlotsFit(env, w, s, r)
    ensures q.state.code == r.state.code && q.state.storage == r.state.storage
    ensures q.readSet == r.readSet && q.writeSet == r.writeSet
  {
    hide CallTalk;
    hide Holds;
    SameLookups(q.state.code, r.state.code);
    if s.tx.payload.Call? {
      forall k: SlotKey ensures At(q.state.storage, k) == At(r.state.storage, k) {
      }
      SameLookups(q.state.storage, r.state.storage);
    }
  }

  /** The description fits what `apply_tx` does and nothing else. */
  lemma EffectIs(env: Env, w: State, s: SignedTx, r: TxResult)
    ensures r == Effect(env, w, s) <==> Describes(env, w, s, r)
  {
    hide Effect;
    hide AccountsFit;
    hide CodeFits;
    hide SlotsFit;
    hide BookFits;
    hide ReceiptFor;
    hide Passes;
    EffectDescribed(env, w, s);
    var e := Effect(env, w, s);
    if Describes(env, w, s, r) && Passes(env, w, s) {
      OneAccount(env, w, s, e.state.accounts, r.state.accounts);
      OneContract(env, w, s, e, r);
      if s.tx.payload.Stake? {
        OneBook(w.staking, env.params, Sender(s), s.tx.payload.stake, e.state.staking, r.state.staking);
      }
    }
  }

  /** With a collision-free application hash, two blocks have one hash exactly when they end in the same
      accounts and storage with the same transactions and receipts. The staking book and code do not count. */
  lemma AppHashIff(env: Env, r: Run, txs: seq<SignedTx>, r': Run, txs': seq<SignedTx>)
    requires forall a, s, t, e, a', s', t', e' ::
               env.appHash(a, s, t, e) == env.appHash(a', s', t', e') ==> a == a' && s == s' && t == t' && e == e'
    ensures AppHash(env, r, txs) == AppHash(env, r', txs')
            <==> && r.state.accounts == r'.state.accounts && r.state.storage == r'.state.storage
                 && txs == txs' && r.receipts == r'.receipts
  {
  }
}
