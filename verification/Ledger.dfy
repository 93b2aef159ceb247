/** The sequential state transition of `crates/execution/src/seq.rs`, with the WASM host
    of `crates/execution/src/wasm` around a guest that is an arbitrary deterministic
    function of its code and the answers the host gave it. */
module Ledger {
  import opened Common
  import opened Staking

  const MAX_GAS: nat := 50_000_000
  const GAS_TRANSFER: nat := 21_000
  const GAS_DEPLOY: nat := 50_000
  const GAS_CALL: nat := 21_000

  datatype Account = Account(balance: u128, nonce: u64, codeHash: Hash)
  const EMPTY_ACCOUNT := Account(0, 0, 0)

  /** A storage key: contract address and slot number. */
  datatype SlotKey = SlotKey(contract: Address, slot: u32)

  /** The part of the world that a block commits to. */
  datatype State = State(
    accounts: map<Address, Account>,
    storage: map<SlotKey, Bytes>,
    code: map<Address, Bytes>,
    staking: Book)

  datatype Payload =
    | Transfer(to: Address, amount: u128)
    | Stake(stake: StakePayload)
    | Deploy(code: Bytes)
    | Call(contract: Address)

  datatype Tx = Tx(nonce: u64, gasLimit: u64, maxFee: u128, payload: Payload)

  /** An envelope with the two facts the signature layer derives from its bytes. */
  datatype SignedTx = SignedTx(tx: Tx, signatureOk: bool, sender: Option<Address>)

  datatype Event =
    | Moved(from: Address, to: Address, amount: u128)
    | Staked(from: Address, amount: u128)
    | Wasm(from: Address, contract: Address)

  datatype Receipt = Receipt(success: bool, gasUsed: u64, events: seq<Event>, reason: Option<RejectReason>)

  /** What a guest does next, and the fuel it burns getting there. */
  datatype HostCall = Load(slot: u32) | Store(slot: u32, value: int) | Reenter | Finish | Trap
  datatype GuestStep = GuestStep(call: HostCall, cost: nat)

  /** Parameters and foreign code: hashes, the WASM validator and the guests themselves. */
  datatype Env = Env(
    params: Params,
    createAddress: (Address, u64) -> Address,
    codeHash: Bytes -> Hash,
    validWasm: Bytes -> bool,
    guest: (Bytes, seq<int>) -> GuestStep,
    wordOf: Bytes -> int,
    bytesOf: int -> Bytes,
    appHash: (map<Address, Account>, map<SlotKey, Bytes>, seq<SignedTx>, seq<Receipt>) -> Hash)

  // -------------------------------------------------------------- WASM host

  datatype GuestRun = GuestRun(
    error: Option<RejectReason>, storage: map<SlotKey, Bytes>, readSet: set<SlotKey>, writeSet: set<SlotKey>)

  function LoadWord(env: Env, storage: map<SlotKey, Bytes>, k: SlotKey): int {
    if k in storage then env.wordOf(storage[k]) else 0
  }

  /** Run a guest to its end; every host call and instruction burns fuel. */
  function RunGuest(env: Env, code: Bytes, c: Address, answers: seq<int>, fuel: nat, at: GuestRun): GuestRun
    decreases fuel
  {
    var step := env.guest(code, answers);
    if fuel < 1 + step.cost then at.(error := Some(WasmGas))
    else
      var left := fuel - 1 - step.cost;
      match step.call
      case Finish => at.(error := None)
      case Trap => at.(error := Some(WasmInvalid))
      case Reenter => at.(error := Some(WasmReentrancy))
      case Load(slot) =>
        var k := SlotKey(c, slot);
        RunGuest(env, code, c, answers + [LoadWord(env, at.storage, k)], left, at.(readSet := at.readSet + {k}))
      case Store(slot, value) =>
        var k := SlotKey(c, slot);
        RunGuest(env, code, c, answers + [0], left,
                 at.(storage := at.storage[k := env.bytesOf(value)],
                     readSet := at.readSet + {k}, writeSet := at.writeSet + {k}))
  }

  // ------------------------------------------------------ the transition

  datatype TxResult = TxResult(state: State, receipt: Receipt, readSet: set<SlotKey>, writeSet: set<SlotKey>)

  function AccountOf(w: State, a: Address): Account {
    if a in w.accounts then w.accounts[a] else EMPTY_ACCOUNT
  }

  function GasMeter(tx: Tx): Option<u64> {
    var cost: u64 := match tx.payload
      case Transfer(_, _) => GAS_TRANSFER
      case Stake(_) => GAS_TRANSFER
      case Deploy(_) => GAS_DEPLOY
      case Call(_) => GAS_CALL;
    if tx.gasLimit > MAX_GAS || tx.gasLimit < cost then None else Some(cost)
  }

  function NextNonce(n: u64): u64 {
    if n + 1 <= U64_MAX then n + 1 else n
  }

  function Refuse(w: State, reason: RejectReason): TxResult {
    TxResult(w, Receipt(false, 0, [], Some(reason)), {}, {})
  }

  function Accept(w: State, gas: u64, event: Event): TxResult {
    TxResult(w, Receipt(true, gas, [event], None), {}, {})
  }

  function PutAccount(w: State, a: Address, account: Account): State {
    w.(accounts := w.accounts[a := account])
  }

  /** Sender after paying `pay` and spending a nonce. */
  function Charged(sender: Account, pay: u128): Account
    requires pay <= sender.balance
  {
    sender.(balance := sender.balance - pay, nonce := NextNonce(sender.nonce))
  }

  function Debit(s: StakePayload): u128 {
    if s.kind == Bond || s.kind == Delegate then s.amount else 0
  }

  function ApplyStake(env: Env, w: State, tx: Tx, s: StakePayload, from: Address, gas: u64): TxResult {
    var sender := AccountOf(w, from);
    if sender.balance < Debit(s) + tx.maxFee then Refuse(w, InsufficientBalance)
    else
      var r := Staking.Apply(w.staking, env.params, from, s);
      if r.error.Some? then Refuse(w.(staking := r.book), r.error.value)
      else
        var paid := Charged(sender, Debit(s) + tx.maxFee);
        var after := if s.kind == Withdraw then paid.(balance := AddOrKeep(paid.balance, s.amount)) else paid;
        Accept(PutAccount(w.(staking := r.book), from, after), gas, Event.Staked(from, s.amount))
  }

  function ApplyDeploy(env: Env, w: State, tx: Tx, code: Bytes, from: Address, gas: u64): TxResult {
    var sender := AccountOf(w, from);
    if sender.balance < tx.maxFee then Refuse(w, InsufficientBalance)
    else if !env.validWasm(code) then Refuse(w, WasmInvalid)
    else
      var paid := PutAccount(w, from, Charged(sender, tx.maxFee));
      var addr := env.createAddress(from, tx.nonce);
      var installed := PutAccount(paid, addr, AccountOf(paid, addr).(codeHash := env.codeHash(code)));
      Accept(installed.(code := installed.code[addr := code]), gas, Wasm(from, addr))
  }

  function ApplyCall(env: Env, w: State, tx: Tx, c: Address, from: Address, gas: u64): TxResult {
    var sender := AccountOf(w, from);
    if sender.balance < tx.maxFee then Refuse(w, InsufficientBalance)
    else if c !in w.code then Refuse(w, WasmNoCode)
    else if !env.validWasm(w.code[c]) then Refuse(w, WasmInvalid)
    else
      var paid := PutAccount(w, from, Charged(sender, tx.maxFee));
      var fuel := if gas <= tx.gasLimit then tx.gasLimit - gas else 0;
      var run := RunGuest(env, w.code[c], c, [], fuel, GuestRun(None, w.storage, {}, {}));
      if run.error.Some? then Refuse(w, run.error.value)
      else Accept(paid.(storage := run.storage), gas, Wasm(from, c)).(readSet := run.readSet, writeSet := run.writeSet)
  }

  function ApplyTransfer(w: State, tx: Tx, to: Address, amount: u128, from: Address, gas: u64): TxResult {
    var sender := AccountOf(w, from);
    if sender.balance < amount + tx.maxFee then Refuse(w, InsufficientBalance)
    else
      var paid := PutAccount(w, from, Charged(sender, amount + tx.maxFee));
      var recv := AccountOf(paid, to);
      Accept(PutAccount(paid, to, recv.(balance := AddOrKeep(recv.balance, amount))), gas, Moved(from, to, amount))
  }

  /** `apply_tx` as a function of the state. */
  function Effect(env: Env, w: State, s: SignedTx): TxResult {
    if !s.signatureOk || s.sender == None then Refuse(w, Signature)
    else
      var from := s.sender.value;
      if AccountOf(w, from).nonce != s.tx.nonce then Refuse(w, WrongNonce)
      else if GasMeter(s.tx) == None then Refuse(w, RejectReason.Gas)
      else
        var gas := GasMeter(s.tx).value;
        match s.tx.payload
        case Stake(p) => ApplyStake(env, w, s.tx, p, from, gas)
        case Deploy(code) => ApplyDeploy(env, w, s.tx, code, from, gas)
        case Call(c) => ApplyCall(env, w, s.tx, c, from, gas)
        case Transfer(to, amount) => ApplyTransfer(w, s.tx, to, amount, from, gas)
  }

  datatype Run = Run(state: State, receipts: seq<Receipt>)

  /** Apply transactions one after the other. */
  function RunTxs(env: Env, w: State, txs: seq<SignedTx>): (r: Run)
    ensures |r.receipts| == |txs|
  {
    if txs == [] then Run(w, [])
    else
      var before := RunTxs(env, w, txs[..|txs| - 1]);
      var last := Effect(env, before.state, txs[|txs| - 1]);
      Run(last.state, before.receipts + [last.receipt])
  }

  function AppHash(env: Env, r: Run, txs: seq<SignedTx>): Hash {
    env.appHash(r.state.accounts, r.state.storage, txs, r.receipts)
  }

  // ------------------------------------------------------ the mutable world

  class World {
    const env: Env
    const staking: StakingLedger
    var accounts: map<Address, Account>
    var storage: map<SlotKey, Bytes>
    var code: map<Address, Bytes>
    var executing: set<Address>
    var storageReads: set<SlotKey>
    var storageWrites: set<SlotKey>

    function Snapshot(): State
      reads this, staking
    {
      State(accounts, storage, code, staking.View())
    }

    constructor (env: Env, w: State)
      ensures Snapshot() == w
      ensures this.env == env
      ensures fresh(staking)
    {
      this.env := env;
      staking := new StakingLedger(w.staking);
      accounts, storage, code := w.accounts, w.storage, w.code;
      executing, storageReads, storageWrites := {}, {}, {};
    }

    /** Assign a snapshot back. */
    method Restore(w: State)
      modifies this, staking
      ensures Snapshot() == w
      ensures storageReads == {} && storageWrites == {} && executing == {}
    {
      accounts, storage, code := w.accounts, w.storage, w.code;
      executing, storageReads, storageWrites := {}, {}, {};
      staking.Restore(w.staking);
    }

    method Sload(c: Address, slot: u32) returns (v: int)
      modifies this`storageReads
      ensures v == LoadWord(env, storage, SlotKey(c, slot))
      ensures storageReads == old(storageReads) + {SlotKey(c, slot)}
    {
      storageReads := storageReads + {SlotKey(c, slot)};
      v := LoadWord(env, storage, SlotKey(c, slot));
    }

    method Sstore(c: Address, slot: u32, value: int)
      modifies this`storageReads, this`storageWrites, this`storage
      ensures storage == old(storage)[SlotKey(c, slot) := env.bytesOf(value)]
      ensures storageReads == old(storageReads) + {SlotKey(c, slot)}
      ensures storageWrites == old(storageWrites) + {SlotKey(c, slot)}
    {
      var _ := Sload(c, slot);
      storageWrites := storageWrites + {SlotKey(c, slot)};
      storage := storage[SlotKey(c, slot) := env.bytesOf(value)];
    }

    ghost function Trace(): GuestRun
      reads this
    {
      GuestRun(None, storage, storageReads, storageWrites)
    }

    /** Drive the guest through the host functions. */
    method RunEngine(c: Address, fuel: u64) returns (error: Option<RejectReason>)
      requires c in code && c in executing
      modifies this`storageReads, this`storageWrites, this`storage
      ensures GuestRun(error, storage, storageReads, storageWrites)
           == RunGuest(env, code[c], c, [], fuel, old(Trace()))
    {
      var answers: seq<int> := [];
      var left: nat := fuel;
      while true
        invariant RunGuest(env, code[c], c, answers, left, Trace())
               == RunGuest(env, code[c], c, [], fuel, old(Trace()))
        decreases left
      {
        var step := env.guest(code[c], answers);
        if left < 1 + step.cost {
          return Some(WasmGas);
        }
        left := left - 1 - step.cost;
        match step.call {
          case Finish => return None;
          case Trap => return Some(WasmInvalid);
          case Reenter => return Some(WasmReentrancy);
          case Load(slot) =>
            var v := Sload(c, slot);
            answers := answers + [v];
          case Store(slot, value) =>
            Sstore(c, slot, value);
            answers := answers + [0];
        }
      }
    }

    /** `execute`: refuse to enter a contract that is already running. */
    method Execute(c: Address, fuel: u64) returns (error: Option<RejectReason>)
      modifies this`executing, this`storageReads, this`storageWrites, this`storage
      ensures c in old(executing) ==> error == Some(WasmReentrancy) && unchanged(this)
      ensures c !in old(executing) && c !in code ==> error == Some(WasmNoCode) && unchanged(this)
      ensures c !in old(executing) && c in code ==>
                GuestRun(error, storage, storageReads, storageWrites)
                  == RunGuest(env, code[c], c, [], fuel, old(Trace()))
      ensures c !in old(executing) ==> executing == old(executing)
    {
      if c in executing {
        return Some(WasmReentrancy);
      }
      if c !in code {
        return Some(WasmNoCode);
      }
      executing := executing + {c};
      error := RunEngine(c, fuel);
      executing := executing - {c};
    }

    method ApplyTx(s: SignedTx) returns (receipt: Receipt)
      modifies this, staking
      ensures TxResult(Snapshot(), receipt, storageReads, storageWrites)
           == Effect(env, old(Snapshot()), s)
    {
      storageReads, storageWrites, executing := {}, {}, {};
      if !s.signatureOk || s.sender == None {
        return Receipt(false, 0, [], Some(Signature));
      }
      var from := s.sender.value;
      var sender := if from in accounts then accounts[from] else EMPTY_ACCOUNT;
      if sender.nonce != s.tx.nonce {
        return Receipt(false, 0, [], Some(WrongNonce));
      }
      var metered := GasMeter(s.tx);
      if metered == None {
        return Receipt(false, 0, [], Some(RejectReason.Gas));
      }
      match s.tx.payload {
        case Stake(p) => receipt := ApplyStakePayload(s.tx, p, from, metered.value);
        case Deploy(wasm) => receipt := ApplyDeployPayload(s.tx, wasm, from, metered.value);
        case Call(c) => receipt := ApplyCallPayload(s.tx, c, from, metered.value);
        case Transfer(to, amount) => receipt := ApplyTransferPayload(s.tx, to, amount, from, metered.value);
      }
    }

    method ApplyStakePayload(tx: Tx, p: StakePayload, from: Address, gas: u64) returns (receipt: Receipt)
      requires storageReads == {} && storageWrites == {}
      modifies this`accounts, staking
      ensures TxResult(Snapshot(), receipt, storageReads, storageWrites)
           == ApplyStake(env, old(Snapshot()), tx, p, from, gas)
    {
      hide Staking.Apply;
      var sender := if from in accounts then accounts[from] else EMPTY_ACCOUNT;
      var debit := Debit(p);
      if sender.balance < debit + tx.maxFee {
        return Receipt(false, 0, [], Some(InsufficientBalance));
      }
      var error := staking.ApplyStakeTx(env.params, from, p);
      if error.Some? {
        return Receipt(false, 0, [], error);
      }
      sender := Charged(sender, debit + tx.maxFee);
      if p.kind == Withdraw {
        sender := sender.(balance := AddOrKeep(sender.balance, p.amount));
      }
      accounts := accounts[from := sender];
      return Receipt(true, gas, [Event.Staked(from, p.amount)], None);
    }

    method ApplyDeployPayload(tx: Tx, wasm: Bytes, from: Address, gas: u64) returns (receipt: Receipt)
      requires storageReads == {} && storageWrites == {}
      modifies this`accounts, this`code
      ensures TxResult(Snapshot(), receipt, storageReads, storageWrites)
           == ApplyDeploy(env, old(Snapshot()), tx, wasm, from, gas)
    {
      var sender := if from in accounts then accounts[from] else EMPTY_ACCOUNT;
      if sender.balance < tx.maxFee {
        return Receipt(false, 0, [], Some(InsufficientBalance));
      }
      if !env.validWasm(wasm) {
        return Receipt(false, 0, [], Some(WasmInvalid));
      }
      accounts := accounts[from := Charged(sender, tx.maxFee)];
      var addr := env.createAddress(from, tx.nonce);
      var created := if addr in accounts then accounts[addr] else EMPTY_ACCOUNT;
      accounts := accounts[addr := created.(codeHash := env.codeHash(wasm))];
      code := code[addr := wasm];
      return Receipt(true, gas, [Wasm(from, addr)], None);
    }

    method ApplyCallPayload(tx: Tx, c: Address, from: Address, gas: u64) returns (receipt: Receipt)
      requires storageReads == {} && storageWrites == {} && executing == {}
      modifies this, staking
      ensures TxResult(Snapshot(), receipt, storageReads, storageWrites)
           == ApplyCall(env, old(Snapshot()), tx, c, from, gas)
    {
      var sender := if from in accounts then accounts[from] else EMPTY_ACCOUNT;
      if sender.balance < tx.maxFee {
        return Receipt(false, 0, [], Some(InsufficientBalance));
      }
      if c !in code {
        return Receipt(false, 0, [], Some(WasmNoCode));
      }
      var snapshot := Snapshot();
      accounts := accounts[from := Charged(sender, tx.maxFee)];
      var fuel := if gas <= tx.gasLimit then tx.gasLimit - gas else 0;
      var error: Option<RejectReason>;
      if env.validWasm(code[c]) {
        error := Execute(c, fuel);
      } else {
        error := Some(WasmInvalid);
      }
      if error.Some? {
        Restore(snapshot);
        return Receipt(false, 0, [], error);
      }
      return Receipt(true, gas, [Wasm(from, c)], None);
    }

    method ApplyTransferPayload(tx: Tx, to: Address, amount: u128, from: Address, gas: u64) returns (receipt: Receipt)
      requires storageReads == {} && storageWrites == {}
      modifies this`accounts
      ensures TxResult(Snapshot(), receipt, storageReads, storageWrites)
           == ApplyTransfer(old(Snapshot()), tx, to, amount, from, gas)
    {
      var sender := if from in accounts then accounts[from] else EMPTY_ACCOUNT;
      if sender.balance < amount + tx.maxFee {
        return Receipt(false, 0, [], Some(InsufficientBalance));
      }
      accounts := accounts[from := Charged(sender, amount + tx.maxFee)];
      var recv := if to in accounts then accounts[to] else EMPTY_ACCOUNT;
      accounts := accounts[to := recv.(balance := AddOrKeep(recv.balance, amount))];
      return Receipt(true, gas, [Moved(from, to, amount)], None);
    }
  }

  /** `apply_block`: the canonical block application. */
  method ApplyBlock(env: Env, pre: State, txs: seq<SignedTx>) returns (post: State, receipts: seq<Receipt>, app: Hash)
    ensures Run(post, receipts) == RunTxs(env, pre, txs)
    ensures app == AppHash(env, RunTxs(env, pre, txs), txs)
  {
    var world := new World(env, pre);
    receipts := [];
    for i := 0 to |txs|
      invariant world.env == env && fresh(world) && fresh(world.staking)
      invariant Run(world.Snapshot(), receipts) == RunTxs(env, pre, txs[..i])
    {
      assert txs[..i + 1][..i] == txs[..i];
      var r := world.ApplyTx(txs[i]);
      receipts := receipts + [r];
    }
    assert txs[..|txs|] == txs;
    post := world.Snapshot();
    app := env.appHash(post.accounts, post.storage, txs, receipts);
  }
}
