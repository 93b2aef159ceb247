/** What one transaction may observe and change: the slot keys of
    `crates/execution/src/stm/rwset.rs`, and the proof that they are enough. */
module Footprint {
  import opened Common
  import opened Staking
  import opened Ledger

  /** Versioned slots: an account (with its code), the whole staking book, or one storage slot. */
  datatype Key = AccountKey(addr: Address) | StakingKey | StorageKey(slot: SlotKey)

  /** `inferred_keys`: account and staking keys an envelope may touch. */
  function InferredKeys(env: Env, s: SignedTx): set<Key> {
    (if s.sender.Some? then {AccountKey(s.sender.value)} else {})
    + (match s.tx.payload
       case Transfer(to, _) => {AccountKey(to)}
       case Stake(_) => {StakingKey}
       case Call(c) => {AccountKey(c)}
       case Deploy(_) =>
         if s.sender.Some? then {AccountKey(env.createAddress(s.sender.value, s.tx.nonce))} else {})
  }

  function StorageKeys(slots: set<SlotKey>): set<Key> {
    set k | k in slots :: StorageKey(k)
  }

  function SpecReads(env: Env, s: SignedTx, r: TxResult): set<Key> {
    InferredKeys(env, s) + StorageKeys(r.readSet)
  }

  function SpecWrites(env: Env, s: SignedTx, r: TxResult): set<Key> {
    (if r.receipt.success then SpecReads(env, s, r) else {}) + StorageKeys(r.writeSet)
  }

  // ------------------------------------------------------- agreement on keys

  ghost predicate SameSlots(m: map<SlotKey, Bytes>, n: map<SlotKey, Bytes>, c: Address) {
    forall k: SlotKey :: k.contract == c ==> SameEntry(m, n, k)
  }

  /** Two states hold the same thing under a key; an account key also stands for all of
      the storage of the contract at that address. */
  ghost predicate SameAt(v: State, w: State, k: Key) {
    match k
    case AccountKey(a) =>
      SameEntry(v.accounts, w.accounts, a) && SameEntry(v.code, w.code, a) && SameSlots(v.storage, w.storage, a)
    case StakingKey => v.staking == w.staking
    case StorageKey(_) => true
  }

  ghost predicate SameOn(v: State, w: State, keys: set<Key>) {
    forall k :: k in keys ==> SameAt(v, w, k)
  }

  // --------------------------------------------------------- guest footprint

  /** A guest only changes the slots it recorded as written, all of its own contract,
      and records every write as a read. */
  lemma {:induction false} GuestFrame(
    env: Env, code: Bytes, c: Address, answers: seq<int>, fuel: nat, at: GuestRun)
    requires at.writeSet <= at.readSet
    requires forall k :: k in at.readSet ==> k.contract == c
    ensures var run := RunGuest(env, code, c, answers, fuel, at);
            && at.writeSet <= run.writeSet <= run.readSet
            && (forall k :: k in run.readSet ==> k.contract == c)
            && (forall k :: k !in run.writeSet ==> SameEntry(run.storage, at.storage, k))
            && at.storage.Keys <= run.storage.Keys
    decreases fuel
  {
    var step := env.guest(code, answers);
    if fuel >= 1 + step.cost {
      var left := fuel - 1 - step.cost;
      match step.call {
        case Load(slot) =>
          var k := SlotKey(c, slot);
          GuestFrame(env, code, c, answers + [LoadWord(env, at.storage, k)], left, at.(readSet := at.readSet + {k}));
        case Store(slot, value) =>
          var k := SlotKey(c, slot);
          GuestFrame(env, code, c, answers + [0], left,
                     at.(storage := at.storage[k := env.bytesOf(value)],
                         readSet := at.readSet + {k}, writeSet := at.writeSet + {k}));
        case _ =>
      }
    }
  }

  /** A guest sees only its own contract's slots. */
  lemma {:induction false} GuestLocal(
    env: Env, code: Bytes, c: Address, answers: seq<int>, fuel: nat, at: GuestRun, other: GuestRun)
    requires SameSlots(at.storage, other.storage, c)
    requires at.readSet == other.readSet && at.writeSet == other.writeSet
    ensures var x, y := RunGuest(env, code, c, answers, fuel, at), RunGuest(env, code, c, answers, fuel, other);
            && SameSlots(x.storage, y.storage, c)
            && x.error == y.error && x.readSet == y.readSet && x.writeSet == y.writeSet
    decreases fuel
  {
    var step := env.guest(code, answers);
    if fuel >= 1 + step.cost {
      var left := fuel - 1 - step.cost;
      match step.call {
        case Load(slot) =>
          var k := SlotKey(c, slot);
          assert SameEntry(at.storage, other.storage, k);
          GuestLocal(env, code, c, answers + [LoadWord(env, at.storage, k)], left,
                     at.(readSet := at.readSet + {k}), other.(readSet := other.readSet + {k}));
        case Store(slot, value) =>
          var k := SlotKey(c, slot);
          var b := env.bytesOf(value);
          GuestLocal(env, code, c, answers + [0], left,
                     at.(storage := at.storage[k := b], readSet := at.readSet + {k}, writeSet := at.writeSet + {k}),
                     other.(storage := other.storage[k := b],
                            readSet := other.readSet + {k}, writeSet := other.writeSet + {k}));
        case _ =>
      }
    }
  }

  // --------------------------------------------------- transaction footprint

  /** The refused staking payload that still records an operator, seen at transaction level:
      every check before it has passed. */
  predicate Leaks(env: Env, w: State, s: SignedTx) {
    && s.signatureOk && s.sender.Some?
    && AccountOf(w, s.sender.value).nonce == s.tx.nonce
    && GasMeter(s.tx).Some?
    && s.tx.payload.Stake?
    && Debit(s.tx.payload.stake) + s.tx.maxFee <= AccountOf(w, s.sender.value).balance
    && OperatorLeak(w.staking, env.params, s.sender.value, s.tx.payload.stake)
  }

  /** A refused transaction changes nothing, exactly when it does not leak an operator. */
  lemma RefusalLeavesStateIff(env: Env, w: State, s: SignedTx)
    requires !Effect(env, w, s).receipt.success
    ensures Effect(env, w, s).state == w <==> !Leaks(env, w, s)
    ensures Effect(env, w, s).readSet == {} && Effect(env, w, s).writeSet == {}
  {
    if s.signatureOk && s.sender.Some? && s.tx.payload.Stake? {
      var p := s.tx.payload.stake;
      if Staking.Apply(w.staking, env.params, s.sender.value, p).error.Some? {
        RefusalAtomicIff(w.staking, env.params, s.sender.value, p);
      }
    }
  }

  /** Nothing outside `keys` changed, no storage slot outside the recorded write set changed, and
      nothing was deleted. */
  ghost predicate Framed(r: TxResult, w: State, keys: set<Key>) {
    && (forall k :: k !in keys ==> SameAt(r.state, w, k))
    && (forall k :: k !in r.writeSet ==> SameEntry(r.state.storage, w.storage, k))
    && r.writeSet <= r.readSet
    && w.storage.Keys <= r.state.storage.Keys
    && w.accounts.Keys <= r.state.accounts.Keys
    && w.code.Keys <= r.state.code.Keys
  }

  lemma StakeFrame(env: Env, w: State, tx: Tx, p: StakePayload, from: Address, gas: u64)
    ensures Framed(ApplyStake(env, w, tx, p, from, gas), w, {AccountKey(from), StakingKey})
  {
    hide Staking.Apply;
  }

  lemma DeployFrame(env: Env, w: State, tx: Tx, code: Bytes, from: Address, gas: u64)
    ensures Framed(ApplyDeploy(env, w, tx, code, from, gas), w,
                   {AccountKey(from), AccountKey(env.createAddress(from, tx.nonce))})
  {
  }

  lemma TransferFrame(w: State, tx: Tx, to: Address, amount: u128, from: Address, gas: u64)
    ensures Framed(ApplyTransfer(w, tx, to, amount, from, gas), w, {AccountKey(from), AccountKey(to)})
  {
  }

  lemma CallFrame(env: Env, w: State, tx: Tx, c: Address, from: Address, gas: u64)
    ensures Framed(ApplyCall(env, w, tx, c, from, gas), w, {AccountKey(from), AccountKey(c)})
  {
    if c in w.code {
      var fuel := if gas <= tx.gasLimit then tx.gasLimit - gas else 0;
      GuestFrame(env, w.code[c], c, [], fuel, GuestRun(None, w.storage, {}, {}));
    }
  }

  /** Nothing outside the inferred keys changes, storage slots outside the recorded write set
      do not change, and nothing is ever deleted. */
  lemma EffectFrame(env: Env, w: State, s: SignedTx)
    ensures Framed(Effect(env, w, s), w, InferredKeys(env, s))
  {
    hide ApplyTransfer;
    hide ApplyStake;
    hide ApplyDeploy;
    hide ApplyCall;
    if s.signatureOk && s.sender.Some? && GasMeter(s.tx).Some? {
      var from, gas := s.sender.value, GasMeter(s.tx).value;
      match s.tx.payload {
        case Transfer(to, amount) => TransferFrame(w, s.tx, to, amount, from, gas);
        case Stake(p) => StakeFrame(env, w, s.tx, p, from, gas);
        case Deploy(code) => DeployFrame(env, w, s.tx, code, from, gas);
        case Call(c) => CallFrame(env, w, s.tx, c, from, gas);
      }
    }
  }

  ghost predicate SameResult(x: TxResult, y: TxResult, keys: set<Key>) {
    && x.receipt == y.receipt && x.readSet == y.readSet && x.writeSet == y.writeSet
    && SameOn(x.state, y.state, keys)
  }

  lemma PutKeepsAgreement(v: State, w: State, a: Address, account: Account, k: Key)
    requires SameAt(v, w, k)
    ensures SameAt(PutAccount(v, a, account), PutAccount(w, a, account), k)
  {
  }

  lemma SameAccount(v: State, w: State, a: Address)
    requires SameAt(v, w, AccountKey(a))
    ensures AccountOf(v, a) == AccountOf(w, a)
  {
  }

  lemma TransferLocal(v: State, w: State, tx: Tx, to: Address, amount: u128, from: Address, gas: u64)
    requires SameAt(v, w, AccountKey(from)) && SameAt(v, w, AccountKey(to))
    ensures SameResult(ApplyTransfer(v, tx, to, amount, from, gas), ApplyTransfer(w, tx, to, amount, from, gas),
                       {AccountKey(from), AccountKey(to)})
  {
    hide Charged;
    hide AddOrKeep;
    hide AccountOf;
    hide PutAccount;
    hide SameAt;
    SameAccount(v, w, from);
    if amount + tx.maxFee <= AccountOf(v, from).balance {
      var paid := Charged(AccountOf(v, from), amount + tx.maxFee);
      var v', w' := PutAccount(v, from, paid), PutAccount(w, from, paid);
      PutKeepsAgreement(v, w, from, paid, AccountKey(from));
      PutKeepsAgreement(v, w, from, paid, AccountKey(to));
      SameAccount(v', w', to);
      var recv := AccountOf(v', to);
      var credited := recv.(balance := AddOrKeep(recv.balance, amount));
      PutKeepsAgreement(v', w', to, credited, AccountKey(from));
      PutKeepsAgreement(v', w', to, credited, AccountKey(to));
    }
  }

  lemma StakeLocal(env: Env, v: State, w: State, tx: Tx, p: StakePayload, from: Address, gas: u64)
    requires SameAt(v, w, AccountKey(from)) && SameAt(v, w, StakingKey)
    ensures SameResult(ApplyStake(env, v, tx, p, from, gas), ApplyStake(env, w, tx, p, from, gas),
                       {AccountKey(from), StakingKey})
  {
    hide Staking.Apply;
  }

  lemma InstallKeepsAgreement(v: State, w: State, a: Address, account: Account, code: Bytes, k: Key)
    requires SameAt(v, w, k)
    ensures var v', w' := PutAccount(v, a, account), PutAccount(w, a, account);
            SameAt(v'.(code := v'.code[a := code]), w'.(code := w'.code[a := code]), k)
  {
  }

  lemma DeployLocal(env: Env, v: State, w: State, tx: Tx, code: Bytes, from: Address, gas: u64)
    requires SameAt(v, w, AccountKey(from)) && SameAt(v, w, AccountKey(env.createAddress(from, tx.nonce)))
    ensures SameResult(ApplyDeploy(env, v, tx, code, from, gas), ApplyDeploy(env, w, tx, code, from, gas),
                       {AccountKey(from), AccountKey(env.createAddress(from, tx.nonce))})
  {
    hide Charged;
    hide AccountOf;
    hide PutAccount;
    hide SameAt;
    SameAccount(v, w, from);
    if tx.maxFee <= AccountOf(v, from).balance {
      var addr := env.createAddress(from, tx.nonce);
      var paid := Charged(AccountOf(v, from), tx.maxFee);
      var v', w' := PutAccount(v, from, paid), PutAccount(w, from, paid);
      PutKeepsAgreement(v, w, from, paid, AccountKey(from));
      PutKeepsAgreement(v, w, from, paid, AccountKey(addr));
      SameAccount(v', w', addr);
      var created := AccountOf(v', addr).(codeHash := env.codeHash(code));
      InstallKeepsAgreement(v', w', addr, created, code, AccountKey(from));
      InstallKeepsAgreement(v', w', addr, created, code, AccountKey(addr));
    }
  }

  lemma CallLocal(env: Env, v: State, w: State, tx: Tx, c: Address, from: Address, gas: u64)
    requires SameAt(v, w, AccountKey(from)) && SameAt(v, w, AccountKey(c))
    ensures SameResult(ApplyCall(env, v, tx, c, from, gas), ApplyCall(env, w, tx, c, from, gas),
                       {AccountKey(from), AccountKey(c)})
  {
    if tx.maxFee <= AccountOf(v, from).balance && c in w.code {
      var fuel := if gas <= tx.gasLimit then tx.gasLimit - gas else 0;
      var here, there := GuestRun(None, v.storage, {}, {}), GuestRun(None, w.storage, {}, {});
      GuestLocal(env, w.code[c], c, [], fuel, here, there);
      GuestKeepsAgreement(env, w.code[c], c, fuel, v.storage, w.storage, from);
      PutKeepsAgreement(v, w, from, Charged(AccountOf(v, from), tx.maxFee), AccountKey(from));
      PutKeepsAgreement(v, w, from, Charged(AccountOf(v, from), tx.maxFee), AccountKey(c));
    }
  }

  lemma GuestKeepsAgreement(
    env: Env, code: Bytes, c: Address, fuel: nat, m: map<SlotKey, Bytes>, n: map<SlotKey, Bytes>, other: Address)
    requires SameSlots(m, n, c) && SameSlots(m, n, other)
    ensures SameSlots(RunGuest(env, code, c, [], fuel, GuestRun(None, m, {}, {})).storage,
                      RunGuest(env, code, c, [], fuel, GuestRun(None, n, {}, {})).storage, other)
  {
    var here, there := GuestRun(None, m, {}, {}), GuestRun(None, n, {}, {});
    if other == c {
      GuestLocal(env, code, c, [], fuel, here, there);
    } else {
      GuestFrame(env, code, c, [], fuel, here);
      GuestFrame(env, code, c, [], fuel, there);
      var x, y := RunGuest(env, code, c, [], fuel, here), RunGuest(env, code, c, [], fuel, there);
      forall k: SlotKey | k.contract == other ensures SameEntry(x.storage, y.storage, k) {
        assert SameEntry(m, n, k) && k !in x.writeSet && k !in y.writeSet;
        assert SameEntry(x.storage, m, k) && SameEntry(y.storage, n, k);
      }
    }
  }

  /** The receipt, the recorded sets and everything left under the inferred keys are a
      function of what was under the inferred keys. */
  lemma EffectLocal(env: Env, v: State, w: State, s: SignedTx)
    requires SameOn(v, w, InferredKeys(env, s))
    ensures SameResult(Effect(env, v, s), Effect(env, w, s), InferredKeys(env, s))
  {
    if s.signatureOk && s.sender.Some? {
      var from := s.sender.value;
      assert SameAt(v, w, AccountKey(from));
      if AccountOf(w, from).nonce == s.tx.nonce && GasMeter(s.tx).Some? {
        var gas := GasMeter(s.tx).value;
        match s.tx.payload {
          case Transfer(to, amount) =>
            assert SameAt(v, w, AccountKey(to));
            TransferLocal(v, w, s.tx, to, amount, from, gas);
          case Stake(p) =>
            assert SameAt(v, w, StakingKey);
            StakeLocal(env, v, w, s.tx, p, from, gas);
          case Deploy(code) =>
            assert SameAt(v, w, AccountKey(env.createAddress(from, s.tx.nonce)));
            DeployLocal(env, v, w, s.tx, code, from, gas);
          case Call(c) =>
            assert SameAt(v, w, AccountKey(c));
            CallLocal(env, v, w, s.tx, c, from, gas);
        }
      }
    }
  }

  // ------------------------------------------------------------------ merging

  /** `dst` overwritten by the entries `src` has under the chosen keys. */
  function MergeMap<K, V>(dst: map<K, V>, src: map<K, V>, chosen: set<K>): map<K, V> {
    map k | k in dst.Keys + (src.Keys * chosen) :: if k in chosen && k in src then src[k] else dst[k]
  }

  lemma MergeMapStep<K, V>(dst: map<K, V>, src: map<K, V>, chosen: set<K>, k: K)
    ensures MergeMap(dst, src, chosen + {k})
         == if k in src then MergeMap(dst, src, chosen)[k := src[k]] else MergeMap(dst, src, chosen)
  {
  }

  function Addresses(keys: set<Key>): set<Address> {
    set k | k in keys && k.AccountKey? :: k.addr
  }

  function SlotsOf(keys: set<Key>): set<SlotKey> {
    set k | k in keys && k.StorageKey? :: k.slot
  }

  /** `merge_spec`: copy what a speculative run left under its write keys. */
  function Merge(dst: State, src: State, writeKeys: set<Key>): State {
    State(
      MergeMap(dst.accounts, src.accounts, Addresses(writeKeys)),
      MergeMap(dst.storage, src.storage, SlotsOf(writeKeys)),
      MergeMap(dst.code, src.code, Addresses(writeKeys)),
      if StakingKey in writeKeys then src.staking else dst.staking)
  }

  lemma MergeNothing(dst: State, src: State)
    ensures Merge(dst, src, {}) == dst
  {
    var m := Merge(dst, src, {});
    assert m.accounts == dst.accounts && m.storage == dst.storage && m.code == dst.code;
  }

  /** Merging `spec`, run on `pre`, into `w` gives `live`, run on `w`. */
  lemma MergePointwise(pre: State, w: State, spec: TxResult, live: TxResult, inferred: set<Key>)
    requires SameOn(pre, w, inferred) && SameResult(spec, live, inferred)
    requires Framed(live, w, inferred)
    requires spec.writeSet <= spec.readSet
    requires forall k :: k in spec.readSet ==> AccountKey(k.contract) in inferred
    requires forall k: SlotKey :: StorageKey(k) !in inferred
    ensures Merge(w, spec.state, inferred + StorageKeys(spec.readSet) + StorageKeys(spec.writeSet)) == live.state
  {
    var keys := inferred + StorageKeys(spec.readSet) + StorageKeys(spec.writeSet);
    var merged := Merge(w, spec.state, keys);
    forall a: Address
      ensures SameEntry(merged.accounts, live.state.accounts, a) && SameEntry(merged.code, live.state.code, a)
    {
      var k := AccountKey(a);
      if k in inferred {
        assert k in keys && a in Addresses(keys);
        assert SameAt(spec.state, live.state, k) && SameAt(pre, w, k);
      } else {
        assert k !in keys && a !in Addresses(keys);
        assert SameAt(live.state, w, k);
      }
    }
    forall k: SlotKey ensures SameEntry(merged.storage, live.state.storage, k) {
      if k in spec.readSet {
        assert StorageKey(k) in keys && k in SlotsOf(keys);
        assert SameAt(spec.state, live.state, AccountKey(k.contract));
        assert SameEntry(spec.state.storage, live.state.storage, k);
      } else {
        assert StorageKey(k) !in keys && k !in SlotsOf(keys);
        assert SameEntry(live.state.storage, w.storage, k);
      }
    }
    SameEverywhere(merged.accounts, live.state.accounts);
    SameEverywhere(merged.code, live.state.code);
    SameEverywhere(merged.storage, live.state.storage);
    if StakingKey in inferred {
      assert SameAt(spec.state, live.state, StakingKey);
    } else {
      assert SameAt(live.state, w, StakingKey);
    }
  }

  /** If the committed state still agrees with the pre-block state on the inferred keys,
      merging the speculation is running the transaction. */
  lemma MergeIsEffect(env: Env, pre: State, w: State, s: SignedTx)
    requires SameOn(pre, w, InferredKeys(env, s))
    requires !Leaks(env, w, s)
    ensures var spec := Effect(env, pre, s);
            && Merge(w, spec.state, SpecWrites(env, s, spec)) == Effect(env, w, s).state
            && spec.receipt == Effect(env, w, s).receipt
  {
    hide Effect;
    EffectLocal(env, pre, w, s);
    if Effect(env, pre, s).receipt.success {
      EffectFrame(env, pre, s);
      EffectFrame(env, w, s);
      ReadsOwnContract(env, pre, s);
      MergePointwise(pre, w, Effect(env, pre, s), Effect(env, w, s), InferredKeys(env, s));
    } else {
      RefusalLeavesStateIff(env, pre, s);
      RefusalLeavesStateIff(env, w, s);
      assert SpecWrites(env, s, Effect(env, pre, s)) == {};
      MergeNothing(w, Effect(env, pre, s).state);
    }
  }

  /** Only a call records slots, and they belong to the called contract. */
  lemma ReadsOwnContract(env: Env, w: State, s: SignedTx)
    ensures forall k :: k in Effect(env, w, s).readSet ==> AccountKey(k.contract) in InferredKeys(env, s)
  {
    if s.signatureOk && s.sender.Some? && s.tx.payload.Call? && s.tx.payload.contract in w.code {
      var c := s.tx.payload.contract;
      var gas: u64 := GAS_CALL;
      var fuel := if gas <= s.tx.gasLimit then s.tx.gasLimit - gas else 0;
      GuestFrame(env, w.code[c], c, [], fuel, GuestRun(None, w.storage, {}, {}));
    }
  }
}
