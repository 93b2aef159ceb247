/** What a staking payload does, said apart from how `apply_stake_tx` computes it: what it needs, in order,
    and every bond, operator, delegation and pending unbond entry by entry. */
module Stakes {
  import opened Common
  import opened Staking
  import opened History

  // ------------------------------------------------------------------ checks

  /** A condition, and why a transaction is refused when it fails. */
  datatype Check = Check(ok: bool, reason: RejectReason)

  ghost function FirstFailure(checks: seq<Check>): Option<RejectReason> {
    if checks == [] then None
    else if !checks[0].ok then Some(checks[0].reason)
    else FirstFailure(checks[1..])
  }

  lemma {:induction false} FirstFailureAppend(a: seq<Check>, b: seq<Check>)
    ensures FirstFailure(a + b) == if FirstFailure(a).Some? then FirstFailure(a) else FirstFailure(b)
  {
    if a == [] {
      assert a + b == b;
    } else {
      FirstFailureAppend(a[1..], b);
      assert (a + b)[1..] == a[1..] + b;
    }
  }

  /** Who operates a validator. */
  function OperatorOf(b: Book, id: ValidatorId): Option<Address> {
    At(b.operator, id)
  }

  function Target(s: StakePayload): ValidatorId {
    if s.validator.Some? then s.validator.value else 0
  }

  /** What each staking payload needs, in the order in which it is asked for. */
  ghost function StakeChecks(b: Book, p: Params, from: Address, s: StakePayload): seq<Check> {
    var id := Target(s);
    var bond, delegation := SelfBond(b, id), Delegation(b, (from, id));
    match s.kind
    case Bond =>
      [Check(s.validator.Some?, Gas), Check(id !in b.tombstones, StakeTombstone),
       Check(s.amount >= p.minSelfBond, StakeMinBond),
       Check(OperatorOf(b, id) in {None, Some(from)}, StakeInsufficient),
       Check(bond + s.amount <= U128_MAX, StakeInsufficient)]
    case Unbond =>
      [Check(s.validator.Some?, Gas), Check(OperatorOf(b, id) == Some(from), StakeInsufficient),
       Check(s.amount <= bond, StakeInsufficient),
       Check(s.amount == bond || bond - s.amount >= p.minSelfBond, StakeMinBond)]
    case Delegate =>
      [Check(s.validator.Some?, Gas), Check(id !in b.tombstones, StakeTombstone),
       Check(delegation + s.amount <= U128_MAX, StakeInsufficient)]
    case Undelegate =>
      [Check(s.validator.Some?, Gas), Check(s.amount <= delegation, StakeInsufficient)]
    case Withdraw =>
      var waiting := exists k :: k in b.pending && b.pending[k].owner == from;
      [Check(s.amount <= Withdrawable(b, from), if waiting then StakeUnbonding else StakeInsufficient)]
  }

  lemma StakeRefusedFor(b: Book, p: Params, from: Address, s: StakePayload)
    ensures Apply(b, p, from, s).error == FirstFailure(StakeChecks(b, p, from, s))
  {
    hide Withdrawable;
    hide Drain;
    var checks := StakeChecks(b, p, from, s);
    Unroll(checks);
  }

  /** The first failure of at most five checks. */
  lemma Unroll(c: seq<Check>)
    requires |c| <= 5
    ensures FirstFailure(c)
         == if |c| > 0 && !c[0].ok then Some(c[0].reason)
            else if |c| > 1 && !c[1].ok then Some(c[1].reason)
            else if |c| > 2 && !c[2].ok then Some(c[2].reason)
            else if |c| > 3 && !c[3].ok then Some(c[3].reason)
            else if |c| > 4 && !c[4].ok then Some(c[4].reason) else None
  {
    if |c| > 1 && c[0].ok {
      Unroll(c[1..]);
    }
  }

  // ------------------------------------------------------------ the book

  ghost function MaturedAmong(pending: map<nat, UnbondEntry>, owner: Address, now: u64, ids: set<nat>)
    : map<nat, UnbondEntry>
  {
    map j | j in pending && j in ids && Matured(pending[j], owner, now) :: pending[j]
  }

  /** What the matured entries of an owner with ids below `k` add up to. */
  ghost function MaturedBelow(pending: map<nat, UnbondEntry>, owner: Address, now: u64, k: nat): nat {
    Sum(MaturedAmong(pending, owner, now, IdsBelow(pending.Keys, k)), AmountOf)
  }

  ghost function IdsBelow(ids: set<nat>, k: nat): set<nat> {
    set j | j in ids && j < k
  }

  /** Entry `k` after `amount` has been paid to `owner`: matured entries go in the order of their ids. */
  ghost predicate PaidAt(pending: map<nat, UnbondEntry>, owner: Address, now: u64, amount: nat,
                         r: map<nat, UnbondEntry>, k: nat) {
    var below := MaturedBelow(pending, owner, now, k);
    if k in pending && Matured(pending[k], owner, now) && below < amount then
      if pending[k].amount <= amount - below then k !in r
      else k in r && r[k] == pending[k].(amount := pending[k].amount - (amount - below))
    else SameEntry(r, pending, k)
  }

  ghost predicate PaidFrom(pending: map<nat, UnbondEntry>, owner: Address, now: u64, amount: nat,
                           r: map<nat, UnbondEntry>) {
    forall k: nat :: PaidAt(pending, owner, now, amount, r, k)
  }

  /** The entry that an accepted unbond files. */
  ghost predicate EntryFits(b: Book, p: Params, from: Address, s: StakePayload, e: UnbondEntry) {
    && e.owner == from && Some(e.validator) == s.validator && e.amount == s.amount
    && e.unlockHeight == Min(b.lastCommitHeight + p.unbondingPeriod, U64_MAX)
    && if p.epochLength == 0 then e.unlockEpoch == 0
       else e.unlockEpoch * p.epochLength <= e.unlockHeight < (e.unlockEpoch + 1) * p.epochLength
  }

  ghost predicate PendingFits(b: Book, p: Params, from: Address, s: StakePayload, r: map<nat, UnbondEntry>) {
    match s.kind
    case Unbond =>
      && b.nextUnbond in r && EntryFits(b, p, from, s, r[b.nextUnbond])
      && forall k: nat :: k != b.nextUnbond ==> SameEntry(r, b.pending, k)
    case Withdraw => PaidFrom(b.pending, from, b.lastCommitHeight, s.amount, r)
    case _ => r == b.pending
  }

  /** A self-bond moves in bonds and unbonds of its validator. */
  ghost predicate BondFits(b: Book, s: StakePayload, r: map<ValidatorId, u128>, id: ValidatorId) {
    if s.kind == Bond && s.validator == Some(id) then id in r && r[id] == SelfBond(b, id) + s.amount
    else if s.kind == Unbond && s.validator == Some(id) then id in r && r[id] == SelfBond(b, id) - s.amount
    else SameEntry(r, b.selfBond, id)
  }

  ghost predicate BondsFit(b: Book, s: StakePayload, r: map<ValidatorId, u128>) {
    forall id: ValidatorId :: BondFits(b, s, r, id)
  }

  /** A delegation moves in transactions of its owner; one that comes to nothing is dropped. */
  ghost predicate DelegationFits(
    b: Book, from: Address, s: StakePayload, r: map<(Address, ValidatorId), u128>, a: Address, id: ValidatorId)
  {
    var mine, was := a == from && s.validator == Some(id), Delegation(b, (a, id));
    if mine && s.kind == Delegate then (a, id) in r && r[(a, id)] == was + s.amount
    else if mine && s.kind == Undelegate then
      if was == s.amount then (a, id) !in r else (a, id) in r && r[(a, id)] == was - s.amount
    else SameEntry(r, b.delegations, (a, id))
  }

  ghost predicate DelegationsFit(b: Book, from: Address, s: StakePayload, r: map<(Address, ValidatorId), u128>) {
    forall a: Address, id: ValidatorId :: DelegationFits(b, from, s, r, a, id)
  }

  /** Only a bond records an operator. */
  ghost predicate OperatorsFit(b: Book, from: Address, s: StakePayload, r: map<ValidatorId, Address>) {
    forall id: ValidatorId ::
      At(r, id) == if s.kind == Bond && s.validator == Some(id) then Some(from) else OperatorOf(b, id)
  }

  /** The book after an accepted payload. */
  ghost predicate BookFits(b: Book, p: Params, from: Address, s: StakePayload, r: Book) {
    && BondsFit(b, s, r.selfBond) && OperatorsFit(b, from, s, r.operator)
    && DelegationsFit(b, from, s, r.delegations) && PendingFits(b, p, from, s, r.pending)
    && r.nextUnbond == (if s.kind == Unbond then Min(b.nextUnbond + 1, U64_MAX) else b.nextUnbond)
    && r.tombstones == b.tombstones && r.lastCommitHeight == b.lastCommitHeight
  }

  /** The one payload that is refused and still records an operator. */
  ghost predicate RecordsAnyway(b: Book, p: Params, from: Address, s: StakePayload) {
    var id := Target(s);
    && s.kind == Bond && s.validator.Some? && id !in b.tombstones && s.amount >= p.minSelfBond
    && OperatorOf(b, id) == None && SelfBond(b, id) + s.amount > U128_MAX
  }

  lemma MaturedAmongOneMore(pending: map<nat, UnbondEntry>, owner: Address, now: u64, ids: set<nat>, k: nat)
    requires k !in ids
    ensures Sum(MaturedAmong(pending, owner, now, ids + {k}), AmountOf)
         == Sum(MaturedAmong(pending, owner, now, ids), AmountOf)
            + if k in pending && Matured(pending[k], owner, now) then pending[k].amount else 0
  {
    var m, n := MaturedAmong(pending, owner, now, ids + {k}), MaturedAmong(pending, owner, now, ids);
    if k in pending && Matured(pending[k], owner, now) {
      assert m == n[k := pending[k]];
      SumInsert<nat, UnbondEntry>(n, k, pending[k], AmountOf);
    } else {
      assert m == n;
    }
  }

  ghost function Members(keys: seq<nat>): set<nat> {
    set k | k in keys
  }

  lemma {:induction false} TotalIsSum(pending: map<nat, UnbondEntry>, keys: seq<nat>, owner: Address, now: u64)
    requires Ascending(keys)
    ensures MaturedTotal(pending, keys, owner, now)
         == Sum(MaturedAmong(pending, owner, now, Members(keys)), AmountOf)
  {
    if keys == [] {
      assert MaturedAmong(pending, owner, now, Members(keys)) == map[];
    } else {
      hide MaturedAmong;
      var k, rest := keys[0], keys[1..];
      TotalIsSum(pending, rest, owner, now);
      assert keys == [k] + rest && k !in rest;
      assert Members(keys) == Members(rest) + {k};
      MaturedAmongOneMore(pending, owner, now, Members(rest), k);
    }
  }

  /** Entry `keys[i]` after a drain. */
  ghost predicate DrainedAt(pending: map<nat, UnbondEntry>, keys: seq<nat>, owner: Address, now: u64, left: nat,
                            r: map<nat, UnbondEntry>, i: nat)
    requires i < |keys|
  {
    var k, below := keys[i], MaturedTotal(pending, keys[..i], owner, now);
    if k in pending && Matured(pending[k], owner, now) && below < left then
      if pending[k].amount <= left - below then k !in r
      else k in r && r[k] == pending[k].(amount := pending[k].amount - (left - below))
    else SameEntry(r, pending, k)
  }

  ghost predicate Drained(pending: map<nat, UnbondEntry>, keys: seq<nat>, owner: Address, now: u64, left: nat,
                          r: map<nat, UnbondEntry>) {
    && (forall i :: 0 <= i < |keys| ==> DrainedAt(pending, keys, owner, now, left, r, i))
    && forall k: nat :: k !in keys ==> SameEntry(r, pending, k)
  }

  lemma {:induction false} DrainIs(
    pending: map<nat, UnbondEntry>, keys: seq<nat>, owner: Address, now: u64, left: u128)
    requires Ascending(keys)
    ensures Drained(pending, keys, owner, now, left, Drain(pending, keys, owner, now, left))
    decreases |keys|
  {
    var r := Drain(pending, keys, owner, now, left);
    if keys != [] && left != 0 {
      var k, rest := keys[0], keys[1..];
      assert k !in rest;
      if k in pending && Matured(pending[k], owner, now) {
        var amount := pending[k].amount;
        if amount <= left {
          DrainIs(pending - {k}, rest, owner, now, left - amount);
          forall j: nat | j !in keys ensures SameEntry(r, pending, j) {
            assert keys[0] in keys && j !in rest && SameEntry(r, pending - {k}, j);
          }
          forall i | 0 < i < |keys| ensures DrainedAt(pending, keys, owner, now, left, r, i) {
            DrainShift(pending, pending - {k}, keys, owner, now, left, left - amount, r, i);
          }
        } else {
          forall i | 0 < i < |keys| ensures DrainedAt(pending, keys, owner, now, left, r, i) {
            assert keys[..i][0] == k;
          }
        }
      } else {
        DrainIs(pending, rest, owner, now, left);
        forall i | 0 < i < |keys| ensures DrainedAt(pending, keys, owner, now, left, r, i) {
          DrainShift(pending, pending, keys, owner, now, left, left, r, i);
        }
      }
    }
  }

  /** What holds of the rest of the keys holds of all of them. */
  lemma DrainShift(pending: map<nat, UnbondEntry>, q: map<nat, UnbondEntry>, keys: seq<nat>, owner: Address, now: u64,
                   left: nat, left': nat, r: map<nat, UnbondEntry>, i: nat)
    requires Ascending(keys) && 0 < i < |keys|
    requires forall j :: 0 < j < |keys| ==> SameEntry(q, pending, keys[j])
    requires var k := keys[0];
             left' == left - if k in pending && Matured(pending[k], owner, now) then pending[k].amount else 0
    requires DrainedAt(q, keys[1..], owner, now, left', r, i - 1)
    ensures DrainedAt(pending, keys, owner, now, left, r, i)
  {
    var mid := keys[1..][..i - 1];
    assert keys[..i] == [keys[0]] + mid && keys[..i][1..] == mid;
    MaturedTotalFrame(pending, q, mid, owner, now);
    assert SameEntry(q, pending, keys[i]);
  }

  lemma MembersBelow(ids: set<nat>, keys: seq<nat>, i: nat)
    requires Ascending(keys) && (forall k :: k in keys <==> k in ids) && i < |keys|
    ensures Members(keys[..i]) == IdsBelow(ids, keys[i])
  {
    forall j | j in ids && j < keys[i] ensures j in keys[..i] {
      var n :| 0 <= n < |keys| && keys[n] == j;
      assert n < i && keys[..i][n] == j;
    }
  }

  /** The ids of a sorted queue before position `i` are those below the one there. */
  lemma BelowIs(pending: map<nat, UnbondEntry>, keys: seq<nat>, owner: Address, now: u64, i: nat)
    requires Ascending(keys) && (forall k :: k in keys <==> k in pending) && i < |keys|
    ensures MaturedTotal(pending, keys[..i], owner, now) == MaturedBelow(pending, owner, now, keys[i])
  {
    hide MaturedTotal;
    hide MaturedAmong;
    hide Sum;
    hide Members;
    hide IdsBelow;
    TotalIsSum(pending, keys[..i], owner, now);
    MembersBelow(pending.Keys, keys, i);
  }

  lemma PaidIs(pending: map<nat, UnbondEntry>, owner: Address, now: u64, amount: u128)
    ensures PaidFrom(pending, owner, now, amount, Drain(pending, SortedKeys(pending.Keys), owner, now, amount))
  {
    hide Drain;
    hide SortedKeys;
    hide MaturedBelow;
    var keys := SortedKeys(pending.Keys);
    var r := Drain(pending, keys, owner, now, amount);
    DrainIs(pending, keys, owner, now, amount);
    forall k: nat ensures PaidAt(pending, owner, now, amount, r, k) {
      if k in pending {
        var i :| 0 <= i < |keys| && keys[i] == k;
        BelowIs(pending, keys, owner, now, i);
        assert DrainedAt(pending, keys, owner, now, amount, r, i);
      } else {
        assert k !in keys && SameEntry(r, pending, k);
      }
    }
  }

  lemma EpochIs(b: Book, p: Params, from: Address, s: StakePayload)
    requires s.kind == Unbond && s.validator.Some?
    ensures EntryFits(b, p, from, s, UnbondEntry(from, s.validator.value, s.amount, Unlock(b.lastCommitHeight, p),
                                                 UnlockEpoch(b.lastCommitHeight, p)))
  {
    var unlock := Unlock(b.lastCommitHeight, p);
    if p.epochLength != 0 {
      QuotientIs(unlock, p.epochLength);
    }
  }

  lemma BondsAre(b: Book, p: Params, from: Address, s: StakePayload)
    requires Apply(b, p, from, s).error == None
    ensures BondsFit(b, s, Apply(b, p, from, s).book.selfBond)
    ensures OperatorsFit(b, from, s, Apply(b, p, from, s).book.operator)
  {
    hide Withdrawable;
    hide Drain;
    hide SortedKeys;
  }

  lemma DelegationsAre(b: Book, p: Params, from: Address, s: StakePayload)
    requires Apply(b, p, from, s).error == None
    ensures DelegationsFit(b, from, s, Apply(b, p, from, s).book.delegations)
  {
    if s.kind == Delegate || s.kind == Undelegate {
      DelegationMoves(b, from, s);
    } else {
      OthersKeepDelegations(b, p, from, s);
    }
  }

  lemma DelegationMoves(b: Book, from: Address, s: StakePayload)
    requires s.validator.Some?
    ensures var id := s.validator.value;
            && (s.kind == Delegate && ApplyDelegate(b, from, id, s.amount).error == None ==>
                  DelegationsFit(b, from, s, ApplyDelegate(b, from, id, s.amount).book.delegations))
            && (s.kind == Undelegate && ApplyUndelegate(b, from, id, s.amount).error == None ==>
                  DelegationsFit(b, from, s, ApplyUndelegate(b, from, id, s.amount).book.delegations))
  {
    forall a: Address, id: ValidatorId
      ensures (a, id) == (from, s.validator.value) <==> a == from && s.validator == Some(id)
    {
    }
  }

  lemma OthersKeepDelegations(b: Book, p: Params, from: Address, s: StakePayload)
    requires s.kind != Delegate && s.kind != Undelegate
    ensures Apply(b, p, from, s).book.delegations == b.delegations
  {
    hide Withdrawable;
    hide Drain;
    hide SortedKeys;
  }

  lemma PendingIs(b: Book, p: Params, from: Address, s: StakePayload)
    requires Apply(b, p, from, s).error == None
    ensures PendingFits(b, p, from, s, Apply(b, p, from, s).book.pending)
  {
    hide Withdrawable;
    hide Drain;
    hide SortedKeys;
    hide Unlock;
    hide UnlockEpoch;
    hide EntryFits;
    hide PaidFrom;
    if s.kind == Unbond {
      EpochIs(b, p, from, s);
    } else if s.kind == Withdraw {
      PaidIs(b.pending, from, b.lastCommitHeight, s.amount);
    }
  }

  /** The book after any payload. */
  lemma BookIs(b: Book, p: Params, from: Address, s: StakePayload)
    ensures var r := Apply(b, p, from, s);
            if r.error == None then BookFits(b, p, from, s, r.book)
            else r.book == if RecordsAnyway(b, p, from, s) then b.(operator := b.operator[Target(s) := from]) else b
  {
    hide Withdrawable;
    hide Drain;
    hide SortedKeys;
    if Apply(b, p, from, s).error == None {
      BondsAre(b, p, from, s);
      DelegationsAre(b, p, from, s);
      PendingIs(b, p, from, s);
      hide BondsFit;
      hide OperatorsFit;
      hide DelegationsFit;
      hide PendingFits;
    }
  }

  // --------------------------------------------------- nothing is left open

  lemma OneEntry(b: Book, p: Params, from: Address, s: StakePayload, e: UnbondEntry, e': UnbondEntry)
    requires EntryFits(b, p, from, s, e) && EntryFits(b, p, from, s, e')
    ensures e == e'
  {
    if p.epochLength != 0 {
      OneQuotient(e.unlockHeight, p.epochLength, e.unlockEpoch, e'.unlockEpoch);
    }
  }

  lemma OneQueue(b: Book, p: Params, from: Address, s: StakePayload, q: map<nat, UnbondEntry>, r: map<nat, UnbondEntry>)
    requires PendingFits(b, p, from, s, q) && PendingFits(b, p, from, s, r)
    ensures q == r
  {
    hide EntryFits;
    hide MaturedBelow;
    forall k: nat ensures SameEntry(q, r, k) {
      if s.kind == Unbond {
        if k == b.nextUnbond {
          OneEntry(b, p, from, s, q[k], r[k]);
        } else {
          assert SameEntry(q, b.pending, k) && SameEntry(r, b.pending, k);
        }
      } else if s.kind == Withdraw {
        assert PaidAt(b.pending, from, b.lastCommitHeight, s.amount, q, k);
        assert PaidAt(b.pending, from, b.lastCommitHeight, s.amount, r, k);
      }
    }
    SameEverywhere(q, r);
  }

  /** The description leaves nothing open: it fits one book. */
  lemma OneBook(b: Book, p: Params, from: Address, s: StakePayload, q: Book, r: Book)
    requires BookFits(b, p, from, s, q) && BookFits(b, p, from, s, r)
    ensures q == r
  {
    hide PendingFits;
    OneQueue(b, p, from, s, q.pending, r.pending);
    forall id: ValidatorId ensures SameEntry(q.selfBond, r.selfBond, id) && SameEntry(q.operator, r.operator, id) {
      assert At(q.operator, id) == At(r.operator, id);
      assert BondFits(b, s, q.selfBond, id) && BondFits(b, s, r.selfBond, id);
    }
    SameEverywhere(q.selfBond, r.selfBond);
    SameEverywhere(q.operator, r.operator);
    forall key: (Address, ValidatorId) ensures SameEntry(q.delegations, r.delegations, key) {
      assert DelegationFits(b, from, s, q.delegations, key.0, key.1);
      assert DelegationFits(b, from, s, r.delegations, key.0, key.1);
    }
    SameEverywhere(q.delegations, r.delegations);
  }
}
