/** The Block-STM engine of `crates/execution/src/stm`: speculate every transaction on the
    pre-block state, commit in block order, re-run what went stale. */
module Stm {
  import opened Common
  import opened Staking
  import opened Ledger
  import opened Footprint
  import opened History
  import opened Optimistic

  datatype SlotValue = AccountValue(account: Account) | RawValue(raw: Bytes) | StakingMark

  function VersionIn(latest: map<Key, u64>, k: Key): u64 {
    if k in latest then latest[k] else 0
  }

  /** `VersionedSlots`: a latest-version header per key and one record per version. */
  class VersionedSlots {
    var latest: map<Key, u64>
    var values: map<(Key, u64), SlotValue>

    constructor ()
      ensures latest == map[] && values == map[]
    {
      latest, values := map[], map[];
    }

    method Write(k: Key, value: SlotValue) returns (v: u64)
      modifies this
      ensures v == SatAdd64(VersionIn(old(latest), k), 1)
      ensures latest == old(latest)[k := v]
      ensures values == old(values)[(k, v) := value]
    {
      v := SatAdd64(VersionIn(latest, k), 1);
      latest := latest[k := v];
      values := values[(k, v) := value];
    }

    method Validate(k: Key, observed: u64) returns (ok: bool)
      ensures ok <==> VersionIn(latest, k) == observed
    {
      ok := VersionIn(latest, k) == observed;
    }
  }

  /** Search for the latest version through `Validate`, as the engine does. */
  method LatestVersion(slots: VersionedSlots, k: Key) returns (v: u64)
    ensures v == VersionIn(slots.latest, k)
  {
    v := 0;
    while true
      invariant v <= VersionIn(slots.latest, k)
      decreases U64_MAX - v
    {
      var ok := slots.Validate(k, v);
      if ok {
        return;
      }
      v := SatAdd64(v, 1);
    }
  }

  /** The pre-block state has something to seed under this key. */
  predicate Present(pre: State, k: Key) {
    (k.AccountKey? && k.addr in pre.accounts) || (k.StorageKey? && k.slot in pre.storage)
  }

  /** Write what the pre-block state has under the given keys, once. */
  method SeedAndRead(slots: VersionedSlots, pre: State, keys: set<Key>) returns (observed: map<Key, u64>)
    requires slots.latest == map[]
    modifies slots
    ensures forall k :: VersionIn(slots.latest, k) == if k in keys && Present(pre, k) then 1 else 0
    ensures observed.Keys == keys && forall k :: k in keys ==> observed[k] == VersionIn(slots.latest, k)
  {
    observed := map[];
    var todo := keys;
    while todo != {}
      invariant todo <= keys
      invariant forall k :: VersionIn(slots.latest, k) == if k in keys - todo && Present(pre, k) then 1 else 0
      invariant observed.Keys == keys - todo
      invariant forall k :: k in observed ==> observed[k] == VersionIn(slots.latest, k)
    {
      var k :| k in todo;
      ghost var before := slots.latest;
      todo := todo - {k};
      assert VersionIn(before, k) == 0;
      if k.AccountKey? && k.addr in pre.accounts {
        var _ := slots.Write(k, AccountValue(pre.accounts[k.addr]));
      } else if k.StorageKey? && k.slot in pre.storage {
        var _ := slots.Write(k, RawValue(pre.storage[k.slot]));
      }
      assert forall j :: j != k ==> VersionIn(slots.latest, j) == VersionIn(before, j);
      var v := LatestVersion(slots, k);
      observed := observed[k := v];
    }
  }

  // ------------------------------------------------------------- speculation

  datatype SpecTx = SpecTx(
    index: nat, readKeys: set<Key>, writeKeys: set<Key>, observed: map<Key, u64>, state: State, receipt: Receipt)

  /** `spec` is the speculative run of the `i`-th transaction on `pre` under versions `base`. */
  ghost predicate Speculates(env: Env, pre: State, base: map<Key, u64>, s: SignedTx, i: nat, spec: SpecTx) {
    var r := Effect(env, pre, s);
    && spec.index == i
    && spec.readKeys == SpecReads(env, s, r)
    && spec.writeKeys == SpecWrites(env, s, r)
    && spec.observed.Keys == spec.readKeys
    && (forall k :: k in spec.readKeys ==> spec.observed[k] == VersionIn(base, k))
    && spec.state == r.state
    && spec.receipt == r.receipt
  }

  method SpeculateOne(env: Env, i: nat, pre: State, s: SignedTx, slots: VersionedSlots) returns (spec: SpecTx)
    ensures Speculates(env, pre, slots.latest, s, i, spec)
  {
    hide Effect;
    var world := new World(env, pre);
    var receipt := world.ApplyTx(s);
    var readKeys := InferredKeys(env, s) + StorageKeys(world.storageReads);
    var writeKeys := (if receipt.success then readKeys else {}) + StorageKeys(world.storageWrites);
    var state := world.Snapshot();
    var observed: map<Key, u64> := map[];
    var todo := readKeys;
    while todo != {}
      invariant todo <= readKeys
      invariant observed.Keys == readKeys - todo
      invariant forall k :: k in observed ==> observed[k] == VersionIn(slots.latest, k)
    {
      var k :| k in todo;
      todo := todo - {k};
      var v := LatestVersion(slots, k);
      observed := observed[k := v];
    }
    spec := SpecTx(i, readKeys, writeKeys, observed, state, receipt);
  }

  method Speculate(env: Env, pre: State, txs: seq<SignedTx>, slots: VersionedSlots) returns (specs: seq<SpecTx>)
    ensures |specs| == |txs|
    ensures forall i :: 0 <= i < |txs| ==> Speculates(env, pre, slots.latest, txs[i], i, specs[i])
  {
    specs := [];
    for i := 0 to |txs|
      invariant |specs| == i
      invariant forall j :: 0 <= j < i ==> Speculates(env, pre, slots.latest, txs[j], j, specs[j])
    {
      var spec := SpeculateOne(env, i, pre, txs[i], slots);
      specs := specs + [spec];
    }
  }

  // -------------------------------------------------------------- validation

  ghost predicate MovedSince(latest: map<Key, u64>, spec: SpecTx) {
    exists k :: k in spec.readKeys && k in spec.observed && VersionIn(latest, k) != spec.observed[k]
  }

  /** Flag exactly the runs one of whose observed versions is no longer the latest. */
  method Validate(specs: seq<SpecTx>, slots: VersionedSlots) returns (stale: set<nat>)
    ensures forall n :: n in stale <==>
              exists i :: 0 <= i < |specs| && specs[i].index == n && MovedSince(slots.latest, specs[i])
  {
    stale := {};
    for i := 0 to |specs|
      invariant forall n :: n in stale <==>
                  exists j :: 0 <= j < i && specs[j].index == n && MovedSince(slots.latest, specs[j])
    {
      var moved := AnyMoved(specs[i], slots);
      if moved {
        stale := stale + {specs[i].index};
      }
    }
  }

  method AnyMoved(spec: SpecTx, slots: VersionedSlots) returns (moved: bool)
    ensures moved <==> MovedSince(slots.latest, spec)
  {
    var todo := spec.readKeys;
    while todo != {}
      invariant todo <= spec.readKeys
      invariant forall k :: k in spec.readKeys - todo && k in spec.observed ==>
                  VersionIn(slots.latest, k) == spec.observed[k]
    {
      var k :| k in todo;
      todo := todo - {k};
      if k in spec.observed {
        var ok := slots.Validate(k, spec.observed[k]);
        if !ok {
          return true;
        }
      }
    }
    return false;
  }

  predicate WritesInto(i: SpecTx, j: SpecTx) {
    i.index < j.index && i.writeKeys * (j.readKeys + j.writeKeys) != {}
  }

  /** Flag exactly the runs that read or write something an earlier one writes. */
  method StaleFromEarlierWrites(specs: seq<SpecTx>) returns (stale: set<nat>)
    ensures forall n :: n in stale <==>
              exists j, i ::
                    0 <= j < |specs| && 0 <= i < |specs| && specs[j].index == n && WritesInto(specs[i], specs[j])
  {
    stale := {};
    for j := 0 to |specs|
      invariant forall n :: n in stale <==>
                  exists b, a :: 0 <= b < j && 0 <= a < |specs| && specs[b].index == n && WritesInto(specs[a], specs[b])
    {
      ghost var before := stale;
      for i := 0 to |specs|
        invariant forall n :: n in stale <==>
                    n in before || (n == specs[j].index && exists a :: 0 <= a < i && WritesInto(specs[a], specs[j]))
      {
        if WritesInto(specs[i], specs[j]) {
          stale := stale + {specs[j].index};
        }
      }
    }
  }

  // ------------------------------------------------------------------ commit

  method MergeSpec(world: World, spec: SpecTx)
    modifies world, world.staking
    ensures world.Snapshot() == Merge(old(world.Snapshot()), spec.state, spec.writeKeys)
  {
    ghost var start := world.Snapshot();
    var todo := spec.writeKeys;
    MergeNothing(start, spec.state);
    while todo != {}
      invariant todo <= spec.writeKeys
      invariant world.Snapshot() == Merge(start, spec.state, spec.writeKeys - todo)
    {
      var k :| k in todo;
      ghost var done := spec.writeKeys - todo;
      todo := todo - {k};
      assert spec.writeKeys - todo == done + {k};
      match k {
        case StakingKey => world.staking.Restore(spec.state.staking);
        case StorageKey(slot) =>
          if slot in spec.state.storage {
            world.storage := world.storage[slot := spec.state.storage[slot]];
          }
        case AccountKey(a) =>
          if a in spec.state.accounts {
            world.accounts := world.accounts[a := spec.state.accounts[a]];
          }
          if a in spec.state.code {
            world.code := world.code[a := spec.state.code[a]];
          }
      }
      MergeStep(start, spec.state, done, k, world.Snapshot());
    }
    assert spec.writeKeys - todo == spec.writeKeys;
  }

  /** One key more. */
  lemma MergeStep(dst: State, src: State, done: set<Key>, k: Key, next: State)
    requires var m := Merge(dst, src, done);
             next == match k
               case StakingKey => m.(staking := src.staking)
               case StorageKey(s) => if s in src.storage then m.(storage := m.storage[s := src.storage[s]]) else m
               case AccountKey(a) =>
                 var m' := if a in src.accounts then m.(accounts := m.accounts[a := src.accounts[a]]) else m;
                 if a in src.code then m'.(code := m'.code[a := src.code[a]]) else m'
    ensures next == Merge(dst, src, done + {k})
  {
    match k {
      case StakingKey =>
        assert Addresses(done + {k}) == Addresses(done) && SlotsOf(done + {k}) == SlotsOf(done);
      case StorageKey(s) =>
        assert Addresses(done + {k}) == Addresses(done) && SlotsOf(done + {k}) == SlotsOf(done) + {s};
        MergeMapStep(dst.storage, src.storage, SlotsOf(done), s);
      case AccountKey(a) =>
        assert Addresses(done + {k}) == Addresses(done) + {a} && SlotsOf(done + {k}) == SlotsOf(done);
        MergeMapStep(dst.accounts, src.accounts, Addresses(done), a);
        MergeMapStep(dst.code, src.code, Addresses(done), a);
    }
  }

  ghost predicate Bumped(before: map<Key, u64>, after: map<Key, u64>, keys: set<Key>) {
    forall k :: VersionIn(after, k) == if k in keys then SatAdd64(VersionIn(before, k), 1) else VersionIn(before, k)
  }

  method BumpWrites(slots: VersionedSlots, w: State, keys: set<Key>)
    modifies slots
    ensures Bumped(old(slots.latest), slots.latest, keys)
  {
    var todo := keys;
    while todo != {}
      invariant todo <= keys
      invariant Bumped(old(slots.latest), slots.latest, keys - todo)
    {
      var k :| k in todo;
      todo := todo - {k};
      match k {
        case StakingKey => var _ := slots.Write(k, StakingMark);
        case StorageKey(s) => var _ := slots.Write(k, RawValue(if s in w.storage then w.storage[s] else []));
        case AccountKey(a) => var _ := slots.Write(k, AccountValue(AccountOf(w, a)));
      }
    }
  }

  /** What one turn of the commit loop does; `keys` are the keys it bumps. */
  ghost predicate Commits(env: Env, w: State, s: SignedTx, spec: SpecTx, flagged: bool, w': State, r: Receipt,
                          keys: set<Key>) {
    if flagged then
      var e := Effect(env, w, s);
      w' == e.state && r == e.receipt
          && keys == (if r.success then InferredKeys(env, s) else {}) + StorageKeys(e.writeSet)
    else
      w' == Merge(w, spec.state, spec.writeKeys) && r == spec.receipt && keys == spec.writeKeys
  }

  /** Merge the speculation or re-run the transaction, bump the versions of its keys, and
      re-validate the runs still to be committed. */
  method CommitOne(world: World, slots: VersionedSlots, s: SignedTx, specs: seq<SpecTx>, i: nat, flagged: bool)
    returns (r: Receipt, more: set<nat>, ghost keys: set<Key>)
    requires i < |specs| && forall j :: 0 <= j < |specs| ==> specs[j].index == j
    modifies world, world.staking, slots
    ensures Commits(world.env, old(world.Snapshot()), s, specs[i], flagged, world.Snapshot(), r, keys)
    ensures Bumped(old(slots.latest), slots.latest, keys)
    ensures forall j :: j in more <==> i < j < |specs| && MovedSince(slots.latest, specs[j])
  {
    hide Effect;
    var spec := specs[i];
    var writeKeys;
    if !flagged {
      MergeSpec(world, spec);
      r, writeKeys := spec.receipt, spec.writeKeys;
    } else {
      r := world.ApplyTx(s);
      writeKeys := (if r.success then InferredKeys(world.env, s) else {}) + StorageKeys(world.storageWrites);
    }
    BumpWrites(slots, world.Snapshot(), writeKeys);
    keys := writeKeys;
    more := Validate(specs[i + 1..], slots);
    Revalidated(specs, i, more, slots.latest);
  }

  lemma Revalidated(specs: seq<SpecTx>, i: nat, more: set<nat>, latest: map<Key, u64>)
    requires i < |specs|
    requires forall j :: 0 <= j < |specs| ==> specs[j].index == j
    requires var rest := specs[i + 1..];
             forall n :: n in more <==> exists j :: 0 <= j < |rest| && rest[j].index == n && MovedSince(latest, rest[j])
    ensures forall j :: j in more <==> i < j < |specs| && MovedSince(latest, specs[j])
  {
    hide MovedSince;
    var rest := specs[i + 1..];
    forall j | i < j < |specs| && MovedSince(latest, specs[j]) ensures j in more {
      assert rest[j - i - 1] == specs[j];
    }
  }

  /** A key's version is past its starting one exactly when some commit has bumped it. */
  ghost predicate Tracks(base: map<Key, u64>, latest: map<Key, u64>, moved: set<Key>, commits: nat) {
    forall k :: && VersionIn(base, k) <= VersionIn(latest, k) <= VersionIn(base, k) + commits
                && (VersionIn(latest, k) != VersionIn(base, k) <==> k in moved)
  }

  lemma BumpTracks(base: map<Key, u64>, before: map<Key, u64>, after: map<Key, u64>, moved: set<Key>, keys: set<Key>,
                   commits: nat)
    requires Tracks(base, before, moved, commits) && Bumped(before, after, keys)
    requires forall k :: VersionIn(base, k) + commits + 1 <= U64_MAX
    ensures Tracks(base, after, moved + keys, commits + 1)
  {
    hide VersionIn;
  }

  /** Validation by version is validation by bumped keys. */
  lemma MovedIffStale(env: Env, pre: State, base: map<Key, u64>, latest: map<Key, u64>, moved: set<Key>, commits: nat,
                      s: SignedTx, i: nat, spec: SpecTx)
    requires Speculates(env, pre, base, s, i, spec) && Tracks(base, latest, moved, commits)
    ensures MovedSince(latest, spec) <==> Stale(env, pre, moved, s)
  {
    hide Effect;
    hide VersionIn;
  }

  /** One turn of the code is one turn of the function. */
  lemma CommitsIsTurn(env: Env, pre: State, base: map<Key, u64>, at: Progress, s: SignedTx, i: nat, spec: SpecTx,
                      flagged: bool, w': State, r: Receipt, keys: set<Key>)
    requires Speculates(env, pre, base, s, i, spec) && Commits(env, at.run.state, s, spec, flagged, w', r, keys)
    ensures Turn(env, pre, at, s, flagged) == Progress(Run(w', at.run.receipts + [r]), at.moved + keys)
  {
    hide Effect;
    hide Merge;
  }

  /** The runs still to be committed that are flagged: those flagged at the start, and those whose
      versions have moved. */
  ghost predicate FlagsRight(specs: seq<SpecTx>, from: nat, stale: set<nat>, forced: set<nat>, latest: map<Key, u64>) {
    forall j :: from <= j < |specs| ==> (j in stale <==> j in forced || MovedSince(latest, specs[j]))
  }

  lemma FlagsStayRight(env: Env, pre: State, base: map<Key, u64>, txs: seq<SignedTx>, specs: seq<SpecTx>, i: nat,
                       stale: set<nat>, forced: set<nat>, more: set<nat>, before: map<Key, u64>, after: map<Key, u64>,
                       moved: set<Key>, moved': set<Key>)
    requires |specs| == |txs| && i < |txs| && moved <= moved'
    requires forall j :: 0 <= j < |txs| ==> Speculates(env, pre, base, txs[j], j, specs[j])
    requires Tracks(base, before, moved, i) && Tracks(base, after, moved', i + 1)
    requires FlagsRight(specs, i, stale, forced, before)
    requires forall j :: j in more <==> i < j < |specs| && MovedSince(after, specs[j])
    ensures FlagsRight(specs, i + 1, stale + more, forced, after)
  {
    hide Effect;
    hide MovedSince;
    hide Tracks;
    hide Speculates;
    forall j | i + 1 <= j < |specs| ensures j in stale + more <==> j in forced || MovedSince(after, specs[j]) {
      MovedIffStale(env, pre, base, before, moved, i, txs[j], j, specs[j]);
      MovedIffStale(env, pre, base, after, moved', i + 1, txs[j], j, specs[j]);
    }
  }

  /** Commit in block order: the loop computes `CommitAll`, whatever was flagged beforehand. */
  method ReexecSequential(
    env: Env, pre: State, txs: seq<SignedTx>, slots: VersionedSlots, specs: seq<SpecTx>, flagged: set<nat>)
    returns (post: State, receipts: seq<Receipt>)
    requires |specs| == |txs|
    requires forall i :: 0 <= i < |txs| ==> Speculates(env, pre, slots.latest, txs[i], i, specs[i])
    requires forall k :: VersionIn(slots.latest, k) + |txs| <= U64_MAX
    modifies slots
    ensures Run(post, receipts) == CommitAll(env, pre, txs, flagged).run
  {
    hide Effect;
    hide Merge;
    hide MovedSince;
    hide Turn;
    hide Tracks;
    hide FlagsRight;
    hide Commits;
    ghost var base := slots.latest;
    var world := new World(env, pre);
    var stale := flagged;
    receipts := [];
    ghost var moved: set<Key> := {};
    NothingMoved(env, pre, base, txs, specs, flagged);
    assert txs[..0] == [];
    for i := 0 to |txs|
      invariant world.env == env && fresh(world) && fresh(world.staking)
      invariant CommitAll(env, pre, txs[..i], flagged) == Progress(Run(world.Snapshot(), receipts), moved)
      invariant Tracks(base, slots.latest, moved, i)
      invariant FlagsRight(specs, i, stale, flagged, slots.latest)
    {
      ghost var at, before := Progress(Run(world.Snapshot(), receipts), moved), slots.latest;
      var r, more, keys := CommitOne(world, slots, txs[i], specs, i, i in stale);
      CommitsIsTurn(env, pre, base, at, txs[i], i, specs[i], i in stale, world.Snapshot(), r, keys);
      FlagIsRight(env, pre, base, txs, specs, i, stale, flagged, before, moved);
      BumpTracks(base, before, slots.latest, moved, keys, i);
      FlagsStayRight(env, pre, base, txs, specs, i, stale, flagged, more, before, slots.latest, moved, moved + keys);
      assert txs[..i + 1][..i] == txs[..i] && txs[..i + 1][i] == txs[i];
      receipts := receipts + [r];
      stale := stale + more;
      moved := moved + keys;
    }
    assert txs[..|txs|] == txs;
    post := world.Snapshot();
  }

  lemma FlagIsRight(env: Env, pre: State, base: map<Key, u64>, txs: seq<SignedTx>, specs: seq<SpecTx>, i: nat,
                    stale: set<nat>, forced: set<nat>, latest: map<Key, u64>, moved: set<Key>)
    requires i < |specs| == |txs| && Speculates(env, pre, base, txs[i], i, specs[i])
    requires Tracks(base, latest, moved, i) && FlagsRight(specs, i, stale, forced, latest)
    ensures i in stale <==> i in forced || Stale(env, pre, moved, txs[i])
  {
    hide Effect;
    MovedIffStale(env, pre, base, latest, moved, i, txs[i], i, specs[i]);
  }

  lemma NothingMoved(env: Env, pre: State, base: map<Key, u64>, txs: seq<SignedTx>, specs: seq<SpecTx>,
                     forced: set<nat>)
    requires |specs| == |txs|
    requires forall i :: 0 <= i < |txs| ==> Speculates(env, pre, base, txs[i], i, specs[i])
    ensures forall i :: 0 <= i < |specs| ==> !MovedSince(base, specs[i])
    ensures Tracks(base, base, {}, 0) && FlagsRight(specs, 0, forced, forced, base)
  {
    hide Effect;
  }

  lemma WritesIntoIsClobbers(env: Env, pre: State, base: map<Key, u64>, s: SignedTx, i: nat, mine: SpecTx,
                             t: SignedTx, j: nat, theirs: SpecTx)
    requires Speculates(env, pre, base, s, i, mine) && Speculates(env, pre, base, t, j, theirs)
    ensures WritesInto(mine, theirs) <==> i < j && Clobbers(env, pre, s, t)
  {
    hide Effect;
  }

  /** The static flags are those of the specification. */
  lemma StaticFlags(env: Env, pre: State, base: map<Key, u64>, txs: seq<SignedTx>, specs: seq<SpecTx>, stale: set<nat>)
    requires |specs| == |txs|
    requires forall i :: 0 <= i < |txs| ==> specs[i].index == i && Speculates(env, pre, base, txs[i], i, specs[i])
    requires forall n :: n in stale <==>
               exists j, i ::
                 0 <= j < |specs| && 0 <= i < |specs| && specs[j].index == n && WritesInto(specs[i], specs[j])
    ensures stale == Clobbered(env, pre, txs)
  {
    hide Speculates;
    hide WritesInto;
    hide Clobbers;
    forall j, i | 0 <= j < |specs| && 0 <= i < |specs|
      ensures WritesInto(specs[i], specs[j]) <==> i < j && Clobbers(env, pre, txs[i], txs[j])
    {
      WritesIntoIsClobbers(env, pre, base, txs[i], i, specs[i], txs[j], j, specs[j]);
    }
    forall n ensures n in stale <==> n in Clobbered(env, pre, txs) {
      if n in stale {
        var j, i :| 0 <= j < |specs| && 0 <= i < |specs| && specs[j].index == n && WritesInto(specs[i], specs[j]);
        assert 0 <= i < n && Clobbers(env, pre, txs[i], txs[n]);
      }
      if n in Clobbered(env, pre, txs) {
        var i :| 0 <= i < n && Clobbers(env, pre, txs[i], txs[n]);
        assert specs[n].index == n && WritesInto(specs[i], specs[n]);
      }
    }
  }

  /** The speculations, made under versions `latest`, of a whole block. */
  ghost predicate AllSpeculate(env: Env, pre: State, latest: map<Key, u64>, txs: seq<SignedTx>, specs: seq<SpecTx>) {
    |specs| == |txs| && forall i :: 0 <= i < |txs| ==> Speculates(env, pre, latest, txs[i], i, specs[i])
  }

  /** What is flagged before the loop: the write conflicts, for no version has moved yet. */
  method FlagBlock(env: Env, pre: State, txs: seq<SignedTx>, slots: VersionedSlots, specs: seq<SpecTx>)
    returns (flagged: set<nat>)
    requires AllSpeculate(env, pre, slots.latest, txs, specs)
    ensures flagged == Clobbered(env, pre, txs)
  {
    hide Effect;
    hide Clobbered;
    hide WritesInto;
    hide MovedSince;
    var stale := StaleFromEarlierWrites(specs);
    StaticFlags(env, pre, slots.latest, txs, specs, stale);
    var moved := Validate(specs, slots);
    NothingMoved(env, pre, slots.latest, txs, specs, {});
    flagged := stale + moved;
    assert flagged == stale;
  }

  /** `apply_block_engine`: the parallel pipeline computes `EngineRun`, which is what `apply_block`
      computes on every block that loses no leak, and on every block of a ledger that is not exposed.
      A vector holds fewer than 2^64 - 1 envelopes. */
  method ApplyBlockEngine(env: Env, pre: State, txs: seq<SignedTx>)
    returns (post: State, receipts: seq<Receipt>, app: Hash)
    requires |txs| < U64_MAX
    ensures Run(post, receipts) == EngineRun(env, pre, txs) && app == AppHash(env, EngineRun(env, pre, txs), txs)
    ensures NoLostLeak(env, pre, txs) || !Overflowable(env.params, pre) ==>
              Run(post, receipts) == RunTxs(env, pre, txs) && app == AppHash(env, RunTxs(env, pre, txs), txs)
  {
    hide Effect;
    hide CommitAll;
    hide Clobbered;
    hide Speculates;
    hide RunTxs;
    hide NoLostLeak;
    hide Overflowable;
    var keys: set<Key> := {};
    for i := 0 to |txs| {
      keys := keys + InferredKeys(env, txs[i]);
    }
    var slots := new VersionedSlots();
    var _ := SeedAndRead(slots, pre, keys);
    var specs := Speculate(env, pre, txs, slots);
    var flagged := FlagBlock(env, pre, txs, slots, specs);
    post, receipts := ReexecSequential(env, pre, txs, slots, specs, flagged);
    app := env.appHash(post.accounts, post.storage, txs, receipts);
    if NoLostLeak(env, pre, txs) || !Overflowable(env.params, pre) {
      EngineAgrees(env, pre, txs);
    }
  }

  /** Every ledger whose bonds are all operated, and every ledger whose supply fits in 128 bits,
      keeps all of its blocks clear of leaks. */
  lemma SoundLedgersNeverLeak(env: Env, pre: State, txs: seq<SignedTx>)
    requires BondsOwned(pre.staking) || Supply(pre) <= U128_MAX
    ensures forall i :: 0 <= i < |txs| ==> !Leaks(env, RunTxs(env, pre, txs[..i]).state, txs[i])
  {
    hide Effect;
    forall i | 0 <= i < |txs| ensures !Leaks(env, RunTxs(env, pre, txs[..i]).state, txs[i]) {
      RunIsPlay(env, pre, txs[..i]);
      var now := RunTxs(env, pre, txs[..i]).state;
      if BondsOwned(pre.staking) {
        RefusalsLeaveNoTrace(env, pre, AsSteps(txs[..i]));
        OwnedBondsStep(env, now, txs[i]);
      } else {
        SupplyExact(env, pre, AsSteps(txs[..i]));
        SupplyPreventsLeak(env, now, txs[i]);
      }
    }
  }

  function AsSteps(txs: seq<SignedTx>): seq<Step> {
    seq(|txs|, i requires 0 <= i < |txs| => TxStep(txs[i]))
  }

  lemma {:induction false} RunIsPlay(env: Env, w: State, txs: seq<SignedTx>)
    ensures RunTxs(env, w, txs).state == Play(env, w, AsSteps(txs))
  {
    if txs != [] {
      RunIsPlay(env, w, txs[..|txs| - 1]);
      assert AsSteps(txs)[..|txs| - 1] == AsSteps(txs[..|txs| - 1]);
    }
  }

  /** The leak is not vacuous: a first bond onto a validator that has bonded tokens but no
      operator, large enough to overflow 128 bits, separates the engine from `apply_block`. */
  lemma LeakExample() returns (env: Env, pre: State, s: SignedTx)
    ensures Leaks(env, pre, s)
    ensures Effect(env, pre, s).state.staking.operator == map[7 := 1]
    ensures var spec := Effect(env, pre, s);
            Merge(pre, spec.state, SpecWrites(env, s, spec)).staking.operator == map[]
    ensures EngineRun(env, pre, [s]) != RunTxs(env, pre, [s])
  {
    hide Effect;
    hide Merge;
    hide EngineRun;
    hide RunTxs;
    env := Env(Params(100, 1000, 100), (a, n) => 0, b => 0, b => false, (c, h) => GuestStep(Trap, 0), b => 0, i => [],
               (a, st, t, r) => 0);
    var book := EMPTY_BOOK.(selfBond := map[7 := U128_MAX]);
    pre := State(map[1 := Account(1000, 0, 0)], map[], map[], book);
    s := SignedTx(Tx(0, 21_000, 1, Stake(StakePayload(Bond, Some(7), 100))), true, Some(1));
    assert GasMeter(s.tx) == Some(21_000);
    LeakRefused(env, pre, s);
    RefusalLeavesStateIff(env, pre, s);
    assert SpecWrites(env, s, Effect(env, pre, s)) == {};
    MergeNothing(pre, Effect(env, pre, s).state);
    OneTransactionIff(env, pre, s);
  }
}
