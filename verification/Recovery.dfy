/** Block storage, the execution write-ahead log and crash recovery
    (`crates/storage/src/{blocks,index,replay,wal}.rs`). Batches are atomic here; module `Kv`
    says when they are. */
module Recovery {
  import opened Common
  import opened Ledger
  import opened Kv

  datatype Header = Header(height: nat, rest: Bytes)

  /** A write-ahead record: everything `put_block` needs. */
  datatype Record = Record(header: Header, txs: seq<SignedTx>, receipts: seq<Bytes>, app: Hash)

  datatype Key =
    | WalKey | TipKey | GenesisKey
    | HeaderAt(height: nat) | BlockAt(height: nat) | AppAt(height: nat)
    | HeightOf(header: Hash) | TxAt(tx: Hash) | ReceiptOf(tx: Hash)

  /** A value of the wrong kind under a key stands for bytes that do not decode. */
  datatype Value =
    | WalV(record: Record) | HeightV(height: nat) | HashV(hash: Hash) | HeaderV(header: Header)
    | BlockV(txs: seq<SignedTx>) | LocatorV(height: nat, index: nat) | ReceiptV(bytes: Bytes)

  type Disk = map<Key, Value>
  type Batch = seq<BatchOp<Key, Value>>

  /** What a node is started with. */
  datatype Setup = Setup(env: Env, genesis: Hash, world: State, headerHash: Header -> Hash, txHash: SignedTx -> Hash)

  // ------------------------------------------------------------ block writes

  function TxIndexOps(s: Setup, h: nat, txs: seq<SignedTx>): Batch {
    seq(|txs|, i requires 0 <= i < |txs| => Put(TxAt(s.txHash(txs[i])), LocatorV(h, i)))
  }

  function ReceiptOps(s: Setup, txs: seq<SignedTx>, receipts: seq<Bytes>): Batch {
    seq(Min(|txs|, |receipts|),
        i requires 0 <= i < Min(|txs|, |receipts|) => Put(ReceiptOf(s.txHash(txs[i])), ReceiptV(receipts[i])))
  }

  function PutBlockOps(s: Setup, r: Record): Batch {
    var h := r.header.height;
    [Put(HeaderAt(h), HeaderV(r.header)), Put(HeightOf(s.headerHash(r.header)), HeightV(h)),
     Put(BlockAt(h), BlockV(r.txs))]
    + TxIndexOps(s, h, r.txs) + ReceiptOps(s, r.txs, r.receipts)
    + [Put(AppAt(h), HashV(r.app)), Put(TipKey, HeightV(h))]
  }

  const CLEAR: Batch := [Delete(WalKey)]

  function Log(r: Record): Batch { [Put(WalKey, WalV(r))] }

  function PutBlock(s: Setup, d: Disk, r: Record): Disk { ApplyAll(d, PutBlockOps(s, r)) }

  // ------------------------------------------------------------------ replay

  datatype ReplayError =
    | Corrupt
    | GenesisMismatch
    | MissingBlock
    | AppHashMismatch(height: nat, expected: Hash, got: Hash)

  datatype Replayed = Ok(world: State, app: Hash) | Err(error: ReplayError)

  /** What replay makes of the block at `h` from world `w`. */
  function ReplayOne(s: Setup, d: Disk, w: State, h: nat): Replayed {
    if BlockAt(h) !in d then Err(MissingBlock)
    else if !d[BlockAt(h)].BlockV? then Err(Corrupt)
    else if AppAt(h) !in d then Err(MissingBlock)
    else if !d[AppAt(h)].HashV? then Err(Corrupt)
    else
      var run := RunTxs(s.env, w, d[BlockAt(h)].txs);
      var app := AppHash(s.env, run, d[BlockAt(h)].txs);
      if app != d[AppAt(h)].hash then Err(AppHashMismatch(h, d[AppAt(h)].hash, app)) else Ok(run.state, app)
  }

  /** The world after the first `n` stored blocks, read straight off the disk. */
  ghost function WorldAt(s: Setup, d: Disk, n: nat): State {
    if n == 0 then s.world
    else
      var w := WorldAt(s, d, n - 1);
      if BlockAt(n - 1) in d && d[BlockAt(n - 1)].BlockV? then RunTxs(s.env, w, d[BlockAt(n - 1)].txs).state else w
  }

  ghost function AppOf(s: Setup, w: State, txs: seq<SignedTx>): Hash {
    AppHash(s.env, RunTxs(s.env, w, txs), txs)
  }

  /** Block and application hash are stored at `h`, and the hash is the one replay computes. */
  ghost predicate Committed(s: Setup, d: Disk, h: nat) {
    && BlockAt(h) in d && d[BlockAt(h)].BlockV?
    && AppAt(h) in d && d[AppAt(h)] == HashV(AppOf(s, WorldAt(s, d, h), d[BlockAt(h)].txs))
  }

  /** Number of blocks the tip speaks for. */
  function Height(d: Disk): nat {
    if TipKey in d && d[TipKey].HeightV? then d[TipKey].height + 1 else 0
  }

  ghost predicate Anchored(s: Setup, d: Disk) {
    GenesisKey in d && d[GenesisKey] == HashV(s.genesis)
  }

  lemma ReplayOneIff(s: Setup, d: Disk, h: nat)
    ensures ReplayOne(s, d, WorldAt(s, d, h), h).Ok? <==> Committed(s, d, h)
    ensures Committed(s, d, h) ==> ReplayOne(s, d, WorldAt(s, d, h), h) ==
                                   Ok(WorldAt(s, d, h + 1), AppOf(s, WorldAt(s, d, h), d[BlockAt(h)].txs))
  {
    hide RunTxs;
    hide AppHash;
  }

  /** Replay can be run to the end. */
  ghost predicate Replayable(s: Setup, d: Disk) {
    Anchored(s, d) && (TipKey in d ==> d[TipKey].HeightV?) && forall h :: 0 <= h < Height(d) ==> Committed(s, d, h)
  }

  /** `replay_from_genesis`: it succeeds exactly on an anchored chain all of whose heights up to the
      tip are committed, and then yields their world; otherwise it reports the first bad height. */
  method ReplayFromGenesis(s: Setup, d: Disk) returns (r: Replayed)
    ensures r.Ok? <==> Replayable(s, d)
    ensures r.Ok? ==> r.world == WorldAt(s, d, Height(d))
    ensures r.Ok? ==> if Height(d) == 0 then r.app == s.genesis else At(d, AppAt(Height(d) - 1)) == Some(HashV(r.app))
    ensures r.Err? && r.error.AppHashMismatch? ==>
              && r.error.height < Height(d) && !Committed(s, d, r.error.height)
              && forall h :: 0 <= h < r.error.height ==> Committed(s, d, h)
  {
    hide RunTxs;
    hide AppHash;
    hide ReplayOne;
    hide Committed;
    if GenesisKey !in d {
      return Err(GenesisMismatch);
    }
    if !d[GenesisKey].HashV? {
      return Err(Corrupt);
    }
    if d[GenesisKey].hash != s.genesis {
      return Err(GenesisMismatch);
    }
    if TipKey !in d {
      return Ok(s.world, s.genesis);
    }
    if !d[TipKey].HeightV? {
      return Err(Corrupt);
    }
    var end := d[TipKey].height;
    var world, last := s.world, s.genesis;
    var h := 0;
    while h <= end
      invariant h <= end + 1
      invariant forall i :: 0 <= i < h ==> Committed(s, d, i)
      invariant world == WorldAt(s, d, h)
      invariant h > 0 ==> At(d, AppAt(h - 1)) == Some(HashV(last))
    {
      ReplayOneIff(s, d, h);
      var one := ReplayOne(s, d, world, h);
      if one.Err? {
        MismatchNames(s, d, world, h);
        return one;
      }
      CommittedHash(s, d, h);
      world, last := one.world, one.app;
      h := h + 1;
    }
    return Ok(world, last);
  }

  lemma MismatchNames(s: Setup, d: Disk, w: State, h: nat)
    ensures ReplayOne(s, d, w, h).Err? && ReplayOne(s, d, w, h).error.AppHashMismatch? ==>
              ReplayOne(s, d, w, h).error.height == h
  {
    hide RunTxs;
    hide AppHash;
  }

  lemma CommittedHash(s: Setup, d: Disk, h: nat)
    requires Committed(s, d, h)
    ensures At(d, AppAt(h)) == Some(HashV(AppOf(s, WorldAt(s, d, h), d[BlockAt(h)].txs)))
  {
  }

  // ---------------------------------------------------------------- recovery

  /** The batches a commit writes, in order. */
  function CommitPlan(s: Setup, r: Record): seq<Batch> {
    [Log(r), PutBlockOps(s, r), CLEAR]
  }

  /** The batches recovery writes from `d`, in order. */
  ghost function RecoverPlan(s: Setup, d: Disk): seq<Batch> {
    if WalKey !in d || !d[WalKey].WalV? then []
    else
      var r := d[WalKey].record;
      var h := r.header.height;
      if BlockAt(h) in d then if d[BlockAt(h)].BlockV? then [CLEAR] else []
      else if Replayable(s, d) && AppOf(s, WorldAt(s, d, Height(d)), r.txs) == r.app then [PutBlockOps(s, r), CLEAR]
      else []
  }

  /** The disk when the machine dies after `k` batches of a plan have landed. */
  ghost function Crash(d: Disk, plan: seq<Batch>, k: nat): Disk
    decreases k
  {
    if k == 0 || plan == [] then d else Crash(ApplyAll(d, plan[0]), plan[1..], k - 1)
  }

  /** Outcome of `recover`, if the machine survived to report one. */
  datatype Outcome = Died | Failed(error: ReplayError) | World(world: State)

  class ChainStore {
    const s: Setup
    var disk: Disk

    constructor (s: Setup, disk: Disk)
      ensures this.s == s && this.disk == disk
    {
      this.s, this.disk := s, disk;
    }

    /** One atomic batch, if the machine still lives. */
    method Write(ops: Batch, alive: nat) returns (ok: bool, left: nat)
      modifies this`disk
      ensures ok == (alive > 0) && left == if alive > 0 then alive - 1 else 0
      ensures disk == if ok then ApplyAll(old(disk), ops) else old(disk)
    {
      if alive == 0 {
        return false, 0;
      }
      for i := 0 to |ops|
        invariant disk == ApplyAll(old(disk), ops[..i])
      {
        assert ops[..i + 1][..i] == ops[..i];
        disk := Apply(disk, ops[i]);
      }
      assert ops[..|ops|] == ops;
      return true, alive - 1;
    }

    /** `commit_with_wal` on a machine that dies after `alive` batches. */
    method CommitWithWal(r: Record, alive: nat) returns (done: bool)
      modifies this`disk
      ensures disk == Crash(old(disk), CommitPlan(s, r), alive) && done == (alive >= 3)
    {
      hide ApplyAll;
      hide PutBlockOps;
      ghost var plan := CommitPlan(s, r);
      assert plan[1..][1..] == [CLEAR] && plan[1..][1..][1..] == [] && plan[1..][0] == PutBlockOps(s, r);
      var ok, left := Write(Log(r), alive);
      if ok {
        ok, left := Write(PutBlockOps(s, r), left);
        if ok {
          ok, left := Write(CLEAR, left);
        }
      }
      done := ok;
      CrashThree(old(disk), Log(r), PutBlockOps(s, r), CLEAR, alive);
    }

    /** `recover` on a machine that dies after `alive` batches. */
    method Recover(alive: nat) returns (out: Outcome)
      modifies this`disk
      ensures disk == Crash(old(disk), RecoverPlan(s, old(disk)), alive)
      ensures out.Died? <==> alive < |RecoverPlan(s, old(disk))|
      ensures var plan := RecoverPlan(s, old(disk));
              out.World? <==> Replayable(s, old(disk)) && alive >= |plan| && (WalKey !in old(disk) || plan != [])
      ensures out.World? && RecoverPlan(s, old(disk)) != [] ==> WalKey !in disk
      ensures out.World? ==> out.world == if |RecoverPlan(s, old(disk))| == 2
                                          then RunTxs(s.env, WorldAt(s, old(disk), Height(old(disk))),
                                                      old(disk)[WalKey].record.txs).state
                                          else WorldAt(s, old(disk), Height(old(disk)))
    {
      hide RunTxs;
      hide AppHash;
      hide ApplyAll;
      hide PutBlockOps;
      hide WorldAt;
      hide Committed;
      if WalKey !in disk {
        out := Rebuild(disk);
        return;
      }
      if !disk[WalKey].WalV? {
        return Failed(Corrupt);
      }
      var r := disk[WalKey].record;
      var h := r.header.height;
      if BlockAt(h) in disk {
        if !disk[BlockAt(h)].BlockV? {
          return Failed(Corrupt);
        }
        var ok, _ := Write(CLEAR, alive);
        CrashOne(old(disk), CLEAR, alive);
        if !ok {
          return Died;
        }
        ClearEffect(s, old(disk));
        out := Rebuild(disk);
        return;
      }
      var replayed := ReplayFromGenesis(s, disk);
      if replayed.Err? {
        return Failed(replayed.error);
      }
      var run := RunTxs(s.env, replayed.world, r.txs);
      if AppHash(s.env, run, r.txs) != r.app {
        return Failed(Corrupt);
      }
      var ok, left := Write(PutBlockOps(s, r), alive);
      if ok {
        ok, left := Write(CLEAR, left);
      }
      CrashTwo(old(disk), PutBlockOps(s, r), CLEAR, alive);
      if !ok {
        return Died;
      }
      ClearEffect(s, PutBlock(s, old(disk), r));
      out := World(run.state);
    }

    /** An undisturbed recovery hands back the replay of the chain it leaves behind. */
    method Reopen() returns (world: State)
      requires Sound(s, disk)
      modifies this`disk
      ensures disk == Final(s, old(disk)) && Sound(s, disk) && WalKey !in disk && Extends(old(disk), disk)
      ensures world == WorldAt(s, disk, Height(disk))
    {
      hide RunTxs;
      hide AppOf;
      hide Committed;
      hide WorldAt;
      hide Crash;
      hide RecoverPlan;
      FinalIs(s, disk);
      RecoveryEnds(s, disk);
      var out := Recover(2);
      world := out.world;
    }

    method Rebuild(d: Disk) returns (out: Outcome)
      ensures out.World? <==> Replayable(s, d)
      ensures out.World? ==> out.world == WorldAt(s, d, Height(d))
      ensures !out.Died?
    {
      var r := ReplayFromGenesis(s, d);
      out := if r.Ok? then World(r.world) else Failed(r.error);
    }
  }

  lemma CrashOne(d: Disk, a: Batch, k: nat)
    ensures Crash(d, [a], k) == if k == 0 then d else ApplyAll(d, a)
  {
    hide ApplyAll;
    assert [a][1..] == [];
  }

  lemma CrashTwo(d: Disk, a: Batch, b: Batch, k: nat)
    ensures Crash(d, [a, b], k) == if k == 0 then d else if k == 1 then ApplyAll(d, a) else ApplyAll(ApplyAll(d, a), b)
  {
    hide ApplyAll;
    if k > 0 {
      assert [a, b][1..] == [b];
      CrashOne(ApplyAll(d, a), b, k - 1);
    }
  }

  lemma CrashThree(d: Disk, a: Batch, b: Batch, c: Batch, k: nat)
    ensures Crash(d, [a, b, c], k) ==
            if k == 0 then d else if k == 1 then ApplyAll(d, a) else if k == 2 then ApplyAll(ApplyAll(d, a), b)
            else ApplyAll(ApplyAll(ApplyAll(d, a), b), c)
  {
    hide ApplyAll;
    if k > 0 {
      assert [a, b, c][1..] == [b, c];
      CrashTwo(ApplyAll(d, a), b, c, k - 1);
    }
  }

  // ------------------------------------------------------- effect of a batch

  lemma {:induction false} WorldFrame(s: Setup, d: Disk, d': Disk, n: nat)
    requires forall h :: 0 <= h < n ==> At(d, BlockAt(h)) == At(d', BlockAt(h))
    ensures WorldAt(s, d, n) == WorldAt(s, d', n)
  {
    hide RunTxs;
    if n > 0 {
      WorldFrame(s, d, d', n - 1);
      assert At(d, BlockAt(n - 1)) == At(d', BlockAt(n - 1));
    }
  }

  /** The same chain up to height `n` is committed on both disks. */
  lemma CommittedFrame(s: Setup, d: Disk, d': Disk, n: nat)
    requires forall h :: 0 <= h < n ==> At(d, BlockAt(h)) == At(d', BlockAt(h)) && At(d, AppAt(h)) == At(d', AppAt(h))
    ensures forall h :: 0 <= h < n ==> (Committed(s, d, h) <==> Committed(s, d', h))
  {
    hide AppOf;
    forall h | 0 <= h < n ensures Committed(s, d, h) <==> Committed(s, d', h) {
      WorldFrame(s, d, d', h);
      assert At(d, BlockAt(h)) == At(d', BlockAt(h)) && At(d, AppAt(h)) == At(d', AppAt(h));
    }
  }

  lemma ClearEffect(s: Setup, d: Disk)
    ensures ApplyAll(d, CLEAR) == d - {WalKey}
    ensures Height(d - {WalKey}) == Height(d)
    ensures Replayable(s, d - {WalKey}) <==> Replayable(s, d)
    ensures WorldAt(s, d - {WalKey}, Height(d)) == WorldAt(s, d, Height(d))
  {
    hide AppOf;
    hide Committed;
    assert CLEAR[..0] == [];
    assert ApplyAll(d, CLEAR) == Apply(ApplyAll(d, CLEAR[..0]), CLEAR[0]);
    WorldFrame(s, d, d - {WalKey}, Height(d));
    CommittedFrame(s, d, d - {WalKey}, Height(d));
  }

  lemma LogEffect(d: Disk, r: Record)
    ensures ApplyAll(d, Log(r)) == d[WalKey := WalV(r)]
  {
    assert Log(r)[..0] == [];
    assert ApplyAll(d, Log(r)) == Apply(ApplyAll(d, Log(r)[..0]), Log(r)[0]);
  }

  /** The block batch names no other height's block or hash, nor the log, nor the genesis anchor. */
  lemma PutBlockElsewhere(s: Setup, d: Disk, r: Record, k: Key)
    requires k == WalKey || k == GenesisKey || k.BlockAt? || k.AppAt?
    requires k.BlockAt? || k.AppAt? ==> k.height != r.header.height
    ensures At(PutBlock(s, d, r), k) == At(d, k)
  {
    var ops := PutBlockOps(s, r);
    forall i | 0 <= i < |ops| ensures ops[i].key != k {}
    ApplyAllElsewhere(d, ops, k);
  }

  /** The last write to a key is what stays. */
  lemma LastPutWins(d: Disk, ops: Batch, i: nat, k: Key, v: Value)
    requires i < |ops| && ops[i] == Put(k, v) && forall j :: i < j < |ops| ==> ops[j].key != k
    ensures At(ApplyAll(d, ops), k) == Some(v)
  {
    var head, rest := ops[..i + 1], ops[i + 1..];
    assert ops == head + rest && head[..i] == ops[..i];
    ApplyAllAppend(d, head, rest);
    assert ApplyAll(d, head) == Apply(ApplyAll(d, head[..i]), head[i]);
    ApplyAllElsewhere(ApplyAll(d, head), rest, k);
  }

  /** Operation `j` of the block batch. */
  function OpAt(s: Setup, r: Record, j: nat): BatchOp<Key, Value>
    requires j < 5 + |r.txs| + Min(|r.txs|, |r.receipts|)
  {
    var h, n, m := r.header.height, |r.txs|, Min(|r.txs|, |r.receipts|);
    if j == 0 then Put(HeaderAt(h), HeaderV(r.header))
    else if j == 1 then Put(HeightOf(s.headerHash(r.header)), HeightV(h))
    else if j == 2 then Put(BlockAt(h), BlockV(r.txs))
    else if j < 3 + n then Put(TxAt(s.txHash(r.txs[j - 3])), LocatorV(h, j - 3))
    else if j < 3 + n + m then Put(ReceiptOf(s.txHash(r.txs[j - 3 - n])), ReceiptV(r.receipts[j - 3 - n]))
    else if j == 3 + n + m then Put(AppAt(h), HashV(r.app))
    else Put(TipKey, HeightV(h))
  }

  lemma OpsAre(s: Setup, r: Record)
    ensures |PutBlockOps(s, r)| == 5 + |r.txs| + Min(|r.txs|, |r.receipts|)
    ensures forall j :: 0 <= j < |PutBlockOps(s, r)| ==> PutBlockOps(s, r)[j] == OpAt(s, r, j)
  {
  }

  /** Operation `i` stays if no later one names its key. */
  lemma LastOpWins(s: Setup, d: Disk, r: Record, i: nat)
    requires i < 5 + |r.txs| + Min(|r.txs|, |r.receipts|)
    requires forall j :: i < j < 5 + |r.txs| + Min(|r.txs|, |r.receipts|) ==> OpAt(s, r, j).key != OpAt(s, r, i).key
    ensures OpAt(s, r, i).Put? && At(PutBlock(s, d, r), OpAt(s, r, i).key) == Some(OpAt(s, r, i).value)
  {
    OpsAre(s, r);
    hide PutBlockOps;
    var op := OpAt(s, r, i);
    LastPutWins(d, PutBlockOps(s, r), i, op.key, op.value);
  }

  lemma PutBlockStores(s: Setup, d: Disk, r: Record)
    ensures var (p, h) := (PutBlock(s, d, r), r.header.height);
            && At(p, BlockAt(h)) == Some(BlockV(r.txs)) && At(p, AppAt(h)) == Some(HashV(r.app))
            && At(p, TipKey) == Some(HeightV(h))
            && At(p, HeaderAt(h)) == Some(HeaderV(r.header))
            && At(p, HeightOf(s.headerHash(r.header))) == Some(HeightV(h))
  {
    hide PutBlock;
    var n := 5 + |r.txs| + Min(|r.txs|, |r.receipts|);
    LastOpWins(s, d, r, 0);
    LastOpWins(s, d, r, 1);
    LastOpWins(s, d, r, 2);
    LastOpWins(s, d, r, n - 2);
    LastOpWins(s, d, r, n - 1);
  }

  /** A transaction of the block is found under its hash, with its receipt; the last of several with one hash. */
  lemma PutBlockIndexes(s: Setup, d: Disk, r: Record, i: nat)
    requires i < |r.txs| && forall j :: i < j < |r.txs| ==> s.txHash(r.txs[j]) != s.txHash(r.txs[i])
    ensures var (p, x) := (PutBlock(s, d, r), s.txHash(r.txs[i]));
            && At(p, TxAt(x)) == Some(LocatorV(r.header.height, i))
            && (i < |r.receipts| ==> At(p, ReceiptOf(x)) == Some(ReceiptV(r.receipts[i])))
  {
    hide PutBlock;
    LastOpWins(s, d, r, 3 + i);
    if i < |r.receipts| {
      LastOpWins(s, d, r, 3 + |r.txs| + i);
    }
  }

  /** Transactions of other blocks keep their entries. */
  lemma PutBlockKeepsIndexes(s: Setup, d: Disk, r: Record, x: Hash)
    requires forall i :: 0 <= i < |r.txs| ==> s.txHash(r.txs[i]) != x
    ensures var p := PutBlock(s, d, r);
            At(p, TxAt(x)) == At(d, TxAt(x)) && At(p, ReceiptOf(x)) == At(d, ReceiptOf(x))
  {
    OpsAre(s, r);
    hide PutBlockOps;
    ApplyAllElsewhere(d, PutBlockOps(s, r), TxAt(x));
    ApplyAllElsewhere(d, PutBlockOps(s, r), ReceiptOf(x));
  }

  /** Whether the log was there does not matter to the block batch. */
  lemma {:induction false} WalApart(d: Disk, d': Disk, ops: Batch)
    requires d - {WalKey} == d' - {WalKey}
    requires forall i :: 0 <= i < |ops| ==> ops[i].key != WalKey
    ensures ApplyAll(d, ops) - {WalKey} == ApplyAll(d', ops) - {WalKey}
  {
    if ops != [] {
      var init := ops[..|ops| - 1];
      WalApart(d, d', init);
      var (a, b) := (ApplyAll(d, init), ApplyAll(d', init));
      assert a - {WalKey} == b - {WalKey};
      match ops[|ops| - 1]
      case Put(k, v) =>
        assert a[k := v] - {WalKey} == (a - {WalKey})[k := v];
        assert b[k := v] - {WalKey} == (b - {WalKey})[k := v];
      case Delete(k) =>
        assert a - {k} - {WalKey} == (a - {WalKey}) - {k};
        assert b - {k} - {WalKey} == (b - {WalKey}) - {k};
    }
  }

  // ----------------------------------------------------------- every history

  /** A log record either belongs to a stored block or is the right next block. */
  ghost predicate WalOk(s: Setup, d: Disk) {
    WalKey in d ==>
      && d[WalKey].WalV?
      && var r := d[WalKey].record;
      && r.header.height <= Height(d)
      && (r.header.height == Height(d) ==> r.app == AppOf(s, WorldAt(s, d, Height(d)), r.txs))
  }

  ghost predicate Sound(s: Setup, d: Disk) {
    Replayable(s, d) && WalOk(s, d) && forall h :: Height(d) <= h ==> BlockAt(h) !in d
  }

  /** What `put_genesis_hash` leaves of an empty store. */
  lemma FreshDiskSound(s: Setup)
    ensures ApplyAll(map[], [Put(GenesisKey, HashV(s.genesis))]) == map[GenesisKey := HashV(s.genesis)]
    ensures Sound(s, map[GenesisKey := HashV(s.genesis)])
  {
    var op: BatchOp<Key, Value> := Put(GenesisKey, HashV(s.genesis));
    assert [op][..0] == [];
    assert ApplyAll<Key, Value>(map[], [op]) == Apply(ApplyAll(map[], [op][..0]), op);
  }

  /** A commit carries the next height and the hash execution gave it. */
  ghost predicate NextBlock(s: Setup, d: Disk, r: Record) {
    r.header.height == Height(d) && r.app == AppOf(s, WorldAt(s, d, Height(d)), r.txs)
  }

  /** Nothing that was stored is lost. */
  ghost predicate Extends(d: Disk, d': Disk) {
    Height(d) <= Height(d') && forall h :: 0 <= h < Height(d) ==> At(d', BlockAt(h)) == At(d, BlockAt(h))
  }

  /** Storing the next block extends a sound chain by that block and by its world. */
  lemma PutNextBlock(s: Setup, d: Disk, r: Record)
    requires Replayable(s, d) && NextBlock(s, d, r) && forall h :: Height(d) <= h ==> BlockAt(h) !in d
    ensures var p := PutBlock(s, d, r);
            && Replayable(s, p) && Height(p) == Height(d) + 1 && (forall h :: Height(p) <= h ==> BlockAt(h) !in p)
            && WorldAt(s, p, Height(p)) == RunTxs(s.env, WorldAt(s, d, Height(d)), r.txs).state
            && Extends(d, p) && At(p, WalKey) == At(d, WalKey) && At(p, BlockAt(Height(d))) == Some(BlockV(r.txs))
  {
    hide RunTxs;
    hide AppHash;
    hide ApplyAll;
    hide PutBlockOps;
    var p := PutBlock(s, d, r);
    var n := Height(d);
    PutBlockStores(s, d, r);
    PutBlockElsewhere(s, d, r, WalKey);
    PutBlockElsewhere(s, d, r, GenesisKey);
    forall h: nat | h != n ensures At(p, BlockAt(h)) == At(d, BlockAt(h)) && At(p, AppAt(h)) == At(d, AppAt(h)) {
      PutBlockElsewhere(s, d, r, BlockAt(h));
      PutBlockElsewhere(s, d, r, AppAt(h));
    }
    assert forall h: nat :: n < h ==> At(p, BlockAt(h)) == At(d, BlockAt(h));
    WorldFrame(s, d, p, n);
    PutNextCommitted(s, d, p, n);
  }

  lemma PutNextCommitted(s: Setup, d: Disk, p: Disk, n: nat)
    requires forall h :: 0 <= h < n ==> Committed(s, d, h)
    requires forall h :: 0 <= h < n ==> At(d, BlockAt(h)) == At(p, BlockAt(h)) && At(d, AppAt(h)) == At(p, AppAt(h))
    requires BlockAt(n) in p && p[BlockAt(n)].BlockV?
             && At(p, AppAt(n)) == Some(HashV(AppOf(s, WorldAt(s, d, n), p[BlockAt(n)].txs)))
    ensures forall h :: 0 <= h < n + 1 ==> Committed(s, p, h)
  {
    hide AppOf;
    CommittedFrame(s, d, p, n);
    WorldFrame(s, d, p, n);
  }

  /** The disk after an undisturbed recovery. */
  ghost function Final(s: Setup, d: Disk): Disk {
    Crash(d, RecoverPlan(s, d), 2)
  }

  /** What recovery comes to on a sound disk: the log is gone, and the block it held is stored. */
  lemma FinalIs(s: Setup, d: Disk)
    requires Sound(s, d)
    ensures Final(s, d) == if WalKey !in d then d
                           else if d[WalKey].record.header.height < Height(d) then d - {WalKey}
                           else PutBlock(s, d, d[WalKey].record) - {WalKey}
    ensures |RecoverPlan(s, d)| == if WalKey !in d then 0 else if d[WalKey].record.header.height < Height(d) then 1
            else 2
    ensures |RecoverPlan(s, d)| == 0 <==> RecoverPlan(s, d) == []
  {
    hide AppOf;
    hide WorldAt;
    hide ApplyAll;
    hide PutBlockOps;
    if WalKey in d {
      var r := d[WalKey].record;
      if r.header.height < Height(d) {
        assert Committed(s, d, r.header.height);
        CrashOne(d, CLEAR, 2);
        ClearEffect(s, d);
      } else {
        CrashTwo(d, PutBlockOps(s, r), CLEAR, 2);
        ClearEffect(s, PutBlock(s, d, r));
      }
    }
  }

  lemma ClearSound(s: Setup, d: Disk)
    requires Replayable(s, d) && forall h :: Height(d) <= h ==> BlockAt(h) !in d
    ensures Sound(s, d - {WalKey}) && Extends(d, d - {WalKey})
  {
    hide Committed;
    hide WorldAt;
    ClearEffect(s, d);
  }

  /** Recovery from a sound disk ends sound, with no log, keeps every stored block, and the world it
      returns is the replay of the chain it leaves. */
  lemma RecoveryEnds(s: Setup, d: Disk)
    requires Sound(s, d)
    ensures var f := Final(s, d);
            && Sound(s, f) && WalKey !in f && Extends(d, f)
            && WorldAt(s, f, Height(f)) == if |RecoverPlan(s, d)| == 2
                                           then RunTxs(s.env, WorldAt(s, d, Height(d)), d[WalKey].record.txs).state
                                           else WorldAt(s, d, Height(d))
  {
    hide RunTxs;
    hide AppOf;
    hide Committed;
    hide WorldAt;
    hide PutBlock;
    hide Crash;
    hide Final;
    hide RecoverPlan;
    FinalIs(s, d);
    if WalKey in d {
      var r := d[WalKey].record;
      if r.header.height < Height(d) {
        ClearSound(s, d);
        ClearEffect(s, d);
      } else {
        PutNextBlock(s, d, r);
        ClearSound(s, PutBlock(s, d, r));
        ClearEffect(s, PutBlock(s, d, r));
      }
    }
  }

  /** What `recover` guards and what it does not. From any chain that replays, whatever the log holds, the chain
      left behind replays exactly when the log held no new block, or one whose application hash does not match
      its execution, or the next block: the height of the log is not compared with the tip. */
  lemma RecoveryGuardsIff(s: Setup, d: Disk)
    requires Replayable(s, d) && (forall h :: Height(d) <= h ==> BlockAt(h) !in d)
    requires WalKey in d && d[WalKey].WalV?
    ensures var r := d[WalKey].record;
            Replayable(s, Final(s, d))
            <==> || r.header.height <= Height(d)
                 || AppOf(s, WorldAt(s, d, Height(d)), r.txs) != r.app
  {
    hide AppOf;
    hide WorldAt;
    hide ApplyAll;
    hide PutBlockOps;
    var r := d[WalKey].record;
    var h, p := r.header.height, PutBlock(s, d, r);
    if h < Height(d) {
      assert Committed(s, d, h);
      CrashOne(d, CLEAR, 2);
      ClearEffect(s, d);
    } else if AppOf(s, WorldAt(s, d, Height(d)), r.txs) == r.app {
      CrashTwo(d, PutBlockOps(s, r), CLEAR, 2);
      ClearEffect(s, p);
      if h == Height(d) {
        PutNextBlock(s, d, r);
      } else {
        PutBlockStores(s, d, r);
        PutBlockElsewhere(s, d, r, BlockAt(Height(d)));
        assert Height(d) < Height(p) && !Committed(s, p, Height(d));
      }
    }
  }

  /** A disk as it is in the middle of storing `r`: block written, log not yet cleared. */
  lemma MidSound(s: Setup, d: Disk, r: Record)
    requires Replayable(s, d) && NextBlock(s, d, r) && (forall h :: Height(d) <= h ==> BlockAt(h) !in d)
    requires At(d, WalKey) == Some(WalV(r))
    ensures Sound(s, PutBlock(s, d, r)) && Extends(d, PutBlock(s, d, r))
    ensures Final(s, PutBlock(s, d, r)) == PutBlock(s, d, r) - {WalKey}
  {
    hide AppOf;
    hide Committed;
    hide WorldAt;
    hide PutBlock;
    hide Crash;
    hide Final;
    hide RecoverPlan;
    PutNextBlock(s, d, r);
    FinalIs(s, PutBlock(s, d, r));
  }

  lemma LogSound(s: Setup, d: Disk, r: Record)
    requires Sound(s, d) && NextBlock(s, d, r)
    ensures Sound(s, d[WalKey := WalV(r)]) && Extends(d, d[WalKey := WalV(r)])
    ensures NextBlock(s, d[WalKey := WalV(r)], r)
  {
    hide AppOf;
    hide Committed;
    hide WorldAt;
    var l := d[WalKey := WalV(r)];
    assert Height(l) == Height(d);
    CommittedFrame(s, d, l, Height(d));
    WorldFrame(s, d, l, Height(d));
  }

  datatype Event = Commit(record: Record, alive: nat) | Restart(alive: nat)

  ghost function After(s: Setup, d: Disk, e: Event): Disk {
    match e
    case Commit(r, k) => Crash(d, CommitPlan(s, r), k)
    case Restart(k) => Crash(d, RecoverPlan(s, d), k)
  }

  /** A crash anywhere inside recovery changes nothing about where recovery ends. */
  lemma CrashedRecovery(s: Setup, d: Disk, k: nat)
    requires Sound(s, d)
    ensures var e := After(s, d, Restart(k)); Sound(s, e) && Extends(d, e) && Final(s, e) == Final(s, d)
  {
    hide AppOf;
    hide Committed;
    hide WorldAt;
    hide ApplyAll;
    hide PutBlockOps;
    RecoveryEnds(s, d);
    FinalIs(s, d);
    FinalIs(s, Final(s, d));
    if WalKey in d {
      var r := d[WalKey].record;
      if r.header.height < Height(d) {
        assert Committed(s, d, r.header.height);
        CrashOne(d, CLEAR, k);
        CrashOne(d, CLEAR, 2);
      } else {
        CrashTwo(d, PutBlockOps(s, r), CLEAR, k);
        CrashTwo(d, PutBlockOps(s, r), CLEAR, 2);
        MidSound(s, d, r);
      }
    }
  }

  /** A commit that dies after `k` batches is, once recovered, either no commit at all or the whole
      commit; it is the whole commit as soon as the log record is durable. */
  lemma CommitAllOrNothing(s: Setup, d: Disk, r: Record, k: nat)
    requires Sound(s, d) && NextBlock(s, d, r)
    ensures var e := After(s, d, Commit(r, k));
            && Sound(s, e) && Extends(d, e)
            && Final(s, e) == if k == 0 then Final(s, d) else PutBlock(s, d - {WalKey}, r)
  {
    hide AppOf;
    hide Committed;
    hide WorldAt;
    hide ApplyAll;
    hide PutBlockOps;
    hide RecoverPlan;
    var l := d[WalKey := WalV(r)];
    CrashThree(d, Log(r), PutBlockOps(s, r), CLEAR, k);
    if k > 0 {
      LogEffect(d, r);
      LogSound(s, d, r);
      MidSound(s, l, r);
      ClearEffect(s, PutBlock(s, l, r));
      WholeCommit(s, d, r);
      FinalIs(s, l);
      RecoveryEnds(s, l);
      FinalIs(s, PutBlock(s, l, r) - {WalKey});
      assert After(s, d, Commit(r, k)) == if k == 1 then l else if k == 2 then PutBlock(s, l, r)
             else PutBlock(s, l, r) - {WalKey};
    }
  }

  lemma WholeCommit(s: Setup, d: Disk, r: Record)
    ensures PutBlock(s, d[WalKey := WalV(r)], r) - {WalKey} == PutBlock(s, d - {WalKey}, r)
  {
    var ops := PutBlockOps(s, r);
    var l, c := d[WalKey := WalV(r)], d - {WalKey};
    forall i | 0 <= i < |ops| ensures ops[i].key != WalKey {}
    assert l - {WalKey} == c - {WalKey};
    WalApart(l, c, ops);
    PutBlockElsewhere(s, c, r, WalKey);
    assert ApplyAll(c, ops) - {WalKey} == ApplyAll(c, ops);
  }

  /** The log is written ahead: at every point of a commit before its end, either nothing but the log has changed
      or the log holds the record. */
  lemma LogAhead(s: Setup, d: Disk, r: Record, k: nat)
    requires k < 3
    ensures var e := Crash(d, CommitPlan(s, r), k);
            e - {WalKey} == d - {WalKey} || At(e, WalKey) == Some(WalV(r))
  {
    hide ApplyAll;
    hide PutBlockOps;
    CrashThree(d, Log(r), PutBlockOps(s, r), CLEAR, k);
    LogEffect(d, r);
    PutBlockElsewhere(s, d[WalKey := WalV(r)], r, WalKey);
  }

  // ------------------------------------------------------------ torn batches

  predicate Names(ops: Batch, k: Key) {
    exists i :: 0 <= i < |ops| && ops[i].key == k
  }

  /** What a batch leaves under a key it names does not depend on what was there. */
  lemma {:induction false} BatchDecides(d: Disk, d': Disk, ops: Batch, k: Key)
    ensures if Names(ops, k) then At(ApplyAll(d, ops), k) == At(ApplyAll(d', ops), k)
            else At(ApplyAll(d, ops), k) == At(d, k)
  {
    if ops != [] {
      var init, last := ops[..|ops| - 1], ops[|ops| - 1];
      BatchDecides(d, d', init, k);
      if last.key != k && Names(ops, k) {
        var i :| 0 <= i < |ops| && ops[i].key == k;
        assert init[i].key == k;
      }
      if Names(init, k) {
        var i :| 0 <= i < |init| && init[i].key == k;
        assert ops[i].key == k;
      }
    }
  }

  /** Writing a batch again over a part of it gives the batch. */
  lemma BatchAgain(d: Disk, ops: Batch, j: nat)
    requires j <= |ops|
    ensures ApplyAll(ApplyAll(d, ops[..j]), ops) == ApplyAll(d, ops)
  {
    var torn := ApplyAll(d, ops[..j]);
    forall k: Key ensures SameEntry(ApplyAll(torn, ops), ApplyAll(d, ops), k) {
      BatchDecides(d, torn, ops, k);
      BatchDecides(torn, d, ops, k);
      BatchDecides(d, d, ops[..j], k);
      if Names(ops[..j], k) {
        var i :| 0 <= i < |ops[..j]| && ops[..j][i].key == k;
        assert ops[i].key == k;
      }
      assert At(ApplyAll(torn, ops), k) == At(ApplyAll(d, ops), k);
    }
    SameEverywhere(ApplyAll(torn, ops), ApplyAll(d, ops));
  }

  /** The disk when the block batch of a logged commit was torn after `j` of its writes. */
  ghost function Torn(s: Setup, d: Disk, r: Record, j: nat): Disk
    requires j <= |PutBlockOps(s, r)|
  {
    ApplyAll(d[WalKey := WalV(r)], PutBlockOps(s, r)[..j])
  }

  lemma TornElsewhere(s: Setup, d: Disk, r: Record, j: nat, k: Key)
    requires j < |PutBlockOps(s, r)| && (k == TipKey || k == GenesisKey || k == WalKey || k.BlockAt? || k.AppAt?)
    requires (k.AppAt? || (k.BlockAt? && j > 2)) ==> k.height != r.header.height
    ensures At(Torn(s, d, r, j), k) == At(d[WalKey := WalV(r)], k)
  {
    OpsAre(s, r);
    hide PutBlockOps;
    var part := PutBlockOps(s, r)[..j];
    ApplyAllElsewhere(d[WalKey := WalV(r)], part, k);
  }

  /** Before the block itself is written, a torn disk is the logged one but for header entries. */
  lemma TornEarly(s: Setup, d: Disk, r: Record, j: nat)
    requires Sound(s, d) && NextBlock(s, d, r) && j <= 2
    ensures j <= |PutBlockOps(s, r)| && RecoverPlan(s, Torn(s, d, r, j)) == [PutBlockOps(s, r), CLEAR]
  {
    hide AppOf;
    hide WorldAt;
    OpsAre(s, r);
    hide PutBlockOps;
    var torn := Torn(s, d, r, j);
    TornElsewhere(s, d, r, j, TipKey);
    TornElsewhere(s, d, r, j, GenesisKey);
    TornElsewhere(s, d, r, j, WalKey);
    TornElsewhere(s, d, r, j, BlockAt(r.header.height));
    hide Torn;
    forall h: nat | h < Height(d)
      ensures At(torn, BlockAt(h)) == At(d, BlockAt(h)) && At(torn, AppAt(h)) == At(d, AppAt(h))
    {
      TornElsewhere(s, d, r, j, BlockAt(h));
      TornElsewhere(s, d, r, j, AppAt(h));
    }
    WorldFrame(s, d, torn, Height(d));
    CommittedFrame(s, d, torn, Height(d));
  }

  lemma TornLate(s: Setup, d: Disk, r: Record, j: nat)
    requires 2 < j < |PutBlockOps(s, r)|
    ensures RecoverPlan(s, Torn(s, d, r, j)) == [CLEAR]
    ensures At(Torn(s, d, r, j), TipKey) == At(d, TipKey)
  {
    TornElsewhere(s, d, r, j, TipKey);
    TornElsewhere(s, d, r, j, WalKey);
    OpsAre(s, r);
    hide PutBlockOps;
    var part := PutBlockOps(s, r)[..j];
    LastPutWins(d[WalKey := WalV(r)], part, 2, BlockAt(r.header.height), BlockV(r.txs));
  }

  /** Should a block batch be torn after all, recovery still ends with the whole commit exactly when the block
      itself had not been written yet, or everything had. Otherwise the block is taken for stored, the log is
      dropped and the tip stays behind. */
  lemma TornCommitIff(s: Setup, d: Disk, r: Record, j: nat)
    requires Sound(s, d) && NextBlock(s, d, r) && j <= |PutBlockOps(s, r)|
    ensures Final(s, Torn(s, d, r, j)) == PutBlock(s, d - {WalKey}, r) <==> j <= 2 || j == |PutBlockOps(s, r)|
  {
    hide AppOf;
    hide Committed;
    hide WorldAt;
    hide RecoverPlan;
    var ops, l, torn := PutBlockOps(s, r), d[WalKey := WalV(r)], Torn(s, d, r, j);
    hide PutBlockOps;
    WholeCommit(s, d, r);
    if j == |ops| {
      assert ops[..j] == ops;
      LogSound(s, d, r);
      MidSound(s, l, r);
    } else if j <= 2 {
      TornEarly(s, d, r, j);
      CrashTwo(torn, ops, CLEAR, 2);
      BatchAgain(l, ops, j);
      ClearEffect(s, ApplyAll(torn, ops));
    } else {
      TornLate(s, d, r, j);
      CrashOne(torn, CLEAR, 2);
      ClearEffect(s, torn);
      PutBlockStores(s, d - {WalKey}, r);
      assert At(torn - {WalKey}, TipKey) == At(d, TipKey) != Some(HeightV(r.header.height));
    }
  }

  ghost function Play(s: Setup, d: Disk, es: seq<Event>): Disk {
    if es == [] then d else After(s, Play(s, d, es[..|es| - 1]), es[|es| - 1])
  }

  /** Commits come in height order with the hash of their execution; crashes and restarts come as they like. */
  ghost predicate InOrder(s: Setup, d: Disk, es: seq<Event>) {
    forall i :: 0 <= i < |es| && es[i].Commit? ==> NextBlock(s, Play(s, d, es[..i]), es[i].record)
  }

  /** No history of commits, crashes and restarts spoils the disk or loses a stored block. */
  lemma {:induction false} EveryHistorySound(s: Setup, d: Disk, es: seq<Event>)
    requires Sound(s, d) && InOrder(s, d, es)
    ensures Sound(s, Play(s, d, es)) && Extends(d, Play(s, d, es))
  {
    hide Sound;
    hide NextBlock;
    hide After;
    if es == [] {
    } else {
      var init, last := es[..|es| - 1], es[|es| - 1];
      forall i | 0 <= i < |init| && init[i].Commit? ensures NextBlock(s, Play(s, d, init[..i]), init[i].record) {
        assert init[..i] == es[..i] && es[i] == init[i];
      }
      EveryHistorySound(s, d, init);
      var mid := Play(s, d, init);
      match last
      case Commit(r, k) =>
        assert es[|es| - 1].Commit? && es[..|es| - 1] == init;
        CommitAllOrNothing(s, mid, r, k);
      case Restart(k) =>
        CrashedRecovery(s, mid, k);
    }
  }

  ghost predicate AllRestarts(es: seq<Event>) {
    forall i :: 0 <= i < |es| ==> es[i].Restart?
  }

  lemma {:induction false} CrashLoop(s: Setup, d: Disk, es: seq<Event>)
    requires Sound(s, d) && AllRestarts(es)
    ensures Sound(s, Play(s, d, es)) && Final(s, Play(s, d, es)) == Final(s, d)
  {
    hide Sound;
    hide After;
    hide Final;
    if es != [] {
      CrashLoop(s, d, es[..|es| - 1]);
      CrashedRecovery(s, Play(s, d, es[..|es| - 1]), es[|es| - 1].alive);
    }
  }

  /** Once its log record was durable, a block survives any number of crashes, during the commit and
      during every recovery after it: recovery ends with exactly the undisturbed commit. */
  lemma DurableCommitSurvives(s: Setup, d: Disk, r: Record, k: nat, crashes: seq<Event>)
    requires Sound(s, d) && NextBlock(s, d, r) && AllRestarts(crashes)
    ensures var end := Final(s, Play(s, After(s, d, Commit(r, k)), crashes));
            && Sound(s, end) && WalKey !in end
            && end == (if k == 0 then Final(s, d) else PutBlock(s, d - {WalKey}, r))
            && (k > 0 ==> Height(end) == Height(d) + 1 && At(end, BlockAt(Height(d))) == Some(BlockV(r.txs)))
  {
    hide AppOf;
    hide Committed;
    hide WorldAt;
    hide PutBlock;
    hide After;
    hide Final;
    CommitAllOrNothing(s, d, r, k);
    var e := After(s, d, Commit(r, k));
    CrashLoop(s, e, crashes);
    RecoveryEnds(s, e);
    ClearEffect(s, d);
    PutNextBlock(s, d - {WalKey}, r);
  }
}
