/** A chain of blocks, each executed and then committed at its height: when executing every block with
    the parallel engine keeps a node on the chain of sequential execution. */
module Chain {
  import opened Common
  import opened Staking
  import opened Ledger
  import opened History
  import opened Optimistic
  import opened Stm

  datatype ChainBlock = ChainBlock(txs: seq<SignedTx>, height: u64)

  /** The ledger after the last commit, and what every block returned. */
  datatype Chained = Chained(state: State, runs: seq<Run>)

  ghost function Execute(parallel: bool, env: Env, w: State, txs: seq<SignedTx>): Run {
    if parallel then EngineRun(env, w, txs) else RunTxs(env, w, txs)
  }

  ghost function RunChain(parallel: bool, env: Env, w: State, blocks: seq<ChainBlock>): Chained {
    if blocks == [] then Chained(w, [])
    else
      var before, last := RunChain(parallel, env, w, blocks[..|blocks| - 1]), blocks[|blocks| - 1];
      var run := Execute(parallel, env, before.state, last.txs);
      Chained(StepState(env, run.state, CommitStep(last.height)), before.runs + [run])
  }

  /** The ledger on which sequential execution finds block `i`. */
  ghost function Before(env: Env, w: State, blocks: seq<ChainBlock>, i: nat): State
    requires i < |blocks|
  {
    RunChain(false, env, w, blocks[..i]).state
  }

  /** A chain stays in step when every block finds a ledger that is not exposed, or loses no leak. */
  lemma {:induction false} ChainsAgree(env: Env, w: State, blocks: seq<ChainBlock>)
    requires forall i :: 0 <= i < |blocks| ==>
               var s := Before(env, w, blocks, i); !Overflowable(env.params, s) || NoLostLeak(env, s, blocks[i].txs)
    ensures RunChain(true, env, w, blocks) == RunChain(false, env, w, blocks)
  {
    hide EngineRun;
    hide RunTxs;
    hide Overflowable;
    hide NoLostLeak;
    if blocks != [] {
      var init, n := blocks[..|blocks| - 1], |blocks| - 1;
      forall i | 0 <= i < |init| ensures Before(env, w, init, i) == Before(env, w, blocks, i) {
        assert init[..i] == blocks[..i];
      }
      ChainsAgree(env, w, init);
      EngineAgrees(env, Before(env, w, blocks, n), blocks[n].txs);
    }
  }

  /** From a ledger, every chain stays in step exactly when no chain leads to an exposed ledger. */
  lemma ChainsAgreeIff(env: Env, w: State)
    ensures (forall blocks :: RunChain(true, env, w, blocks) == RunChain(false, env, w, blocks))
            <==> forall blocks :: !Overflowable(env.params, RunChain(false, env, w, blocks).state)
  {
    if blocks: seq<ChainBlock> :| Overflowable(env.params, RunChain(false, env, w, blocks).state) {
      ExposedChainParts(env, w, blocks);
    } else {
      forall blocks ensures RunChain(true, env, w, blocks) == RunChain(false, env, w, blocks) {
        ChainsAgree(env, w, blocks);
      }
    }
  }

  lemma ExposedChainParts(env: Env, w: State, blocks: seq<ChainBlock>)
    requires Overflowable(env.params, RunChain(false, env, w, blocks).state)
    ensures exists more: seq<ChainBlock> :: RunChain(true, env, w, more) != RunChain(false, env, w, more)
  {
    hide EngineRun;
    hide RunTxs;
    hide Overflowable;
    var now := RunChain(false, env, w, blocks);
    var txs := ExposedDiverges(env, now.state);
    var more := blocks + [ChainBlock(txs, 0)];
    assert more[..|blocks|] == blocks;
    if RunChain(true, env, w, blocks) == now {
      var a, b := RunChain(true, env, w, more), RunChain(false, env, w, more);
      assert a.runs[|now.runs|] == EngineRun(env, now.state, txs) && b.runs[|now.runs|] == RunTxs(env, now.state, txs);
    }
  }

  /** Bonds that all have operators, or a supply that fits in 128 bits. */
  ghost predicate Sound(w: State) {
    BondsOwned(w.staking) || Supply(w) <= U128_MAX
  }

  lemma {:induction false} SoundAlong(env: Env, w: State, blocks: seq<ChainBlock>)
    requires Sound(w)
    ensures Sound(RunChain(false, env, w, blocks).state)
  {
    hide RunTxs;
    if blocks != [] {
      var n := |blocks| - 1;
      SoundAlong(env, w, blocks[..n]);
      SoundBlock(env, Before(env, w, blocks, n), blocks[n]);
    }
  }

  lemma SoundBlock(env: Env, w: State, block: ChainBlock)
    requires Sound(w)
    ensures Sound(StepState(env, RunTxs(env, w, block.txs).state, CommitStep(block.height)))
  {
    hide RunTxs;
    RunIsPlay(env, w, block.txs);
    if BondsOwned(w.staking) {
      RefusalsLeaveNoTrace(env, w, AsSteps(block.txs));
    } else {
      SupplyExact(env, w, AsSteps(block.txs));
    }
  }

  /** Ordinary ledgers keep every chain in step. */
  lemma SoundChainsAgree(env: Env, w: State, blocks: seq<ChainBlock>)
    requires Sound(w)
    ensures RunChain(true, env, w, blocks) == RunChain(false, env, w, blocks)
  {
    forall i | 0 <= i < |blocks| ensures !Overflowable(env.params, Before(env, w, blocks, i)) {
      SoundAlong(env, w, blocks[..i]);
      SoundLedgersNotExposed(env.params, Before(env, w, blocks, i));
    }
    ChainsAgree(env, w, blocks);
  }
}
