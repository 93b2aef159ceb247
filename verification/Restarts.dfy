/** What agreement rests on: what a restart must keep, in any round and in round zero alone, and
    under which height a commit must be filed. Each condition is exact. */
module Restarts {
  import opened Common
  import opened Quorum
  import opened Consensus
  import opened Agreement

  /** Agreement in every run that stays within `runs`, whatever the validators and however they restart. */
  ghost predicate AgreesIn(k: Keeps, runs: seq<Action> -> bool) {
    forall vals, honest, run, s, h, r, hash, r', hash' ::
      MostlyHonest(vals, honest) && runs(run) && Reaches(k, vals, honest, run, s)
      && QuorumFor(vals, s.log, Precommit, h, r, hash) && QuorumFor(vals, s.log, Precommit, h, r', hash')
      ==> hash == hash'
  }

  predicate AnyRun(run: seq<Action>) { true }

  /** Nobody ever leaves round zero, as in the node's own loop. */
  predicate RoundZero(run: seq<Action>) {
    forall i :: 0 <= i < |run| ==> (run[i].Move? ==> run[i].round == 0) && (run[i].Restart? ==> run[i].back.round == 0)
  }

  // ------------------------------------------------------- a validator on its own

  // The counterexamples need one validator, and it is honest.

  const ALONE: Validators := map[0 := 1]

  lemma AloneIsAll(s: set<ValidatorId>)
    requires 0 in s
    ensures PowerOf(ALONE, s) == 1 && TotalOf(ALONE) == 1 && Supermajority(ALONE, s)
  {
    var none: Validators := map[];
    assert Restrict(ALONE, s) == none[0 := 1] && Restrict(ALONE, ALONE.Keys) == none[0 := 1];
    SumInsert<ValidatorId, u64>(none, 0, 1, Power);
  }

  function Pv(h: u64, r: u32, x: Hash): Vote { Vote(h, r, Prevote, Block(x), 0) }

  function Pc(h: u64, r: u32, x: Hash): Vote { Vote(h, r, Precommit, Block(x), 0) }

  lemma OnePolka(v: Vote)
    requires v.signer == 0
    ensures FirstPolka([v], ALONE, v.block)
  {
    var votes := [v];
    assert votes[..0] == [] && Weight(votes[..0], ALONE, v.block) == 0;
    assert Weight(votes, ALONE, v.block) == 1;
    AloneIsAll({0});
    assert IsPolka(votes, ALONE, v.block);
    forall b | b != v.block ensures !IsPolka(votes, ALONE, b) {
      assert Weight(votes[..0], ALONE, b) == 0;
      assert Weight(votes, ALONE, b) == 0;
    }
  }

  lemma OneQuorum(log: seq<Vote>, h: u64, r: u32, x: Hash)
    requires Pc(h, r, x) in log
    ensures QuorumFor(ALONE, log, Precommit, h, r, x)
  {
    assert 0 in Voters(log, Precommit, h, r, x);
    AloneIsAll(Voters(log, Precommit, h, r, x));
  }

  lemma OneCertified(h: u64, r: u32, x: Hash, f: Finalized)
    requires f.hash == x
    ensures Certified([Pc(h, r, x)], ALONE, f) && SignersOf([Pc(h, r, x)]) == {0}
  {
    var votes := [Pc(h, r, x)];
    assert votes[0] in votes;
    AloneIsAll(SignersOf(votes));
  }

  lemma AloneHonest()
    ensures MostlyHonest(ALONE, {0})
  {
    AloneIsAll({0});
    assert Restrict(ALONE, ALONE.Keys - {0}) == map[];
  }

  /** The lone validator's network after `log`, with node `n`. */
  ghost predicate AloneAt(k: Keeps, run: seq<Action>, log: seq<Vote>, n: Node) {
    Reaches(k, ALONE, {0}, run, Net(log, map[0 := n]))
  }

  lemma AloneStep(k: Keeps, run: seq<Action>, log: seq<Vote>, n: Node, a: Action, log': seq<Vote>, n': Node)
    requires AloneAt(k, run, log, n) && Enabled(k, ALONE, {0}, Net(log, map[0 := n]), a)
    requires (a.Faulty? || a.id == 0) && Act(ALONE, Net(log, map[0 := n]), a) == Net(log', map[0 := n'])
    ensures AloneAt(k, run + [a], log', n')
  {
    assert (run + [a])[..|run|] == run;
  }

  lemma AloneStart(k: Keeps)
    ensures AloneAt(k, [], [], Node(0, 0, None, map[]))
  {
    assert Start({0}).nodes == map[0 := Node(0, 0, None, map[])];
  }

  /** Prevote when nothing forbids it. */
  lemma AlonePrevotes(k: Keeps, run: seq<Action>, log: seq<Vote>, n: Node, x: Hash) returns (more: seq<Action>)
    requires AloneAt(k, run, log, n) && PrevoteAllowed(n.lock, n.height, Block(x), None)
    requires MayEmit(n, Pv(n.height, n.round, x))
    ensures var v := Pv(n.height, n.round, x); AloneAt(k, more, log + [v], Emitted(n, v))
    ensures RoundZero(run) ==> RoundZero(more)
  {
    var a, v := DoPrevote(0, x, None, []), Pv(n.height, n.round, x);
    more := run + [a];
    AloneStep(k, run, log, n, a, log + [v], Emitted(n, v));
  }

  /** Precommit on a prevote that was sent. */
  lemma AlonePrecommits(k: Keeps, run: seq<Action>, log: seq<Vote>, n: Node, x: Hash) returns (more: seq<Action>)
    requires AloneAt(k, run, log, n) && Pv(n.height, n.round, x) in log && MayEmit(n, Pc(n.height, n.round, x))
    ensures var v := Pc(n.height, n.round, x);
            AloneAt(k, more, log + [v], Emitted(n, v).(lock := Some(Lock(n.height, n.round, x))))
    ensures RoundZero(run) ==> RoundZero(more)
  {
    var votes, v := [Pv(n.height, n.round, x)], Pc(n.height, n.round, x);
    OnePolka(votes[0]);
    var a := DoPrecommit(0, votes, x);
    assert DistinctSigners(votes) && Collected(log, votes, Prevote, n.height, n.round);
    assert PrecommitFor(n, 0, votes, ALONE, x) == v;
    more := run + [a];
    AloneStep(k, run, log, n, a, log + [v], Emitted(n, v).(lock := Some(Lock(n.height, n.round, x))));
  }

  lemma AloneMoves(k: Keeps, run: seq<Action>, log: seq<Vote>, n: Node, h: u64, r: u32) returns (more: seq<Action>)
    requires AloneAt(k, run, log, n) && AtMost(n.height, n.round, h, r)
    ensures AloneAt(k, more, log, n.(height := h, round := r))
  {
    more := run + [Move(0, h, r)];
    AloneStep(k, run, log, n, Move(0, h, r), log, n.(height := h, round := r));
  }

  lemma AloneRestarts(k: Keeps, run: seq<Action>, log: seq<Vote>, n: Node, back: Node) returns (more: seq<Action>)
    requires AloneAt(k, run, log, n) && ComesBack(k, 0, n, back)
    ensures AloneAt(k, more, log, back)
    ensures RoundZero(run) && back.round == 0 ==> RoundZero(more)
  {
    more := run + [Restart(0, back)];
    AloneStep(k, run, log, n, Restart(0, back), log, back);
  }

  lemma SplitBreaks(
    k: Keeps, runs: seq<Action> -> bool, run: seq<Action>, log: seq<Vote>, n: Node, r: u32, x: Hash, r': u32, x': Hash)
    requires runs(run) && AloneAt(k, run, log, n) && Pc(0, r, x) in log && Pc(0, r', x') in log && x != x'
    ensures !AgreesIn(k, runs)
  {
    OneQuorum(log, 0, r, x);
    OneQuorum(log, 0, r', x');
    AloneHonest();
    var s := Net(log, map[0 := n]);
    assert Reaches(k, ALONE, {0}, run, s) && QuorumFor(ALONE, s.log, Precommit, 0, r, x)
           && QuorumFor(ALONE, s.log, Precommit, 0, r', x');
  }

  // -------------------------------------------------------- what a restart must keep

  /** Forgetting the lock: decide one block, forget, decide another in the next round. */
  lemma ForgottenLockSplits(k: Keeps)
    requires !k.lock
    ensures !AgreesIn(k, AnyRun)
  {
    hide FirstPolka;
    hide Reaches;
    AloneStart(k);
    var n0 := Node(0, 0, None, map[]);
    var run := AlonePrevotes(k, [], [], n0, 1);
    var n1 := Emitted(n0, Pv(0, 0, 1));
    run := AlonePrecommits(k, run, [] + [Pv(0, 0, 1)], n1, 1);
    var n2 := Emitted(n1, Pc(0, 0, 1)).(lock := Some(Lock(0, 0, 1)));
    var log := [] + [Pv(0, 0, 1)] + [Pc(0, 0, 1)];
    var n3 := n2.(lock := None);
    run := AloneRestarts(k, run, log, n2, n3);
    run := AloneMoves(k, run, log, n3, 0, 1);
    var n4 := n3.(height := 0, round := 1);
    run := AlonePrevotes(k, run, log, n4, 2);
    var n5 := Emitted(n4, Pv(0, 1, 2));
    run := AlonePrecommits(k, run, log + [Pv(0, 1, 2)], n5, 2);
    var n6 := Emitted(n5, Pc(0, 1, 2)).(lock := Some(Lock(0, 1, 2)));
    SplitBreaks(k, AnyRun, run, log + [Pv(0, 1, 2)] + [Pc(0, 1, 2)], n6, 0, 1, 1, 2);
  }

  /** Coming back in an earlier round: a precommit there does not ask the lock. */
  lemma LostPlaceSplits(k: Keeps)
    requires k.lock && !k.place
    ensures !AgreesIn(k, AnyRun)
  {
    hide FirstPolka;
    hide Reaches;
    AloneStart(k);
    var n0 := Node(0, 0, None, map[]);
    var run := AlonePrevotes(k, [], [], n0, 2);
    var n1 := Emitted(n0, Pv(0, 0, 2));
    var log := [] + [Pv(0, 0, 2)];
    run := AloneMoves(k, run, log, n1, 0, 1);
    var n2 := n1.(height := 0, round := 1);
    run := AlonePrevotes(k, run, log, n2, 1);
    var n3 := Emitted(n2, Pv(0, 1, 1));
    log := log + [Pv(0, 1, 1)];
    run := AlonePrecommits(k, run, log, n3, 1);
    var n4 := Emitted(n3, Pc(0, 1, 1)).(lock := Some(Lock(0, 1, 1)));
    log := log + [Pc(0, 1, 1)];
    var n5 := n4.(round := 0);
    run := AloneRestarts(k, run, log, n4, n5);
    run := AlonePrecommits(k, run, log, n5, 2);
    var n6 := Emitted(n5, Pc(0, 0, 2)).(lock := Some(Lock(0, 0, 2)));
    SplitBreaks(k, AnyRun, run, log + [Pc(0, 0, 2)], n6, 1, 1, 0, 2);
  }

  /** Forgetting the votes: the slots can be filled again, and round zero is enough for it. */
  lemma ForgottenVotesSplit(k: Keeps)
    requires !k.votes
    ensures !AgreesIn(k, AnyRun) && !AgreesIn(k, RoundZero)
  {
    hide FirstPolka;
    hide Reaches;
    hide RoundZero;
    AloneStart(k);
    assert RoundZero([]) by { RoundZeroStart(); }
    var n0 := Node(0, 0, None, map[]);
    var run := AlonePrevotes(k, [], [], n0, 2);
    var n1 := Emitted(n0, Pv(0, 0, 2));
    var log := [] + [Pv(0, 0, 2)];
    run := AloneRestarts(k, run, log, n1, n0);
    run := AlonePrevotes(k, run, log, n0, 1);
    var n2 := Emitted(n0, Pv(0, 0, 1));
    log := log + [Pv(0, 0, 1)];
    run := AlonePrecommits(k, run, log, n2, 1);
    var n3 := Emitted(n2, Pc(0, 0, 1)).(lock := Some(Lock(0, 0, 1)));
    log := log + [Pc(0, 0, 1)];
    var n4 := n3.(seen := map[], lock := if k.lock then n3.lock else None);
    run := AloneRestarts(k, run, log, n3, n4);
    run := AlonePrecommits(k, run, log, n4, 2);
    var n5 := Emitted(n4, Pc(0, 0, 2)).(lock := Some(Lock(0, 0, 2)));
    SplitBreaks(k, AnyRun, run, log + [Pc(0, 0, 2)], n5, 0, 1, 0, 2);
    SplitBreaks(k, RoundZero, run, log + [Pc(0, 0, 2)], n5, 0, 1, 0, 2);
  }

  lemma RoundZeroStart()
    ensures RoundZero([])
  {
  }

  /** Agreement holds in every run exactly when a restart keeps votes, lock and place. */
  lemma AgreesIff(k: Keeps)
    ensures AgreesIn(k, AnyRun) <==> k.votes && k.lock && k.place
  {
    if k == ALL {
      forall vals, honest, run, s, h, r, hash, r', hash' |
        MostlyHonest(vals, honest) && AnyRun(run) && Reaches(k, vals, honest, run, s)
        && QuorumFor(vals, s.log, Precommit, h, r, hash) && QuorumFor(vals, s.log, Precommit, h, r', hash')
        ensures hash == hash'
      {
        QuorumsAgree(vals, honest, run, s, h, r, hash, r', hash');
      }
    } else if !k.lock {
      ForgottenLockSplits(k);
    } else if !k.place {
      LostPlaceSplits(k);
    } else {
      ForgottenVotesSplit(k);
    }
  }

  // ---------------------------------------------------------------- round zero

  /** An honest validator stands in round zero, and remembers every vote it sent, all of round zero. */
  ghost predicate ZeroNode(log: seq<Vote>, id: ValidatorId, n: Node) {
    && n.round == 0
    && forall v :: v in log && v.signer == id ==> v.round == 0 && SlotOf(v) in n.seen && n.seen[SlotOf(v)] == v.block
  }

  ghost predicate ZeroInv(honest: set<ValidatorId>, s: Net) {
    s.nodes.Keys == honest && forall id :: id in honest ==> ZeroNode(s.log, id, s.nodes[id])
  }

  lemma ZeroStep(k: Keeps, vals: Validators, honest: set<ValidatorId>, s: Net, a: Action)
    requires k.votes && ZeroInv(honest, s) && Enabled(k, vals, honest, s, a)
    requires (a.Move? ==> a.round == 0) && (a.Restart? ==> a.back.round == 0)
    ensures ZeroInv(honest, Act(vals, s, a))
  {
    hide FirstPolka;
    var t := Act(vals, s, a);
    forall id | id in honest ensures ZeroNode(t.log, id, t.nodes[id]) {
      assert ZeroNode(s.log, id, s.nodes[id]);
    }
  }

  lemma {:induction false} ZeroReached(k: Keeps, vals: Validators, honest: set<ValidatorId>, run: seq<Action>, s: Net)
    requires k.votes && RoundZero(run) && Reaches(k, vals, honest, run, s)
    ensures ZeroInv(honest, s)
  {
    if run != [] {
      var before := run[..|run| - 1];
      ZeroReached(k, vals, honest, before, After(k, vals, honest, before).value);
      ZeroStep(k, vals, honest, After(k, vals, honest, before).value, run[|run| - 1]);
    }
  }

  /** In round zero, agreement needs neither lock nor place: it holds exactly when restarts keep the votes. */
  lemma RoundZeroAgreesIff(k: Keeps)
    ensures AgreesIn(k, RoundZero) <==> k.votes
  {
    if k.votes {
      forall vals, honest, run, s, h, r, hash, r', hash' |
        MostlyHonest(vals, honest) && RoundZero(run) && Reaches(k, vals, honest, run, s)
        && QuorumFor(vals, s.log, Precommit, h, r, hash) && QuorumFor(vals, s.log, Precommit, h, r', hash')
        ensures hash == hash'
      {
        ZeroReached(k, vals, honest, run, s);
        var id := OverlapVoter(vals, honest, s.log, Precommit, r, hash, s.log, Precommit, r', hash', h);
        assert ZeroNode(s.log, id, s.nodes[id]);
      }
    } else {
      ForgottenVotesSplit(k);
    }
  }

  // -------------------------------------------------- where a commit must be filed

  /** Two commits, certified by votes that were sent, that are filed under one height. */
  ghost predicate FiledTogether(
    checked: bool, vals: Validators, log: seq<Vote>, votes: seq<Vote>, f: Finalized, votes': seq<Vote>, f': Finalized)
  {
    && Certified(votes, vals, f) && Certified(votes', vals, f') && f.height == f'.height
    && (forall v :: v in votes || v in votes' ==> v in log)
    && (checked ==> f.height == votes[0].height && f'.height == votes'[0].height)
  }

  /** In every run, commits filed under one height are of one block. With `checked`, every commit has been
      filed under the height of its votes. */
  ghost predicate FilesAgree(checked: bool) {
    forall vals, honest, run, s, votes, f, votes', f' ::
      MostlyHonest(vals, honest) && Reaches(ALL, vals, honest, run, s)
      && FiledTogether(checked, vals, s.log, votes, f, votes', f')
      ==> f.hash == f'.hash
  }

  /** A run that sends two honest precommits at two heights. */
  lemma TwoHeights() returns (run: seq<Action>, log: seq<Vote>, n: Node)
    ensures AloneAt(ALL, run, log, n) && Pc(0, 0, 1) in log && Pc(1, 0, 2) in log
  {
    hide FirstPolka;
    hide Reaches;
    AloneStart(ALL);
    var n0 := Node(0, 0, None, map[]);
    run := AlonePrevotes(ALL, [], [], n0, 1);
    var n1 := Emitted(n0, Pv(0, 0, 1));
    log := [] + [Pv(0, 0, 1)];
    run := AlonePrecommits(ALL, run, log, n1, 1);
    var n2 := Emitted(n1, Pc(0, 0, 1)).(lock := Some(Lock(0, 0, 1)));
    log := log + [Pc(0, 0, 1)];
    run := AloneMoves(ALL, run, log, n2, 1, 0);
    var n3 := n2.(height := 1, round := 0);
    run := AlonePrevotes(ALL, run, log, n3, 2);
    var n4 := Emitted(n3, Pv(1, 0, 2));
    log := log + [Pv(1, 0, 2)];
    run := AlonePrecommits(ALL, run, log, n4, 2);
    n := Emitted(n4, Pc(1, 0, 2)).(lock := Some(Lock(1, 0, 2)));
    log := log + [Pc(1, 0, 2)];
  }

  /** Agreement on filed heights holds exactly when commits are filed under the height of their votes. */
  lemma FilesAgreeIff(checked: bool)
    ensures FilesAgree(checked) <==> checked
  {
    if checked {
      forall vals, honest, run, s, votes, f, votes', f' |
        MostlyHonest(vals, honest) && Reaches(ALL, vals, honest, run, s)
        && FiledTogether(checked, vals, s.log, votes, f, votes', f')
        ensures f.hash == f'.hash
      {
        FinalizedAgree(vals, honest, run, s, votes, f, votes', f');
      }
    } else {
      var run, log, n := TwoHeights();
      var s := Net(log, map[0 := n]);
      AloneHonest();
      var f, f' := Finalized(1, 0, 1, 0), Finalized(1, 0, 2, 0);
      OneCertified(0, 0, 1, f);
      OneCertified(1, 0, 2, f');
      assert FiledTogether(checked, ALONE, s.log, [Pc(0, 0, 1)], f, [Pc(1, 0, 2)], f');
    }
  }

  /** `commit` does not compare the heights: two nodes with fresh logs, given the precommits of that run and
      two proposals for height 1, both finalize, and they finalize different blocks at one height. */
  method TwoNodesPart() returns (f: Finalized, f': Finalized)
    ensures f.height == f'.height && f.hash != f'.hash
    ensures exists run, log, n :: AloneAt(ALL, run, log, n) && Pc(0, 0, f.hash) in log && Pc(1, 0, f'.hash) in log
  {
    hide Reaches;
    ghost var run, log, n := TwoHeights();
    f := CommitAlone([Pc(0, 0, 1)], Proposal(1, 0, 1, 0, true));
    f' := CommitAlone([Pc(1, 0, 2)], Proposal(1, 0, 2, 0, true));
    assert AloneAt(ALL, run, log, n) && Pc(0, 0, f.hash) in log && Pc(1, 0, f'.hash) in log;
  }

  /** One node, starting with an empty log, commits on one precommit of the lone validator. */
  method CommitAlone(votes: seq<Vote>, p: Proposal) returns (f: Finalized)
    requires |votes| == 1 && votes[0] == Pc(votes[0].height, votes[0].round, p.hash)
    ensures f == Finalized(p.height, p.round, p.hash, p.appHash)
  {
    hide FirstPolka;
    var node := new CommitLog();
    assert votes == [votes[0]];
    OnePolka(votes[0]);
    OneCertified(votes[0].height, votes[0].round, p.hash, Finalized(p.height, p.round, p.hash, p.appHash));
    AloneIsAll({0});
    var r := node.Commit(votes, ALONE, 1, p);
    f := r.value.value;
  }
}
