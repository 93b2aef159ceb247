/** Safety of the voting protocol: a network of validators, some of them faulty, some restarting, and
    every run of its steps. No two different blocks ever get precommit quorums at one height, if a
    restart keeps the validator's votes, its lock and its place. */
module Agreement {
  import opened Common
  import opened Quorum
  import opened Consensus

  /** All votes ever sent, in order, and the state of each honest validator. */
  datatype Net = Net(log: seq<Vote>, nodes: map<ValidatorId, Node>)

  /** What survives a restart: the bodies the validator signed, its lock, and its place, that is
      how far it had come when it last voted or locked. */
  datatype Keeps = Keeps(votes: bool, lock: bool, place: bool)

  /** A faulty validator sends anything under its own name; an honest one restarts, moves to a later
      slot, prevotes with an optional unlocking polka, or precommits on prevotes it collected. */
  datatype Action =
    | Faulty(vote: Vote)
    | Restart(id: ValidatorId, back: Node)
    | Move(id: ValidatorId, height: u64, round: u32)
    | DoPrevote(id: ValidatorId, hash: Hash, polka: Option<PolkaAt>, evidence: seq<Vote>)
    | DoPrecommit(id: ValidatorId, prevotes: seq<Vote>, hash: Hash)

  predicate AtMost(h: u64, r: u32, h': u64, r': u32) {
    h < h' || (h == h' && r <= r')
  }

  /** Votes collected from the network: each really sent, all of one slot, one per signer. */
  ghost predicate Collected(log: seq<Vote>, votes: seq<Vote>, kind: VoteKind, h: u64, r: u32) {
    && DistinctSigners(votes)
    && forall v :: v in votes ==> v in log && v.kind == kind && v.height == h && v.round == r
  }

  /** A validator `n` comes back as `back`. The volatile replay log is gone; what the signing log
      holds of the validator's own votes, and possibly more, is what it starts from. */
  ghost predicate ComesBack(k: Keeps, id: ValidatorId, n: Node, back: Node) {
    && (k.votes ==> forall t :: t in n.seen && t.signer == id ==> t in back.seen && back.seen[t] == n.seen[t])
    && back.lock == (if k.lock then n.lock else None)
    && (k.place ==> forall t :: t in n.seen && t.signer == id ==> AtMost(t.height, t.round, back.height, back.round))
    && (k.place && n.lock.Some? ==> AtMost(n.lock.value.height, n.lock.value.round, back.height, back.round))
  }

  ghost predicate Enabled(k: Keeps, vals: Validators, honest: set<ValidatorId>, s: Net, a: Action) {
    match a
    case Faulty(v) => v.signer !in honest
    case Restart(id, back) => id in s.nodes && ComesBack(k, id, s.nodes[id], back)
    case Move(id, h, r) => id in s.nodes && AtMost(s.nodes[id].height, s.nodes[id].round, h, r)
    case DoPrevote(id, hash, polka, evidence) =>
      && id in s.nodes
      && (polka.Some? ==> Collected(s.log, evidence, Prevote, s.nodes[id].height, polka.value.round)
                          && IsPolka(evidence, vals, Block(polka.value.hash)))
      && MayEmit(s.nodes[id], PrevoteFor(s.nodes[id], id, hash, polka))
    case DoPrecommit(id, prevotes, hash) =>
      && id in s.nodes
      && Collected(s.log, prevotes, Prevote, s.nodes[id].height, s.nodes[id].round)
      && MayEmit(s.nodes[id], PrecommitFor(s.nodes[id], id, prevotes, vals, hash))
  }

  ghost function Act(vals: Validators, s: Net, a: Action): Net
    requires a.Faulty? || a.id in s.nodes
  {
    match a
    case Faulty(v) => s.(log := s.log + [v])
    case Restart(id, back) => s.(nodes := s.nodes[id := back])
    case Move(id, h, r) => s.(nodes := s.nodes[id := s.nodes[id].(height := h, round := r)])
    case DoPrevote(id, hash, polka, _) =>
      var n := s.nodes[id];
      var v := PrevoteFor(n, id, hash, polka);
      Net(s.log + [v], s.nodes[id := Emitted(n, v)])
    case DoPrecommit(id, prevotes, hash) =>
      var n := s.nodes[id];
      var v := PrecommitFor(n, id, prevotes, vals, hash);
      Net(s.log + [v], s.nodes[id := Emitted(n, v).(lock := Relocked(n, v))])
  }

  ghost function Start(honest: set<ValidatorId>): Net {
    Net([], map id | id in honest :: Node(0, 0, None, map[]))
  }

  /** The state after a run, if every action of the run was enabled when it was taken. */
  ghost function After(k: Keeps, vals: Validators, honest: set<ValidatorId>, run: seq<Action>): Option<Net> {
    if run == [] then Some(Start(honest))
    else
      var p, a := After(k, vals, honest, run[..|run| - 1]), run[|run| - 1];
      if p.Some? && Enabled(k, vals, honest, p.value, a) then Some(Act(vals, p.value, a)) else None
  }

  ghost predicate Reaches(k: Keeps, vals: Validators, honest: set<ValidatorId>, run: seq<Action>, s: Net) {
    After(k, vals, honest, run) == Some(s)
  }

  const ALL: Keeps := Keeps(true, true, true)

  // ----------------------------------------------------------------- quorums

  ghost function Voters(log: seq<Vote>, kind: VoteKind, h: u64, r: u32, hash: Hash): set<ValidatorId> {
    set v | v in log && v.kind == kind && v.height == h && v.round == r && v.block == Block(hash) :: v.signer
  }

  /** A supermajority sent this vote. */
  ghost predicate QuorumFor(vals: Validators, log: seq<Vote>, kind: VoteKind, h: u64, r: u32, hash: Hash) {
    Supermajority(vals, Voters(log, kind, h, r, hash))
  }

  lemma QuorumGrows(vals: Validators, log: seq<Vote>, more: seq<Vote>, kind: VoteKind, h: u64, r: u32, hash: Hash)
    requires QuorumFor(vals, log, kind, h, r, hash)
    requires forall v :: v in log ==> v in more
    ensures QuorumFor(vals, more, kind, h, r, hash)
  {
    PowerOfMonotone(vals, Voters(log, kind, h, r, hash), Voters(more, kind, h, r, hash));
  }

  lemma CollectedQuorum(vals: Validators, log: seq<Vote>, votes: seq<Vote>, kind: VoteKind, h: u64, r: u32, hash: Hash)
    requires Collected(log, votes, kind, h, r) && IsPolka(votes, vals, Block(hash))
    ensures QuorumFor(vals, log, kind, h, r, hash)
  {
    PolkaIsSupermajority(votes, vals, Block(hash));
    PowerOfMonotone(vals, Signers(votes, Block(hash)), Voters(log, kind, h, r, hash));
  }

  // --------------------------------------------------------------- invariant

  /** An honest precommit for a block rests on a polka of its round sent before it. */
  ghost predicate PrecommitBacked(vals: Validators, honest: set<ValidatorId>, log: seq<Vote>, i: nat)
    requires i < |log|
  {
    var v := log[i];
    v.signer in honest && v.kind == Precommit && v.block.Block?
    ==> QuorumFor(vals, log[..i], Prevote, v.height, v.round, v.block.hash)
  }

  /** An honest prevote against an earlier precommit of the same validator rests on a polka for
      the new block, of a round after that precommit, sent before it. */
  ghost predicate SwitchBacked(vals: Validators, honest: set<ValidatorId>, log: seq<Vote>, j: nat, i: nat)
    requires j < i < |log|
  {
    var c, v := log[j], log[i];
    v.signer in honest && c.signer == v.signer && c.height == v.height
    && c.kind == Precommit && c.block.Block? && v.kind == Prevote && v.block.Block?
    && c.round < v.round && c.block != v.block
    ==> exists pr: u32 :: c.round < pr && QuorumFor(vals, log[..i], Prevote, v.height, pr, v.block.hash)
  }

  /** The validator remembers its vote and has not gone back before it. */
  ghost predicate Remembered(n: Node, v: Vote) {
    && SlotOf(v) in n.seen && n.seen[SlotOf(v)] == v.block
    && AtMost(v.height, v.round, n.height, n.round)
  }

  /** The lock is at least as late as every precommit of the validator for a block, and says the same
      if it is of the same slot. */
  ghost predicate Held(n: Node, v: Vote) {
    v.kind == Precommit && v.block.Block?
    ==> n.lock.Some? && AtMost(v.height, v.round, n.lock.value.height, n.lock.value.round)
        && (n.lock.value.height == v.height && n.lock.value.round == v.round ==> n.lock.value.hash == v.block.hash)
  }

  ghost predicate LockBacked(vals: Validators, log: seq<Vote>, n: Node) {
    n.lock.Some? ==>
      && AtMost(n.lock.value.height, n.lock.value.round, n.height, n.round)
      && QuorumFor(vals, log, Prevote, n.lock.value.height, n.lock.value.round, n.lock.value.hash)
  }

  ghost predicate History(vals: Validators, honest: set<ValidatorId>, log: seq<Vote>) {
    && (forall i :: 0 <= i < |log| ==> PrecommitBacked(vals, honest, log, i))
    && (forall j, i :: 0 <= j < i < |log| ==> SwitchBacked(vals, honest, log, j, i))
    && (forall j, i :: 0 <= j < i < |log| && log[i].signer in honest && log[j].signer == log[i].signer
                       ==> AtMost(log[j].height, log[j].round, log[i].height, log[i].round))
  }

  ghost predicate NodeOk(vals: Validators, log: seq<Vote>, id: ValidatorId, n: Node) {
    && (forall v :: v in log && v.signer == id ==> Remembered(n, v) && Held(n, v))
    && LockBacked(vals, log, n)
  }

  ghost predicate Inv(vals: Validators, honest: set<ValidatorId>, s: Net) {
    && s.nodes.Keys == honest
    && History(vals, honest, s.log)
    && forall id :: id in honest ==> NodeOk(vals, s.log, id, s.nodes[id])
  }

  // ------------------------------------------------------ one step at a time

  /** Sending one more vote keeps the history in order if the new vote itself is. */
  lemma HistoryGrows(vals: Validators, honest: set<ValidatorId>, log: seq<Vote>, v: Vote)
    requires History(vals, honest, log)
    requires PrecommitBacked(vals, honest, log + [v], |log|)
    requires forall j :: 0 <= j < |log| ==> SwitchBacked(vals, honest, log + [v], j, |log|)
    requires v.signer in honest ==>
               forall c :: c in log && c.signer == v.signer ==> AtMost(c.height, c.round, v.height, v.round)
    ensures History(vals, honest, log + [v])
  {
    var more := log + [v];
    forall i | 0 <= i < |more| ensures PrecommitBacked(vals, honest, more, i) {
      if i < |log| {
        assert more[..i] == log[..i];
        assert PrecommitBacked(vals, honest, log, i);
      }
    }
    forall j, i | 0 <= j < i < |more| ensures SwitchBacked(vals, honest, more, j, i) {
      if i < |log| {
        assert more[..i] == log[..i];
        assert SwitchBacked(vals, honest, log, j, i);
      }
    }
  }

  /** A validator that did not act stays in order when others send. */
  lemma NodeOkGrows(vals: Validators, log: seq<Vote>, v: Vote, id: ValidatorId, n: Node)
    requires NodeOk(vals, log, id, n) && v.signer != id
    ensures NodeOk(vals, log + [v], id, n)
  {
    if n.lock.Some? {
      QuorumGrows(vals, log, log + [v], Prevote, n.lock.value.height, n.lock.value.round, n.lock.value.hash);
    }
  }

  lemma FaultyKeeps(vals: Validators, honest: set<ValidatorId>, s: Net, v: Vote)
    requires Inv(vals, honest, s) && v.signer !in honest
    ensures Inv(vals, honest, s.(log := s.log + [v]))
  {
    HistoryGrows(vals, honest, s.log, v);
    forall id | id in honest ensures NodeOk(vals, s.log + [v], id, s.nodes[id]) {
      NodeOkGrows(vals, s.log, v, id, s.nodes[id]);
    }
  }

  lemma MoveKeeps(vals: Validators, honest: set<ValidatorId>, s: Net, id: ValidatorId, h: u64, r: u32)
    requires Inv(vals, honest, s) && Enabled(ALL, vals, honest, s, Move(id, h, r))
    ensures Inv(vals, honest, Act(vals, s, Move(id, h, r)))
  {
    var n := s.nodes[id];
    var n' := n.(height := h, round := r);
    assert NodeOk(vals, s.log, id, n);
    forall v | v in s.log && v.signer == id ensures Remembered(n', v) && Held(n', v) {
      assert Remembered(n, v) && Held(n, v);
    }
    assert NodeOk(vals, s.log, id, n');
  }

  /** A restart that keeps votes, lock and place keeps the invariant. */
  lemma RestartKeeps(vals: Validators, honest: set<ValidatorId>, s: Net, id: ValidatorId, back: Node)
    requires Inv(vals, honest, s) && Enabled(ALL, vals, honest, s, Restart(id, back))
    ensures Inv(vals, honest, Act(vals, s, Restart(id, back)))
  {
    var n := s.nodes[id];
    assert NodeOk(vals, s.log, id, n);
    forall v | v in s.log && v.signer == id ensures Remembered(back, v) && Held(back, v) {
      assert Remembered(n, v) && Held(n, v);
    }
    assert NodeOk(vals, s.log, id, back);
  }

  /** The heart of the lock rule: a prevote that `PrevoteAllowed` lets through. */
  lemma SwitchIsBacked(
    vals: Validators, honest: set<ValidatorId>, s: Net, id: ValidatorId, hash: Hash, polka: Option<PolkaAt>,
    evidence: seq<Vote>,
    j: nat)
    requires Inv(vals, honest, s) && Enabled(ALL, vals, honest, s, DoPrevote(id, hash, polka, evidence))
    requires j < |s.log|
    ensures SwitchBacked(vals, honest, s.log + [PrevoteFor(s.nodes[id], id, hash, polka)], j, |s.log|)
  {
    var n := s.nodes[id];
    var v, c := PrevoteFor(n, id, hash, polka), s.log[j];
    var more := s.log + [v];
    assert more[..|s.log|] == s.log && more[j] == c && more[|s.log|] == v;
    assert NodeOk(vals, s.log, id, n);
    if c.signer == id && c.height == v.height && c.kind == Precommit && c.block.Block? && v.block.Block?
       && c.round < v.round && c.block != v.block
    {
      assert c in s.log && Held(n, c);
      var l := n.lock.value;
      if l.hash == hash {
        assert c.round < l.round && QuorumFor(vals, s.log, Prevote, v.height, l.round, hash);
      } else {
        CollectedQuorum(vals, s.log, evidence, Prevote, v.height, polka.value.round, hash);
        assert c.round < polka.value.round;
      }
    }
  }

  lemma PrevoteKeeps(
    vals: Validators, honest: set<ValidatorId>, s: Net, id: ValidatorId, hash: Hash, polka: Option<PolkaAt>,
    evidence: seq<Vote>)
    requires Inv(vals, honest, s) && Enabled(ALL, vals, honest, s, DoPrevote(id, hash, polka, evidence))
    ensures Inv(vals, honest, Act(vals, s, DoPrevote(id, hash, polka, evidence)))
  {
    var n := s.nodes[id];
    var v := PrevoteFor(n, id, hash, polka);
    assert NodeOk(vals, s.log, id, n);
    forall j | 0 <= j < |s.log| ensures SwitchBacked(vals, honest, s.log + [v], j, |s.log|) {
      SwitchIsBacked(vals, honest, s, id, hash, polka, evidence, j);
    }
    forall c | c in s.log && c.signer == v.signer ensures AtMost(c.height, c.round, v.height, v.round) {
      assert Remembered(n, c);
    }
    HistoryGrows(vals, honest, s.log, v);
    PrevoteHolds(vals, s.log, id, n, v);
    OthersKeep(vals, honest, s, v);
  }

  lemma PrevoteHolds(vals: Validators, log: seq<Vote>, id: ValidatorId, n: Node, v: Vote)
    requires NodeOk(vals, log, id, n)
    requires MayEmit(n, v) && v.signer == id && v.height == n.height && v.round == n.round && v.kind == Prevote
    ensures NodeOk(vals, log + [v], id, Emitted(n, v))
  {
    var n' := Emitted(n, v);
    OwnVoteRemembered(vals, log, id, n, v);
    forall c | c in log + [v] && c.signer == id ensures Remembered(n', c) && Held(n', c) {
      assert Remembered(n', c);
      if c in log {
        assert Held(n, c);
      }
    }
    if n.lock.Some? {
      QuorumGrows(vals, log, log + [v], Prevote, n.lock.value.height, n.lock.value.round, n.lock.value.hash);
    }
  }

  /** Earlier votes stay remembered when an accepted one is added. */
  lemma OwnVoteRemembered(vals: Validators, log: seq<Vote>, id: ValidatorId, n: Node, v: Vote)
    requires forall c :: c in log && c.signer == id ==> Remembered(n, c)
    requires MayEmit(n, v) && v.signer == id && v.height == n.height && v.round == n.round
    ensures forall c :: c in log + [v] && c.signer == id ==> Remembered(Emitted(n, v), c)
  {
    forall c | c in log + [v] && c.signer == id ensures Remembered(Emitted(n, v), c) {
      if c in log {
        assert Remembered(n, c);
      }
    }
  }

  lemma OthersKeep(vals: Validators, honest: set<ValidatorId>, s: Net, v: Vote)
    requires Inv(vals, honest, s)
    ensures forall id :: id in honest && id != v.signer ==> NodeOk(vals, s.log + [v], id, s.nodes[id])
  {
    forall id | id in honest && id != v.signer ensures NodeOk(vals, s.log + [v], id, s.nodes[id]) {
      NodeOkGrows(vals, s.log, v, id, s.nodes[id]);
    }
  }

  lemma PrecommitKeeps(
    vals: Validators, honest: set<ValidatorId>, s: Net, id: ValidatorId, prevotes: seq<Vote>, hash: Hash)
    requires Inv(vals, honest, s) && Enabled(ALL, vals, honest, s, DoPrecommit(id, prevotes, hash))
    ensures Inv(vals, honest, Act(vals, s, DoPrecommit(id, prevotes, hash)))
  {
    var n := s.nodes[id];
    var v := PrecommitFor(n, id, prevotes, vals, hash);
    var more := s.log + [v];
    assert NodeOk(vals, s.log, id, n);
    if v.block.Block? {
      CollectedQuorum(vals, s.log, prevotes, Prevote, n.height, n.round, hash);
      QuorumGrows(vals, s.log, more, Prevote, n.height, n.round, hash);
    }
    assert more[..|s.log|] == s.log;
    forall c | c in s.log && c.signer == v.signer ensures AtMost(c.height, c.round, v.height, v.round) {
      assert Remembered(n, c);
    }
    HistoryGrows(vals, honest, s.log, v);
    OwnVoteRemembered(vals, s.log, id, n, v);
    RelockHolds(vals, s.log, id, n, v);
    OthersKeep(vals, honest, s, v);
  }

  /** The lock left by a precommit covers every precommit of the height so far. */
  lemma RelockHolds(vals: Validators, log: seq<Vote>, id: ValidatorId, n: Node, v: Vote)
    requires NodeOk(vals, log, id, n)
    requires MayEmit(n, v) && v.signer == id && v.height == n.height && v.round == n.round && v.kind == Precommit
    requires v.block.Block? ==> QuorumFor(vals, log + [v], Prevote, v.height, v.round, v.block.hash)
    ensures NodeOk(vals, log + [v], id, Emitted(n, v).(lock := Relocked(n, v)))
  {
    var n' := Emitted(n, v).(lock := Relocked(n, v));
    OwnVoteRemembered(vals, log, id, n, v);
    forall c | c in log + [v] && c.signer == id ensures Remembered(n', c) && Held(n', c) {
      assert Remembered(Emitted(n, v), c);
      if c in log {
        assert Held(n, c) && Remembered(n, c);
      }
    }
    if v.block.Nil? && n.lock.Some? {
      QuorumGrows(vals, log, log + [v], Prevote, n.lock.value.height, n.lock.value.round, n.lock.value.hash);
    }
  }

  lemma StartOk(vals: Validators, honest: set<ValidatorId>)
    ensures Inv(vals, honest, Start(honest))
  {
  }

  lemma {:induction false} ReachableInv(vals: Validators, honest: set<ValidatorId>, run: seq<Action>, s: Net)
    requires Reaches(ALL, vals, honest, run, s)
    ensures Inv(vals, honest, s)
  {
    if run == [] {
      StartOk(vals, honest);
    } else {
      var a := run[|run| - 1];
      var p := After(ALL, vals, honest, run[..|run| - 1]).value;
      ReachableInv(vals, honest, run[..|run| - 1], p);
      match a {
        case Faulty(v) => FaultyKeeps(vals, honest, p, v);
        case Restart(id, back) => RestartKeeps(vals, honest, p, id, back);
        case Move(id, h, r) => MoveKeeps(vals, honest, p, id, h, r);
        case DoPrevote(id, hash, polka, evidence) => PrevoteKeeps(vals, honest, p, id, hash, polka, evidence);
        case DoPrecommit(id, prevotes, hash) => PrecommitKeeps(vals, honest, p, id, prevotes, hash);
      }
    }
  }

  // --------------------------------------------------------------- agreement

  ghost predicate MostlyHonest(vals: Validators, honest: set<ValidatorId>) {
    3 * PowerOf(vals, vals.Keys - honest) <= TotalOf(vals)
  }

  /** After a block got a precommit quorum, no other block gets a polka in a later round of the
      height: by induction on how much has been sent. */
  lemma {:induction false} LaterPolkasAgree(
    vals: Validators, honest: set<ValidatorId>, s: Net, h: u64, r: u32, hash: Hash, n: nat, r': u32, hash': Hash)
    requires Inv(vals, honest, s) && MostlyHonest(vals, honest)
    requires QuorumFor(vals, s.log, Precommit, h, r, hash)
    requires n <= |s.log| && r < r' && QuorumFor(vals, s.log[..n], Prevote, h, r', hash')
    ensures hash == hash'
    decreases n
  {
    hide NodeOk;
    hide MostlyHonest;
    hide QuorumFor;
    hide PrecommitBacked;
    var id := OverlapVoter(vals, honest, s.log, Precommit, r, hash, s.log[..n], Prevote, r', hash', h);
    var j := IndexOf(s.log, Vote(h, r, Precommit, Block(hash), id));
    var i := IndexOf(s.log[..n], Vote(h, r', Prevote, Block(hash'), id));
    assert s.log[i] == Vote(h, r', Prevote, Block(hash'), id);
    assert j < i;
    assert SwitchBacked(vals, honest, s.log, j, i);
    if hash != hash' {
      var pr: u32 :| r < pr && QuorumFor(vals, s.log[..i], Prevote, h, pr, hash');
      LaterPolkasAgree(vals, honest, s, h, r, hash, i, pr, hash');
    }
  }

  lemma IndexOf(log: seq<Vote>, v: Vote) returns (i: nat)
    requires v in log
    ensures i < |log| && log[i] == v
  {
    i :| 0 <= i < |log| && log[i] == v;
  }

  /** Two quorums share an honest validator that sent both votes. */
  lemma OverlapVoter(
    vals: Validators, honest: set<ValidatorId>,
    log: seq<Vote>, kind: VoteKind, r: u32, hash: Hash, log': seq<Vote>, kind': VoteKind, r': u32, hash': Hash, h: u64)
    returns (id: ValidatorId)
    requires MostlyHonest(vals, honest)
    requires QuorumFor(vals, log, kind, h, r, hash) && QuorumFor(vals, log', kind', h, r', hash')
    ensures id in honest
    ensures Vote(h, r, kind, Block(hash), id) in log && Vote(h, r', kind', Block(hash'), id) in log'
  {
    HonestOverlap(vals, Voters(log, kind, h, r, hash), Voters(log', kind', h, r', hash'), honest);
    id :| id in Voters(log, kind, h, r, hash) && id in Voters(log', kind', h, r', hash') && id in honest;
    var v :| v in log && v.kind == kind && v.height == h && v.round == r && v.block == Block(hash) && v.signer == id;
    var v' :| v' in log' && v'.kind == kind' && v'.height == h && v'.round == r' && v'.block == Block(hash')
        && v'.signer == id;
    assert v == Vote(h, r, kind, Block(hash), id) && v' == Vote(h, r', kind', Block(hash'), id);
  }

  lemma AgreementOrdered(
    vals: Validators, honest: set<ValidatorId>, s: Net, h: u64, r: u32, hash: Hash, r': u32, hash': Hash)
    requires Inv(vals, honest, s) && MostlyHonest(vals, honest)
    requires QuorumFor(vals, s.log, Precommit, h, r, hash) && QuorumFor(vals, s.log, Precommit, h, r', hash')
    requires r <= r'
    ensures hash == hash'
  {
    var id := OverlapVoter(vals, honest, s.log, Precommit, r, hash, s.log, Precommit, r', hash', h);
    var v, v' := Vote(h, r, Precommit, Block(hash), id), Vote(h, r', Precommit, Block(hash'), id);
    if r == r' {
      assert Remembered(s.nodes[id], v) && Remembered(s.nodes[id], v');
    } else {
      var i := IndexOf(s.log, v');
      assert PrecommitBacked(vals, honest, s.log, i);
      LaterPolkasAgree(vals, honest, s, h, r, hash, i, r', hash');
    }
  }

  /** Agreement: in every reachable state, two precommit quorums at one height, of whatever
      rounds, are for the same block. */
  lemma QuorumsAgree(
    vals: Validators, honest: set<ValidatorId>, run: seq<Action>, s: Net, h: u64, r: u32, hash: Hash, r': u32,
    hash': Hash)
    requires MostlyHonest(vals, honest) && Reaches(ALL, vals, honest, run, s)
    requires QuorumFor(vals, s.log, Precommit, h, r, hash) && QuorumFor(vals, s.log, Precommit, h, r', hash')
    ensures hash == hash'
  {
    ReachableInv(vals, honest, run, s);
    if r <= r' {
      AgreementOrdered(vals, honest, s, h, r, hash, r', hash');
    } else {
      AgreementOrdered(vals, honest, s, h, r', hash', r, hash);
    }
  }

  /** So two nodes that finalize from votes of one height, all really sent, finalize the same block. */
  lemma CommitsAgree(
    vals: Validators, honest: set<ValidatorId>, run: seq<Action>, s: Net,
    votes: seq<Vote>, f: Finalized, votes': seq<Vote>, f': Finalized)
    requires MostlyHonest(vals, honest) && Reaches(ALL, vals, honest, run, s)
    requires Certified(votes, vals, f) && Certified(votes', vals, f')
    requires forall v :: v in votes || v in votes' ==> v in s.log
    requires votes[0].height == votes'[0].height
    ensures f.hash == f'.hash
  {
    CertifiedQuorum(vals, s.log, votes, f);
    CertifiedQuorum(vals, s.log, votes', f');
    QuorumsAgree(vals, honest, run, s, votes[0].height, votes[0].round, f.hash, votes'[0].round, f'.hash);
  }

  /** Agreement on finalized heights, for commits filed under the height of their votes. */
  lemma FinalizedAgree(
    vals: Validators, honest: set<ValidatorId>, run: seq<Action>, s: Net,
    votes: seq<Vote>, f: Finalized, votes': seq<Vote>, f': Finalized)
    requires MostlyHonest(vals, honest) && Reaches(ALL, vals, honest, run, s)
    requires Certified(votes, vals, f) && Certified(votes', vals, f')
    requires forall v :: v in votes || v in votes' ==> v in s.log
    requires f.height == votes[0].height && f'.height == votes'[0].height
    ensures f.height == f'.height ==> f.hash == f'.hash
  {
    if f.height == f'.height {
      CommitsAgree(vals, honest, run, s, votes, f, votes', f');
    }
  }

  lemma CertifiedQuorum(vals: Validators, log: seq<Vote>, votes: seq<Vote>, f: Finalized)
    requires Certified(votes, vals, f)
    requires forall v :: v in votes ==> v in log
    ensures QuorumFor(vals, log, Precommit, votes[0].height, votes[0].round, f.hash)
  {
    PowerOfMonotone(vals, SignersOf(votes), Voters(log, Precommit, votes[0].height, votes[0].round, f.hash));
  }

  // ------------------------------------------------------------- a lock opens

  /** One vote of every voter. */
  lemma {:induction false} CollectVotes(
    log: seq<Vote>, kind: VoteKind, h: u64, r: u32, hash: Hash, voters: set<ValidatorId>)
    returns (votes: seq<Vote>)
    requires voters <= Voters(log, kind, h, r, hash)
    ensures Collected(log, votes, kind, h, r) && Signers(votes, Block(hash)) == voters
    ensures forall v :: v in votes ==> v.signer in voters
  {
    votes := [];
    if voters != {} {
      var id :| id in voters;
      var before := CollectVotes(log, kind, h, r, hash, voters - {id});
      var v := Vote(h, r, kind, Block(hash), id);
      votes := before + [v];
      assert v in log;
      assert Signers(votes, Block(hash)) == Signers(before, Block(hash)) + {id};
    }
  }

  /** The node's arithmetic can count the validators at all. */
  ghost predicate Countable(vals: Validators) {
    2 * TotalOf(vals) < U64_MAX
  }

  lemma QuorumIsShown(vals: Validators, log: seq<Vote>, h: u64, r: u32, hash: Hash) returns (evidence: seq<Vote>)
    requires QuorumFor(vals, log, Prevote, h, r, hash) && Countable(vals)
    ensures Collected(log, evidence, Prevote, h, r) && IsPolka(evidence, vals, Block(hash))
  {
    var voters := Voters(log, Prevote, h, r, hash);
    evidence := CollectVotes(log, Prevote, h, r, hash, voters);
    WeightIsPower(evidence, vals, Block(hash));
    PowerOfMonotone(vals, voters, vals.Keys);
    PowerWithin(vals, voters);
    HasQuorumIff(PowerOf(vals, voters), TotalOf(vals));
  }

  lemma PowerWithin(vals: Validators, s: set<ValidatorId>)
    ensures PowerOf(vals, s) <= TotalOf(vals)
  {
    assert Restrict(vals, s) == Restrict(vals, s * vals.Keys);
    PowerOfMonotone(vals, s * vals.Keys, vals.Keys);
  }

  /** Some way for `id` to prevote `hash` now. */
  ghost predicate MayPrevote(vals: Validators, honest: set<ValidatorId>, s: Net, id: ValidatorId, hash: Hash)
    requires id in s.nodes
  {
    exists polka, evidence ::
      && Enabled(ALL, vals, honest, s, DoPrevote(id, hash, polka, evidence))
      && PrevoteFor(s.nodes[id], id, hash, polka).block == Block(hash)
  }

  /** A validator that is locked on another block of this height may prevote `hash` exactly when a polka of a
      later round for `hash` has been sent, in any state of the network. */
  lemma LockOpensIff(vals: Validators, honest: set<ValidatorId>, s: Net, id: ValidatorId, hash: Hash)
    requires id in s.nodes && Countable(vals)
    requires var n := s.nodes[id]; n.lock.Some? && n.lock.value.height == n.height && n.lock.value.hash != hash
    ensures var n := s.nodes[id];
            MayPrevote(vals, honest, s, id, hash)
            <==> && MayEmit(n, Vote(n.height, n.round, Prevote, Block(hash), id))
                 && exists r: u32 :: r > n.lock.value.round && QuorumFor(vals, s.log, Prevote, n.height, r, hash)
  {
    hide QuorumFor;
    hide IsPolka;
    hide Collected;
    hide MayEmit;
    var n := s.nodes[id];
    if MayPrevote(vals, honest, s, id, hash) {
      var polka, evidence :|
        && Enabled(ALL, vals, honest, s, DoPrevote(id, hash, polka, evidence))
        && PrevoteFor(n, id, hash, polka).block == Block(hash);
      CollectedQuorum(vals, s.log, evidence, Prevote, n.height, polka.value.round, hash);
    }
    if MayEmit(n, Vote(n.height, n.round, Prevote, Block(hash), id)) {
      forall r: u32 | r > n.lock.value.round && QuorumFor(vals, s.log, Prevote, n.height, r, hash)
        ensures MayPrevote(vals, honest, s, id, hash)
      {
        var evidence := QuorumIsShown(vals, s.log, n.height, r, hash);
        var polka := Some(PolkaAt(r, hash));
        assert PrevoteFor(n, id, hash, polka) == Vote(n.height, n.round, Prevote, Block(hash), id);
        assert Enabled(ALL, vals, honest, s, DoPrevote(id, hash, polka, evidence));
      }
    }
  }

  /** A validator that is not locked, or locked on this very block or at another height, needs no polka. */
  lemma NoLockNoPolka(vals: Validators, honest: set<ValidatorId>, s: Net, id: ValidatorId, hash: Hash)
    requires id in s.nodes
    requires var n := s.nodes[id]; n.lock == None || n.lock.value.height != n.height || n.lock.value.hash == hash
    ensures var n := s.nodes[id];
            MayPrevote(vals, honest, s, id, hash) <==> MayEmit(n, Vote(n.height, n.round, Prevote, Block(hash), id))
  {
    hide MayEmit;
    var n := s.nodes[id];
    assert PrevoteFor(n, id, hash, None) == Vote(n.height, n.round, Prevote, Block(hash), id);
    if MayEmit(n, Vote(n.height, n.round, Prevote, Block(hash), id)) {
      assert Enabled(ALL, vals, honest, s, DoPrevote(id, hash, None, []));
    }
  }
}
