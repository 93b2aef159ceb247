/** The step functions of one validator: lock, prevote, precommit, certificate and commit
    (`crates/consensus/src/{state,steps,qc,safety,vote}.rs`, `crates/node/src/wire.rs`). */
module Consensus {
  import opened Common
  import opened Quorum

  // -------------------------------------------------------------------- lock

  datatype Lock = Lock(height: u64, round: u32, hash: Hash)

  /** A round and the hash that had a polka in it. */
  datatype PolkaAt = PolkaAt(round: u32, hash: Hash)

  predicate PrevoteAllowed(lock: Option<Lock>, height: u64, candidate: VoteBlock, polka: Option<PolkaAt>) {
    || lock == None
    || lock.value.height != height
    || candidate == Nil
    || candidate.hash == lock.value.hash
    || (polka.Some? && polka.value.round > lock.value.round && polka.value.hash == candidate.hash)
  }

  // -------------------------------------------------------- one vote per slot

  datatype Slot = Slot(height: u64, round: u32, kind: VoteKind, signer: ValidatorId)

  function SlotOf(v: Vote): Slot {
    Slot(v.height, v.round, v.kind, v.signer)
  }

  /** `VoteReplayLog`: the first body seen for each slot. */
  class VoteReplayLog {
    var seen: map<Slot, VoteBlock>

    constructor ()
      ensures seen == map[]
    {
      seen := map[];
    }

    method Observe(v: Vote) returns (ok: bool)
      modifies this
      ensures ok <==> SlotOf(v) !in old(seen) || old(seen)[SlotOf(v)] == v.block
      ensures seen == if ok then old(seen)[SlotOf(v) := v.block] else old(seen)
    {
      if SlotOf(v) in seen {
        ok := seen[SlotOf(v)] == v.block;
        assert ok ==> seen == seen[SlotOf(v) := v.block];
        return;
      }
      seen := seen[SlotOf(v) := v.block];
      ok := true;
    }
  }

  /** The consensus write-ahead log: the body is durable before the vote is signed, so no restart
      can make a validator sign a second, different body for a slot. */
  class SigningLog {
    var logged: map<Slot, VoteBlock>
    ghost var signed: set<Vote>

    ghost predicate Valid()
      reads this
    {
      forall v :: v in signed ==> SlotOf(v) in logged && logged[SlotOf(v)] == v.block
    }

    constructor ()
      ensures Valid() && logged == map[] && signed == {}
    {
      logged, signed := map[], {};
    }

    /** `sign_vote_logged` on a machine that dies before the log write, before signing, or not at all. */
    method SignVoteLogged(v: Vote, alive: nat) returns (out: Option<Vote>)
      requires Valid()
      modifies this
      ensures Valid()
      ensures var allowed := SlotOf(v) !in old(logged) || old(logged)[SlotOf(v)] == v.block;
              out == if alive >= 2 && allowed then Some(v) else None
      ensures signed == if out.Some? then old(signed) + {v} else old(signed)
      ensures forall s :: s in old(logged) ==> s in logged && logged[s] == old(logged)[s]
      ensures forall u, w :: u in signed && w in signed && SlotOf(u) == SlotOf(w) ==> u == w
    {
      if SlotOf(v) in logged && logged[SlotOf(v)] != v.block {
        return None;
      }
      if alive == 0 {
        return None;
      }
      logged := logged[SlotOf(v) := v.block];
      if alive == 1 {
        return None;
      }
      signed := signed + {v};
      out := Some(v);
    }
  }

  // --------------------------------------------------------- validator steps

  /** A validator as seen by the protocol. */
  datatype Node = Node(height: u64, round: u32, lock: Option<Lock>, seen: map<Slot, VoteBlock>)

  datatype Proposal = Proposal(height: u64, round: u32, hash: Hash, appHash: Hash, leaderOk: bool)

  /** A vote leaves the node only if the replay log takes it. */
  predicate MayEmit(n: Node, v: Vote) {
    SlotOf(v) !in n.seen || n.seen[SlotOf(v)] == v.block
  }

  function Emitted(n: Node, v: Vote): Node {
    n.(seen := n.seen[SlotOf(v) := v.block])
  }

  function PrevoteFor(n: Node, id: ValidatorId, candidate: Hash, polka: Option<PolkaAt>): Vote {
    var b := if PrevoteAllowed(n.lock, n.height, Block(candidate), polka) then Block(candidate) else Nil;
    Vote(n.height, n.round, Prevote, b, id)
  }

  ghost function PrecommitFor(n: Node, id: ValidatorId, prevotes: seq<Vote>, vals: Validators, hash: Hash): Vote {
    Vote(n.height, n.round, Precommit, if FirstPolka(prevotes, vals, Block(hash)) then Block(hash) else Nil, id)
  }

  /** Lock after a precommit has left: a nil precommit keeps the old lock. */
  function Relocked(n: Node, v: Vote): Option<Lock> {
    if v.block.Block? then Some(Lock(v.height, v.round, v.block.hash)) else n.lock
  }

  class Validator {
    const id: ValidatorId
    const vals: Validators
    const log: VoteReplayLog
    var height: u64
    var round: u32
    var lock: Option<Lock>

    function View(): Node
      reads this, log
    {
      Node(height, round, lock, log.seen)
    }

    constructor (id: ValidatorId, vals: Validators)
      ensures View() == Node(0, 0, None, map[]) && this.id == id && this.vals == vals && fresh(log)
    {
      this.id, this.vals, height, round, lock := id, vals, 0, 0, None;
      log := new VoteReplayLog();
    }

    /** `prevote_step` followed by the ingest of `wire_vote`. */
    method WireVote(p: Proposal, polka: Option<PolkaAt>) returns (vote: Option<Vote>)
      modifies log
      ensures var n := old(View());
              var v := PrevoteFor(n, id, p.hash, polka);
              if p.height == n.height && p.round == n.round && p.leaderOk && id in vals && MayEmit(n, v)
              then vote == Some(v) && View() == Emitted(n, v)
              else vote == None
                   && (View() == n || (MayEmit(n, v) && View() == Emitted(n, v)))
    {
      if p.height != height || p.round != round || !p.leaderOk {
        return None;
      }
      var v;
      if !PrevoteAllowed(lock, height, Block(p.hash), polka) {
        v := Vote(height, round, Prevote, Nil, id);
        var _ := log.Observe(v);
      } else {
        v := Vote(height, round, Prevote, Block(p.hash), id);
        var ok := log.Observe(v);
        if !ok {
          return None;
        }
      }
      if id !in vals {
        return None;
      }
      var ok := log.Observe(v);
      vote := if ok then Some(v) else None;
    }

    /** `precommit_step` followed by the ingest of `wire_precommit`; the lock is taken only when
        the precommit leaves. */
    method WirePrecommit(prevotes: seq<Vote>, hash: Hash) returns (vote: Option<Vote>)
      modifies this`lock, log
      ensures var n := old(View());
              var v := PrecommitFor(n, id, prevotes, vals, hash);
              if id in vals && MayEmit(n, v) then vote == Some(v) && View() == Emitted(n, v).(lock := Relocked(n, v))
              else vote == None && (View() == n || (MayEmit(n, v) && View() == Emitted(n, v)))
    {
      var r := Polka(prevotes, vals);
      var v := Vote(height, round, Precommit, if r == Some(Block(hash)) then Block(hash) else Nil, id);
      var _ := log.Observe(v);
      if id !in vals {
        return None;
      }
      var ok := log.Observe(v);
      if !ok {
        return None;
      }
      if v.block.Block? {
        lock := Some(Lock(height, round, hash));
      }
      vote := Some(v);
    }
  }

  // ------------------------------------------------------------- certificates

  datatype Certificate = Certificate(height: u64, round: u32, block: VoteBlock, signers: set<ValidatorId>, power: u64)

  datatype QcError = Empty | NotPrecommit | Mixed | UnknownSigner | NoQuorum

  datatype Outcome<+T, +E> = Ok(value: T) | Err(error: E)

  ghost predicate OneBallot(votes: seq<Vote>) {
    && votes != []
    && forall v :: v in votes ==>
         v.kind == Precommit && v.height == votes[0].height && v.round == votes[0].round && v.block == votes[0].block
  }

  ghost function SignersOf(votes: seq<Vote>): set<ValidatorId> {
    set v | v in votes :: v.signer
  }

  /** `aggregate`: succeeds exactly on precommits of one ballot by known validators, and counts
      every signer once. */
  method Aggregate(votes: seq<Vote>, vals: Validators) returns (r: Outcome<Certificate, QcError>)
    ensures r.Ok? <==> OneBallot(votes) && SignersOf(votes) <= vals.Keys
    ensures r.Ok? ==> r.value == Certificate(votes[0].height, votes[0].round, votes[0].block, SignersOf(votes),
                                             Min(PowerOf(vals, SignersOf(votes)), U64_MAX))
    ensures r.Err? ==> (r.error == Empty <==> votes == [])
    ensures r.Err? ==> (r.error == UnknownSigner <==> OneBallot(votes))
    ensures r.Err? ==> r.error != NoQuorum
  {
    if votes == [] {
      return Err(Empty);
    }
    var signers: set<ValidatorId> := {};
    for i := 0 to |votes|
      invariant forall j :: 0 <= j < i ==> votes[j].kind == Precommit && votes[j].height == votes[0].height
                                           && votes[j].round == votes[0].round && votes[j].block == votes[0].block
      invariant signers == set j | 0 <= j < i :: votes[j].signer
    {
      var v := votes[i];
      assert v in votes;
      if v.kind != Precommit {
        return Err(NotPrecommit);
      }
      if v.height != votes[0].height || v.round != votes[0].round || v.block != votes[0].block {
        return Err(Mixed);
      }
      signers := signers + {v.signer};
    }
    assert signers == SignersOf(votes);
    var power: u64 := 0;
    var todo := signers;
    assert signers - todo == {} && PowerOf(vals, {}) == 0;
    while todo != {}
      invariant todo <= signers && signers - todo <= vals.Keys
      invariant power == Min(PowerOf(vals, signers - todo), U64_MAX)
    {
      var id :| id in todo;
      if id !in vals {
        return Err(UnknownSigner);
      }
      PowerOfInsert(vals, signers - todo, id);
      assert signers - todo + {id} == signers - (todo - {id});
      todo := todo - {id};
      power := SatAdd64(power, vals[id]);
    }
    assert signers - todo == signers;
    return Ok(Certificate(votes[0].height, votes[0].round, votes[0].block, signers, power));
  }

  datatype Finalized = Finalized(height: u64, round: u32, hash: Hash, appHash: Hash)

  datatype CommitError = Qc(qc: QcError) | TwoCommits(height: u64)

  /** What a finalized block rests on: a true supermajority of distinct precommitters. */
  ghost predicate Certified(votes: seq<Vote>, vals: Validators, f: Finalized) {
    && OneBallot(votes) && votes[0].block == Block(f.hash)
    && Supermajority(vals, SignersOf(votes))
  }

  function Capped(n: nat): u64 { Min(n, U64_MAX) }

  /** `CommitLog`: at most one hash per height. */
  class CommitLog {
    var byHeight: map<u64, Hash>

    constructor ()
      ensures byHeight == map[]
    {
      byHeight := map[];
    }

    method Record(f: Finalized) returns (ok: bool)
      modifies this
      ensures ok <==> f.height !in old(byHeight) || old(byHeight)[f.height] == f.hash
      ensures byHeight == if ok then old(byHeight)[f.height := f.hash] else old(byHeight)
    {
      if f.height in byHeight {
        ok := byHeight[f.height] == f.hash;
        assert ok ==> byHeight == byHeight[f.height := f.hash];
        return;
      }
      byHeight := byHeight[f.height := f.hash];
      ok := true;
    }

    /** `commit`: it answers without finalizing exactly when the reachable power or the polka is
        missing; whatever list it is given, duplicates included, it finalizes only a certified block,
        and it never changes what the log already holds. */
    method Commit(votes: seq<Vote>, vals: Validators, reachable: u64, p: Proposal)
      returns (r: Outcome<Option<Finalized>, CommitError>)
      modifies this
      ensures r == Ok(None) <==> !HasQuorum(reachable, Capped(TotalOf(vals))) || !FirstPolka(votes, vals, Block(p.hash))
      ensures r.Err? && r.error == Qc(NoQuorum) ==>
                !HasQuorum(Capped(PowerOf(vals, SignersOf(votes))), Capped(TotalOf(vals)))
      ensures r.Err? && r.error.Qc? && r.error.qc != NoQuorum ==> !OneBallot(votes) || !(SignersOf(votes) <= vals.Keys)
      ensures r.Err? && r.error.TwoCommits? ==> p.height in old(byHeight) && old(byHeight)[p.height] != p.hash
      ensures r.Ok? && r.value.Some? ==>
                && r.value.value == Finalized(p.height, p.round, p.hash, p.appHash)
                && Certified(votes, vals, r.value.value)
                && byHeight == old(byHeight)[p.height := p.hash]
      ensures !(r.Ok? && r.value.Some?) ==> byHeight == old(byHeight)
      ensures forall h :: h in old(byHeight) ==> h in byHeight && byHeight[h] == old(byHeight)[h]
    {
      var total := TotalPower(vals);
      if !HasQuorum(reachable, total) {
        return Ok(None);
      }
      var polka := Polka(votes, vals);
      if polka != Some(Block(p.hash)) {
        return Ok(None);
      }
      var qc := Aggregate(votes, vals);
      if qc.Err? {
        return Err(Qc(qc.error));
      }
      if !HasQuorum(qc.value.power, total) {
        return Err(Qc(NoQuorum));
      }
      HasQuorumIff(qc.value.power, total);
      PolkaMentioned(votes, vals, Block(p.hash));
      var f := Finalized(p.height, p.round, p.hash, p.appHash);
      var ok := Record(f);
      if !ok {
        return Err(TwoCommits(f.height));
      }
      return Ok(Some(f));
    }
  }

  /** A polka value is the value of some vote. */
  lemma PolkaMentioned(votes: seq<Vote>, vals: Validators, b: VoteBlock)
    requires IsPolka(votes, vals, b)
    ensures exists v :: v in votes && v.block == b
  {
    HasQuorumIff(Min(Weight(votes, vals, b), U64_MAX), Min(TotalOf(vals), U64_MAX));
    WeightMentioned(votes, vals, b);
  }

  lemma {:induction false} WeightMentioned(votes: seq<Vote>, vals: Validators, b: VoteBlock)
    ensures Weight(votes, vals, b) > 0 ==> exists v :: v in votes && v.block == b
  {
    if votes != [] {
      var last := votes[|votes| - 1];
      if last.block == b {
        assert last in votes;
      } else {
        WeightMentioned(votes[..|votes| - 1], vals, b);
      }
    }
  }
}
