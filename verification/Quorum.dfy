/** Votes, saturating tallies and quorum certificates
    (`crates/types/src/validator.rs`, `crates/consensus/src/{steps,qc,safety,vote}.rs`). */
module Quorum {
  import opened Common

  datatype VoteKind = Prevote | Precommit
  datatype VoteBlock = Nil | Block(hash: Hash)

  /** A vote whose signature has been checked. */
  datatype Vote = Vote(height: u64, round: u32, kind: VoteKind, block: VoteBlock, signer: ValidatorId)

  type Validators = map<ValidatorId, u64>

  // ------------------------------------------------------------- true power

  function Power(p: u64): nat { p }

  ghost function Restrict(vals: Validators, s: set<ValidatorId>): Validators {
    map v | v in vals && v in s :: vals[v]
  }

  /** Exact power of the members of `s`. */
  ghost function PowerOf(vals: Validators, s: set<ValidatorId>): nat {
    Sum(Restrict(vals, s), Power)
  }

  ghost function TotalOf(vals: Validators): nat {
    PowerOf(vals, vals.Keys)
  }

  lemma PowerOfInsert(vals: Validators, s: set<ValidatorId>, v: ValidatorId)
    requires v !in s
    ensures PowerOf(vals, s + {v}) == PowerOf(vals, s) + (if v in vals then vals[v] else 0)
  {
    if v in vals {
      assert Restrict(vals, s + {v}) == Restrict(vals, s)[v := vals[v]];
      SumInsert<ValidatorId, u64>(Restrict(vals, s), v, vals[v], Power);
    } else {
      assert Restrict(vals, s + {v}) == Restrict(vals, s);
    }
  }

  lemma {:induction false} PowerOfUnion(vals: Validators, a: set<ValidatorId>, b: set<ValidatorId>)
    ensures PowerOf(vals, a + b) + PowerOf(vals, a * b) == PowerOf(vals, a) + PowerOf(vals, b)
    decreases |b|
  {
    if b == {} {
      assert a + b == a && a * b == {};
    } else {
      var v :| v in b;
      var rest := b - {v};
      PowerOfUnion(vals, a, rest);
      assert rest + {v} == b;
      PowerOfInsert(vals, rest, v);
      if v in a {
        assert a + b == a + rest && a * b == a * rest + {v};
        PowerOfInsert(vals, a * rest, v);
      } else {
        assert a + b == a + rest + {v} && a * b == a * rest;
        PowerOfInsert(vals, a + rest, v);
      }
    }
  }

  lemma PowerOfMonotone(vals: Validators, a: set<ValidatorId>, b: set<ValidatorId>)
    requires forall v :: v in a && v in vals ==> v in b
    ensures PowerOf(vals, a) <= PowerOf(vals, b)
  {
    assert Restrict(vals, a) == Restrict(vals, a * b);
    PowerOfUnion(vals, a * b, b - a);
    assert a * b + (b - a) == b && (a * b) * (b - a) == {};
  }

  /** A set of signers with more than two thirds of the power. */
  ghost predicate Supermajority(vals: Validators, s: set<ValidatorId>) {
    3 * PowerOf(vals, s) > 2 * TotalOf(vals)
  }

  /** Two supermajorities share more than a third of the power. */
  lemma SupermajoritiesOverlap(vals: Validators, a: set<ValidatorId>, b: set<ValidatorId>)
    requires Supermajority(vals, a) && Supermajority(vals, b)
    ensures 3 * PowerOf(vals, a * b) > TotalOf(vals)
  {
    PowerOfUnion(vals, a, b);
    PowerOfMonotone(vals, a + b, vals.Keys);
  }

  /** If the faulty hold at most a third, some honest validator is in both. */
  lemma HonestOverlap(vals: Validators, a: set<ValidatorId>, b: set<ValidatorId>, honest: set<ValidatorId>)
    requires Supermajority(vals, a) && Supermajority(vals, b)
    requires 3 * PowerOf(vals, vals.Keys - honest) <= TotalOf(vals)
    ensures exists v :: v in a && v in b && v in honest
  {
    SupermajoritiesOverlap(vals, a, b);
    if forall v :: v in a && v in b ==> v !in honest {
      PowerOfMonotone(vals, a * b, vals.Keys - honest);
    }
  }

  // ------------------------------------------------------ saturating tallies

  /** `VotingPower::exceeds_two_thirds`, with its saturating products. */
  predicate HasQuorum(voted: u64, total: u64) {
    Min(voted * 3, U64_MAX) > Min(total * 2, U64_MAX)
  }

  /** The test on 64-bit operands is the true inequality, except that it refuses every total
      from 2^63 on. */
  lemma HasQuorumIff(voted: u64, total: u64)
    ensures HasQuorum(voted, total) <==> 3 * voted > 2 * total && 2 * total < U64_MAX
  {
  }

  /** `total_power`: a saturating fold over the validator set. */
  method TotalPower(vals: Validators) returns (t: u64)
    ensures t == Min(TotalOf(vals), U64_MAX)
  {
    t := 0;
    var todo := vals.Keys;
    assert PowerOf(vals, {}) == 0;
    assert vals.Keys - todo == {};
    while todo != {}
      invariant todo <= vals.Keys
      invariant t == Min(PowerOf(vals, vals.Keys - todo), U64_MAX)
    {
      var v :| v in todo;
      PowerOfInsert(vals, vals.Keys - todo, v);
      assert vals.Keys - todo + {v} == vals.Keys - (todo - {v});
      todo := todo - {v};
      t := SatAdd64(t, vals[v]);
    }
    assert vals.Keys - todo == vals.Keys;
  }

  /** Exact weight of the votes for `b`; a signer that appears twice counts twice. */
  ghost function Weight(votes: seq<Vote>, vals: Validators, b: VoteBlock): nat {
    if votes == [] then 0
    else
      var v := votes[|votes| - 1];
      Weight(votes[..|votes| - 1], vals, b) + (if v.block == b && v.signer in vals then vals[v.signer] else 0)
  }

  method Tally(votes: seq<Vote>, vals: Validators) returns (t: map<VoteBlock, u64>)
    ensures forall b :: b in t <==> exists v :: v in votes && v.block == b && v.signer in vals
    ensures forall b :: b in t ==> t[b] == Min(Weight(votes, vals, b), U64_MAX)
    ensures forall b :: b !in t ==> Weight(votes, vals, b) == 0
  {
    t := map[];
    for i := 0 to |votes|
      invariant forall b :: b in t <==> exists j :: 0 <= j < i && votes[j].block == b && votes[j].signer in vals
      invariant forall b :: b in t ==> t[b] == Min(Weight(votes[..i], vals, b), U64_MAX)
      invariant forall b :: b !in t ==> Weight(votes[..i], vals, b) == 0
    {
      var v := votes[i];
      assert votes[..i + 1][..i] == votes[..i];
      if v.signer in vals {
        var e := if v.block in t then t[v.block] else 0;
        t := t[v.block := SatAdd64(e, vals[v.signer])];
      }
    }
    assert votes[..|votes|] == votes;
  }

  /** `b` passes the quorum test on the saturated tally. */
  ghost predicate IsPolka(votes: seq<Vote>, vals: Validators, b: VoteBlock) {
    HasQuorum(Min(Weight(votes, vals, b), U64_MAX), Min(TotalOf(vals), U64_MAX))
  }

  /** Order of the tally map: nil first, then by hash. */
  predicate Before(a: VoteBlock, b: VoteBlock) {
    b.Block? && (a.Nil? || a.hash < b.hash)
  }

  ghost predicate FirstPolka(votes: seq<Vote>, vals: Validators, b: VoteBlock) {
    IsPolka(votes, vals, b) && forall a :: IsPolka(votes, vals, a) ==> !Before(a, b)
  }

  /** The first value of the tally, in map order, that has a quorum. */
  method Polka(votes: seq<Vote>, vals: Validators) returns (r: Option<VoteBlock>)
    ensures r.Some? ==> FirstPolka(votes, vals, r.value)
    ensures r.None? ==> forall b :: !IsPolka(votes, vals, b)
  {
    var total := TotalPower(vals);
    var t := Tally(votes, vals);
    r := None;
    var todo := t.Keys;
    while todo != {}
      invariant todo <= t.Keys
      invariant r.Some? ==> IsPolka(votes, vals, r.value)
      invariant forall b :: b in t.Keys - todo && IsPolka(votes, vals, b) ==> r.Some? && !Before(b, r.value)
    {
      var b :| b in todo;
      todo := todo - {b};
      if HasQuorum(t[b], total) && (r == None || Before(b, r.value)) {
        r := Some(b);
      }
    }
    assert forall b :: IsPolka(votes, vals, b) ==> b in t;
  }

  // ------------------------------------------------------- distinct signers

  ghost predicate DistinctSigners(votes: seq<Vote>) {
    forall i, j :: 0 <= i < j < |votes| ==> votes[i].signer != votes[j].signer
  }

  ghost function Signers(votes: seq<Vote>, b: VoteBlock): set<ValidatorId> {
    set v | v in votes && v.block == b :: v.signer
  }

  lemma {:induction false} WeightIsPower(votes: seq<Vote>, vals: Validators, b: VoteBlock)
    requires DistinctSigners(votes)
    ensures Weight(votes, vals, b) == PowerOf(vals, Signers(votes, b))
  {
    if votes == [] {
      assert Signers(votes, b) == {};
      assert PowerOf(vals, {}) == 0;
    } else {
      var before, v := votes[..|votes| - 1], votes[|votes| - 1];
      WeightIsPower(before, vals, b);
      assert votes == before + [v];
      if v.block == b {
        assert Signers(votes, b) == Signers(before, b) + {v.signer};
        PowerOfInsert(vals, Signers(before, b), v.signer);
      } else {
        assert Signers(votes, b) == Signers(before, b);
      }
    }
  }

  /** A reported polka is a true supermajority, whatever saturated on the way. */
  lemma PolkaIsSupermajority(votes: seq<Vote>, vals: Validators, b: VoteBlock)
    requires DistinctSigners(votes) && IsPolka(votes, vals, b)
    ensures Supermajority(vals, Signers(votes, b))
  {
    WeightIsPower(votes, vals, b);
    HasQuorumIff(Min(Weight(votes, vals, b), U64_MAX), Min(TotalOf(vals), U64_MAX));
  }

  /** At most one value is a polka. */
  lemma PolkaUnique(votes: seq<Vote>, vals: Validators, a: VoteBlock, b: VoteBlock)
    requires DistinctSigners(votes) && IsPolka(votes, vals, a) && IsPolka(votes, vals, b)
    ensures a == b
  {
    PolkaIsSupermajority(votes, vals, a);
    PolkaIsSupermajority(votes, vals, b);
    if a != b {
      assert Signers(votes, a) * Signers(votes, b) == {};
      assert PowerOf(vals, {}) == 0;
      SupermajoritiesOverlap(vals, Signers(votes, a), Signers(votes, b));
    }
  }

  /** Repeated signers included, the value `polka` returns is the heaviest one exactly when no other
      value with a quorum outweighs it. */
  lemma PolkaHeaviestIff(votes: seq<Vote>, vals: Validators, b: VoteBlock)
    requires FirstPolka(votes, vals, b)
    ensures (forall a :: Weight(votes, vals, a) <= Weight(votes, vals, b))
            <==> forall a :: IsPolka(votes, vals, a) ==> Weight(votes, vals, a) <= Weight(votes, vals, b)
  {
    if forall a :: IsPolka(votes, vals, a) ==> Weight(votes, vals, a) <= Weight(votes, vals, b) {
      forall a ensures Weight(votes, vals, a) <= Weight(votes, vals, b) {
        if Weight(votes, vals, b) <= Weight(votes, vals, a) {
          HeavierIsPolka(votes, vals, a, b);
        }
      }
    }
  }

  lemma HeavierIsPolka(votes: seq<Vote>, vals: Validators, a: VoteBlock, b: VoteBlock)
    requires IsPolka(votes, vals, b) && Weight(votes, vals, b) <= Weight(votes, vals, a)
    ensures IsPolka(votes, vals, a)
  {
  }

  /** With distinct signers it always is the heaviest. */
  lemma PolkaHeaviest(votes: seq<Vote>, vals: Validators, b: VoteBlock)
    requires DistinctSigners(votes) && FirstPolka(votes, vals, b)
    ensures forall a :: Weight(votes, vals, a) <= Weight(votes, vals, b)
  {
    forall a | IsPolka(votes, vals, a) ensures Weight(votes, vals, a) <= Weight(votes, vals, b) {
      PolkaUnique(votes, vals, a, b);
    }
    PolkaHeaviestIff(votes, vals, b);
  }

  /** One validator that repeats itself can make the first value with a quorum the lighter one. */
  lemma RepeatedSignerExample()
    ensures var vals: Validators := map[0 := 1];
            var one, two := Vote(0, 0, Prevote, Block(1), 0), Vote(0, 0, Prevote, Block(2), 0);
            var votes := [one, two, two];
            FirstPolka(votes, vals, Block(1)) && Weight(votes, vals, Block(1)) < Weight(votes, vals, Block(2))
  {
    var vals: Validators := map[0 := 1];
    var one, two := Vote(0, 0, Prevote, Block(1), 0), Vote(0, 0, Prevote, Block(2), 0);
    var votes := [one, two, two];
    var none: Validators := map[];
    assert Restrict(vals, vals.Keys) == none[0 := 1];
    SumInsert<ValidatorId, u64>(none, 0, 1, Power);
    assert votes[..2] == [one, two] && [one, two][..1] == [one] && [one][..0] == [];
    forall b: VoteBlock ensures Weight(votes, vals, b) == if b == Block(1) then 1 else if b == Block(2) then 2 else 0 {
      assert Weight([one], vals, b) == Weight([], vals, b) + (if b == Block(1) then 1 else 0);
      assert Weight([one, two], vals, b) == Weight([one], vals, b) + (if b == Block(2) then 1 else 0);
      assert Weight(votes, vals, b) == Weight([one, two], vals, b) + (if b == Block(2) then 1 else 0);
    }
  }

  // -------------------------------------------------- collecting remote votes

  ghost predicate SignerOrder(votes: seq<Vote>) {
    forall i, j :: 0 <= i < j < |votes| ==> votes[i].signer <= votes[j].signer
  }

  /** How many votes precede the place of `signer` in an ordered list. */
  function Place(signer: ValidatorId, votes: seq<Vote>): (k: nat)
    ensures k <= |votes|
    ensures SignerOrder(votes) ==> forall i :: 0 <= i < |votes| ==> (i < k <==> votes[i].signer <= signer)
  {
    if votes == [] || signer < votes[0].signer then 0 else 1 + Place(signer, votes[1..])
  }

  function PlaceBySigner(votes: seq<Vote>, vote: Vote): seq<Vote> {
    votes[..Place(vote.signer, votes)] + [vote] + votes[Place(vote.signer, votes)..]
  }

  lemma PlaceKeepsMembers(votes: seq<Vote>, vote: Vote, v: Vote)
    ensures v in PlaceBySigner(votes, vote) <==> v in votes || v == vote
  {
    var k := Place(vote.signer, votes);
    assert votes == votes[..k] + votes[k..];
  }

  lemma PlaceKeepsVotes(votes: seq<Vote>, vote: Vote)
    ensures multiset(PlaceBySigner(votes, vote)) == multiset(votes) + multiset{vote}
  {
    var k := Place(vote.signer, votes);
    assert votes == votes[..k] + votes[k..];
  }

  lemma PlacedAt(votes: seq<Vote>, vote: Vote, i: nat)
    requires i <= |votes|
    ensures |PlaceBySigner(votes, vote)| == |votes| + 1
    ensures var k := Place(vote.signer, votes);
            PlaceBySigner(votes, vote)[i] == if i < k then votes[i] else if i == k then vote else votes[i - 1]
  {
  }

  lemma PlaceKeepsOrder(votes: seq<Vote>, vote: Vote)
    requires SignerOrder(votes)
    ensures SignerOrder(PlaceBySigner(votes, vote))
  {
    PlacedAt(votes, vote, 0);
    hide PlaceBySigner;
    var r := PlaceBySigner(votes, vote);
    forall i, j | 0 <= i < j < |r| ensures r[i].signer <= r[j].signer {
      PlacedAt(votes, vote, i);
      PlacedAt(votes, vote, j);
    }
  }

  lemma PlaceKeepsDistinct(votes: seq<Vote>, vote: Vote)
    requires DistinctSigners(votes) && forall v :: v in votes ==> v.signer != vote.signer
    ensures DistinctSigners(PlaceBySigner(votes, vote))
  {
    PlacedAt(votes, vote, 0);
    hide PlaceBySigner;
    hide Place;
    var r := PlaceBySigner(votes, vote);
    forall i, j | 0 <= i < j < |r| ensures r[i].signer != r[j].signer {
      PlacedAt(votes, vote, i);
      PlacedAt(votes, vote, j);
    }
  }

  /** A stable sort by signer. */
  function SortBySigner(votes: seq<Vote>): seq<Vote> {
    if votes == [] then [] else PlaceBySigner(SortBySigner(votes[..|votes| - 1]), votes[|votes| - 1])
  }

  lemma {:induction false} SortSorts(votes: seq<Vote>)
    ensures |SortBySigner(votes)| == |votes| && SignerOrder(SortBySigner(votes))
    ensures forall v :: v in SortBySigner(votes) <==> v in votes
    ensures multiset(SortBySigner(votes)) == multiset(votes)
    ensures DistinctSigners(votes) ==> DistinctSigners(SortBySigner(votes))
  {
    if votes != [] {
      var before, last := votes[..|votes| - 1], votes[|votes| - 1];
      var sorted := SortBySigner(before);
      SortSorts(before);
      assert votes == before + [last];
      forall v ensures v in PlaceBySigner(sorted, last) <==> v in votes {
        PlaceKeepsMembers(sorted, last, v);
      }
      PlaceKeepsVotes(sorted, last);
      PlaceKeepsOrder(sorted, last);
      if DistinctSigners(votes) {
        PlaceKeepsDistinct(sorted, last);
      }
    }
  }

  /** `insert_vote_sorted`: a second vote of the same signer and kind is dropped, so a list of
      one kind keeps distinct signers. */
  method InsertVoteSorted(votes: seq<Vote>, vote: Vote) returns (r: seq<Vote>)
    ensures if exists v :: v in votes && v.signer == vote.signer && v.kind == vote.kind then r == votes
            else SignerOrder(r) && multiset(r) == multiset(votes) + multiset{vote}
    ensures DistinctSigners(votes) && (forall v :: v in votes ==> v.kind == vote.kind) ==> DistinctSigners(r)
  {
    for i := 0 to |votes|
      invariant forall j :: 0 <= j < i ==> !(votes[j].signer == vote.signer && votes[j].kind == vote.kind)
    {
      if votes[i].signer == vote.signer && votes[i].kind == vote.kind {
        return votes;
      }
    }
    r := SortBySigner(votes + [vote]);
    SortSorts(votes + [vote]);
  }
}
