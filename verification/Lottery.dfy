/** The stake-weighted leader lottery (`crates/consensus/src/vrf.rs`). */
module Lottery {
  import opened Common
  import opened Quorum

  datatype Leader = Chosen(id: ValidatorId) | BadProof | EmptySet

  ghost function Before(vals: Validators, v: ValidatorId): set<ValidatorId> {
    set u | u in vals && u < v
  }

  ghost function Below(vals: Validators, v: ValidatorId): nat {
    PowerOf(vals, Before(vals, v))
  }

  /** Ticket `t` falls in the stretch of length `vals[v]` that belongs to `v`. */
  ghost predicate Wins(vals: Validators, v: ValidatorId, t: nat) {
    v in vals && Below(vals, v) <= t < Below(vals, v) + vals[v]
  }

  /** `weighted_leader` on a proof that verified to `output`, or on one that did not. The return after
      the loop is never reached. */
  method WeightedLeader(output: Option<u128>, vals: Validators) returns (r: Leader)
    requires TotalOf(vals) <= U128_MAX
    ensures r == BadProof <==> output.None?
    ensures r == EmptySet <==> output.Some? && TotalOf(vals) == 0
    ensures output.Some? && TotalOf(vals) > 0 ==> r.Chosen? && Wins(vals, r.id, output.value % TotalOf(vals))
  {
    hide SortedKeys;
    if output.None? {
      return BadProof;
    }
    var keys := SortedKeys(vals.Keys);
    var total := SumPowers(vals, keys);
    if total == 0 {
      return EmptySet;
    }
    var ticket := output.value % total;
    var acc: u128 := 0;
    assert keys[..0] == [] && PowerOf(vals, {}) == 0;
    for i := 0 to |keys|
      invariant acc == PowerOf(vals, Visited(keys[..i])) <= ticket
    {
      var id := keys[i];
      KeysBelow(vals, keys, i);
      NextVisited(vals, keys, i);
      acc := Min(acc + vals[id], U128_MAX);
      if ticket < acc {
        return Chosen(id);
      }
    }
    AllVisited(vals, keys);
    assert false;
    r := EmptySet;
  }

  ghost function Visited(keys: seq<ValidatorId>): set<ValidatorId> {
    set v | v in keys
  }

  method SumPowers(vals: Validators, keys: seq<ValidatorId>) returns (total: u128)
    requires Ascending(keys) && (forall v :: v in keys <==> v in vals) && TotalOf(vals) <= U128_MAX
    ensures total == TotalOf(vals)
  {
    total := 0;
    assert keys[..0] == [] && PowerOf(vals, {}) == 0;
    for i := 0 to |keys|
      invariant total == PowerOf(vals, Visited(keys[..i]))
    {
      NextVisited(vals, keys, i);
      total := total + vals[keys[i]];
    }
    AllVisited(vals, keys);
  }

  lemma NextVisited(vals: Validators, keys: seq<ValidatorId>, i: nat)
    requires Ascending(keys) && (forall v :: v in keys <==> v in vals) && i < |keys|
    ensures PowerOf(vals, Visited(keys[..i + 1])) == PowerOf(vals, Visited(keys[..i])) + vals[keys[i]] <= TotalOf(vals)
  {
    assert keys[..i + 1] == keys[..i] + [keys[i]];
    assert Visited(keys[..i + 1]) == Visited(keys[..i]) + {keys[i]};
    assert keys[i] !in Visited(keys[..i]);
    PowerOfInsert(vals, Visited(keys[..i]), keys[i]);
    PowerOfMonotone(vals, Visited(keys[..i + 1]), vals.Keys);
  }

  lemma KeysBelow(vals: Validators, keys: seq<ValidatorId>, i: nat)
    requires Ascending(keys) && (forall v :: v in keys <==> v in vals) && i < |keys|
    ensures Below(vals, keys[i]) == PowerOf(vals, Visited(keys[..i]))
  {
    forall u: ValidatorId ensures u in Before(vals, keys[i]) <==> u in Visited(keys[..i]) {
      if u in Before(vals, keys[i]) {
        var j :| 0 <= j < |keys| && keys[j] == u;
        assert keys[..i][j] == u;
      }
    }
    assert Before(vals, keys[i]) == Visited(keys[..i]);
  }

  lemma AllVisited(vals: Validators, keys: seq<ValidatorId>)
    requires forall v :: v in keys <==> v in vals
    ensures PowerOf(vals, Visited(keys[..|keys|])) == TotalOf(vals)
  {
    assert keys[..|keys|] == keys && Visited(keys) == vals.Keys;
  }

  /** The stretches of two validators do not overlap: at most one validator wins a ticket. */
  lemma OneWinner(vals: Validators, v: ValidatorId, u: ValidatorId, t: nat)
    requires Wins(vals, v, t) && Wins(vals, u, t)
    ensures v == u
  {
    if v < u {
      StretchesApart(vals, v, u);
    } else if u < v {
      StretchesApart(vals, u, v);
    }
  }

  lemma StretchesApart(vals: Validators, v: ValidatorId, u: ValidatorId)
    requires v in vals && v < u
    ensures Below(vals, v) + vals[v] <= Below(vals, u)
  {
    PowerOfInsert(vals, Before(vals, v), v);
    PowerOfMonotone(vals, Before(vals, v) + {v}, Before(vals, u));
  }

  lemma StretchInside(vals: Validators, v: ValidatorId)
    requires v in vals
    ensures Below(vals, v) + vals[v] <= TotalOf(vals)
  {
    PowerOfInsert(vals, Before(vals, v), v);
    PowerOfMonotone(vals, Before(vals, v) + {v}, vals.Keys);
  }

  /** Exactly `power(v)` of the tickets in `[0, total)` select `v`; a validator without power never wins. */
  lemma ProportionalTickets(vals: Validators, v: ValidatorId)
    requires v in vals
    ensures |set t | 0 <= t < TotalOf(vals) && Wins(vals, v, t)| == vals[v]
  {
    StretchInside(vals, v);
    assert (set t | 0 <= t < TotalOf(vals) && Wins(vals, v, t)) == Stretch(Below(vals, v), vals[v]);
  }

  ghost function Stretch(a: nat, n: nat): (s: set<nat>)
    ensures forall t :: t in s <==> a <= t < a + n
    ensures |s| == n
  {
    if n == 0 then {} else Stretch(a, n - 1) + {a + n - 1}
  }
}
