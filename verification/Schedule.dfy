/** The conflict graph and its greedy waves (`crates/execution/src/stm/{graph,schedule}.rs`). */
module Schedule {
  import opened Common
  import opened Footprint

  /** The speculative footprint of a transaction; its position in the block is its index. */
  datatype Access = Access(readSet: set<Key>, writeSet: set<Key>)

  type Graph = map<nat, set<nat>>

  /** `a` writes something that `b` reads or writes. */
  predicate Hits(a: Access, b: Access) {
    a.writeSet * (b.readSet + b.writeSet) != {}
  }

  ghost predicate Edge(specs: seq<Access>, i: nat, j: nat) {
    i < |specs| && j < |specs| && i != j && Hits(specs[i], specs[j])
  }

  /** An edge is stored when the scan has passed it: rows before `a`, and row `a` up to column `b`. */
  ghost predicate Scanned(specs: seq<Access>, directed: set<(nat, nat)>, a: nat, b: nat) {
    forall i: nat, j: nat :: (i, j) in directed <==> Edge(specs, i, j) && (i < a || (i == a && j < b))
  }

  ghost predicate BothWays(adj: Graph, directed: set<(nat, nat)>, n: nat) {
    && (forall i: nat :: i in adj <==> i < n)
    && (forall i: nat, j: nat :: i < n ==> (j in adj[i] <==> (i, j) in directed || (j, i) in directed))
  }

  function Upto(n: nat): (s: set<nat>)
    ensures forall v: nat :: v in s <==> v < n
  {
    if n == 0 then {} else Upto(n - 1) + {n - 1}
  }

  method ConflictGraph(specs: seq<Access>) returns (adj: Graph, directed: set<(nat, nat)>)
    ensures forall i: nat, j: nat :: (i, j) in directed <==> Edge(specs, i, j)
    ensures IsGraph(adj, |specs|)
    ensures forall i: nat, j: nat :: i < |specs| ==> (j in adj[i] <==> Edge(specs, i, j) || Edge(specs, j, i))
  {
    var n := |specs|;
    adj := map i | i in Upto(n) :: {};
    directed := {};
    for a := 0 to n
      invariant Scanned(specs, directed, a, 0) && BothWays(adj, directed, n)
    {
      adj, directed := ScanRow(specs, adj, directed, a);
    }
  }

  method ScanRow(specs: seq<Access>, adj0: Graph, directed0: set<(nat, nat)>, a: nat)
    returns (adj: Graph, directed: set<(nat, nat)>)
    requires a < |specs| && Scanned(specs, directed0, a, 0) && BothWays(adj0, directed0, |specs|)
    ensures Scanned(specs, directed, a + 1, 0) && BothWays(adj, directed, |specs|)
  {
    hide Hits;
    adj, directed := adj0, directed0;
    for b := 0 to |specs|
      invariant Scanned(specs, directed, a, b) && BothWays(adj, directed, |specs|)
    {
      if a != b && Hits(specs[a], specs[b]) {
        AddEdge(adj, directed, |specs|, a, b);
        directed := directed + {(a, b)};
        adj := adj[a := adj[a] + {b}];
        adj := adj[b := adj[b] + {a}];
      }
    }
  }

  lemma AddEdge(adj: Graph, directed: set<(nat, nat)>, n: nat, a: nat, b: nat)
    requires BothWays(adj, directed, n) && a < n && b < n && a != b
    ensures BothWays(adj[a := adj[a] + {b}][b := adj[b] + {a}], directed + {(a, b)}, n)
  {
  }

  /** An undirected graph on `0..n` without loops. */
  ghost predicate IsGraph(adj: Graph, n: nat) {
    && (forall i: nat :: i in adj <==> i < n)
    && (forall i: nat, j: nat :: i < n && j in adj[i] ==> j < n && j != i && i in adj[j])
  }

  // -------------------------------------------------------------------- waves

  ghost predicate Independent(adj: Graph, wave: seq<nat>) {
    forall u, v :: u in wave && v in wave && v in adj ==> u !in adj[v]
  }

  /** `v` is kept out of `wave` by a smaller neighbour in it. */
  ghost predicate Ousted(adj: Graph, wave: seq<nat>, v: nat) {
    v in adj && exists u :: u in wave && u < v && u in adj[v]
  }

  /** One pass over the remaining indices, in order. */
  method Wave(adj: Graph, n: nat, remaining: set<nat>) returns (wave: seq<nat>)
    requires IsGraph(adj, n) && (forall v :: v in remaining ==> v < n)
    ensures Ascending(wave) && Independent(adj, wave) && (forall v :: v in wave ==> v in remaining)
    ensures forall v :: v in remaining && v !in wave ==> Ousted(adj, wave, v)
    ensures remaining != {} ==> wave != []
  {
    wave := [];
    var blocked: set<nat> := {};
    for i := 0 to n
      invariant Ascending(wave) && Independent(adj, wave)
      invariant forall v :: v in wave ==> v in remaining && v < i
      invariant forall v: nat :: v in blocked <==> exists u :: u in wave && u in adj && v in adj[u]
      invariant forall v :: v in remaining && v < i && v !in wave ==> Ousted(adj, wave, v)
    {
      if i in remaining {
        if i in blocked {
          OustedBy(adj, n, wave, i);
        } else {
          GrowWave(adj, n, wave, i);
          blocked := blocked + adj[i];
          wave := wave + [i];
        }
      }
    }
    if remaining != {} {
      var v :| v in remaining;
      assert v in wave || Ousted(adj, wave, v);
    }
  }

  lemma OustedBy(adj: Graph, n: nat, wave: seq<nat>, i: nat)
    requires IsGraph(adj, n) && i < n && (forall v :: v in wave ==> v < i)
    requires exists u :: u in wave && u in adj && i in adj[u]
    ensures Ousted(adj, wave, i)
  {
    var u :| u in wave && u in adj && i in adj[u];
    assert u in adj[i];
  }

  lemma GrowWave(adj: Graph, n: nat, wave: seq<nat>, i: nat)
    requires IsGraph(adj, n) && i < n && Ascending(wave) && Independent(adj, wave) && (forall v :: v in wave ==> v < i)
    requires !exists u :: u in wave && u in adj && i in adj[u]
    ensures Ascending(wave + [i]) && Independent(adj, wave + [i])
    ensures forall v: nat :: Ousted(adj, wave, v) ==> Ousted(adj, wave + [i], v)
  {
    forall u, v | u in wave + [i] && v in wave + [i] && v in adj ensures u !in adj[v] {
      if u == i && v != i {
        assert v in wave;
      } else if v == i && u != i {
        assert u in wave && u in adj;
        assert i !in adj[u];
      }
    }
    forall j | 0 <= j < |wave| ensures wave[j] < i {
      assert wave[j] in wave;
    }
    forall v: nat | Ousted(adj, wave, v) ensures Ousted(adj, wave + [i], v) {
      var u :| u in wave && u < v && u in adj[v];
      assert u in wave + [i];
    }
  }

  ghost predicate Placed(waves: seq<seq<nat>>, v: nat) {
    exists w :: 0 <= w < |waves| && v in waves[w]
  }

  ghost predicate Disjoint(waves: seq<seq<nat>>) {
    forall w, x, v :: 0 <= w < x < |waves| && v in waves[w] ==> v !in waves[x]
  }

  /** First fit: whatever sits in a later wave had a smaller neighbour in every earlier one. */
  ghost predicate FirstFit(adj: Graph, waves: seq<seq<nat>>) {
    forall w, x, v :: 0 <= w < x < |waves| && v in waves[x] ==> Ousted(adj, waves[w], v)
  }

  /** The waves partition `0..n` into ascending independent sets, filled first-fit. */
  ghost predicate IsSchedule(adj: Graph, n: nat, waves: seq<seq<nat>>) {
    && (forall v: nat :: Placed(waves, v) <==> v < n)
    && Disjoint(waves) && FirstFit(adj, waves)
    && (forall w :: 0 <= w < |waves| ==> waves[w] != [] && Ascending(waves[w]) && Independent(adj, waves[w]))
  }

  /** What holds after some waves: everything is placed or remains, and what remains was ousted throughout. */
  ghost predicate Partly(adj: Graph, n: nat, waves: seq<seq<nat>>, remaining: set<nat>) {
    && (forall v: nat :: Placed(waves, v) || v in remaining <==> v < n)
    && (forall v: nat :: Placed(waves, v) ==> v !in remaining)
    && (forall w, v: nat :: 0 <= w < |waves| && v in remaining ==> Ousted(adj, waves[w], v))
    && Disjoint(waves) && FirstFit(adj, waves)
    && (forall w :: 0 <= w < |waves| ==> waves[w] != [] && Ascending(waves[w]) && Independent(adj, waves[w]))
  }

  method Waves(adj: Graph, n: nat) returns (waves: seq<seq<nat>>)
    requires IsGraph(adj, n)
    ensures IsSchedule(adj, n, waves)
  {
    hide IsGraph;
    hide Ousted;
    var remaining := Upto(n);
    waves := [];
    while remaining != {}
      invariant Partly(adj, n, waves, remaining)
      decreases remaining
    {
      var wave := Wave(adj, n, remaining);
      var rest := set v | v in remaining && v !in wave;
      AddWave(adj, n, waves, remaining, wave, rest);
      assert wave[0] in remaining && wave[0] !in rest;
      remaining, waves := rest, waves + [wave];
    }
  }

  lemma AddWave(adj: Graph, n: nat, waves: seq<seq<nat>>, remaining: set<nat>, wave: seq<nat>, rest: set<nat>)
    requires Partly(adj, n, waves, remaining) && wave != []
    requires Ascending(wave) && Independent(adj, wave) && (forall v :: v in wave ==> v in remaining)
    requires forall v :: v in remaining && v !in wave ==> Ousted(adj, wave, v)
    requires forall v: nat :: v in rest <==> v in remaining && v !in wave
    ensures Partly(adj, n, waves + [wave], rest)
  {
    hide Ousted;
    hide Ascending;
    hide Independent;
    var more := waves + [wave];
    forall v: nat ensures Placed(more, v) <==> Placed(waves, v) || v in wave {
      if Placed(waves, v) {
        var w :| 0 <= w < |waves| && v in waves[w];
        assert v in more[w];
      }
      if v in wave {
        assert v in more[|waves|];
      }
    }
    forall w, x, v | 0 <= w < x < |more| && v in more[w] ensures v !in more[x] {
      if x == |waves| {
        assert Placed(waves, v);
      }
    }
    forall w, x, v | 0 <= w < x < |more| && v in more[x] ensures Ousted(adj, more[w], v) {
      if x == |waves| {
        assert v in remaining;
      }
    }
  }

  /** There are at most (largest degree + 1) waves. */
  lemma WaveBound(adj: Graph, n: nat, waves: seq<seq<nat>>, degree: nat)
    requires IsGraph(adj, n) && IsSchedule(adj, n, waves)
    requires forall v: nat :: v < n ==> |adj[v]| <= degree
    ensures |waves| <= degree + 1
  {
    if waves != [] {
      var last := waves[|waves| - 1];
      var v := last[0];
      assert v in last && Placed(waves, v);
      NeighboursEverywhere(adj, waves, v, |waves| - 1);
    }
  }

  ghost function Near(adj: Graph, waves: seq<seq<nat>>, v: nat, m: nat): (s: set<nat>)
    requires v in adj && m <= |waves|
    ensures s <= adj[v]
  {
    set u | u in adj[v] && Placed(waves[..m], u)
  }

  /** The neighbours of `v` among the first `m` waves number at least `m`. */
  lemma {:induction false} NeighboursEverywhere(adj: Graph, waves: seq<seq<nat>>, v: nat, m: nat)
    requires v in adj && m <= |waves| && Disjoint(waves) && forall w :: 0 <= w < m ==> Ousted(adj, waves[w], v)
    ensures m <= |Near(adj, waves, v, m)| <= |adj[v]|
  {
    hide Near;
    hide Disjoint;
    Smaller(Near(adj, waves, v, m), adj[v]);
    if m > 0 {
      NeighboursEverywhere(adj, waves, v, m - 1);
      assert Ousted(adj, waves[m - 1], v);
      var u :| u in waves[m - 1] && u in adj[v];
      NearGrows(adj, waves, v, m, u);
      Smaller(Near(adj, waves, v, m - 1) + {u}, Near(adj, waves, v, m));
    }
  }

  lemma NearGrows(adj: Graph, waves: seq<seq<nat>>, v: nat, m: nat, u: nat)
    requires v in adj && 0 < m <= |waves| && Disjoint(waves) && u in waves[m - 1] && u in adj[v]
    ensures u !in Near(adj, waves, v, m - 1) && Near(adj, waves, v, m - 1) + {u} <= Near(adj, waves, v, m)
  {
    assert u in waves[..m][m - 1];
    forall x | x in Near(adj, waves, v, m - 1) ensures x in Near(adj, waves, v, m) && x != u {
      var w :| 0 <= w < m - 1 && x in waves[..m - 1][w];
      assert x in waves[..m][w] && x in waves[w];
    }
  }

  lemma {:induction false} Smaller(a: set<nat>, b: set<nat>)
    requires a <= b
    ensures |a| <= |b|
  {
    if a != {} {
      var x :| x in a;
      Smaller(a - {x}, b - {x});
    }
  }

  /** No two transactions of a wave touch each other's writes. */
  ghost predicate NoClash(specs: seq<Access>, wave: seq<nat>) {
    forall i: nat, j: nat ::
      i in wave && j in wave && i != j ==> i < |specs| && j < |specs| && !Hits(specs[i], specs[j])
  }

  lemma IndependentIsNoClash(specs: seq<Access>, adj: Graph, wave: seq<nat>)
    requires IsGraph(adj, |specs|) && Independent(adj, wave) && (forall v :: v in wave ==> v < |specs|)
    requires forall i: nat, j: nat :: i < |specs| ==> (j in adj[i] <==> Edge(specs, i, j) || Edge(specs, j, i))
    ensures NoClash(specs, wave)
  {
    hide Hits;
    forall i: nat, j: nat | i in wave && j in wave && i != j
      ensures i < |specs| && j < |specs| && !Hits(specs[i], specs[j])
    {
      assert i !in adj[j];
      assert !Edge(specs, i, j);
    }
  }

  /** Graph and waves together, as the engine calls them. */
  method Plan(specs: seq<Access>) returns (waves: seq<seq<nat>>)
    ensures forall w :: 0 <= w < |waves| ==> Ascending(waves[w]) && NoClash(specs, waves[w])
    ensures forall v: nat :: Placed(waves, v) <==> v < |specs|
    ensures Disjoint(waves)
  {
    hide Hits;
    hide NoClash;
    hide FirstFit;
    var adj, directed := ConflictGraph(specs);
    waves := Waves(adj, |specs|);
    forall w | 0 <= w < |waves| ensures NoClash(specs, waves[w]) {
      forall v | v in waves[w] ensures v < |specs| {
        assert Placed(waves, v);
      }
      IndependentIsNoClash(specs, adj, waves[w]);
    }
  }
}
