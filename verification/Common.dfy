/** Shared vocabulary: machine integers, failure types, ascending keys and sums over finite maps. */
module Common {

  datatype Option<+T> = None | Some(value: T)

  const U32_MAX: nat := 0xFFFF_FFFF
  const U64_MAX: nat := 0xFFFF_FFFF_FFFF_FFFF
  const U128_MAX: nat := 0xFFFF_FFFF_FFFF_FFFF_FFFF_FFFF_FFFF_FFFF

  type u8 = x: int | 0 <= x < 256
  type u32 = x: int | 0 <= x <= U32_MAX
  type u64 = x: int | 0 <= x <= U64_MAX
  type u128 = x: int | 0 <= x <= U128_MAX
  type Bytes = seq<u8>

  type Address = nat
  type ValidatorId = nat
  type Hash = int

  function Min(a: nat, b: nat): nat { if a <= b then a else b }

  /** `u64::saturating_add`. */
  function SatAdd64(a: u64, b: u64): u64 { Min(a + b, U64_MAX) }

  /** `u128::checked_add(..).unwrap_or(a)`, the receiver keeps its value on overflow. */
  function AddOrKeep(a: u128, b: u128): u128 {
    if a + b <= U128_MAX then a + b else a
  }

  function At<K, V>(m: map<K, V>, k: K): Option<V> {
    if k in m then Some(m[k]) else None
  }

  /** Two maps agree at a key. */
  ghost predicate SameEntry<K, V>(m: map<K, V>, n: map<K, V>, k: K) {
    (k in m <==> k in n) && (k in m ==> m[k] == n[k])
  }

  lemma SameEverywhere<K(!new), V>(m: map<K, V>, n: map<K, V>)
    requires forall k: K :: SameEntry(m, n, k)
    ensures m == n
  {
    assert forall k :: k in m ==> SameEntry(m, n, k);
    assert forall k :: k in n ==> SameEntry(m, n, k);
    assert m.Keys == n.Keys;
  }

  /** Sum of a weight over the values of a finite map. */
  ghost function Sum<K(!new), V(!new)>(m: map<K, V>, w: V -> nat): nat
  {
    if m == map[] then 0
    else
      var k :| k in m;
      w(m[k]) + Sum(m - {k}, w)
  }

  lemma {:induction false} SumRemove<K(!new), V(!new)>(m: map<K, V>, k: K, w: V -> nat)
    requires k in m
    ensures Sum(m, w) == w(m[k]) + Sum(m - {k}, w)
    decreases |m|
  {
    var p :| p in m && Sum(m, w) == w(m[p]) + Sum(m - {p}, w);
    if p != k {
      SumRemove(m - {p}, k, w);
      SumRemove(m - {k}, p, w);
      assert m - {p} - {k} == m - {k} - {p};
    }
  }

  lemma SumInsert<K(!new), V(!new)>(m: map<K, V>, k: K, v: V, w: V -> nat)
    ensures Sum(m[k := v], w) + (if k in m then w(m[k]) else 0) == Sum(m, w) + w(v)
  {
    SumRemove(m[k := v], k, w);
    assert m[k := v] - {k} == m - {k};
    if k in m {
      SumRemove(m, k, w);
    } else {
      assert m - {k} == m;
    }
  }

  lemma SumAtLeast<K(!new), V(!new)>(m: map<K, V>, k: K, w: V -> nat)
    requires k in m
    ensures w(m[k]) <= Sum(m, w)
  {
    SumRemove(m, k, w);
  }

  // ------------------------------------------------- ascending map iteration

  predicate IsLeast(m: nat, s: set<nat>) {
    m in s && forall x :: x in s ==> m <= x
  }

  lemma {:induction false} HasLeast(s: set<nat>)
    requires s != {}
    ensures exists m :: IsLeast(m, s)
  {
    var m :| m in s;
    if s == {m} {
      assert IsLeast(m, s);
    } else {
      var rest := s - {m};
      HasLeast(rest);
      var n :| IsLeast(n, rest);
      assert s == rest + {m};
      assert IsLeast(if m <= n then m else n, s);
    }
  }

  /** Keys in the order a sorted map visits them. */
  function SortedKeys(s: set<nat>): (r: seq<nat>)
    ensures forall x :: x in s <==> x in r
    ensures Ascending(r)
  {
    if s == {} then []
    else
      HasLeast(s);
      var m :| IsLeast(m, s);
      [m] + SortedKeys(s - {m})
  }

  ghost predicate Ascending(xs: seq<nat>) {
    forall i, j :: 0 <= i < j < |xs| ==> xs[i] < xs[j]
  }

  // ---------------------------------------------------------------- quotients

  lemma QuotientIs(n: nat, d: nat)
    requires d != 0
    ensures n / d * d <= n < (n / d + 1) * d
  {
    assert n == n / d * d + n % d;
  }

  lemma NextMultiple(e: nat, e': nat, d: nat)
    requires e < e'
    ensures (e + 1) * d <= e' * d
  {
  }

  lemma OneQuotient(n: nat, d: nat, e: nat, e': nat)
    requires e * d <= n < (e + 1) * d && e' * d <= n < (e' + 1) * d
    ensures e == e'
  {
    if e < e' {
      NextMultiple(e, e', d);
    } else if e' < e {
      NextMultiple(e', e, d);
    }
  }
}
