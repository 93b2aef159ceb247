/** Polynomial openings (`crates/crypto/src/kzg.rs`) over any commutative ring, with curve points
    read in the exponent of the group generator. */
module Kzg {
  import opened Common

  datatype Ring<!F> = Ring(zero: F, one: F, add: (F, F) -> F, neg: F -> F, mul: (F, F) -> F)

  ghost predicate Lawful<F(!new)>(r: Ring<F>) {
    && (forall a, b :: r.add(a, b) == r.add(b, a))
    && (forall a, b, c :: r.add(r.add(a, b), c) == r.add(a, r.add(b, c)))
    && (forall a :: r.add(r.zero, a) == a)
    && (forall a :: r.add(a, r.neg(a)) == r.zero)
    && (forall a, b :: r.mul(a, b) == r.mul(b, a))
    && (forall a, b, c :: r.mul(r.mul(a, b), c) == r.mul(a, r.mul(b, c)))
    && (forall a :: r.mul(r.one, a) == a)
    && (forall a, b, c :: r.mul(a, r.add(b, c)) == r.add(r.mul(a, b), r.mul(a, c)))
  }

  function Sub<F>(r: Ring<F>, a: F, b: F): F { r.add(a, r.neg(b)) }

  // ---------------------------------------------------------------- ring laws

  lemma Distribute<F(!new)>(r: Ring<F>, a: F, b: F, c: F)
    requires Lawful(r)
    ensures r.mul(a, r.add(b, c)) == r.add(r.mul(a, b), r.mul(a, c))
    ensures r.mul(r.add(b, c), a) == r.add(r.mul(b, a), r.mul(c, a))
  {
    assert r.mul(r.add(b, c), a) == r.mul(a, r.add(b, c));
  }

  lemma Regroup<F(!new)>(r: Ring<F>, a: F, b: F, c: F)
    requires Lawful(r)
    ensures r.add(r.add(a, b), c) == r.add(r.add(a, c), b) == r.add(a, r.add(b, c))
  {
    assert r.add(b, c) == r.add(c, b);
  }

  lemma MulSwap<F(!new)>(r: Ring<F>, a: F, b: F, c: F)
    requires Lawful(r)
    ensures r.mul(r.mul(a, b), c) == r.mul(r.mul(a, c), b) == r.mul(a, r.mul(b, c))
  {
    assert r.mul(b, c) == r.mul(c, b);
  }

  /** a - b = c exactly when a = b + c. */
  lemma SubIff<F(!new)>(r: Ring<F>, a: F, b: F, c: F)
    requires Lawful(r)
    ensures Sub(r, a, b) == c <==> a == r.add(b, c)
  {
    assert r.add(b, r.neg(b)) == r.zero && r.add(r.neg(b), b) == r.zero;
    if Sub(r, a, b) == c {
      assert r.add(c, b) == r.add(a, r.add(r.neg(b), b)) == r.add(a, r.zero) == r.add(r.zero, a);
    }
    if a == r.add(b, c) {
      assert a == r.add(c, b);
      assert Sub(r, a, b) == r.add(c, r.add(b, r.neg(b))) == r.add(c, r.zero) == r.add(r.zero, c);
    }
  }

  lemma AddZero<F(!new)>(r: Ring<F>, a: F)
    requires Lawful(r)
    ensures r.add(r.zero, a) == r.add(a, r.zero) == a
  {
  }

  lemma MulZero<F(!new)>(r: Ring<F>, a: F)
    requires Lawful(r)
    ensures r.mul(a, r.zero) == r.zero && r.mul(r.zero, a) == r.zero
  {
    hide Lawful;
    var m := r.mul(a, r.zero);
    AddZero(r, r.zero);
    Distribute(r, a, r.zero, r.zero);
    assert m == r.add(m, m);
    SubIff(r, m, m, m);
    AddZero(r, m);
    SubIff(r, m, m, r.zero);
    Commute(r, a, r.zero);
  }

  // --------------------------------------------------------------- evaluation

  /** Horner's rule. */
  function Eval<F>(r: Ring<F>, p: seq<F>, z: F): F {
    if p == [] then r.zero else r.add(r.mul(Eval(r, p[1..], z), z), p[0])
  }

  method EvalPoly<F>(r: Ring<F>, p: seq<F>, z: F) returns (acc: F)
    ensures acc == Eval(r, p, z)
  {
    acc := r.zero;
    for i := |p| downto 0
      invariant acc == Eval(r, p[i..], z)
    {
      assert p[i..][1..] == p[i + 1..];
      acc := r.add(r.mul(acc, z), p[i]);
    }
    assert p[0..] == p;
  }

  function Pow<F>(r: Ring<F>, x: F, n: nat): F {
    if n == 0 then r.one else r.mul(Pow(r, x, n - 1), x)
  }

  /** The first `n` terms of the polynomial, written out. */
  ghost function Terms<F>(r: Ring<F>, p: seq<F>, x: F, n: nat): F
    requires n <= |p|
  {
    if n == 0 then r.zero else r.add(Terms(r, p, x, n - 1), r.mul(Pow(r, x, n - 1), p[n - 1]))
  }

  lemma {:induction false} TermsShift<F(!new)>(r: Ring<F>, p: seq<F>, x: F, n: nat)
    requires Lawful(r) && n < |p|
    ensures Terms(r, p, x, n + 1) == r.add(r.mul(Terms(r, p[1..], x, n), x), p[0])
  {
    hide Lawful;
    if n == 0 {
      FirstTerm(r, x, p[0]);
      assert Terms(r, p, x, 1) == r.add(Terms(r, p, x, 0), r.mul(Pow(r, x, 0), p[0]));
    } else {
      TermsShift(r, p, x, n - 1);
      var t, m := Terms(r, p[1..], x, n - 1), r.mul(Pow(r, x, n - 1), p[n]);
      calc {
        Terms(r, p, x, n + 1);
        r.add(Terms(r, p, x, n), r.mul(Pow(r, x, n), p[n]));
        { MulSwap(r, Pow(r, x, n - 1), x, p[n]); }
        r.add(r.add(r.mul(t, x), p[0]), r.mul(m, x));
        { Regroup(r, r.mul(t, x), p[0], r.mul(m, x)); }
        r.add(r.add(r.mul(t, x), r.mul(m, x)), p[0]);
        { Distribute(r, x, t, m); }
        r.add(r.mul(r.add(t, m), x), p[0]);
        { assert p[1..][n - 1] == p[n]; }
        r.add(r.mul(Terms(r, p[1..], x, n), x), p[0]);
      }
    }
  }

  lemma FirstTerm<F(!new)>(r: Ring<F>, x: F, c: F)
    requires Lawful(r)
    ensures r.add(r.zero, r.mul(r.one, c)) == r.add(r.mul(r.zero, x), c)
  {
    MulZero(r, x);
  }

  /** Horner's rule computes the sum of the terms. */
  lemma {:induction false} HornerIsSum<F(!new)>(r: Ring<F>, p: seq<F>, x: F)
    requires Lawful(r)
    ensures Eval(r, p, x) == Terms(r, p, x, |p|)
  {
    hide Lawful;
    if p != [] {
      HornerIsSum(r, p[1..], x);
      TermsShift(r, p, x, |p| - 1);
    }
  }

  // ----------------------------------------------------------------- quotient

  /** The coefficient of `x^i` in the quotient is the value at `z` of what follows `x^i`. */
  ghost function Quotient<F>(r: Ring<F>, p: seq<F>, z: F): (q: seq<F>)
    ensures |q| == if p == [] then 0 else |p| - 1
  {
    if |p| <= 1 then [] else [Eval(r, p[1..], z)] + Quotient(r, p[1..], z)
  }

  lemma {:induction false} QuotientAt<F>(r: Ring<F>, p: seq<F>, z: F, i: nat)
    requires i + 1 < |p|
    ensures Quotient(r, p, z)[i] == Eval(r, p[i + 1..], z)
  {
    if i > 0 {
      QuotientAt(r, p[1..], z, i - 1);
      assert p[1..][i..] == p[i + 1..];
    }
  }

  /** `quotient`: filled from the top coefficient down. */
  method QuotientLoop<F(!new)>(r: Ring<F>, p: seq<F>, z: F) returns (q: array<F>)
    requires Lawful(r)
    ensures q[..] == Quotient(r, p, z)
  {
    hide Lawful;
    hide Quotient;
    hide Eval;
    var n := |p|;
    if n <= 1 {
      q := new F[0](_ => r.zero);
      return;
    }
    q := new F[n - 1](_ => r.zero);
    q[n - 2] := p[n - 1];
    LastCoefficient(r, p, z);
    for i := n - 2 downto 0
      invariant forall j :: i <= j < n - 1 ==> q[j] == Eval(r, p[j + 1..], z)
    {
      q[i] := r.add(p[i + 1], r.mul(z, q[i + 1]));
      NextCoefficient(r, p, z, i);
    }
    forall j | 0 <= j < n - 1 ensures q[j] == Quotient(r, p, z)[j] {
      QuotientAt(r, p, z, j);
    }
  }

  lemma LastCoefficient<F(!new)>(r: Ring<F>, p: seq<F>, z: F)
    requires Lawful(r) && |p| > 1
    ensures Eval(r, p[|p| - 1..], z) == p[|p| - 1]
  {
    var last := p[|p| - 1..];
    assert last[1..] == [];
    MulZero(r, z);
  }

  lemma NextCoefficient<F(!new)>(r: Ring<F>, p: seq<F>, z: F, i: nat)
    requires Lawful(r) && i + 2 < |p|
    ensures Eval(r, p[i + 1..], z) == r.add(p[i + 1], r.mul(z, Eval(r, p[i + 2..], z)))
  {
    assert p[i + 1..][1..] == p[i + 2..];
  }

  /** p(x) = p(z) + (x - z) q(x), with the difference named `d`. */
  lemma {:induction false} Factor<F(!new)>(r: Ring<F>, p: seq<F>, x: F, z: F, d: F)
    requires Lawful(r) && x == r.add(z, d)
    ensures Eval(r, p, x) == r.add(Eval(r, p, z), r.mul(d, Eval(r, Quotient(r, p, z), x)))
  {
    hide Lawful;
    if |p| <= 1 {
      Constant(r, p, x, z, d);
    } else {
      var a, b, q := Eval(r, p[1..], x), Eval(r, p[1..], z), Eval(r, Quotient(r, p[1..], z), x);
      Factor(r, p[1..], x, z, d);
      assert Quotient(r, p, z)[0] == b && Quotient(r, p, z)[1..] == Quotient(r, p[1..], z);
      assert Eval(r, Quotient(r, p, z), x) == r.add(r.mul(q, x), b);
      FactorStep(r, p[0], x, z, d, a, b, q);
    }
  }

  lemma Constant<F(!new)>(r: Ring<F>, p: seq<F>, x: F, z: F, d: F)
    requires Lawful(r) && |p| <= 1
    ensures Eval(r, p, x) == r.add(Eval(r, p, z), r.mul(d, r.zero))
  {
    hide Lawful;
    MulZero(r, d);
    MulZero(r, x);
    MulZero(r, z);
    AddZero(r, Eval(r, p, z));
  }

  lemma FactorStep<F(!new)>(r: Ring<F>, c: F, x: F, z: F, d: F, a: F, b: F, q: F)
    requires Lawful(r) && x == r.add(z, d) && a == r.add(b, r.mul(d, q))
    ensures r.add(r.mul(a, x), c) == r.add(r.add(r.mul(b, z), c), r.mul(d, r.add(r.mul(q, x), b)))
  {
    hide Lawful;
    var bz, db, dqx := r.mul(b, z), r.mul(d, b), r.mul(r.mul(d, q), x);
    calc {
      r.add(r.mul(a, x), c);
      { Distribute(r, x, b, r.mul(d, q)); }
      r.add(r.add(r.mul(b, x), dqx), c);
      { Distribute(r, b, z, d); Commute(r, b, d); }
      r.add(r.add(r.add(bz, db), dqx), c);
      { Regroup(r, r.add(bz, db), dqx, c); Regroup(r, bz, db, c); }
      r.add(r.add(r.add(bz, c), db), dqx);
      { Regroup(r, r.add(bz, c), db, dqx); }
      r.add(r.add(bz, c), r.add(db, dqx));
      { Commute(r, db, dqx); MulSwap(r, d, q, x); Distribute(r, d, r.mul(q, x), b); }
      r.add(r.add(bz, c), r.mul(d, r.add(r.mul(q, x), b)));
    }
  }

  lemma Commute<F(!new)>(r: Ring<F>, a: F, b: F)
    requires Lawful(r)
    ensures r.add(a, b) == r.add(b, a) && r.mul(a, b) == r.mul(b, a)
  {
  }

  // ------------------------------------------------- commitments and openings

  datatype Result<F> = Ok(value: F) | TooLong

  /** Powers of `tau`, each standing for the curve point it multiplies. */
  ghost predicate IsSrs<F>(r: Ring<F>, srs: seq<F>, tau: F) {
    forall i :: 0 <= i < |srs| ==> srs[i] == Pow(r, tau, i)
  }

  method Setup<F>(r: Ring<F>, degree: nat, tau: F) returns (srs: Option<seq<F>>)
    ensures srs.Some? <==> degree >= 1
    ensures srs.Some? ==> |srs.value| == degree + 1 && IsSrs(r, srs.value, tau)
  {
    if degree < 1 {
      return None;
    }
    var acc := r.one;
    var powers: seq<F> := [];
    for i := 0 to degree + 1
      invariant |powers| == i && acc == Pow(r, tau, i) && IsSrs(r, powers, tau)
    {
      powers := powers + [acc];
      acc := r.mul(acc, tau);
    }
    srs := Some(powers);
  }

  /** `msm`: it skips zero coefficients and refuses a polynomial longer than the setup. */
  method Commit<F(==, !new)>(r: Ring<F>, srs: seq<F>, p: seq<F>, ghost tau: F) returns (c: Result<F>)
    requires Lawful(r) && IsSrs(r, srs, tau)
    ensures c == if |p| > |srs| then TooLong else Ok(Eval(r, p, tau))
  {
    hide Lawful;
    if |p| > |srs| {
      return TooLong;
    }
    var acc := r.zero;
    for i := 0 to |p|
      invariant acc == Terms(r, p, tau, i)
    {
      if p[i] != r.zero {
        acc := r.add(acc, r.mul(srs[i], p[i]));
      } else {
        ZeroTerm(r, acc, srs[i]);
      }
    }
    HornerIsSum(r, p, tau);
    c := Ok(acc);
  }

  lemma ZeroTerm<F(!new)>(r: Ring<F>, acc: F, g: F)
    requires Lawful(r)
    ensures r.add(acc, r.mul(g, r.zero)) == acc
  {
    hide Lawful;
    MulZero(r, g);
    AddZero(r, acc);
  }

  datatype Opening<F> = Opening(z: F, y: F, proof: F)

  method Open<F(==, !new)>(r: Ring<F>, srs: seq<F>, p: seq<F>, z: F, ghost tau: F) returns (o: Result<Opening<F>>)
    requires Lawful(r) && IsSrs(r, srs, tau)
    ensures o == if p != [] && |p| - 1 > |srs| then TooLong
                 else Ok(Opening(z, Eval(r, p, z), Eval(r, Quotient(r, p, z), tau)))
  {
    hide Lawful;
    hide IsSrs;
    var y := EvalPoly(r, p, z);
    var q := QuotientLoop(r, p, z);
    var proof := Commit(r, srs, q[..], tau);
    o := if proof.TooLong? then TooLong else Ok(Opening(z, y, proof.value));
  }

  /** The pairing equation of `verify`, read in the exponent. */
  ghost predicate Verifies<F>(r: Ring<F>, tau: F, commitment: F, o: Opening<F>) {
    Sub(r, commitment, o.y) == r.mul(o.proof, Sub(r, tau, o.z))
  }

  /** With an honest commitment and quotient, `verify` accepts a claimed value exactly when it is
      the polynomial's value. */
  lemma HonestOpeningIff<F(!new)>(r: Ring<F>, p: seq<F>, tau: F, z: F, y: F)
    requires Lawful(r)
    ensures Verifies(r, tau, Eval(r, p, tau), Opening(z, y, Eval(r, Quotient(r, p, z), tau))) <==> y == Eval(r, p, z)
  {
    hide Lawful;
    hide Eval;
    var d, q := Sub(r, tau, z), Eval(r, Quotient(r, p, z), tau);
    SubIff(r, tau, z, d);
    Factor(r, p, tau, z, d);
    Commute(r, d, q);
    SubIff(r, Eval(r, p, tau), y, r.mul(q, d));
    CancelRight(r, y, Eval(r, p, z), r.mul(q, d));
  }

  lemma CancelRight<F(!new)>(r: Ring<F>, a: F, b: F, c: F)
    requires Lawful(r)
    ensures r.add(a, c) == r.add(b, c) <==> a == b
  {
    hide Lawful;
    SubIff(r, r.add(a, c), c, a);
    SubIff(r, r.add(b, c), c, b);
    Commute(r, a, c);
    Commute(r, b, c);
  }
}
