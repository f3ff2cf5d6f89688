/**
 * Dense univariate polynomials as coefficient vectors, lowest degree first,
 * and what the vector operations mean: evaluation is a ring homomorphism
 * for padded addition, scaling and convolution, and the Lagrange basis and
 * interpolation reproduce their samples.  The three polynomial types of the
 * repository are all proved against these definitions.
 */
module UniTheory {
  import opened Field

  // ---------------------------------------------------------------------
  // Evaluation
  // ---------------------------------------------------------------------

  /** Coefficient i, zero past the end of the vector. */
  function Coef(c: seq<Fe>, i: nat): Fe
  {
    if i < |c| then c[i] else 0
  }

  /** The sum of the first n terms c_i·x^i, added in index order. */
  function EvalN(c: seq<Fe>, n: nat, x: Fe): Fe
  {
    if n == 0 then 0 else Add(EvalN(c, n - 1, x), Mul(Coef(c, n - 1), Pow(x, n - 1)))
  }

  /** The value at x of the polynomial with coefficient vector c. */
  function EvalPoly(c: seq<Fe>, x: Fe): Fe
  {
    EvalN(c, |c|, x)
  }

  /** Terms past the end of the vector add nothing: trailing zeros do not change the value. */
  lemma {:induction false} EvalNPastEnd(c: seq<Fe>, n: nat, x: Fe)
    requires n >= |c|
    ensures EvalN(c, n, x) == EvalPoly(c, x)
    decreases n
  {
    if n > |c| {
      EvalNPastEnd(c, n - 1, x);
      MulZero(Pow(x, n - 1));
      AddZero(EvalN(c, n - 1, x));
    }
  }

  /** Two vectors with the same first n coefficients agree on their first n terms. */
  lemma {:induction false} EvalNExt(a: seq<Fe>, b: seq<Fe>, n: nat, x: Fe)
    requires forall i :: 0 <= i < n ==> Coef(a, i) == Coef(b, i)
    ensures EvalN(a, n, x) == EvalN(b, n, x)
    decreases n
  {
    if n > 0 {
      EvalNExt(a, b, n - 1, x);
    }
  }

  /** The zero vector of length n. */
  function Zeros(n: nat): (z: seq<Fe>)
    ensures |z| == n && forall i :: 0 <= i < n ==> z[i] == 0
  {
    seq(n, _ => 0)
  }

  lemma {:induction false} EvalZeros(n: nat, x: Fe)
    ensures EvalPoly(Zeros(n), x) == 0
  {
    EvalNExt(Zeros(n), [], n, x);
    EvalNPastEnd([], n, x);
  }

  // ---------------------------------------------------------------------
  // Padded addition and scaling
  // ---------------------------------------------------------------------

  /** Coefficient-wise sum, the shorter vector padded with zeros. */
  function PaddedAdd(l: seq<Fe>, r: seq<Fe>): (s: seq<Fe>)
    ensures |s| == if |l| > |r| then |l| else |r|
  {
    var n := if |l| > |r| then |l| else |r|;
    seq(n, i requires 0 <= i < n => Add(Coef(l, i), Coef(r, i)))
  }

  lemma PaddedAddCoef(l: seq<Fe>, r: seq<Fe>, i: nat)
    ensures Coef(PaddedAdd(l, r), i) == Add(Coef(l, i), Coef(r, i))
  {
  }

  lemma {:induction false} EvalNAdd(l: seq<Fe>, r: seq<Fe>, n: nat, x: Fe)
    ensures EvalN(PaddedAdd(l, r), n, x) == Add(EvalN(l, n, x), EvalN(r, n, x))
    decreases n
  {
    if n == 0 {
      AddZero(0);
    } else {
      var X := Pow(x, n - 1);
      EvalNAdd(l, r, n - 1, x);
      PaddedAddCoef(l, r, n - 1);
      Distrib(X, Coef(l, n - 1), Coef(r, n - 1));
      MulComm(Add(Coef(l, n - 1), Coef(r, n - 1)), X);
      MulComm(Coef(l, n - 1), X);
      MulComm(Coef(r, n - 1), X);
      AddSwapMiddle(EvalN(l, n - 1, x), EvalN(r, n - 1, x), Mul(Coef(l, n - 1), X), Mul(Coef(r, n - 1), X));
    }
  }

  /** Evaluation is additive over padded addition. */
  lemma EvalPaddedAdd(l: seq<Fe>, r: seq<Fe>, x: Fe)
    ensures EvalPoly(PaddedAdd(l, r), x) == Add(EvalPoly(l, x), EvalPoly(r, x))
  {
    var n := |PaddedAdd(l, r)|;
    EvalNAdd(l, r, n, x);
    EvalNPastEnd(l, n, x);
    EvalNPastEnd(r, n, x);
  }

  /** Every coefficient multiplied by k. */
  function Scale(k: Fe, c: seq<Fe>): (s: seq<Fe>)
    ensures |s| == |c|
  {
    seq(|c|, i requires 0 <= i < |c| => Mul(k, c[i]))
  }

  lemma {:induction false} EvalNScale(k: Fe, c: seq<Fe>, n: nat, x: Fe)
    ensures EvalN(Scale(k, c), n, x) == Mul(k, EvalN(c, n, x))
    decreases n
  {
    if n == 0 {
      MulZero(k);
    } else {
      var X := Pow(x, n - 1);
      EvalNScale(k, c, n - 1, x);
      assert Coef(Scale(k, c), n - 1) == Mul(k, Coef(c, n - 1)) by {
        if n - 1 >= |c| { MulZero(k); }
      }
      MulAssoc(k, Coef(c, n - 1), X);
      Distrib(k, EvalN(c, n - 1, x), Mul(Coef(c, n - 1), X));
    }
  }

  /** Evaluation is homogeneous: scaling the coefficients scales the value. */
  lemma EvalScale(k: Fe, c: seq<Fe>, x: Fe)
    ensures EvalPoly(Scale(k, c), x) == Mul(k, EvalPoly(c, x))
  {
    EvalNScale(k, c, |c|, x);
  }

  // ---------------------------------------------------------------------
  // Convolution, accumulated row by row as the double loops do
  // ---------------------------------------------------------------------

  /** acc with c·r_j added at position i + j, for j < b: the inner loop of a product. */
  function AddRow(acc: seq<Fe>, c: Fe, r: seq<Fe>, i: nat, b: nat): (q: seq<Fe>)
    requires b <= |r| && i + b <= |acc|
    ensures |q| == |acc|
  {
    if b == 0 then acc
    else
      var q := AddRow(acc, c, r, i, b - 1);
      q[i + b - 1 := Add(q[i + b - 1], Mul(c, r[b - 1]))]
  }

  /** The product accumulator after the rows of the first a coefficients of l. */
  function ConvRows(l: seq<Fe>, r: seq<Fe>, a: nat): (q: seq<Fe>)
    requires a <= |l| && |l| + |r| >= 1
    ensures |q| == |l| + |r| - 1
  {
    if a == 0 then Zeros(|l| + |r| - 1) else AddRow(ConvRows(l, r, a - 1), l[a - 1], r, a - 1, |r|)
  }

  /** The coefficient vector of the product of l and r. */
  function Conv(l: seq<Fe>, r: seq<Fe>): (q: seq<Fe>)
    requires |l| + |r| >= 1
    ensures |q| == |l| + |r| - 1
  {
    ConvRows(l, r, |l|)
  }

  /** Adding d to coefficient k adds d·x^k to every prefix sum that includes it. */
  lemma {:induction false} EvalNBump(acc: seq<Fe>, k: nat, d: Fe, n: nat, x: Fe)
    requires k < |acc|
    ensures EvalN(acc[k := Add(acc[k], d)], n, x)
         == if n > k then Add(EvalN(acc, n, x), Mul(d, Pow(x, k))) else EvalN(acc, n, x)
    decreases n
  {
    var acc' := acc[k := Add(acc[k], d)];
    if n == 0 {
    } else if n - 1 > k {
      EvalNBump(acc, k, d, n - 1, x);
      var D, T := Mul(d, Pow(x, k)), Mul(Coef(acc, n - 1), Pow(x, n - 1));
      assert Coef(acc', n - 1) == Coef(acc, n - 1);
      AddAssoc(EvalN(acc, n - 1, x), D, T);
      AddComm(D, T);
      AddAssoc(EvalN(acc, n - 1, x), T, D);
    } else if n - 1 == k {
      EvalNExt(acc', acc, k, x);
      var X := Pow(x, k);
      assert Coef(acc', k) == Add(acc[k], d);
      Distrib(X, acc[k], d);
      MulComm(Add(acc[k], d), X);
      MulComm(acc[k], X);
      MulComm(d, X);
      AddAssoc(EvalN(acc, k, x), Mul(acc[k], X), Mul(d, X));
    } else {
      EvalNExt(acc', acc, n, x);
    }
  }

  lemma EvalBump(acc: seq<Fe>, k: nat, d: Fe, x: Fe)
    requires k < |acc|
    ensures EvalPoly(acc[k := Add(acc[k], d)], x) == Add(EvalPoly(acc, x), Mul(d, Pow(x, k)))
  {
    EvalNBump(acc, k, d, |acc|, x);
  }

  /** The term c·r_j·x^(i+j) factors as (c·x^i)·(r_j·x^j). */
  lemma TermSplit(c: Fe, rj: Fe, x: Fe, i: nat, j: nat)
    ensures Mul(Mul(c, rj), Pow(x, i + j)) == Mul(Mul(c, Pow(x, i)), Mul(rj, Pow(x, j)))
  {
    PowAdd(x, i, j);
    MulSwapMiddle(c, rj, Pow(x, i), Pow(x, j));
    MulSwapMiddle(c, Pow(x, i), rj, Pow(x, j));
  }

  lemma {:induction false} EvalAddRow(acc: seq<Fe>, c: Fe, r: seq<Fe>, i: nat, b: nat, x: Fe)
    requires b <= |r| && i + b <= |acc|
    ensures EvalPoly(AddRow(acc, c, r, i, b), x) == Add(EvalPoly(acc, x), Mul(Mul(c, Pow(x, i)), EvalN(r, b, x)))
    decreases b
  {
    var C := Mul(c, Pow(x, i));
    if b == 0 {
      MulZero(C);
      AddZero(EvalPoly(acc, x));
    } else {
      var q := AddRow(acc, c, r, i, b - 1);
      EvalAddRow(acc, c, r, i, b - 1, x);
      EvalBump(q, i + b - 1, Mul(c, r[b - 1]), x);
      TermSplit(c, r[b - 1], x, i, b - 1);
      assert Coef(r, b - 1) == r[b - 1];
      Distrib(C, EvalN(r, b - 1, x), Mul(r[b - 1], Pow(x, b - 1)));
      AddAssoc(EvalPoly(acc, x), Mul(C, EvalN(r, b - 1, x)), Mul(C, Mul(r[b - 1], Pow(x, b - 1))));
    }
  }

  lemma {:induction false} EvalConvRows(l: seq<Fe>, r: seq<Fe>, a: nat, x: Fe)
    requires a <= |l| && |l| + |r| >= 1
    ensures EvalPoly(ConvRows(l, r, a), x) == Mul(EvalN(l, a, x), EvalPoly(r, x))
    decreases a
  {
    var R := EvalPoly(r, x);
    if a == 0 {
      EvalZeros(|l| + |r| - 1, x);
      MulZero(R);
    } else {
      EvalConvRows(l, r, a - 1, x);
      EvalAddRow(ConvRows(l, r, a - 1), l[a - 1], r, a - 1, |r|, x);
      assert Coef(l, a - 1) == l[a - 1];
      Distrib(R, EvalN(l, a - 1, x), Mul(l[a - 1], Pow(x, a - 1)));
    }
  }

  /** Evaluation is multiplicative over convolution. */
  lemma EvalConv(l: seq<Fe>, r: seq<Fe>, x: Fe)
    requires |l| + |r| >= 1
    ensures EvalPoly(Conv(l, r), x) == Mul(EvalPoly(l, x), EvalPoly(r, x))
  {
    EvalConvRows(l, r, |l|, x);
  }

  // ---------------------------------------------------------------------
  // The Lagrange basis and interpolation
  // ---------------------------------------------------------------------

  /** The factor (X - a) as a coefficient vector. */
  function LinearFactor(a: Fe): (c: seq<Fe>)
    ensures |c| == 2
  {
    [Neg(a), 1]
  }

  lemma EvalLinearFactor(a: Fe, t: Fe)
    ensures EvalPoly(LinearFactor(a), t) == Sub(t, a)
  {
    var c := LinearFactor(a);
    MulOne(Neg(a));
    MulOne(t);
    assert EvalN(c, 1, t) == Add(0, Mul(Neg(a), 1));
    AddZero(Neg(a));
    assert EvalPoly(c, t) == Add(Neg(a), Mul(1, Pow(t, 1)));
    assert Pow(t, 1) == Mul(1, t);
    NegAddIsSub(a, t);
  }

  lemma NegAddIsSub(a: Fe, t: Fe)
    ensures Add(Neg(a), t) == Sub(t, a)
  {
    Canonical(a); Canonical(t);
    var na: int := 0 - a;
    SubLift(0, a);
    AddLift(na, t);
    SubLift(t, a);
  }

  /** The product of (X - x) over the points x of xs that differ from focus, multiplied in order. */
  function Numerator(focus: Fe, xs: seq<Fe>): (c: seq<Fe>)
    ensures |c| >= 1
  {
    if |xs| == 0 then [1]
    else
      var c := Numerator(focus, xs[..|xs| - 1]);
      if xs[|xs| - 1] != focus then Conv(c, LinearFactor(xs[|xs| - 1])) else c
  }

  /** The numerator is nonzero at its focus. */
  lemma {:induction false} NumeratorAtFocus(focus: Fe, xs: seq<Fe>)
    ensures EvalPoly(Numerator(focus, xs), focus) != 0
    decreases |xs|
  {
    if |xs| == 0 {
      var one: seq<Fe> := [1];
      assert EvalN(one, 0, focus) == 0;
      assert Coef(one, 0) == 1 && Pow(focus, 0) == 1;
      assert EvalPoly(one, focus) == Add(0, Mul(1, 1));
    } else {
      var rest, a := xs[..|xs| - 1], xs[|xs| - 1];
      NumeratorAtFocus(focus, rest);
      if a != focus {
        EvalConv(Numerator(focus, rest), LinearFactor(a), focus);
        EvalLinearFactor(a, focus);
        SubNonzero(focus, a);
        NoZeroDivisors(EvalPoly(Numerator(focus, rest), focus), Sub(focus, a));
      }
    }
  }

  lemma SubNonzero(a: Fe, b: Fe)
    ensures Sub(a, b) == 0 <==> a == b
  {
  }

  /** The numerator vanishes at every other point of the set. */
  lemma {:induction false} NumeratorVanishes(focus: Fe, xs: seq<Fe>, t: Fe)
    requires t in xs && t != focus
    ensures EvalPoly(Numerator(focus, xs), t) == 0
    decreases |xs|
  {
    var rest, a := xs[..|xs| - 1], xs[|xs| - 1];
    assert xs == rest + [a];
    var n := Numerator(focus, rest);
    if a == t {
      EvalConv(n, LinearFactor(a), t);
      EvalLinearFactor(a, t);
      SubNonzero(t, a);
      MulZero(EvalPoly(n, t));
    } else {
      NumeratorVanishes(focus, rest, t);
      if a != focus {
        EvalConv(n, LinearFactor(a), t);
        MulZero(EvalPoly(LinearFactor(a), t));
      }
    }
  }

  /** How many points of xs equal x. */
  function Count(x: Fe, xs: seq<Fe>): nat
  {
    if |xs| == 0 then 0 else Count(x, xs[..|xs| - 1]) + (if xs[|xs| - 1] == x then 1 else 0)
  }

  /** The numerator has one coefficient more than there are points other than its focus. */
  lemma {:induction false} NumeratorLength(focus: Fe, xs: seq<Fe>)
    ensures |Numerator(focus, xs)| == 1 + |xs| - Count(focus, xs)
    decreases |xs|
  {
    if |xs| > 0 {
      NumeratorLength(focus, xs[..|xs| - 1]);
      CountBound(focus, xs[..|xs| - 1]);
    }
  }

  lemma {:induction false} CountBound(x: Fe, xs: seq<Fe>)
    ensures Count(x, xs) <= |xs|
    decreases |xs|
  {
    if |xs| > 0 {
      CountBound(x, xs[..|xs| - 1]);
    }
  }

  predicate Distinct(xs: seq<Fe>)
  {
    forall i, j :: 0 <= i < j < |xs| ==> xs[i] != xs[j]
  }

  /** A point of a set of distinct points occurs in it exactly once. */
  lemma {:induction false} CountDistinct(xs: seq<Fe>, k: nat)
    requires Distinct(xs) && k < |xs|
    ensures Count(xs[k], xs) == 1
    decreases |xs|
  {
    var rest := xs[..|xs| - 1];
    if k < |xs| - 1 {
      CountDistinct(rest, k);
    } else {
      CountAbsent(xs[k], rest);
    }
  }

  lemma {:induction false} CountAbsent(x: Fe, xs: seq<Fe>)
    requires x !in xs
    ensures Count(x, xs) == 0
    decreases |xs|
  {
    if |xs| > 0 {
      assert xs[..|xs| - 1] <= xs;
      CountAbsent(x, xs[..|xs| - 1]);
    }
  }

  /**
   * The Lagrange basis polynomial of the point focus over xs, scaled to
   * take the value y at focus: the numerator times y / numerator(focus).
   */
  function Basis(y: Fe, focus: Fe, xs: seq<Fe>): (c: seq<Fe>)
    ensures |c| == |Numerator(focus, xs)|
  {
    NumeratorAtFocus(focus, xs);
    Scale(Div(y, EvalPoly(Numerator(focus, xs), focus)), Numerator(focus, xs))
  }

  /** The basis takes the value y at its focus and 0 at every other point of the set. */
  lemma BasisEval(y: Fe, focus: Fe, xs: seq<Fe>, t: Fe)
    ensures t == focus ==> EvalPoly(Basis(y, focus, xs), t) == y
    ensures t in xs && t != focus ==> EvalPoly(Basis(y, focus, xs), t) == 0
  {
    var n := Numerator(focus, xs);
    NumeratorAtFocus(focus, xs);
    var d := EvalPoly(n, focus);
    EvalScale(Div(y, d), n, t);
    if t == focus {
      DivMul(y, d);
    } else if t in xs {
      NumeratorVanishes(focus, xs, t);
      MulZero(Div(y, d));
    }
  }

  /** The running sum of a list of coefficient vectors, starting from [0]. */
  function SumPolys(ps: seq<seq<Fe>>): (c: seq<Fe>)
    ensures |c| >= 1
  {
    if |ps| == 0 then [0] else PaddedAdd(SumPolys(ps[..|ps| - 1]), ps[|ps| - 1])
  }

  /** Every vector of the list evaluated at t. */
  function EvalsAt(ps: seq<seq<Fe>>, t: Fe): (v: seq<Fe>)
    ensures |v| == |ps| && forall j :: 0 <= j < |ps| ==> v[j] == EvalPoly(ps[j], t)
  {
    seq(|ps|, j requires 0 <= j < |ps| => EvalPoly(ps[j], t))
  }

  /** The running sum evaluates to the sum of the evaluations. */
  lemma {:induction false} EvalSumPolys(ps: seq<seq<Fe>>, t: Fe)
    ensures EvalPoly(SumPolys(ps), t) == Sum(EvalsAt(ps, t))
    decreases |ps|
  {
    var n := |ps|;
    if n == 0 {
      EvalZeros(1, t);
      assert Zeros(1) == SumPolys(ps);
    } else {
      var init, v := ps[..n - 1], EvalsAt(ps, t);
      EvalSumPolys(init, t);
      assert v[..n - 1] == EvalsAt(init, t);
      assert Sum(v) == Add(Sum(EvalsAt(init, t)), EvalPoly(ps[n - 1], t));
      assert SumPolys(ps) == PaddedAdd(SumPolys(init), ps[n - 1]);
      EvalPaddedAdd(SumPolys(init), ps[n - 1], t);
    }
  }

  /** A running sum of vectors of one length L keeps that length (or is [0]). */
  lemma {:induction false} SumPolysLength(ps: seq<seq<Fe>>, len: nat)
    requires len >= 1 && forall j :: 0 <= j < |ps| ==> |ps[j]| == len
    ensures |SumPolys(ps)| == if |ps| == 0 then 1 else len
    decreases |ps|
  {
    if |ps| > 0 {
      SumPolysLength(ps[..|ps| - 1], len);
    }
  }

  /** A sum whose only possibly nonzero term is term m. */
  lemma {:induction false} SumOneHot(v: seq<Fe>, m: nat, y: Fe)
    requires forall j :: 0 <= j < |v| ==> v[j] == if j == m then y else 0
    ensures Sum(v) == if m < |v| then y else 0
    decreases |v|
  {
    var n := |v|;
    if n > 0 {
      SumOneHot(v[..n - 1], m, y);
      if m == n - 1 {
        AddComm(0, y);
        AddZero(y);
      } else {
        AddZero(Sum(v[..n - 1]));
      }
    }
  }

  /** The bases of the first i samples. */
  function Bases(xs: seq<Fe>, ys: seq<Fe>, i: nat): (b: seq<seq<Fe>>)
    requires i <= |xs| && i <= |ys|
    ensures |b| == i && forall j :: 0 <= j < i ==> b[j] == Basis(ys[j], xs[j], xs)
  {
    seq(i, j requires 0 <= j < i => Basis(ys[j], xs[j], xs))
  }

  /** Lagrange interpolation of the first i samples over the points xs: the running sum of their bases. */
  function Interp(xs: seq<Fe>, ys: seq<Fe>, i: nat): (c: seq<Fe>)
    requires i <= |xs| && i <= |ys|
    ensures |c| >= 1
  {
    SumPolys(Bases(xs, ys, i))
  }

  /** Adding one more sample's basis to the running sum. */
  lemma InterpSnoc(xs: seq<Fe>, ys: seq<Fe>, i: nat)
    requires i < |xs| && i < |ys|
    ensures Interp(xs, ys, i + 1) == PaddedAdd(Interp(xs, ys, i), Basis(ys[i], xs[i], xs))
  {
    assert Bases(xs, ys, i + 1)[..i] == Bases(xs, ys, i);
  }

  /** At a point of distinct xs, the first i bases contribute that point's sample if it is among them. */
  lemma InterpPartialEval(xs: seq<Fe>, ys: seq<Fe>, i: nat, m: nat)
    requires i <= |xs| && i <= |ys| && m < |xs| && Distinct(xs)
    ensures EvalPoly(Interp(xs, ys, i), xs[m]) == if m < i then ys[m] else 0
  {
    var ps := Bases(xs, ys, i);
    var y := if m < i then ys[m] else 0;
    var v := EvalsAt(ps, xs[m]);
    forall j | 0 <= j < |v|
      ensures v[j] == if j == m then y else 0
    {
      if j == m {
        BasisAtOwn(xs, ys[j], j);
      } else {
        BasisAtOther(xs, ys[j], j, m);
      }
    }
    SumOneHot(v, m, y);
    EvalSumPolys(ps, xs[m]);
  }

  /** Over distinct points, the basis of point k takes y at point k... */
  lemma BasisAtOwn(xs: seq<Fe>, y: Fe, k: nat)
    requires k < |xs|
    ensures EvalPoly(Basis(y, xs[k], xs), xs[k]) == y
  {
    BasisEval(y, xs[k], xs, xs[k]);
  }

  /** ...and 0 at every other point. */
  lemma BasisAtOther(xs: seq<Fe>, y: Fe, k: nat, m: nat)
    requires k < |xs| && m < |xs| && m != k && Distinct(xs)
    ensures EvalPoly(Basis(y, xs[k], xs), xs[m]) == 0
  {
    BasisEval(y, xs[k], xs, xs[m]);
    assert xs[k] != xs[m];
  }

  /** Interpolation through distinct points reproduces every sample. */
  lemma InterpEval(xs: seq<Fe>, ys: seq<Fe>, m: nat)
    requires |xs| <= |ys| && m < |xs| && Distinct(xs)
    ensures EvalPoly(Interp(xs, ys, |xs|), xs[m]) == ys[m]
  {
    InterpPartialEval(xs, ys, |xs|, m);
  }

  /** Interpolation through distinct points: one coefficient per point (at least one), every sample reproduced. */
  lemma InterpThrough(xs: seq<Fe>, ys: seq<Fe>)
    requires Distinct(xs) && |xs| <= |ys|
    ensures |Interp(xs, ys, |xs|)| == if |xs| == 0 then 1 else |xs|
    ensures forall m :: 0 <= m < |xs| ==> EvalPoly(Interp(xs, ys, |xs|), xs[m]) == ys[m]
  {
    InterpLength(xs, ys, |xs|);
    forall m | 0 <= m < |xs|
      ensures EvalPoly(Interp(xs, ys, |xs|), xs[m]) == ys[m]
    {
      InterpEval(xs, ys, m);
    }
  }

  /** Through distinct points, every basis has |xs| coefficients, and so has the interpolant (at least one). */
  lemma InterpLength(xs: seq<Fe>, ys: seq<Fe>, i: nat)
    requires i <= |xs| && i <= |ys| && Distinct(xs)
    ensures |Interp(xs, ys, i)| == if i == 0 then 1 else |xs|
  {
    var ps := Bases(xs, ys, i);
    forall j | 0 <= j < i
      ensures |ps[j]| == |xs|
    {
      BasisLength(ys[j], xs, j);
    }
    if i == 0 {
      SumPolysLength(ps, 1);
    } else {
      SumPolysLength(ps, |xs|);
    }
  }

  lemma BasisLength(y: Fe, xs: seq<Fe>, k: nat)
    requires k < |xs| && Distinct(xs)
    ensures |Basis(y, xs[k], xs)| == |xs|
  {
    CountDistinct(xs, k);
    NumeratorLength(xs[k], xs);
  }

  // ---------------------------------------------------------------------
  // Uniqueness: the factor theorem and its consequences
  // ---------------------------------------------------------------------

  /** Horner's split of the first n + 1 terms: c_0 + t·(terms of c shifted down by one). */
  lemma {:induction false} EvalNTail(c: seq<Fe>, n: nat, t: Fe)
    requires |c| >= 1
    ensures EvalN(c, n + 1, t) == Add(c[0], Mul(t, EvalN(c[1..], n, t)))
    decreases n
  {
    if n == 0 {
      assert EvalN(c, 0, t) == 0 && Pow(t, 0) == 1 && Coef(c, 0) == c[0];
      MulOne(c[0]);
      AddZero(c[0]);
      MulZero(t);
    } else {
      EvalNTail(c, n - 1, t);
      var d := c[1..];
      var k, X, E := Coef(d, n - 1), Pow(t, n - 1), EvalN(d, n - 1, t);
      assert Coef(c, n) == k;
      assert Pow(t, n) == Mul(X, t);
      MulAssoc(k, X, t);
      MulComm(Mul(k, X), t);
      Distrib(t, E, Mul(k, X));
      AddAssoc(c[0], Mul(t, E), Mul(t, Mul(k, X)));
    }
  }

  /** Horner's split: c(t) = c_0 + t·c'(t), where c' drops the constant term. */
  lemma EvalTail(c: seq<Fe>, t: Fe)
    requires |c| >= 1
    ensures EvalPoly(c, t) == Add(c[0], Mul(t, EvalPoly(c[1..], t)))
  {
    EvalNTail(c, |c| - 1, t);
  }

  /** Synthetic division by (X - a): the quotient, one coefficient shorter. */
  function Quotient(c: seq<Fe>, a: Fe): (q: seq<Fe>)
    ensures |q| == if |c| == 0 then 0 else |c| - 1
  {
    if |c| <= 1 then [] else PaddedAdd(c[1..], Scale(a, Quotient(c[1..], a)))
  }

  lemma SubChain(x: Fe, y: Fe, z: Fe)
    ensures Add(Sub(x, y), Sub(y, z)) == Sub(x, z)
  {
    Canonical(x); Canonical(y); Canonical(z);
    SubLift(x, y);
    SubLift(y, z);
    AddLift(x - y, y - z);
  }

  lemma FactorStep(c0: Fe, t: Fe, a: Fe, dt: Fe, da: Fe, qt: Fe)
    requires Sub(dt, da) == Mul(Sub(t, a), qt)
    ensures Sub(Add(c0, Mul(t, dt)), Add(c0, Mul(a, da))) == Mul(Sub(t, a), Add(dt, Mul(a, qt)))
  {
    var s := Sub(t, a);
    AddSubPair(c0, Mul(t, dt), c0, Mul(a, da));
    SubSelf(c0);
    AddZero(Sub(Mul(t, dt), Mul(a, da)));
    Distrib(s, dt, Mul(a, qt));
    DistribSub(dt, t, a);
    MulComm(Sub(t, a), dt);
    MulComm(t, dt);
    MulComm(a, dt);
    MulAssoc(s, a, qt);
    MulComm(s, a);
    MulAssoc(a, s, qt);
    DistribSub(a, dt, da);
    SubChain(Mul(t, dt), Mul(a, dt), Mul(a, da));
  }

  /** The factor theorem: c(t) - c(a) = (t - a)·q(t) for the quotient q of c by (X - a). */
  lemma {:induction false} FactorTheorem(c: seq<Fe>, a: Fe, t: Fe)
    ensures Sub(EvalPoly(c, t), EvalPoly(c, a)) == Mul(Sub(t, a), EvalPoly(Quotient(c, a), t))
    decreases |c|
  {
    if |c| == 0 {
      SubSelf(0);
      MulZero(Sub(t, a));
    } else if |c| == 1 {
      EvalTail(c, t);
      EvalTail(c, a);
      assert EvalPoly(c[1..], t) == 0 && EvalPoly(c[1..], a) == 0;
      MulZero(t);
      MulZero(a);
      AddZero(c[0]);
      SubSelf(c[0]);
      MulZero(Sub(t, a));
    } else {
      var d := c[1..];
      var q' := Quotient(d, a);
      FactorTheorem(d, a, t);
      EvalTail(c, t);
      EvalTail(c, a);
      EvalPaddedAdd(d, Scale(a, q'), t);
      EvalScale(a, q', t);
      FactorStep(c[0], t, a, EvalPoly(d, t), EvalPoly(d, a), EvalPoly(q', t));
    }
  }

  /** A vector of at most k coefficients that vanishes at k distinct points vanishes everywhere. */
  lemma {:induction false} VanishingEverywhere(c: seq<Fe>, roots: seq<Fe>, t: Fe)
    requires Distinct(roots) && |c| <= |roots|
    requires forall m :: 0 <= m < |roots| ==> EvalPoly(c, roots[m]) == 0
    ensures EvalPoly(c, t) == 0
    decreases |roots|
  {
    if |c| > 0 {
      var a, rest := roots[|roots| - 1], roots[..|roots| - 1];
      assert EvalPoly(c, a) == 0;
      var q := Quotient(c, a);
      forall m | 0 <= m < |rest|
        ensures EvalPoly(q, rest[m]) == 0
      {
        assert rest[m] == roots[m] && EvalPoly(c, roots[m]) == 0;
        QuotientRoot(c, a, rest[m]);
      }
      VanishingEverywhere(q, rest, t);
      FactorTheorem(c, a, t);
      MulZero(Sub(t, a));
      SubSelf(EvalPoly(c, t));
    }
  }

  /** A root of c other than a is a root of c's quotient by (X - a). */
  lemma QuotientRoot(c: seq<Fe>, a: Fe, r: Fe)
    requires EvalPoly(c, a) == 0 && EvalPoly(c, r) == 0 && r != a
    ensures EvalPoly(Quotient(c, a), r) == 0
  {
    FactorTheorem(c, a, r);
    SubSelf(0);
    SubNonzero(r, a);
    NoZeroDivisors(Sub(r, a), EvalPoly(Quotient(c, a), r));
  }

  /** The difference of two coefficient vectors. */
  function Minus(u: seq<Fe>, v: seq<Fe>): (d: seq<Fe>)
    ensures |d| == if |u| > |v| then |u| else |v|
  {
    PaddedAdd(u, Scale(Neg(1), v))
  }

  lemma EvalMinus(u: seq<Fe>, v: seq<Fe>, t: Fe)
    ensures EvalPoly(Minus(u, v), t) == Sub(EvalPoly(u, t), EvalPoly(v, t))
  {
    EvalPaddedAdd(u, Scale(Neg(1), v), t);
    EvalScale(Neg(1), v, t);
    NegOneTimes(EvalPoly(u, t), EvalPoly(v, t));
  }

  lemma NegOneTimes(x: Fe, y: Fe)
    ensures Add(x, Mul(Neg(1), y)) == Sub(x, y)
  {
    Canonical(x); Canonical(y);
    var m: int := 0 - 1;
    SubLift(0, 1);
    MulLift(m, y);
    AddLift(x, m * y);
    SubLift(x, y);
  }

  /**
   * Uniqueness of interpolation: any vector of at most |xs| coefficients
   * that takes the samples at distinct points agrees with the interpolant
   * at every point.
   */
  lemma InterpUnique(xs: seq<Fe>, ys: seq<Fe>, c: seq<Fe>, t: Fe)
    requires Distinct(xs) && |xs| <= |ys| && |c| <= |xs|
    requires forall m :: 0 <= m < |xs| ==> EvalPoly(c, xs[m]) == ys[m]
    ensures EvalPoly(Interp(xs, ys, |xs|), t) == EvalPoly(c, t)
  {
    var f := Interp(xs, ys, |xs|);
    if |xs| == 0 {
      InterpEmpty(xs, ys, t);
      assert EvalN(c, 0, t) == 0;
    } else {
      InterpLength(xs, ys, |xs|);
      InterpAgrees(xs, ys, c);
      AgreeEverywhere(f, c, xs, t);
    }
  }

  lemma InterpEmpty(xs: seq<Fe>, ys: seq<Fe>, t: Fe)
    ensures EvalPoly(Interp(xs, ys, 0), t) == 0
  {
    EvalSumPolys(Bases(xs, ys, 0), t);
  }

  lemma InterpAgrees(xs: seq<Fe>, ys: seq<Fe>, c: seq<Fe>)
    requires Distinct(xs) && |xs| <= |ys|
    requires forall m :: 0 <= m < |xs| ==> EvalPoly(c, xs[m]) == ys[m]
    ensures forall m :: 0 <= m < |xs| ==> EvalPoly(Interp(xs, ys, |xs|), xs[m]) == EvalPoly(c, xs[m])
  {
    forall m | 0 <= m < |xs|
      ensures EvalPoly(Interp(xs, ys, |xs|), xs[m]) == EvalPoly(c, xs[m])
    {
      InterpEval(xs, ys, m);
    }
  }

  /** Two vectors of at most k coefficients that agree at k distinct points agree everywhere. */
  lemma AgreeEverywhere(f: seq<Fe>, c: seq<Fe>, xs: seq<Fe>, t: Fe)
    requires Distinct(xs) && |f| <= |xs| && |c| <= |xs|
    requires forall m :: 0 <= m < |xs| ==> EvalPoly(f, xs[m]) == EvalPoly(c, xs[m])
    ensures EvalPoly(f, t) == EvalPoly(c, t)
  {
    var d := Minus(f, c);
    forall m | 0 <= m < |xs|
      ensures EvalPoly(d, xs[m]) == 0
    {
      EvalMinus(f, c, xs[m]);
      SubSelf(EvalPoly(c, xs[m]));
    }
    VanishingEverywhere(d, xs, t);
    EvalMinus(f, c, t);
    SubNonzero(EvalPoly(f, t), EvalPoly(c, t));
  }
}
