/**
 * The prime field every polynomial, protocol message and challenge lives in.
 *
 * The Rust code is generic over `F: PrimeField`; this model fixes one prime,
 * the Fermat prime 2^16 + 1, and keeps every element as its canonical
 * residue in [0, P).  The ring laws, the inverse and the absence of zero
 * divisors are proved here once and used everywhere else.
 */
module Field {

  /** The modulus. */
  const P: nat := 65537

  /** A field element, held as its canonical residue modulo P. */
  type Fe = x: int | 0 <= x < P

  function Add(a: Fe, b: Fe): Fe { (a + b) % P }

  function Sub(a: Fe, b: Fe): Fe { (a - b) % P }

  function Neg(a: Fe): Fe { Sub(0, a) }

  function Mul(a: Fe, b: Fe): Fe { (a * b) % P }

  /** `F::from(n)` for an unsigned machine integer. */
  function FromNat(n: nat): Fe { n % P }

  /** `x.pow([n])`. */
  function Pow(x: Fe, n: nat): Fe
  {
    if n == 0 then 1 else Mul(Pow(x, n - 1), x)
  }

  // ---------------------------------------------------------------------
  // Euclidean division facts
  // ---------------------------------------------------------------------

  lemma MulAtLeast(x: int, d: int)
    requires x >= 1 && d > 0
    ensures x * d >= d
  {
    assert x * d == (x - 1) * d + d;
    assert (x - 1) * d >= 0;
  }

  /** The quotient and the remainder of a division are unique. */
  lemma DivModUnique(z: int, d: int, q: int, r: int)
    requires d > 0 && z == q * d + r && 0 <= r < d
    ensures z / d == q && z % d == r
  {
    var q', r' := z / d, z % d;
    assert z == q' * d + r';
    assert (q - q') * d == r' - r;
    if q > q' {
      MulAtLeast(q - q', d);
    } else if q < q' {
      MulAtLeast(q' - q, d);
    }
  }

  lemma ModMulLeft(x: int, y: int)
    ensures ((x % P) * y) % P == (x * y) % P
  {
    var qx, rx := x / P, x % P;
    var t := rx * y;
    assert x * y == (qx * y + t / P) * P + t % P by {
      assert x == qx * P + rx;
      assert t == (t / P) * P + t % P;
    }
    DivModUnique(x * y, P, qx * y + t / P, t % P);
  }

  lemma ModAddLeft(x: int, y: int)
    ensures ((x % P) + y) % P == (x + y) % P
  {
    var qx, rx := x / P, x % P;
    var t := rx + y;
    assert x + y == (qx + t / P) * P + t % P;
    DivModUnique(x + y, P, qx + t / P, t % P);
  }

  /** Reduction commutes with the integer operations (the residue map is a ring homomorphism). */
  lemma AddLift(x: int, y: int)
    ensures Add(x % P, y % P) == (x + y) % P
  {
    ModAddLeft(x, y % P);
    ModAddLeft(y, x);
  }

  lemma SubLift(x: int, y: int)
    ensures Sub(x % P, y % P) == (x - y) % P
  {
    ModAddLeft(x, -(y % P));
    ModAddLeft(-y, x);
    assert -(y % P) == (-y) % P - P * (if y % P == 0 then 0 else 1) by {
      if y % P != 0 {
        DivModUnique(-y, P, -(y / P) - 1, P - y % P);
      } else {
        DivModUnique(-y, P, -(y / P), 0);
      }
    }
    ModAddLeft(x, (-y) % P);
    assert (x + -(y % P)) % P == (x + (-y) % P) % P by {
      var k := if y % P == 0 then 0 else 1;
      DivModUnique(x + -(y % P), P, (x + (-y) % P) / P - k, (x + (-y) % P) % P);
    }
  }

  lemma MulLift(x: int, y: int)
    ensures Mul(x % P, y % P) == (x * y) % P
  {
    ModMulLeft(x, y % P);
    ModMulLeft(y, x);
  }

  lemma Canonical(a: Fe)
    ensures a % P == a
  {
    DivModUnique(a, P, 0, a);
  }

  // ---------------------------------------------------------------------
  // The field laws
  // ---------------------------------------------------------------------

  lemma AddAssoc(a: Fe, b: Fe, c: Fe)
    ensures Add(Add(a, b), c) == Add(a, Add(b, c))
  {
    Canonical(a); Canonical(c);
    AddLift(a + b, c);
    AddLift(a, b + c);
  }

  lemma AddZero(a: Fe)
    ensures Add(a, 0) == a && Add(0, a) == a
  {
    Canonical(a);
  }

  lemma {:induction false} PowAdd(x: Fe, a: nat, b: nat)
    ensures Pow(x, a + b) == Mul(Pow(x, a), Pow(x, b))
    decreases b
  {
    if b == 0 {
      MulOne(Pow(x, a));
    } else {
      PowAdd(x, a, b - 1);
      MulAssoc(Pow(x, a), Pow(x, b - 1), x);
    }
  }

  lemma AddComm(a: Fe, b: Fe)
    ensures Add(a, b) == Add(b, a)
  {
  }

  lemma MulComm(a: Fe, b: Fe)
    ensures Mul(a, b) == Mul(b, a)
  {
  }

  lemma MulAssoc(a: Fe, b: Fe, c: Fe)
    ensures Mul(Mul(a, b), c) == Mul(a, Mul(b, c))
  {
    var ab, bc := a * b, b * c;
    assert ab * c == a * bc;
    Canonical(a); Canonical(c);
    MulLift(ab, c);
    MulLift(a, bc);
  }

  lemma MulOne(a: Fe)
    ensures Mul(a, 1) == a && Mul(1, a) == a
  {
    Canonical(a);
  }

  lemma MulZero(a: Fe)
    ensures Mul(a, 0) == 0 && Mul(0, a) == 0
  {
  }

  lemma Distrib(a: Fe, b: Fe, c: Fe)
    ensures Mul(a, Add(b, c)) == Add(Mul(a, b), Mul(a, c))
    ensures Mul(Add(b, c), a) == Add(Mul(b, a), Mul(c, a))
  {
    var ab, ac := a * b, a * c;
    assert a * (b + c) == ab + ac;
    Canonical(a);
    MulLift(a, b + c);
    AddLift(ab, ac);
  }

  lemma DistribSub(a: Fe, b: Fe, c: Fe)
    ensures Mul(a, Sub(b, c)) == Sub(Mul(a, b), Mul(a, c))
    ensures Mul(Sub(b, c), a) == Sub(Mul(b, a), Mul(c, a))
  {
    var ab, ac := a * b, a * c;
    assert a * (b - c) == ab - ac;
    Canonical(a);
    MulLift(a, b - c);
    SubLift(ab, ac);
  }

  lemma SubAdd(a: Fe, b: Fe)
    ensures Add(Sub(a, b), b) == a && Sub(Add(a, b), b) == a
  {
    Canonical(a); Canonical(b);
    AddLift(a - b, b);
    SubLift(a + b, b);
  }

  lemma SubSelf(a: Fe)
    ensures Sub(a, a) == 0 && Sub(a, 0) == a
  {
    Canonical(a);
  }

  lemma AddSubPair(a: Fe, b: Fe, c: Fe, d: Fe)
    ensures Sub(Add(a, b), Add(c, d)) == Add(Sub(a, c), Sub(b, d))
  {
    Canonical(a); Canonical(b); Canonical(c); Canonical(d);
    SubLift(a + b, c + d);
    AddLift(a - c, b - d);
  }

  lemma AddSwapMiddle(a: Fe, b: Fe, c: Fe, d: Fe)
    ensures Add(Add(a, b), Add(c, d)) == Add(Add(a, c), Add(b, d))
  {
    AddAssoc(a, b, Add(c, d));
    AddAssoc(b, c, d);
    AddAssoc(c, b, d);
    AddAssoc(a, c, Add(b, d));
  }

  lemma MulSwapMiddle(a: Fe, b: Fe, c: Fe, d: Fe)
    ensures Mul(Mul(a, b), Mul(c, d)) == Mul(Mul(a, c), Mul(b, d))
  {
    MulAssoc(a, b, Mul(c, d));
    MulAssoc(b, c, d);
    MulAssoc(c, b, d);
    MulAssoc(a, c, Mul(b, d));
  }

  // ---------------------------------------------------------------------
  // Primality and the inverse
  // ---------------------------------------------------------------------

  lemma NoSmallDivisor(d: nat)
    requires 2 <= d < 258
    ensures P % d != 0
  {
  }

  /** P is prime: its only positive divisors are 1 and P. */
  lemma PrimeModulus(g: int, k: int)
    requires g > 0 && g * k == P
    ensures g == 1 || g == P
  {
    if k > 0 && 1 < g < P {
      if g < 258 {
        NoSmallDivisor(g);
        DivModUnique(P, g, k, 0);
      } else {
        if k == 1 {
        } else {
          NoSmallDivisor(k);
          DivModUnique(P, k, g, 0);
        }
      }
    }
  }

  /**
   * Extended Euclid: returns (x, y, g, ka, kb) with a*x + b*y == g and
   * g dividing both a (== ka*g) and b (== kb*g).
   */
  function ExtGcd(a: nat, b: nat): (r: (int, int, nat, int, int))
    ensures a * r.0 + b * r.1 == r.2
    ensures a == r.3 * r.2 && b == r.4 * r.2
    decreases b
  {
    if b == 0 then (1, 0, a, 1, 0)
    else
      var rec := ExtGcd(b, a % b);
      var q := a / b;
      EuclidStep(a, b, q, a % b, rec.0, rec.1, rec.2, rec.3, rec.4);
      (rec.1, rec.0 - q * rec.1, rec.2, q * rec.3 + rec.4, rec.3)
  }

  /** One step of extended Euclid: Bézout coefficients and cofactors of (b, a mod b) give those of (a, b). */
  lemma EuclidStep(a: int, b: int, q: int, m: int, x: int, y: int, g: int, ka: int, kb: int)
    requires a == q * b + m
    requires b * x + m * y == g
    requires b == ka * g && m == kb * g
    ensures a * y + b * (x - q * y) == g
    ensures a == (q * ka + kb) * g
  {
    assert a * y == q * b * y + m * y;
    assert b * (x - q * y) == b * x - q * b * y;
    assert q * b == q * ka * g;
  }

  /** The multiplicative inverse, `a.inverse().unwrap()`; zero has none. */
  function Inv(a: Fe): (r: Fe)
    requires a != 0
    ensures Mul(a, r) == 1
  {
    var e := ExtGcd(a, P);
    InvCorrect(a, e.0, e.1, e.2, e.3, e.4);
    e.0 % P
  }

  lemma InvCorrect(a: Fe, x: int, y: int, g: nat, ka: int, kp: int)
    requires a != 0
    requires a * x + P * y == g && a == ka * g && P == kp * g
    ensures Mul(a, x % P) == 1
  {
    assert g > 0;
    PrimeModulus(g, kp);
    if g == P {
      if ka >= 1 { MulAtLeast(ka, P); }
    }
    assert g == 1;
    DivModUnique(a * x, P, -y, 1);
    Canonical(a);
    MulLift(a, x);
  }

  /** `a / b` in the field; ark panics when b is zero. */
  function Div(a: Fe, b: Fe): Fe
    requires b != 0
  {
    Mul(a, Inv(b))
  }

  /** A field has no zero divisors. */
  lemma NoZeroDivisors(a: Fe, b: Fe)
    ensures Mul(a, b) == 0 <==> a == 0 || b == 0
  {
    if Mul(a, b) == 0 && a != 0 {
      var ia := Inv(a);
      calc {
        b;
        { MulOne(b); }
        Mul(1, b);
        { assert Mul(ia, a) == 1; }
        Mul(Mul(ia, a), b);
        { MulAssoc(ia, a, b); }
        Mul(ia, Mul(a, b));
        0;
      }
    }
  }

  lemma DivMul(a: Fe, b: Fe)
    requires b != 0
    ensures Mul(Div(a, b), b) == a
  {
    MulAssoc(a, Inv(b), b);
    MulOne(a);
  }

  // ---------------------------------------------------------------------
  // Sums and products of sequences, folded from the left as `iter().sum()`
  // ---------------------------------------------------------------------

  function Sum(s: seq<Fe>): Fe
  {
    if |s| == 0 then 0 else Add(Sum(s[..|s| - 1]), s[|s| - 1])
  }

  function Product(s: seq<Fe>): Fe
  {
    if |s| == 0 then 1 else Mul(Product(s[..|s| - 1]), s[|s| - 1])
  }

  lemma {:induction false} SumAppend(a: seq<Fe>, b: seq<Fe>)
    ensures Sum(a + b) == Add(Sum(a), Sum(b))
    decreases |b|
  {
    if |b| == 0 {
      assert a + b == a;
      AddZero(Sum(a));
    } else {
      var b' := b[..|b| - 1];
      assert (a + b)[..|a + b| - 1] == a + b';
      SumAppend(a, b');
      AddAssoc(Sum(a), Sum(b'), b[|b| - 1]);
    }
  }

  lemma {:induction false} ProductAppend(a: seq<Fe>, b: seq<Fe>)
    ensures Product(a + b) == Mul(Product(a), Product(b))
    decreases |b|
  {
    if |b| == 0 {
      assert a + b == a;
      MulOne(Product(a));
    } else {
      var b' := b[..|b| - 1];
      assert (a + b)[..|a + b| - 1] == a + b';
      ProductAppend(a, b');
      MulAssoc(Product(a), Product(b'), b[|b| - 1]);
    }
  }

  lemma SumSingleton(x: Fe)
    ensures Sum([x]) == x && Product([x]) == x
  {
    assert [x][..0] == [];
    AddZero(x);
    MulOne(x);
  }

  /** Summing the pointwise sums of two equally long sequences. */
  lemma {:induction false} SumPointwiseAdd(a: seq<Fe>, b: seq<Fe>)
    requires |a| == |b|
    ensures Sum(seq(|a|, i requires 0 <= i < |a| => Add(a[i], b[i]))) == Add(Sum(a), Sum(b))
    decreases |a|
  {
    var c := seq(|a|, i requires 0 <= i < |a| => Add(a[i], b[i]));
    if |a| > 0 {
      var n := |a| - 1;
      assert c[..n] == seq(n, i requires 0 <= i < n => Add(a[..n][i], b[..n][i]));
      SumPointwiseAdd(a[..n], b[..n]);
      AddSwapMiddle(Sum(a[..n]), Sum(b[..n]), a[n], b[n]);
    }
  }

  /** Scaling every entry scales the sum. */
  lemma {:induction false} SumPointwiseScale(a: seq<Fe>, k: Fe)
    ensures Sum(seq(|a|, i requires 0 <= i < |a| => Mul(k, a[i]))) == Mul(k, Sum(a))
    decreases |a|
  {
    var c := seq(|a|, i requires 0 <= i < |a| => Mul(k, a[i]));
    if |a| == 0 {
      MulZero(k);
    } else {
      var n := |a| - 1;
      assert c[..n] == seq(n, i requires 0 <= i < n => Mul(k, a[..n][i]));
      SumPointwiseScale(a[..n], k);
      Distrib(k, Sum(a[..n]), a[n]);
    }
  }

  /** Two sequences that agree entry by entry have the same sum. */
  lemma SumExt(a: seq<Fe>, b: seq<Fe>)
    requires |a| == |b| && forall i :: 0 <= i < |a| ==> a[i] == b[i]
    ensures Sum(a) == Sum(b)
  {
    assert a == b;
  }
}
