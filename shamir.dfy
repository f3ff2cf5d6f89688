/**
 * Shamir secret sharing over the univariate polynomials of the
 * secret-sharing crate: shares are values of a polynomial whose constant
 * term is the secret, and the secret is recovered by interpolating the
 * shares and evaluating at 0.  The random coefficients are a parameter.
 */
module ShamirSecretSharing {
  import opened Field
  import opened UniTheory
  import opened ZkPolynomials

  const U64Modulus: nat := 0x1_0000_0000_0000_0000

  /**
   * The coefficients `shares` builds: the secret followed by the random
   * stream, truncated to `threshold as usize - 1` entries (the subtraction
   * panics at threshold 0).
   */
  function SharingCoefficients(secret: Fe, threshold: nat, randoms: seq<Fe>): (c: seq<Fe>)
    requires 1 <= threshold < U64Modulus && threshold - 1 <= 1 + |randoms|
    ensures |c| == threshold - 1
    ensures threshold >= 2 ==> c[0] == secret
  {
    ([secret] + randoms)[..threshold - 1]
  }

  /** The coefficients the threshold evidently calls for: threshold of them, so threshold shares are needed. */
  function IntendedCoefficients(secret: Fe, threshold: nat, randoms: seq<Fe>): (c: seq<Fe>)
    requires 1 <= threshold < U64Modulus && threshold <= 1 + |randoms|
    ensures |c| == threshold && c[0] == secret
  {
    ([secret] + randoms)[..threshold]
  }

  /** The points (i, c(i)) for i = 1, ..., numberShares, as field elements. */
  function SharesOf(c: seq<Fe>, numberShares: nat): (s: seq<(Fe, Fe)>)
    ensures |s| == numberShares
  {
    seq(numberShares, i requires 0 <= i < numberShares =>
      (FromNat(i + 1), Evaluate(Polynomials(c), FromNat(i + 1))))
  }

  /** `shares`, as written. */
  function Shares(secret: Fe, threshold: nat, numberShares: nat, randoms: seq<Fe>): (s: seq<(Fe, Fe)>)
    requires 1 <= threshold < U64Modulus && numberShares < U64Modulus
    requires threshold - 1 <= 1 + |randoms|
    ensures |s| == numberShares
  {
    SharesOf(SharingCoefficients(secret, threshold, randoms), numberShares)
  }

  /** `shares` with threshold coefficients. */
  function IntendedShares(secret: Fe, threshold: nat, numberShares: nat, randoms: seq<Fe>): (s: seq<(Fe, Fe)>)
    requires 1 <= threshold < U64Modulus && numberShares < U64Modulus
    requires threshold <= 1 + |randoms|
    ensures |s| == numberShares
  {
    SharesOf(IntendedCoefficients(secret, threshold, randoms), numberShares)
  }

  /** The x and y columns of the shares: `unzip`. */
  function Xs(shares: seq<(Fe, Fe)>): (xs: seq<Fe>)
    ensures |xs| == |shares| && forall i :: 0 <= i < |shares| ==> xs[i] == shares[i].0
  {
    seq(|shares|, i requires 0 <= i < |shares| => shares[i].0)
  }

  function Ys(shares: seq<(Fe, Fe)>): (ys: seq<Fe>)
    ensures |ys| == |shares| && forall i :: 0 <= i < |shares| ==> ys[i] == shares[i].1
  {
    seq(|shares|, i requires 0 <= i < |shares| => shares[i].1)
  }

  /** `recover_secret`: the interpolating polynomial of the shares, evaluated at 0. */
  function RecoverSecret(shares: seq<(Fe, Fe)>): Fe
  {
    Evaluate(Interpolate(Xs(shares), Ys(shares)), 0)
  }

  /** Every share lies on the polynomial with coefficients c. */
  predicate OnPolynomial(shares: seq<(Fe, Fe)>, c: seq<Fe>)
  {
    forall i :: 0 <= i < |shares| ==> shares[i].1 == EvalPoly(c, shares[i].0)
  }

  /** A polynomial's value at 0 is its constant coefficient. */
  lemma EvalAtZero(c: seq<Fe>)
    requires |c| >= 1
    ensures EvalPoly(c, 0) == c[0]
  {
    EvalTail(c, 0);
    MulComm(0, EvalPoly(c[1..], 0));
    MulZero(EvalPoly(c[1..], 0));
    AddZero(c[0]);
  }

  /**
   * Recovery from any shares with distinct x's lying on a polynomial of at
   * most as many coefficients as there are shares yields its constant term.
   */
  lemma RecoverFromShares(c: seq<Fe>, shares: seq<(Fe, Fe)>)
    requires |c| <= |shares| && Distinct(Xs(shares)) && OnPolynomial(shares, c)
    ensures RecoverSecret(shares) == EvalPoly(c, 0)
  {
    var xs, ys := Xs(shares), Ys(shares);
    InterpolateUnique(xs, ys, c, 0);
  }

  /** The x-coordinates 1, ..., n are distinct when n < P, and every share lies on c. */
  lemma SharesOfFacts(c: seq<Fe>, numberShares: nat)
    requires numberShares < P
    ensures Distinct(Xs(SharesOf(c, numberShares)))
    ensures OnPolynomial(SharesOf(c, numberShares), c)
    ensures forall i :: 0 <= i < numberShares ==> SharesOf(c, numberShares)[i].0 == i + 1
  {
    var s := SharesOf(c, numberShares);
    forall i | 0 <= i < numberShares
      ensures s[i].0 == i + 1
    {
      assert FromNat(i + 1) == i + 1;
    }
  }

  /**
   * Round trip as written: with threshold at least 2, any threshold - 1 or
   * more shares (fewer than P) recover the secret.
   */
  lemma RecoverShares(secret: Fe, threshold: nat, numberShares: nat, randoms: seq<Fe>)
    requires 2 <= threshold < U64Modulus && threshold - 1 <= numberShares < P
    requires threshold - 1 <= 1 + |randoms|
    ensures RecoverSecret(Shares(secret, threshold, numberShares, randoms)) == secret
  {
    var c := SharingCoefficients(secret, threshold, randoms);
    SharesOfFacts(c, numberShares);
    RecoverFromShares(c, SharesOf(c, numberShares));
    EvalAtZero(c);
  }

  /** As written, threshold 1 builds no coefficients at all: every share is 0 and so is the recovered value. */
  lemma ThresholdOneLosesSecret(secret: Fe, numberShares: nat, randoms: seq<Fe>)
    requires numberShares < P
    ensures RecoverSecret(Shares(secret, 1, numberShares, randoms)) == 0
  {
    var c := SharingCoefficients(secret, 1, randoms);
    assert c == [];
    SharesOfFacts(c, numberShares);
    RecoverFromShares(c, SharesOf(c, numberShares));
  }

  /** As written, threshold - 1 shares already determine the secret; for threshold 4 three shares do. */
  lemma FewerSharesThanThreshold(secret: Fe, randoms: seq<Fe>)
    requires |randoms| >= 2
    ensures |Shares(secret, 4, 3, randoms)| == 3
    ensures RecoverSecret(Shares(secret, 4, 3, randoms)) == secret
  {
    RecoverShares(secret, 4, 3, randoms);
  }

  /** Round trip of the intended scheme: threshold or more shares (fewer than P) recover the secret. */
  lemma RecoverIntendedShares(secret: Fe, threshold: nat, numberShares: nat, randoms: seq<Fe>)
    requires 1 <= threshold <= numberShares < P
    requires threshold <= 1 + |randoms|
    ensures RecoverSecret(IntendedShares(secret, threshold, numberShares, randoms)) == secret
  {
    var c := IntendedCoefficients(secret, threshold, randoms);
    SharesOfFacts(c, numberShares);
    RecoverFromShares(c, SharesOf(c, numberShares));
    EvalAtZero(c);
  }
}
