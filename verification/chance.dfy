/**
  Random draws. A draw stands for one value of Math.random(), a fraction
  num/den in [0, 1); the engine's random choices are functions of draws, so
  every outcome the engine can pick is reachable by choosing the draw.
 */
module Chance {

  datatype Fraction = Fraction(num: nat, den: nat)

  /** A fraction in [0, 1), as Math.random() returns. */
  type Draw = f: Fraction | f.num < f.den witness Fraction(0, 1)

  /**
    Math.floor(Math.random() * n): the k with k <= n * draw < k + 1, which is
    an index into a list of length n.
   */
  function PickIndex(d: Draw, n: nat): (k: nat)
    ensures k * d.den <= n * d.num < (k + 1) * d.den
    ensures n > 0 ==> k < n
  {
    var q := (n * d.num) / d.den;
    DivBounds(n * d.num, d.den);
    assert q * d.den <= n * d.num < (q + 1) * d.den;
    if n > 0 then
      MulStrict(n, d.num, d.den);
      MulMonotone(q, n, d.den);
      q
    else q
  }

  /** Euclidean division by a positive divisor brackets the dividend. */
  lemma DivBounds(a: int, b: int)
    requires b > 0
    ensures b * (a / b) <= a < b * (a / b) + b
  {
  }

  /** Multiplying by a positive factor keeps a strict order. */
  lemma MulStrict(n: int, x: int, y: int)
    requires n > 0 && x < y
    ensures n * x < n * y
  {
  }

  /** A strict order between multiples of a positive factor comes from the factors. */
  lemma MulMonotone(x: int, y: int, b: int)
    requires b > 0 && x * b < y * b
    ensures x < y
  {
  }

  /** Every index of a non-empty list is picked by some draw. */
  lemma PickIndexReachesAll(n: nat, k: nat)
    requires k < n
    ensures exists d: Draw :: PickIndex(d, n) == k
  {
    var d: Draw := Fraction(k, n);
    var q := PickIndex(d, n);
    assert q * n <= n * k < (q + 1) * n;
    assert n * k == k * n;
    MulMonotone(q, k + 1, n);
    MulMonotone(k, q + 1, n);
  }
}
