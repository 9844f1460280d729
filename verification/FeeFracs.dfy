/** Fees over sizes, as in src/util/feefrac.h, and the real-valued quantities the proofs reason with. */
module FeeFracs {

  /** A fee and a size. Integers are unbounded here; the callers of src/cluster_linearize.h keep sums within range. */
  datatype FeeFrac = FeeFrac(fee: int, size: int)

  const EMPTY := FeeFrac(0, 0)

  function Plus(a: FeeFrac, b: FeeFrac): FeeFrac {
    FeeFrac(a.fee + b.fee, a.size + b.size)
  }

  function Minus(a: FeeFrac, b: FeeFrac): FeeFrac {
    FeeFrac(a.fee - b.fee, a.size - b.size)
  }

  /** Compare by feerate only: negative, zero or positive, by cross-multiplication. */
  function FeeRateCompare(a: FeeFrac, b: FeeFrac): int {
    a.fee * b.size - b.fee * a.size
  }

  /** The operator >> : strictly higher feerate. */
  predicate Higher(a: FeeFrac, b: FeeFrac) {
    a.fee * b.size > b.fee * a.size
  }

  /** The operator < : lower feerate, or the same feerate and a larger size. */
  predicate Worse(a: FeeFrac, b: FeeFrac) {
    FeeRateCompare(a, b) < 0 || (FeeRateCompare(a, b) == 0 && a.size > b.size)
  }

  /** The feerate as a real number; it means something only for a positive size. */
  ghost function Rate(x: FeeFrac): real {
    if x.size > 0 then x.fee as real / x.size as real else 0.0
  }

  /** What x earns above the feerate r. */
  ghost function Excess(x: FeeFrac, r: real): real {
    x.fee as real - r * (x.size as real)
  }

  lemma RateTimesSize(x: FeeFrac)
    requires x.size > 0
    ensures Rate(x) * (x.size as real) == x.fee as real
  {
  }

  lemma ProductAsReal(a: int, b: int)
    ensures (a * b) as real == (a as real) * (b as real)
  {
  }

  lemma TimesMonotone(a: real, b: real, c: real)
    requires a <= b && c >= 0.0
    ensures a * c <= b * c && c * a <= c * b
  {
    assert (b - a) * c >= 0.0;
  }

  lemma ExcessPlus(x: FeeFrac, y: FeeFrac, r: real)
    ensures Excess(Plus(x, y), r) == Excess(x, r) + Excess(y, r)
  {
  }

  /** The sign of the excess over r says on which side of r the feerate is. */
  lemma ExcessSign(x: FeeFrac, r: real)
    requires x.size > 0
    ensures Excess(x, r) > 0.0 <==> Rate(x) > r
    ensures Excess(x, r) < 0.0 <==> Rate(x) < r
    ensures Excess(x, r) == 0.0 <==> Rate(x) == r
  {
    RateTimesSize(x);
    var s := x.size as real;
    assert Excess(x, r) == (Rate(x) - r) * s;
  }

  /** Cross-multiplication compares the real feerates. */
  lemma CompareIsRate(a: FeeFrac, b: FeeFrac)
    requires a.size > 0 && b.size > 0
    ensures FeeRateCompare(a, b) < 0 <==> Rate(a) < Rate(b)
    ensures FeeRateCompare(a, b) > 0 <==> Rate(a) > Rate(b)
    ensures Higher(a, b) <==> Rate(a) > Rate(b)
  {
    RateTimesSize(a);
    RateTimesSize(b);
    ProductAsReal(a.fee, b.size);
    ProductAsReal(b.fee, a.size);
    var p := (a.size as real) * (b.size as real);
    assert (a.fee as real) * (b.size as real) == Rate(a) * p;
    assert (b.fee as real) * (a.size as real) == Rate(b) * p;
    assert FeeRateCompare(a, b) as real == (Rate(a) - Rate(b)) * p;
  }

  /** The feerate of a sum lies between the feerates of its parts. */
  lemma RateOfPlus(a: FeeFrac, b: FeeFrac)
    requires a.size > 0 && b.size > 0
    requires Rate(a) <= Rate(b)
    ensures Rate(a) <= Rate(Plus(a, b)) <= Rate(b)
    ensures Rate(a) < Rate(b) ==> Rate(a) < Rate(Plus(a, b)) < Rate(b)
  {
    ExcessSign(a, Rate(b)); ExcessSign(b, Rate(b)); ExcessPlus(a, b, Rate(b)); ExcessSign(Plus(a, b), Rate(b));
    ExcessSign(a, Rate(a)); ExcessSign(b, Rate(a)); ExcessPlus(a, b, Rate(a)); ExcessSign(Plus(a, b), Rate(a));
  }
}
