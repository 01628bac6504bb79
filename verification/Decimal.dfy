/** Price truncation and step precision (src/common/tools.cpp), over exact reals. */
module Decimal {

  function Pow10(p: nat): (r: int)
    ensures r > p
  {
    if p == 0 then 1 else 10 * Pow10(p - 1)
  }

  // A C++ conversion from floating point to integer drops the fraction.
  function Truncate(x: real): int {
    if x >= 0.0 then x.Floor else -((-x).Floor)
  }

  // Truncation to a grid of 1/s.
  function Cut(value: real, s: real): real
    requires s > 0.0
  {
    Truncate(value * s) as real / s
  }

  function DecimalProcess(value: real, precision: nat): real {
    if precision == 0 then Truncate(value) as real else Cut(value, Pow10(precision) as real)
  }

  /** One unit in the last place kept. */
  function Unit(precision: nat): real {
    1.0 / Pow10(precision) as real
  }

  function Times(k: int, step: real): real {
    k as real * step
  }

  ghost predicate IsMultiple(x: real, step: real) {
    exists k: int :: x == Times(k, step)
  }

  // ----- facts about real products and quotients, one at a time

  lemma Sign(d: real, s: real)
    requires s > 0.0
    ensures d > 0.0 <==> d * s > 0.0
    ensures d == 0.0 <==> d * s == 0.0
  {}

  lemma Over(x: real, s: real)
    requires s > 0.0
    ensures x / s * s == x
  {}

  lemma Less(a: real, b: real, s: real)
    requires s > 0.0
    ensures a < b <==> a * s < b * s
    ensures a == b <==> a * s == b * s
  {
    assert (b - a) * s == b * s - a * s;
    Sign(b - a, s);
  }

  // ----- truncation

  lemma TruncateOrder(x: real, y: real)
    requires x <= y
    ensures Truncate(x) <= Truncate(y)
  {}

  lemma CutScaled(v: real, s: real)
    requires s > 0.0
    ensures Cut(v, s) * s == Truncate(v * s) as real
  {
    Over(Truncate(v * s) as real, s);
  }

  lemma CutMonotone(v: real, w: real, s: real)
    requires s > 0.0 && v <= w
    ensures Cut(v, s) <= Cut(w, s)
  {
    TruncateScaledOrder(v, w, s);
    CutScaled(v, s);
    CutScaled(w, s);
    GridOrder(Cut(v, s), Cut(w, s), s, Truncate(v * s), Truncate(w * s));
  }

  lemma TruncateScaledOrder(v: real, w: real, s: real)
    requires s > 0.0 && v <= w
    ensures Truncate(v * s) <= Truncate(w * s)
  {
    Less(w, v, s);
    TruncateOrder(v * s, w * s);
  }

  lemma GridOrder(c: real, d: real, s: real, k: int, l: int)
    requires s > 0.0 && c * s == k as real && d * s == l as real && k <= l
    ensures c <= d
  {
    Less(d, c, s);
  }

  lemma CutOfWhole(c: real, s: real, k: int)
    requires s > 0.0 && c * s == k as real
    ensures Cut(c, s) == c
  {
    var x := c * s;
    assert Truncate(x) == k;
    Over(k as real, s);
    Less(k as real / s, c, s);
    assert Cut(c, s) == Truncate(x) as real / s;
  }

  lemma CutIdempotent(v: real, s: real)
    requires s > 0.0
    ensures Cut(v, s) == Times(Truncate(v * s), 1.0 / s)
    ensures Cut(Cut(v, s), s) == Cut(v, s)
  {
    var k := Truncate(v * s);
    Over(k as real, s);
    Over(1.0, s);
    assert Times(k, 1.0 / s) * s == k as real * (1.0 / s * s);
    Less(Cut(v, s), Times(k, 1.0 / s), s);
    CutOfWhole(Cut(v, s), s, k);
  }

  lemma CutWithinOneUnit(v: real, s: real)
    requires s > 0.0
    ensures v >= 0.0 ==> v - 1.0 / s < Cut(v, s) <= v
    ensures v <= 0.0 ==> v <= Cut(v, s) < v + 1.0 / s
  {
    Sign(v, s);
    CutScaled(v, s);
    Over(1.0, s);
    TruncateNear(v * s);
    ScaledNear(v, Cut(v, s), 1.0 / s, s, v * s, Truncate(v * s) as real);
  }

  lemma TruncateNear(x: real)
    ensures x >= 0.0 ==> x - 1.0 < Truncate(x) as real <= x
    ensures x <= 0.0 ==> x <= Truncate(x) as real < x + 1.0
  {}

  // What holds of a value and its truncation in units holds of them in ones.
  lemma ScaledNear(v: real, c: real, u: real, s: real, x: real, t: real)
    requires s > 0.0 && v * s == x && c * s == t && u * s == 1.0
    ensures c <= v <==> t <= x
    ensures v <= c <==> x <= t
    ensures v - u < c <==> x - 1.0 < t
    ensures c < v + u <==> t < x + 1.0
  {
    assert (v - u) * s == x - 1.0;
    assert (v + u) * s == x + 1.0;
    Less(c, v, s);
    Less(v, c, s);
    Less(v - u, c, s);
    Less(c, v + u, s);
  }

  lemma OneFormula(value: real, precision: nat)
    ensures DecimalProcess(value, precision) == Cut(value, Pow10(precision) as real)
  {
    assert Pow10(0) as real == 1.0 && value * 1.0 == value;
    Over(Truncate(value) as real, 1.0);
  }

  /** Truncation keeps the order of prices. */
  lemma Monotone(v: real, w: real, precision: nat)
    requires v <= w
    ensures DecimalProcess(v, precision) <= DecimalProcess(w, precision)
  {
    OneFormula(v, precision);
    OneFormula(w, precision);
    CutMonotone(v, w, Pow10(precision) as real);
  }

  /** A truncated price is a whole number of units, and truncating it again changes nothing. */
  lemma Idempotent(v: real, precision: nat)
    ensures IsMultiple(DecimalProcess(v, precision), Unit(precision))
    ensures DecimalProcess(DecimalProcess(v, precision), precision) == DecimalProcess(v, precision)
  {
    OneFormula(v, precision);
    OneFormula(DecimalProcess(v, precision), precision);
    CutIdempotent(v, Pow10(precision) as real);
  }

  /** Truncation moves a price toward zero, by less than one unit. */
  lemma WithinOneUnit(v: real, precision: nat)
    ensures v >= 0.0 ==> v - Unit(precision) < DecimalProcess(v, precision) <= v
    ensures v <= 0.0 ==> v <= DecimalProcess(v, precision) < v + Unit(precision)
  {
    OneFormula(v, precision);
    CutWithinOneUnit(v, Pow10(precision) as real);
  }

  lemma UnitPositive(p: nat)
    ensures Unit(p) > 0.0
  {
    Over(1.0, Pow10(p) as real);
    Sign(Unit(p), Pow10(p) as real);
  }

  lemma FinerUnit(p: nat)
    ensures Unit(p) == 10.0 * Unit(p + 1)
  {
    var s := Pow10(p) as real;
    assert Pow10(p + 1) as real == 10.0 * s;
    Over(1.0, s);
    Over(1.0, 10.0 * s);
    var b := 1.0 / (10.0 * s);
    assert b * (10.0 * s) == 10.0 * b * s;
    Less(1.0 / s, 10.0 * b, s);
  }

  lemma MultipleOfFiner(k: int, u: real)
    ensures Times(k, 10.0 * u) == Times(10 * k, u)
  {
    assert (10 * k) as real == 10.0 * k as real;
  }

  /** A coarser truncation still lands on the finer grid. */
  lemma {:induction false} CoarserIsMultiple(v: real, precision: nat, finer: nat)
    requires precision <= finer
    ensures IsMultiple(DecimalProcess(v, precision), Unit(finer))
  {
    if precision == finer {
      Idempotent(v, precision);
    } else {
      CoarserIsMultiple(v, precision, finer - 1);
      var k: int :| DecimalProcess(v, precision) == Times(k, Unit(finer - 1));
      FinerUnit(finer - 1);
      MultipleOfFiner(k, Unit(finer));
    }
  }

  // ----- precision of a step

  /** A step multiplied by ten p times. */
  function Lifted(step: real, p: nat): real {
    if p == 0 then step else Lifted(step, p - 1) * 10.0
  }

  lemma {:induction false} LiftedIsScaled(step: real, p: nat)
    ensures Lifted(step, p) == step * Pow10(p) as real
  {
    if p > 0 {
      LiftedIsScaled(step, p - 1);
      var t := Pow10(p - 1) as real;
      assert step * t * 10.0 == step * (10.0 * t);
    }
  }

  lemma LiftedGrows(step: real, p: nat, q: nat)
    requires step > 0.0 && p < q
    ensures 0.0 < Lifted(step, p) * 10.0 <= Lifted(step, q)
  {
    if p + 1 < q {
      LiftedGrows(step, p, q - 1);
    } else if p > 0 {
      LiftedGrows(step, 0, p);
    }
  }

  // Some power of ten lifts any positive step to one.
  lemma EnoughDigits(step: real) returns (n: nat)
    requires step > 0.0
    ensures Lifted(step, n) >= 1.0
  {
    Over(1.0, step);
    Sign(1.0 / step, step);
    n := (1.0 / step).Floor + 1;
    LiftedIsScaled(step, n);
    Less(1.0 / step, Pow10(n) as real, step);
  }

  /** The least number of tenfold steps that reaches one; source: a do-while that diverges on a step of zero or less. */
  method CalculatePrecisionByMinStep(minStep: real) returns (precision: nat)
    requires minStep > 0.0
    ensures Lifted(minStep, precision) >= 1.0
    ensures forall q: nat :: q < precision ==> Lifted(minStep, q) < 1.0
  {
    if minStep >= 1.0 {
      return 0;
    }
    precision := 0;
    var step := minStep;
    ghost var enough := EnoughDigits(minStep);
    while step < 1.0
      invariant step == Lifted(minStep, precision)
      invariant forall q: nat :: q < precision ==> Lifted(minStep, q) < 1.0
      invariant precision <= enough
      decreases enough - precision
    {
      precision := precision + 1;
      step := step * 10.0;
      if precision > enough { LiftedGrows(minStep, enough, precision); }
    }
  }

  /** For a decimal step the loop finds exactly its number of digits. */
  lemma PrecisionOfDecimalStep(p: nat, found: nat)
    requires Lifted(Unit(p), found) >= 1.0
    requires forall q: nat :: q < found ==> Lifted(Unit(p), q) < 1.0
    ensures found == p
  {
    LiftedIsScaled(Unit(p), p);
    Over(1.0, Pow10(p) as real);
    Sign(Unit(p), Pow10(p) as real);
    if found < p {
      LiftedGrows(Unit(p), found, p);
    }
  }

  /** Prices truncated at the precision of the tick size, or a coarser one, are whole ticks. */
  lemma PricesAreWholeTicks(p: nat, found: nat, pricePrecision: nat, v: real)
    requires Lifted(Unit(p), found) >= 1.0
    requires forall q: nat :: q < found ==> Lifted(Unit(p), q) < 1.0
    requires pricePrecision <= found
    ensures IsMultiple(DecimalProcess(v, pricePrecision), Unit(p))
  {
    PrecisionOfDecimalStep(p, found);
    CoarserIsMultiple(v, pricePrecision, p);
  }
}
