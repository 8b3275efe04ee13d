/**
 Stepping through a field's range in 64-bit integers. A step that takes the value
 past the largest integer wraps around to below the range, and the loop goes on
 from there.
 */
module CronSteps {
  import Decimal

  const TWO_64 := 0x1_0000_0000_0000_0000

  /** `v += step`, for a step of at least 1. */
  function Add64(v: int, step: int): int
  {
    if v + step > Decimal.INT64_MAX then v + step - TWO_64 else v + step
  }

  /** The values `lo`, `lo + step`, ... up to `hi`. */
  ghost predicate OnStep(lo: int, hi: int, step: int, v: int)
    requires step >= 1
  {
    lo <= v <= hi && (v - lo) % step == 0
  }

  /** How far two steps around take the value down. */
  function Back(step: int): int
  {
    TWO_64 - 2 * step
  }

  /** The values below `lo` that the loop comes by after wrapping around. */
  ghost predicate Wraps(lo: int, step: int, v: int)
    requires 1 <= step <= Decimal.INT64_MAX
  {
    0 <= v < lo && (lo - v) % Back(step) == 0
  }

  /** Every value of the range's bits the loop comes by. */
  ghost predicate Reaches(lo: int, hi: int, step: int, v: int)
    requires 1 <= step <= Decimal.INT64_MAX
  {
    OnStep(lo, hi, step, v) || Wraps(lo, step, v)
  }

  // ------------------------------------------------------------ one more step

  ghost predicate Fits(hi: int, step: int)
  {
    hi + step <= Decimal.INT64_MAX
  }

  /** Far below the range, where a step that wrapped leaves the value. */
  ghost predicate Deep(v: int)
  {
    v < -0x4000_0000_0000_0000
  }

  /** The values still to come from `v`. */
  ghost predicate ToCome(v: int, hi: int, step: int, x: int)
    requires 1 <= step <= Decimal.INT64_MAX
  {
    if v > hi then false
    else if Fits(hi, step) then v <= x && (x - v) % step == 0
    else var top := if Deep(v) then v + step else v; x <= top && (top - x) % Back(step) == 0
  }

  /** Where the loop's value can be. */
  ghost predicate Sane(v: int, hi: int, step: int)
  {
    -0x8000_0000_0000_0000 <= v <= Decimal.INT64_MAX && (if Fits(hi, step) then v >= 0 else Deep(v) ==> v + step <= hi)
  }

  ghost function Rank(v: int, hi: int, step: int): nat
    requires step >= 1 && Sane(v, hi, step)
  {
    if v > hi then 0
    else if Fits(hi, step) then 1 + hi - v
    else if Deep(v) then 2 + 2 * (v + step + 0x8000_0000_0000_0000)
    else 1 + 2 * (v + 0x8000_0000_0000_0000)
  }

  /** The loop's next value is sane, nearer the end, and leaves to come all that was but the one at hand. */
  lemma NextValue(v: int, hi: int, step: int)
    requires 0 <= hi < 64 && 1 <= step <= Decimal.INT64_MAX && Sane(v, hi, step) && v <= hi
    ensures var next := Add64(v, step); Sane(next, hi, step) && Rank(next, hi, step) < Rank(v, hi, step)
  {}

  lemma NextToCome(v: int, hi: int, step: int, x: int)
    requires 0 <= hi < 64 && 1 <= step <= Decimal.INT64_MAX && Sane(v, hi, step) && v <= hi && 0 <= x <= hi
    ensures ToCome(v, hi, step, x) <==> x == v || ToCome(Add64(v, step), hi, step, x)
  {
    if Fits(hi, step) {
      NextOnStep(v, hi, step, x);
    } else if v >= 0 {
      NextOnStep(0, v, Back(step), v - x);
    }
  }

  /** At the start, what is to come is the values on the step, and those it wraps to. */
  lemma FirstToCome(lo: int, hi: int, step: int, x: int)
    requires 0 <= lo <= hi < 64 && 1 <= step <= Decimal.INT64_MAX && 0 <= x <= hi
    ensures Sane(lo, hi, step) && (ToCome(lo, hi, step, x) <==> Reaches(lo, hi, step, x))
  {
    if Fits(hi, step) {
      NeverWraps(lo, step, x);
    } else {
      OnlyItself(lo, hi, step, x);
      Between(0, Back(step));
    }
  }

  lemma NeverWraps(lo: int, step: int, x: int)
    requires 1 <= step <= Decimal.INT64_MAX && lo < Back(step)
    ensures !Wraps(lo, step, x)
  {
    Between(lo - x, Back(step));
  }

  lemma OnlyItself(lo: int, hi: int, step: int, x: int)
    requires step >= 1 && hi - lo < step && lo <= hi
    ensures OnStep(lo, hi, step, x) <==> x == lo
  {
    Between(x - lo, step);
  }

  /** Something short of a whole number of steps is not on one. */
  lemma Between(a: int, step: int)
    requires step >= 1
    ensures 0 < a < step ==> a % step != 0
    ensures a == 0 ==> a % step == 0
  {
    DivUnique(0, 0, step, 0);
    if 0 < a < step { DivUnique(a, 0, step, a); }
  }

  lemma NextOnStep(lo: int, hi: int, step: int, v: int)
    requires step >= 1 && lo <= hi
    ensures OnStep(lo, hi, step, v) <==> v == lo || OnStep(lo + step, hi, step, v)
  {
    var q, r := (v - lo) / step, (v - lo) % step;
    assert v - lo == q * step + r;
    assert v - (lo + step) == (q - 1) * step + r;
    Multiples(q, step);
    DivUnique(v - (lo + step), q - 1, step, r);
    DivUnique(0, 0, step, 0);
  }

  lemma Multiples(q: int, step: int)
    requires step >= 1
    ensures (q >= 1 ==> q * step >= step) && (q <= 0 ==> q * step <= 0) && (q <= -1 ==> q * step <= -step)
  {}

  lemma DivUnique(a: int, q: int, step: int, r: int)
    requires step >= 1 && a == q * step + r && 0 <= r < step
    ensures a % step == r
  {
    var q', r' := a / step, a % step;
    assert a == q' * step + r';
    assert (q - q') * step == r' - r;
    Multiples(q - q', step);
  }

  // ------------------------------------------------------------- when it wraps

  /** The loop comes by values off its steps if and only if two steps around land at 0 or above. */
  lemma WrapsExactly(lo: int, step: int)
    requires 0 <= lo < 64 && 1 <= step <= Decimal.INT64_MAX
    ensures (exists v :: Wraps(lo, step, v)) <==> lo + 2 * step >= TWO_64
    ensures lo + 2 * step >= TWO_64 ==> Wraps(lo, step, lo - Back(step))
  {
    Between(0, Back(step));
    if lo >= Back(step) {
      DivUnique(Back(step), 1, Back(step), 0);
      assert Wraps(lo, step, lo - Back(step));
    }
    forall v | 0 <= v < lo < Back(step) ensures !Wraps(lo, step, v) {
      NeverWraps(lo, step, v);
    }
  }
}
