/** Python's `round`, over exact reals: ties go to the even neighbour. */
module Rounding {

  function RoundHalfEven(x: real): (n: int)
  {
    var below := x.Floor;
    var rest := x - below as real;
    if rest < 0.5 then below
    else if rest > 0.5 then below + 1
    else if below % 2 == 0 then below else below + 1
  }

  function Times(x: real, scale: int): real {
    x * scale as real
  }

  function Over(n: int, scale: int): real
    requires scale > 0
  {
    n as real / scale as real
  }

  /** `round(x, places)` with `scale == 10 ** places`. */
  function RoundTo(x: real, scale: int): (r: real)
    requires scale > 0
  {
    Over(RoundHalfEven(Times(x, scale)), scale)
  }

  function MinReal(x: real, y: real): real {
    if x <= y then x else y
  }

  function MaxReal(x: real, y: real): real {
    if x >= y then x else y
  }

  /** Rounding lands on the nearest integer, and on the even one of two equally near. */
  lemma RoundHalfEvenIsNearest(x: real, n: int)
    ensures -0.5 <= RoundHalfEven(x) as real - x <= 0.5
    ensures -0.5 < n as real - x < 0.5 ==> RoundHalfEven(x) == n
    ensures n as real - x == 0.5 || n as real - x == -0.5 ==> RoundHalfEven(x) % 2 == 0
  {
    if n as real - x == 0.5 {
      assert n == x.Floor + 1;
    } else if n as real - x == -0.5 {
      assert n == x.Floor;
    }
  }

  lemma RoundHalfEvenOfInt(n: int)
    ensures RoundHalfEven(n as real) == n
  {
  }

  lemma RoundHalfEvenMonotone(x: real, y: real)
    requires x <= y
    ensures RoundHalfEven(x) <= RoundHalfEven(y)
  {
    if x.Floor < y.Floor {
      assert x.Floor + 1 <= y.Floor;
    }
  }

  lemma RoundToMonotone(x: real, y: real, scale: int)
    requires scale > 0 && x <= y
    ensures RoundTo(x, scale) <= RoundTo(y, scale)
  {
    TimesMonotone(x, y, scale);
    RoundHalfEvenMonotone(Times(x, scale), Times(y, scale));
    OverMonotone(RoundHalfEven(Times(x, scale)), RoundHalfEven(Times(y, scale)), scale);
  }

  lemma TimesMonotone(a: real, b: real, scale: int)
    requires scale >= 0 && a <= b
    ensures Times(a, scale) <= Times(b, scale)
  {
  }

  lemma OverMonotone(a: int, b: int, scale: int)
    requires scale > 0 && a <= b
    ensures Over(a, scale) <= Over(b, scale)
  {
  }

  /** A rounded value never leaves an interval with integer ends. */
  lemma RoundToStaysWithin(x: real, scale: int, lower: int, upper: int)
    requires scale > 0
    requires lower as real <= x <= upper as real
    ensures lower as real <= RoundTo(x, scale) <= upper as real
  {
    RoundToOfInt(lower, scale);
    RoundToOfInt(upper, scale);
    RoundToMonotone(lower as real, x, scale);
    RoundToMonotone(x, upper as real, scale);
  }

  lemma RoundToOfInt(n: int, scale: int)
    requires scale > 0
    ensures RoundTo(n as real, scale) == n as real
  {
    assert Times(n as real, scale) == (n * scale) as real;
    RoundHalfEvenOfInt(n * scale);
    assert Over(n * scale, scale) == n as real;
  }

  /** Values on the grid of `1 / scale` are left alone. */
  lemma RoundToOfGrid(n: int, scale: int)
    requires scale > 0
    ensures RoundTo(Over(n, scale), scale) == Over(n, scale)
  {
    assert Times(Over(n, scale), scale) == n as real;
    RoundHalfEvenOfInt(n);
  }

  /** Rounding to a tenth moves a number by at most half of one. */
  lemma RoundedTenth(x: real)
    ensures -0.05 <= RoundTo(x, 10) - x <= 0.05
  {
    var n := RoundHalfEven(Times(x, 10));
    RoundHalfEvenIsNearest(Times(x, 10), n);
    assert Over(n, 10) == n as real / 10.0;
  }

  /** A rounded quotient of integers is within half of it, and not negative. */
  lemma RoundedNear(n: nat, d: int)
    requires d > 0
    ensures var t := RoundHalfEven(Over(n, d)); -d <= 2 * (t * d - n) <= d && t >= 0
  {
    var x := Over(n, d);
    var t := RoundHalfEven(x);
    RoundHalfEvenIsNearest(x, t);
    OverTimes(n, d);
    TimesMonotone(x - 0.5, t as real, d);
    TimesMonotone(t as real, x + 0.5, d);
    TimesShifted(x, -0.5, d);
    TimesShifted(x, 0.5, d);
    TimesOfInt(t, d);
    RoundHalfEvenMonotone(0.0, x);
  }

  /** Half way between two whole numbers, the rounded quotient is even. */
  lemma RoundedTie(n: nat, d: int)
    requires d > 0
    ensures var t := RoundHalfEven(Over(n, d)); 2 * (t * d - n) == d || 2 * (t * d - n) == -d ==> t % 2 == 0
  {
    var x := Over(n, d);
    var t := RoundHalfEven(x);
    TimesOfInt(t, d);
    TimesShifted(t as real, -0.5, d);
    TimesShifted(t as real, 0.5, d);
    if 2 * (t * d - n) == d {
      OverIs(n, d, t as real - 0.5);
    } else if 2 * (t * d - n) == -d {
      OverIs(n, d, t as real + 0.5);
    }
    RoundHalfEvenIsNearest(x, t);
  }

  lemma OverIs(n: int, d: int, x: real)
    requires d > 0 && Times(x, d) == n as real
    ensures Over(n, d) == x
  {
  }

  lemma OverTimes(n: int, d: int)
    requires d > 0
    ensures Times(Over(n, d), d) == n as real
  {
  }

  lemma TimesShifted(x: real, shift: real, d: int)
    ensures Times(x + shift, d) == Times(x, d) + Times(shift, d)
  {
  }

  lemma TimesOfInt(t: int, d: int)
    ensures Times(t as real, d) == (t * d) as real
  {
  }

  /** A whole number nearer to the quotient than one half is what it rounds to. */
  lemma RoundedIs(n: nat, d: int, t: nat)
    requires d > 0 && -d < 2 * (t * d - n) < d
    ensures RoundHalfEven(Over(n, d)) == t
  {
    var x := Over(n, d);
    OverTimes(n, d);
    TimesOfInt(t, d);
    TimesShifted(x, -0.5, d);
    TimesShifted(x, 0.5, d);
    if t as real <= x - 0.5 {
      TimesMonotone(t as real, x - 0.5, d);
    } else if t as real >= x + 0.5 {
      TimesMonotone(x + 0.5, t as real, d);
    }
    RoundHalfEvenIsNearest(x, t);
  }
}
