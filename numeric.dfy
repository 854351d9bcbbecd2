/** JavaScript numbers are modelled as exact reals. `Round(x, d)` stands for
    `parseFloat(x.toFixed(d))`: the nearest multiple of 10^-d, halves rounded away
    from zero, which is the rule `Number.prototype.toFixed` applies to the
    magnitude. Binary floating-point error is not modelled. */
module Numeric {
  import Text

  function Abs(x: real): real {
    if x < 0.0 then -x else x
  }

  /** The largest error `Round(., d)` may make: half a unit in the last place. */
  function HalfUnit(d: nat): (h: real)
    ensures 0.0 < h <= 0.5
  {
    if d == 0 then 0.5 else HalfUnit(d - 1) / 10.0
  }

  /** The nearest integer to `x`, halves rounded away from zero. */
  function RoundToInteger(x: real): real {
    if x < 0.0 then -((-x + 0.5).Floor as real) else (x + 0.5).Floor as real
  }

  /** `x` rounded to `d` decimals: shifted left `d` decimal places, rounded to an
      integer, and shifted back. */
  function Round(x: real, d: nat): real
    decreases d
  {
    if d == 0 then RoundToInteger(x) else Round(10.0 * x, d - 1) / 10.0
  }

  /** Rounding moves a number by at most half a unit in the last place, and keeps
      the sign of the number (zero may result). */
  lemma {:induction false} RoundError(x: real, d: nat)
    ensures Abs(Round(x, d) - x) <= HalfUnit(d)
    ensures x >= 0.0 ==> Round(x, d) >= 0.0
    ensures x <= 0.0 ==> Round(x, d) <= 0.0
    decreases d
  {
    if d == 0 {
      var f := (Abs(x) + 0.5).Floor as real;
      assert f <= Abs(x) + 0.5 < f + 1.0;
    } else {
      RoundError(10.0 * x, d - 1);
    }
  }

  /** The number of units of 10^-d in `y >= 0`, rounded half up: `y` is shifted
      left one decimal place at a time, then rounded to an integer. These are the
      digits `toFixed` prints. */
  function ScaledUnits(y: real, d: nat): (n: nat)
    requires y >= 0.0
    decreases d
  {
    if d == 0 then (y + 0.5).Floor else ScaledUnits(10.0 * y, d - 1)
  }

  /** The digits `toFixed` prints are those of the rounded magnitude. */
  lemma {:induction false} ScaledUnitsRound(y: real, d: nat)
    requires y >= 0.0
    ensures ScaledUnits(y, d) as real == Shift(Round(y, d), d)
    decreases d
  {
    if d > 0 {
      ScaledUnitsRound(10.0 * y, d - 1);
      ShiftDivide(Round(10.0 * y, d - 1), d - 1);
    }
  }

  /** `m` shifted left `d` decimal places. */
  function Shift(m: real, d: nat): real {
    if d == 0 then m else 10.0 * Shift(m, d - 1)
  }

  lemma {:induction false} ShiftDivide(m: real, d: nat)
    ensures Shift(m / 10.0, d + 1) == Shift(m, d)
  {
    if d > 0 {
      ShiftDivide(m, d - 1);
    }
  }

  // ---------------------------------------------------------------------------
  // Text of numbers

  /** `x.toFixed(d)`: an optional minus sign, the integer digits, and, when
      `d > 0`, a point followed by exactly `d` digits. */
  function ToFixed(x: real, d: nat): (s: string)
    ensures |s| >= 1
  {
    var digits := Text.PadStart(Text.NatText(ScaledUnits(Abs(x), d)), d + 1, '0');
    var cut := |digits| - d;
    (if x < 0.0 then "-" else "") +
    digits[..cut] + (if d == 0 then "" else "." + digits[cut..])
  }

  /** `String(x)` of a constraint bound: integer-valued numbers print without a
      fraction; other values are printed with six decimals. */
  function NumberText(x: real): string {
    if x == x.Floor as real then
      (if x < 0.0 then "-" else "") + Text.NatText(Abs(x).Floor)
    else ToFixed(x, 6)
  }
}
