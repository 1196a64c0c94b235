/**
  Python's `round(x)` on a number, taken over exact reals: the nearest integer,
  ties going to the even neighbour. Binary floating-point error is not modelled.
 */
module Rounding {

  function Abs(x: real): real {
    if x < 0.0 then -x else x
  }

  function RoundHalfEven(x: real): (n: int)
    ensures x - 0.5 <= n as real <= x + 0.5
    ensures Abs(x - n as real) == 0.5 ==> n % 2 == 0
  {
    var f := x.Floor;
    var frac := x - f as real;
    if frac < 0.5 then f
    else if frac > 0.5 then f + 1
    else if f % 2 == 0 then f
    else f + 1
  }

  /**
    The promise of Python's `round`: no integer is closer to x, an integer
    closer than one half is the answer, and of two equally close integers the
    even one is the answer.
   */
  lemma RoundHalfEvenIsNearest(x: real, k: int)
    ensures Abs(x - RoundHalfEven(x) as real) <= Abs(x - k as real)
    ensures Abs(x - k as real) < 0.5 ==> k == RoundHalfEven(x)
    ensures Abs(x - k as real) == 0.5 && k % 2 == 0 ==> k == RoundHalfEven(x)
  {
    var n := RoundHalfEven(x);
    if k != n {
      assert k <= n - 1 || k >= n + 1;
    }
  }

  /** Rounding never reverses the order of two numbers. */
  lemma RoundHalfEvenMonotone(x: real, y: real)
    requires x <= y
    ensures RoundHalfEven(x) <= RoundHalfEven(y)
  {
  }

  /** A tick is a non-zero price step; the bot never divides by a zero tick. */
  type Tick = t: real | t != 0.0 witness 1.0

  /** `r` is an integer number of ticks. */
  predicate IsMultipleOf(r: real, tick: Tick) {
    (r / tick).Floor as real == r / tick
  }

  /** A price moved to the nearest whole number of ticks, a tie going to the even count. */
  function RoundToTick(x: real, tick: Tick): real {
    RoundHalfEven(x / tick) as real * tick
  }

  /** The aligned price is a whole number of ticks, and at most half a tick from the raw price. */
  lemma RoundToTickAligned(x: real, tick: Tick)
    ensures IsMultipleOf(RoundToTick(x, tick), tick)
    ensures Abs(RoundToTick(x, tick) - x) <= Abs(tick) / 2.0
  {
    var q := x / tick;
    var n := RoundHalfEven(q);
    var r := RoundToTick(x, tick);
    TickArithmetic(r, n as real, x, tick);
    assert (n as real).Floor == n;
    AbsScaled(n as real - q, tick, r - x);
  }

  lemma TickArithmetic(r: real, n: real, x: real, t: Tick)
    requires r == n * t
    ensures r / t == n
    ensures r - x == (n - x / t) * t
  {
    assert (x / t) * t == x;
  }

  lemma AbsScaled(a: real, t: real, d: real)
    requires Abs(a) <= 0.5 && d == a * t
    ensures Abs(d) <= Abs(t) / 2.0
  {
    var aa, at := Abs(a), Abs(t);
    assert Abs(d) == aa * at by {
      if a < 0.0 && t < 0.0 {
        assert d == (-a) * (-t);
      } else if a < 0.0 {
        assert -d == (-a) * t;
      } else if t < 0.0 {
        assert -d == a * (-t);
      }
    }
    MulNonneg(0.5 - aa, at);
    assert at / 2.0 - aa * at == (0.5 - aa) * at;
  }

  lemma MulNonneg(x: real, y: real)
    requires x >= 0.0 && y >= 0.0
    ensures x * y >= 0.0
  {
  }

  lemma DivNonneg(x: real, t: real)
    requires x >= 0.0 && t > 0.0
    ensures x / t >= 0.0
  {
  }

  lemma DivideMonotone(x: real, y: real, t: real)
    requires x <= y && t > 0.0
    ensures x / t <= y / t
  {
    DivNonneg(y - x, t);
    assert y / t - x / t == (y - x) / t;
  }

  lemma ScaleMonotone(a: real, b: real, t: real)
    requires a <= b && t >= 0.0
    ensures a * t <= b * t
  {
    MulNonneg(b - a, t);
    assert b * t - a * t == (b - a) * t;
  }

  lemma DivideAntitone(x: real, y: real, t: real)
    requires x <= y && t < 0.0
    ensures y / t <= x / t
  {
    DivNonneg(y - x, -t);
    assert x / t - y / t == (y - x) / -t;
  }

  lemma ScaleAntitone(a: real, b: real, t: real)
    requires a <= b && t < 0.0
    ensures b * t <= a * t
  {
    MulNonneg(b - a, -t);
    assert a * t - b * t == (b - a) * -t;
  }

  /** Tick alignment preserves order, for a tick of either sign. */
  lemma RoundToTickMonotone(x: real, y: real, tick: Tick)
    requires x <= y
    ensures RoundToTick(x, tick) <= RoundToTick(y, tick)
  {
    if tick > 0.0 {
      PositiveTickMonotone(x, y, tick);
    } else {
      NegativeTickMonotone(x, y, tick);
    }
  }

  lemma PositiveTickMonotone(x: real, y: real, tick: Tick)
    requires x <= y && tick > 0.0
    ensures RoundToTick(x, tick) <= RoundToTick(y, tick)
  {
    var qx, qy := x / tick, y / tick;
    DivideMonotone(x, y, tick);
    ScaledRoundMonotone(qx, qy, tick);
  }

  lemma NegativeTickMonotone(x: real, y: real, tick: Tick)
    requires x <= y && tick < 0.0
    ensures RoundToTick(x, tick) <= RoundToTick(y, tick)
  {
    var qx, qy := x / tick, y / tick;
    DivideAntitone(x, y, tick);
    ScaledRoundAntitone(qy, qx, tick);
  }

  lemma ScaledRoundMonotone(a: real, b: real, t: real)
    requires a <= b && t > 0.0
    ensures RoundHalfEven(a) as real * t <= RoundHalfEven(b) as real * t
  {
    RoundHalfEvenMonotone(a, b);
    ScaleMonotone(RoundHalfEven(a) as real, RoundHalfEven(b) as real, t);
  }

  lemma ScaledRoundAntitone(a: real, b: real, t: real)
    requires a <= b && t < 0.0
    ensures RoundHalfEven(b) as real * t <= RoundHalfEven(a) as real * t
  {
    RoundHalfEvenMonotone(a, b);
    ScaleAntitone(RoundHalfEven(a) as real, RoundHalfEven(b) as real, t);
  }

  /** Ties round to even: 100.26 on a 0.5 tick becomes 100.5, while 99.5 and 100.5 both become 100 on a unit tick. */
  lemma RoundToTickExamples()
    ensures RoundToTick(100.26, 0.5) == 100.5
    ensures RoundToTick(99.5, 1.0) == 100.0
    ensures RoundToTick(100.5, 1.0) == 100.0
    ensures RoundToTick(101.5, 1.0) == 102.0
  {
    assert (100.26 / 0.5).Floor == 200;
    assert (99.5 / 1.0).Floor == 99;
    assert (100.5 / 1.0).Floor == 100;
    assert (101.5 / 1.0).Floor == 101;
  }
}
