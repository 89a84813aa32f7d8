/** The plotter's coordinates in exact arithmetic: when they keep the cells apart. */
module Exact {
  import opened ReportParser
  import opened Verdict
  import opened Plot

  /** Python's rounding to an integer: to the nearest, ties to even. */
  function RoundHalfEven(x: real): int {
    var below := x.Floor;
    var rest := x - below as real;
    if rest < 0.5 then below
    else if rest > 0.5 then below + 1
    else if below % 2 == 0 then below
    else below + 1
  }

  /** The nearest integer, and of two that are equally near the even one. */
  lemma RoundsToNearest(x: real, n: int)
    ensures RoundHalfEven(x) == n <==>
      -0.5 < x - n as real < 0.5 || ((x - n as real == 0.5 || x - n as real == -0.5) && n % 2 == 0)
  {
  }

  lemma RoundMonotone(x: real, y: real)
    requires x <= y
    ensures RoundHalfEven(x) <= RoundHalfEven(y)
  {
  }

  /** The coordinates with exact arithmetic: timings are rounded to four decimals, voltages to
      two. */
  function ExactX(steps: int, offset: int, timing: int): real {
    if steps == 0 then 0.0
    else RoundHalfEven(timing as real * TimingStep(steps, offset) * 10000.0) as real / 10000.0
  }

  function ExactY(steps: int, offset: int, volt: int): real {
    if steps == 0 then 0.0
    else RoundHalfEven(volt as real * VoltageStep(steps, offset) * 100.0) as real / 100.0
  }

  /** Exact columns are monotone. */
  lemma ExactMonotone(steps: int, offset: int)
    requires steps > 0 && offset >= 0
    ensures Monotone(ExactX, steps, offset)
  {
    hide TimingStep, RoundHalfEven;
    forall a, b | a <= b
      ensures ExactX(steps, offset, a) <= ExactX(steps, offset, b)
    {
      StepNotNegative(steps, offset);
      OrderedProducts(a, b, TimingStep(steps, offset));
      RoundedOrder(a as real * TimingStep(steps, offset), b as real * TimingStep(steps, offset));
    }
  }

  lemma StepNotNegative(steps: int, offset: int)
    requires steps > 0 && offset >= 0
    ensures TimingStep(steps, offset) >= 0.0
  {
  }

  lemma RoundedOrder(p: real, q: real)
    requires p <= q
    ensures RoundHalfEven(p * 10000.0) as real / 10000.0 <= RoundHalfEven(q * 10000.0) as real / 10000.0
  {
    RoundMonotone(p * 10000.0, q * 10000.0);
  }

  lemma OrderedProducts(a: int, b: int, step: real)
    requires a <= b && step >= 0.0
    ensures a as real * step <= b as real * step
  {
  }

  // ----- When two columns are drawn at the same place -----

  function Span(n: int): nat {
    if n < 0 then -n else n
  }

  /** t * num / steps, rounded. */
  function Rounded(t: int, num: int, steps: int): int
    requires steps > 0
  {
    RoundHalfEven((t * num) as real / steps as real)
  }

  /** A timing's column counts ten thousandths. */
  lemma ExactXIs(steps: int, offset: int, t: int)
    requires steps > 0
    ensures ExactX(steps, offset, t) == Rounded(t, 100 * offset, steps) as real / 10000.0
  {
    var v := t as real * TimingStep(steps, offset) * 10000.0;
    assert ExactX(steps, offset, t) == RoundHalfEven(v) as real / 10000.0;
    hide RoundHalfEven, ExactX;
    Quotients(t as real, offset as real, steps as real, 0.01, 10000.0, 100);
    Products(t, offset, 100);
    assert v == (t * (100 * offset)) as real / steps as real;
  }

  /** A voltage's row counts hundredths. */
  lemma ExactYIs(steps: int, offset: int, t: int)
    requires steps > 0
    ensures ExactY(steps, offset, t) == Rounded(t, 1000 * offset, steps) as real / 100.0
  {
    var v := t as real * VoltageStep(steps, offset) * 100.0;
    assert ExactY(steps, offset, t) == RoundHalfEven(v) as real / 100.0;
    hide RoundHalfEven, ExactY;
    Quotients(t as real, offset as real, steps as real, 10.0, 100.0, 1000);
    Products(t, offset, 1000);
    assert v == (t * (1000 * offset)) as real / steps as real;
  }

  lemma Products(t: int, offset: int, n: int)
    ensures t as real * offset as real * n as real == (t * (n * offset)) as real
  {
    RealProduct(t, offset);
    RealProduct(t * offset, n);
    assert t * offset * n == t * (n * offset);
  }

  lemma RealProduct(a: int, b: int)
    ensures a as real * b as real == (a * b) as real
  {
  }

  lemma Quotients(t: real, offset: real, q: real, unit: real, scale: real, n: int)
    requires q > 0.0 && unit * scale == n as real
    ensures t * ((offset * unit) / q) * scale == (t * offset * n as real) / q
  {
    var step := (offset * unit) / q;
    assert step * q == offset * unit;
    assert (t * step * scale) * q == t * (step * q) * scale == t * offset * (unit * scale);
  }

  lemma HalfAway(x: real)
    ensures x - 0.5 <= RoundHalfEven(x) as real <= x + 0.5
  {
  }

  /** Rounding misses by at most one half. */
  lemma RoundedNear(t: int, num: int, steps: int)
    requires steps > 0
    ensures 2 * (t * num) - steps <= 2 * (Rounded(t, num, steps) * steps) <= 2 * (t * num) + steps
  {
    var p, q, r := (t * num) as real, steps as real, Rounded(t, num, steps);
    HalfAway(p / q);
    hide RoundHalfEven, Rounded;
    Times(p, q, r as real);
    RealProduct(r, steps);
  }

  lemma Times(p: real, q: real, r: real)
    requires q > 0.0 && p / q - 0.5 <= r <= p / q + 0.5
    ensures 2.0 * p - q <= 2.0 * (r * q) <= 2.0 * p + q
  {
    var x := p / q;
    assert x * q == p;
    Scaled(x - 0.5, r, q);
    Scaled(r, x + 0.5, q);
    assert (x - 0.5) * q == p - 0.5 * q && (x + 0.5) * q == p + 0.5 * q;
  }

  lemma Scaled(a: real, b: real, q: real)
    requires a <= b && q > 0.0
    ensures a * q <= b * q
  {
  }

  lemma Between(r: int, n: int, steps: int)
    requires steps > 0 && 2 * (n * steps) - steps <= 2 * (r * steps) <= 2 * (n * steps) + steps
    ensures r == n
  {
    if r > n {
      NoLess(n + 1, r, steps);
    } else if r < n {
      NoLess(r, n - 1, steps);
    }
  }

  /** A multiple of the number of steps is hit exactly. */
  lemma RoundedAtMultiple(n: int, num: int, steps: int, t: int)
    requires steps > 0 && t * num == n * steps
    ensures Rounded(t, num, steps) == n
  {
    RoundedNear(t, num, steps);
    Between(Rounded(t, num, steps), n, steps);
  }

  lemma RoundedMirrored(t: int, num: int, steps: int)
    requires steps > 0
    ensures Rounded(t, num, steps) == Rounded(-t, -num, steps)
  {
    assert t * num == (-t) * (-num);
  }

  /** Steps of at least one unit keep the columns apart. */
  lemma RoundedApart(a: int, b: int, num: nat, steps: int)
    requires 0 < steps <= num && a < b
    ensures Rounded(a, num, steps) < Rounded(b, num, steps)
  {
    if num == steps {
      RoundedAtMultiple(a, num, steps, a);
      RoundedAtMultiple(b, num, steps, b);
    } else {
      var r, s := Rounded(a, num, steps), Rounded(b, num, steps);
      RoundedNear(a, num, steps);
      RoundedNear(b, num, steps);
      FurtherThanOne(a, b, num);
      if s <= r {
        NoLess(s, r, steps);
      }
    }
  }

  lemma FurtherThanOne(a: int, b: int, num: nat)
    requires a < b
    ensures b * num >= a * num + num
  {
    assert (b - a - 1) * num >= 0;
  }

  lemma NoLess(s: int, r: int, steps: int)
    requires s <= r && steps > 0
    ensures s * steps <= r * steps
  {
    assert (r - s) * steps >= 0;
  }

  lemma RoundedOrdered(a: int, b: int, num: nat, steps: int)
    requires steps > 0 && a <= b
    ensures Rounded(a, num, steps) <= Rounded(b, num, steps)
  {
    var x, y := (a * num) as real / steps as real, (b * num) as real / steps as real;
    assert (b - a) * num >= 0;
    RoundMonotone(x, y);
  }

  /** Columns that gain less than one unit each stand together somewhere. */
  lemma {:induction false} RoundedTogether(num: nat, steps: int, first: int, n: nat) returns (t: int)
    requires steps > 0 && Rounded(first + n, num, steps) < Rounded(first, num, steps) + n
    ensures first <= t < first + n && Rounded(t, num, steps) == Rounded(t + 1, num, steps)
  {
    t := first + n - 1;
    RoundedOrdered(t, t + 1, num, steps);
    if Rounded(t, num, steps) != Rounded(t + 1, num, steps) {
      t := RoundedTogether(num, steps, first, n - 1);
    }
  }

  /** All columns between -steps and steps are drawn apart. */
  ghost predicate AllApart(num: int, steps: int)
    requires steps > 0
  {
    forall a, b | -steps <= a < b <= steps :: Rounded(a, num, steps) != Rounded(b, num, steps)
  }

  /** The columns are apart exactly when the last one is at least as many units out as it is steps
      out: 2 * steps + 1 columns do not fit on fewer places. */
  lemma ApartExactly(num: int, steps: int)
    requires steps > 0
    ensures AllApart(num, steps) <==> steps <= Span(num)
  {
    var m := Span(num);
    forall a, b | -steps <= a < b <= steps && steps <= m
      ensures Rounded(a, num, steps) != Rounded(b, num, steps)
    {
      if num >= 0 {
        RoundedApart(a, b, m, steps);
      } else {
        RoundedMirrored(a, num, steps);
        RoundedMirrored(b, num, steps);
        RoundedApart(-b, -a, m, steps);
      }
    }
    if m < steps {
      RoundedAtMultiple(m, m, steps, steps);
      RoundedAtMultiple(-m, m, steps, -steps);
      var t := RoundedTogether(m, steps, -steps, 2 * steps);
      RoundedMirrored(t, m, steps);
      RoundedMirrored(t + 1, m, steps);
      if num >= 0 {
        assert -steps <= t < t + 1 <= steps;
      } else {
        assert -steps <= -(t + 1) < -t <= steps;
      }
    }
  }

  /** Two cells are drawn at the same place exactly when there are more than 100 timing steps, or more
      than 1000 voltage steps, for each unit of the offset. */
  lemma CollidesExactly(s: Scale)
    requires s.timingMax >= 0 && s.voltMax >= 0
    ensures GridCollides(ExactX, ExactY, s) <==>
      s.timingMax > 100 * Span(s.timingOffset) || s.voltMax > 1000 * Span(s.voltOffset)
  {
    hide ExactX, ExactY, GridCollides;
    ApartUnlessSame(ExactX, ExactY, s);
    ColumnsApart(s.timingMax, s.timingOffset);
    RowsApart(s.voltMax, s.voltOffset);
  }

  lemma ColumnsApart(steps: int, offset: int)
    requires steps >= 0
    ensures (forall a, b | -steps <= a < b <= steps :: ExactX(steps, offset, a) != ExactX(steps, offset, b)) <==>
      steps <= 100 * Span(offset)
  {
    hide ExactX, ExactY, Rounded;
    if steps > 0 {
      ApartExactly(100 * offset, steps);
      forall a {:trigger Rounded(a, 100 * offset, steps)} {:trigger ExactX(steps, offset, a)} | true
        ensures ExactX(steps, offset, a) == Rounded(a, 100 * offset, steps) as real / 10000.0
      {
        ExactXIs(steps, offset, a);
      }
    }
  }

  lemma RowsApart(steps: int, offset: int)
    requires steps >= 0
    ensures (forall a, b | -steps <= a < b <= steps :: ExactY(steps, offset, a) != ExactY(steps, offset, b)) <==>
      steps <= 1000 * Span(offset)
  {
    hide ExactX, ExactY, Rounded;
    if steps > 0 {
      ApartExactly(1000 * offset, steps);
      forall a {:trigger Rounded(a, 1000 * offset, steps)} {:trigger ExactY(steps, offset, a)} | true
        ensures ExactY(steps, offset, a) == Rounded(a, 1000 * offset, steps) as real / 100.0
      {
        ExactYIs(steps, offset, a);
      }
    }
  }
}
