/** The mask in exact arithmetic: a diamond, and the one that the plotter draws. */
module EyeMask {
  import opened ReportParser
  import opened Verdict
  import opened Exact

  /** A point is a convex combination of the corners (c - w, 0), (c, h), (c + w, 0) and (c, -h). */
  ghost predicate InDiamond(x: real, y: real, c: real, w: real, h: real) {
    exists a, b, d, e :: Combines(x, y, c, w, h, a, b, d, e)
  }

  predicate Combines(x: real, y: real, c: real, w: real, h: real, a: real, b: real, d: real, e: real) {
    && a >= 0.0 && b >= 0.0 && d >= 0.0 && e >= 0.0 && a + b + d + e == 1.0
    && x == a * (c - w) + b * c + d * (c + w) + e * c
    && y == a * 0.0 + b * h + d * 0.0 + e * (-h)
  }

  /** The point lies so far from the centre as the weights say. */
  lemma Centered(x: real, c: real, w: real, a: real, b: real, d: real, e: real)
    requires a + b + d + e == 1.0
    ensures a * (c - w) + b * c + d * (c + w) + e * c == c + (d - a) * w
  {
    assert a * (c - w) == a * c - a * w && d * (c + w) == d * c + d * w;
    assert (a + b + d + e) * c == a * c + b * c + d * c + e * c;
    assert (d - a) * w == d * w - a * w;
  }

  lemma AtMost(z: real, p: real, q: real, w: real)
    requires w > 0.0 && -q <= p <= q && z == p * w
    ensures Abs(z) / w <= q
  {
    assert Abs(z) <= q * w;
    assert (Abs(z) / w) * w == Abs(z);
  }

  /** The distance is at most 1 exactly in the diamond. */
  lemma DistanceIsDiamond(x: real, y: real, c: real, w: real, h: real)
    requires w > 0.0 && h > 0.0
    ensures Abs(x - c) / w + Abs(y) / h <= 1.0 <==> InDiamond(x, y, c, w, h)
  {
    if Abs(x - c) / w + Abs(y) / h <= 1.0 {
      WeightsExist(x, y, c, w, h);
    }
    if InDiamond(x, y, c, w, h) {
      var a, b, d, e :| Combines(x, y, c, w, h, a, b, d, e);
      WeightsBound(x, y, c, w, h, a, b, d, e);
    }
  }

  lemma WeightsBound(x: real, y: real, c: real, w: real, h: real, a: real, b: real, d: real, e: real)
    requires w > 0.0 && h > 0.0 && Combines(x, y, c, w, h, a, b, d, e)
    ensures Abs(x - c) / w <= d + a && Abs(y) / h <= b + e
  {
    Centered(x, c, w, a, b, d, e);
    Differences(b, e, h);
    var p, q := d - a, b - e;
    assert x == c + p * w && y == q * h;
    assert -(d + a) <= p <= d + a && -(b + e) <= q <= b + e;
    hide Combines, Abs;
    AtMost(x - c, p, d + a, w);
    AtMost(y, q, b + e, h);
  }

  lemma Differences(b: real, e: real, h: real)
    ensures b * h + e * (-h) == (b - e) * h
  {
  }

  lemma Shares(p: real, w: real) returns (u: real)
    requires w > 0.0
    ensures u * w == p && Abs(u) == Abs(p) / w
  {
    u := p / w;
    if p >= 0.0 {
      assert u >= 0.0;
    } else {
      assert (-p) / w == -u;
    }
  }

  lemma WeightsExist(x: real, y: real, c: real, w: real, h: real)
    requires w > 0.0 && h > 0.0 && Abs(x - c) / w + Abs(y) / h <= 1.0
    ensures InDiamond(x, y, c, w, h)
  {
    var u := Shares(x - c, w);
    var v := Shares(y, h);
    var rest := (1.0 - Abs(u) - Abs(v)) / 2.0;
    var a, d := (if u < 0.0 then -u else 0.0) + rest, (if u > 0.0 then u else 0.0) + rest;
    var b, e := if v > 0.0 then v else 0.0, if v < 0.0 then -v else 0.0;
    Centered(x, c, w, a, b, d, e);
    assert d - a == u && b - e == v;
    Differences(b, e, h);
    assert Combines(x, y, c, w, h, a, b, d, e);
  }

  /** What is tested: for gear 5 the diamond with the corners 0.15 UI and 30 mV from the centre, for every
      other gear the one with the corners 0.24 UI and 40 mV from it. */
  lemma MaskIsDiamond(x: real, y: real, c: real, gear: int)
    ensures gear == 5 ==> (InEyeMask(x, y, c, gear) <==> InDiamond(x, y, c, 0.15, 30.0))
    ensures gear != 5 ==> (InEyeMask(x, y, c, gear) <==> InDiamond(x, y, c, 0.24, 40.0))
  {
    DistanceIsDiamond(x, y, c, 0.15, 30.0);
    DistanceIsDiamond(x, y, c, 0.24, 40.0);
    hide InDiamond;
  }

  // ----- What is drawn -----

  /** How far, in columns, the mask's side corners are from the centre. */
  function EyeWidth(timingStep: real, gear: int): real
    requires timingStep != 0.0
  {
    (if gear == 5 then T_EYE_HS_G5_RX else T_EYE_HS_G4_RX) / 2.0 / timingStep
  }

  /** How far, in rows, its upper and lower corner are. */
  function EyeHeight(voltageStep: real, gear: int): real
    requires voltageStep != 0.0
  {
    (if gear == 5 then V_DIF_AC_HS_G5_RX else V_DIF_AC_HS_G4_RX) / voltageStep
  }

  /** The picture counts columns and rows where the test measures UI and mV. */
  lemma ScaledDiamond(t: real, v: real, c: real, w: real, h: real, ts: real, vs: real)
    requires ts != 0.0 && vs != 0.0
    ensures InDiamond(t, v, c, w / ts, h / vs) <==> InDiamond(t * ts, v * vs, c * ts, w, h)
  {
    if InDiamond(t, v, c, w / ts, h / vs) {
      var a, b, d, e :| Combines(t, v, c, w / ts, h / vs, a, b, d, e);
      SameWeights(t, v, c, w, h, ts, vs, a, b, d, e);
      assert Combines(t * ts, v * vs, c * ts, w, h, a, b, d, e);
    }
    if InDiamond(t * ts, v * vs, c * ts, w, h) {
      var a, b, d, e :| Combines(t * ts, v * vs, c * ts, w, h, a, b, d, e);
      SameWeights(t, v, c, w, h, ts, vs, a, b, d, e);
      assert Combines(t, v, c, w / ts, h / vs, a, b, d, e);
    }
  }

  lemma SameWeights(t: real, v: real, c: real, w: real, h: real, ts: real, vs: real, a: real, b: real, d: real, e: real)
    requires ts != 0.0 && vs != 0.0 && a + b + d + e == 1.0
    ensures Combines(t, v, c, w / ts, h / vs, a, b, d, e) <==> Combines(t * ts, v * vs, c * ts, w, h, a, b, d, e)
  {
    Centered(t, c, w / ts, a, b, d, e);
    Centered(t * ts, c * ts, w, a, b, d, e);
    SameColumn(t, c, w, ts, d - a);
    SameColumn(v, 0.0, h, vs, b - e);
    Differences(b, e, h);
    Differences(b, e, h / vs);
  }

  lemma SameColumn(t: real, c: real, w: real, ts: real, k: real)
    requires ts != 0.0
    ensures t == c + k * (w / ts) <==> t * ts == c * ts + k * w
  {
    var q := w / ts;
    assert q * ts == w;
    assert (c + k * q) * ts == c * ts + k * (q * ts);
    if t * ts == c * ts + k * w {
      assert (t - (c + k * q)) * ts == 0.0;
    }
  }

  /** The mask that is tested is the mask that is drawn: a point of the picture lies in the polygon
      around the centre column exactly when its coordinates pass the test. */
  lemma TestedIsDrawn(t: real, v: real, center: real, timingStep: real, voltageStep: real, gear: int)
    requires timingStep != 0.0 && voltageStep != 0.0
    ensures InEyeMask(t * timingStep, v * voltageStep, center * timingStep, gear) <==>
      InDiamond(t, v, center, EyeWidth(timingStep, gear), EyeHeight(voltageStep, gear))
  {
    MaskIsDiamond(t * timingStep, v * voltageStep, center * timingStep, gear);
    if gear == 5 {
      ScaledDiamond(t, v, center, 0.15, 30.0, timingStep, voltageStep);
    } else {
      ScaledDiamond(t, v, center, 0.24, 40.0, timingStep, voltageStep);
    }
    hide InDiamond, InEyeMask;
  }

  /** In exact arithmetic a cell is masked exactly when its rounded coordinates lie in the diamond of its
      gear around the rounded centre. */
  lemma MaskedExactly(s: Scale, center: int, k: Key)
    ensures Masked(ExactX, ExactY, InEyeMask, s, center, k) <==>
      InDiamond(ExactX(s.timingMax, s.timingOffset, k.timing), ExactY(s.voltMax, s.voltOffset, k.volt),
                ExactX(s.timingMax, s.timingOffset, center),
                if s.gear == 5 then 0.15 else 0.24, if s.gear == 5 then 30.0 else 40.0)
  {
    hide InDiamond, InEyeMask, ExactX, ExactY;
    MaskIsDiamond(ExactX(s.timingMax, s.timingOffset, k.timing), ExactY(s.voltMax, s.voltOffset, k.volt),
                  ExactX(s.timingMax, s.timingOffset, center), s.gear);
  }

  /** With 25 timing steps up to an offset of 50, column 10 is at 0.2 UI: inside the mask of gear 4, outside
      that of gear 5. */
  lemma ColumnTen(s: Scale)
    requires s.timingMax == 25 && s.timingOffset == 50 && s.voltMax > 0
    ensures Masked(ExactX, ExactY, InEyeMask, s, 0, Key(10, 0)) <==> s.gear != 5
  {
    assert ExactX(25, 50, 10) == 0.2 && ExactX(25, 50, 0) == 0.0;
    assert ExactY(s.voltMax, s.voltOffset, 0) == 0.0;
  }
}
