/**
 * The scale chosen for a diff morph and the int16 quantization of its deltas
 * (io.py:191-203), idealised over the reals: the deltas, the division and
 * Python's round() are exact here, where the source computes in floating point.
 */
module Scale {

  datatype Vec3 = Vec3(x: real, y: real, z: real)

  function Abs(r: real): (a: real)
    ensures a >= 0.0 && (a == r || a == -r)
  {
    if r < 0.0 then -r else r
  }

  /** max([abs(d[0]), abs(d[1]), abs(d[2])]) */
  function MaxAbs(d: Vec3): (m: real)
    ensures Abs(d.x) <= m && Abs(d.y) <= m && Abs(d.z) <= m
    ensures m == Abs(d.x) || m == Abs(d.y) || m == Abs(d.z)
  {
    var xy := if Abs(d.x) >= Abs(d.y) then Abs(d.x) else Abs(d.y);
    if xy >= Abs(d.z) then xy else Abs(d.z)
  }

  /**
   * delta_max: the largest component magnitude over all deltas. Python's
   * max raises on an empty list, which export reports before calling this.
   */
  function DeltaMax(ds: seq<Vec3>): (m: real)
    requires |ds| > 0
    ensures forall i :: 0 <= i < |ds| ==> MaxAbs(ds[i]) <= m
    ensures exists i :: 0 <= i < |ds| && MaxAbs(ds[i]) == m
  {
    if |ds| == 1 then MaxAbs(ds[0])
    else
      var rest := DeltaMax(ds[1..]);
      assert forall i :: 1 <= i < |ds| ==> ds[i] == ds[1..][i - 1];
      if MaxAbs(ds[0]) >= rest then MaxAbs(ds[0]) else rest
  }

  /** The largest int16 magnitude a delta is mapped onto. */
  const SHORT_MAX: int := 32767

  /**
   * The scale written before a diff morph's deltas: 1.0 when every delta is
   * zero, otherwise the one that maps the largest component onto SHORT_MAX.
   */
  function ChooseScale(ds: seq<Vec3>): (scale: real)
    requires |ds| > 0
    ensures scale > 0.0
    ensures DeltaMax(ds) == 0.0 ==> scale == 1.0
    ensures DeltaMax(ds) != 0.0 ==> scale * (SHORT_MAX as real) == DeltaMax(ds)
  {
    var m := DeltaMax(ds);
    if m == 0.0 then 1.0 else m / (SHORT_MAX as real)
  }

  /** Python's round() to an int: the nearest integer, ties to the even one. */
  function Round(x: real): (n: int)
    ensures -0.5 <= (n as real) - x <= 0.5
    ensures ((n as real) - x == 0.5 || x - (n as real) == 0.5) ==> n % 2 == 0
  {
    var f := x.Floor;
    var frac := x - f as real;
    if frac < 0.5 then f
    else if frac > 0.5 then f + 1
    else if f % 2 == 0 then f else f + 1
  }

  /** The three int16 values written for one delta (io.py:203). */
  function Quantize(d: Vec3, scale: real): (q: seq<int>)
    requires scale > 0.0
    ensures |q| == 3
  {
    [Round(d.x / scale), Round(d.y / scale), Round(d.z / scale)]
  }

  /** Rounding never leaves an integer interval around its argument. */
  lemma {:induction false} RoundWithin(x: real, m: int)
    requires -(m as real) <= x <= m as real
    ensures -m <= Round(x) <= m
  {
    var f := x.Floor;
    assert f <= m;
    if x - (f as real) > 0.0 {
      assert (f as real) < m as real;
    }
  }

  lemma {:induction false} MulMonotone(a: real, b: real, s: real)
    requires s > 0.0 && a <= b
    ensures a * s <= b * s
  {
  }

  lemma {:induction false} MulStrict(a: real, b: real, s: real)
    requires s > 0.0 && a < b
    ensures a * s < b * s
  {
  }

  lemma {:induction false} DivCancel(c: real, s: real)
    requires s != 0.0
    ensures c / s * s == c && (c * s) / s == c
  {
  }

  /** |c| <= k * s bounds c / s by k. */
  lemma {:induction false} WithinBound(c: real, s: real, k: real)
    requires k > 0.0 && s > 0.0 && Abs(c) <= k * s
    ensures -k <= c / s <= k
  {
    var q := c / s;
    DivCancel(c, s);
    if q > k {
      MulStrict(k, q, s);
      assert false;
    }
    if q < -k {
      MulStrict(q, -k, s);
      assert false;
    }
  }

  /** A component no larger than delta_max divides to at most SHORT_MAX. */
  lemma {:induction false} ComponentWithin(c: real, ds: seq<Vec3>)
    requires |ds| > 0 && Abs(c) <= DeltaMax(ds)
    ensures -(SHORT_MAX as real) <= c / ChooseScale(ds) <= SHORT_MAX as real
  {
    var m := DeltaMax(ds);
    var s := ChooseScale(ds);
    if m != 0.0 {
      WithinBound(c, s, SHORT_MAX as real);
    } else {
      assert c == 0.0;
    }
  }

  /** Every quantized component fits the "h" format, within +-SHORT_MAX. */
  lemma {:induction false} QuantizeFits(ds: seq<Vec3>, i: nat)
    requires i < |ds|
    ensures forall c :: c in Quantize(ds[i], ChooseScale(ds)) ==> -SHORT_MAX <= c <= SHORT_MAX
  {
    var d := ds[i];
    var s := ChooseScale(ds);
    ComponentWithin(d.x, ds);
    ComponentWithin(d.y, ds);
    ComponentWithin(d.z, ds);
    RoundWithin(d.x / s, SHORT_MAX);
    RoundWithin(d.y / s, SHORT_MAX);
    RoundWithin(d.z / s, SHORT_MAX);
  }

  /** A shape identical to the reference gets scale 1.0 and all-zero deltas. */
  lemma {:induction false} ZeroDeltasQuantizeToZero(ds: seq<Vec3>, i: nat)
    requires i < |ds| && DeltaMax(ds) == 0.0
    ensures ChooseScale(ds) == 1.0
    ensures Quantize(ds[i], ChooseScale(ds)) == [0, 0, 0]
  {
    var d := ds[i];
    assert MaxAbs(d) <= 0.0;
    assert d.x == 0.0 && d.y == 0.0 && d.z == 0.0;
  }

  /** A component of magnitude delta_max quantizes to exactly +-SHORT_MAX. */
  lemma {:induction false} ExtremeComponent(c: real, m: real, s: real)
    requires m != 0.0 && s * (SHORT_MAX as real) == m && Abs(c) == m
    ensures Abs(Round(c / s) as real) == SHORT_MAX as real
  {
    var k: real := SHORT_MAX as real;
    assert s != 0.0;
    DivCancel(k, s);
    if c == m {
      assert c / s == k;
      assert Round(k) == SHORT_MAX;
    } else {
      assert c == (-k) * s;
      DivCancel(-k, s);
      assert c / s == -k;
      assert Round(-k) == -SHORT_MAX;
    }
  }

  /** Otherwise the largest component is mapped exactly onto +-SHORT_MAX. */
  lemma {:induction false} MaxMapsToShortMax(ds: seq<Vec3>)
    requires |ds| > 0 && DeltaMax(ds) != 0.0
    ensures exists i, j :: 0 <= i < |ds| && 0 <= j < 3 && Abs(Quantize(ds[i], ChooseScale(ds))[j] as real) == SHORT_MAX as real
  {
    var m := DeltaMax(ds);
    var s := ChooseScale(ds);
    var i :| 0 <= i < |ds| && MaxAbs(ds[i]) == m;
    var d := ds[i];
    var q := Quantize(d, s);
    if Abs(d.x) == m {
      ExtremeComponent(d.x, m, s);
      assert Abs(q[0] as real) == SHORT_MAX as real;
    } else if Abs(d.y) == m {
      ExtremeComponent(d.y, m, s);
      assert Abs(q[1] as real) == SHORT_MAX as real;
    } else {
      ExtremeComponent(d.z, m, s);
      assert Abs(q[2] as real) == SHORT_MAX as real;
    }
  }

  /** An error of at most one half, scaled by s, is at most s / 2. */
  lemma {:induction false} HalfStepBound(d: real, s: real)
    requires s > 0.0 && -0.5 <= d <= 0.5
    ensures Abs(d * s) <= s / 2.0
  {
    MulMonotone(d, 0.5, s);
    MulMonotone(-0.5, d, s);
    assert 0.5 * s == s / 2.0;
    assert (-0.5) * s == -(s / 2.0);
  }

  /** Reconstructing int16 * scale recovers each component within half a scale step. */
  lemma {:induction false} QuantizationError(c: real, scale: real)
    requires scale > 0.0
    ensures Abs((Round(c / scale) as real) * scale - c) <= scale / 2.0
  {
    var q := c / scale;
    var n := Round(q) as real;
    DivCancel(c, scale);
    assert (n - q) * scale == n * scale - c;
    HalfStepBound(n - q, scale);
  }
}
