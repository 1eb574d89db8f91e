/** The field evaluator `u(x, y, t)`: the temperature of every grid point at
    time t, computed in place over a 2-D array.

    The transcendental functions of the closed form (square root, exponential,
    power and the Gauss error function) are not modelled: they are passed in
    as the fields of a `Numerics` value, of which only the square root is
    constrained.
 */
module Field {
  import opened Zones

  /** x-coordinate of the impact epicentre. */
  const R0X: real := 1.93
  /** y-coordinate of the impact epicentre. */
  const R0Y: real := 1.93
  /** Impact radius. */
  const RMax: real := 0.3
  /** Initial temperature of the impact epicentre. */
  const U0: real := 100.0

  /** The floating-point library the closed form is evaluated with. */
  datatype Numerics = Numerics(
    sqrt: real -> real,
    exp: real -> real,
    pow: (real, real) -> real,
    erf: real -> real)

  /** The square root is the non-negative root on non-negative arguments
      (and, stated on its own, the root of zero is zero). */
  ghost predicate ValidNumerics(num: Numerics)
  {
    && (forall v :: 0.0 <= v ==> 0.0 <= num.sqrt(v) && num.sqrt(v) * num.sqrt(v) == v)
    && num.sqrt(0.0) == 0.0
  }

  /** The error function never decreases. */
  ghost predicate ErfNonDecreasing(num: Numerics)
  {
    forall u, v :: u <= v ==> num.erf(u) <= num.erf(v)
  }

  /** The error function stays within [-1, 1]. */
  ghost predicate ErfBounded(num: Numerics)
  {
    forall v :: -1.0 <= num.erf(v) <= 1.0
  }

  /** A positive base raised to any power is positive. */
  ghost predicate PowPositive(num: Numerics)
  {
    forall b, e :: 0.0 < b ==> 0.0 < num.pow(b, e)
  }

  /** The root of a positive radicand is positive: the denominator
      `sqrt(4*a*t)` of the closed form is non-zero. */
  lemma SqrtPositive(num: Numerics, v: real)
    requires ValidNumerics(num)
    requires 0.0 < v
    ensures 0.0 < num.sqrt(v)
  {
    var s := num.sqrt(v);
    assert 0.0 <= s && s * s == v;
  }

  /** The zoning magnitude: squared distance from the grid origin. */
  function ZoningMagnitude(px: real, py: real): (m: real)
    ensures 0.0 <= m
  {
    px * px + py * py
  }

  /** Squared distance from the impact epicentre. */
  function EpicentreDistanceSq(px: real, py: real): (d: real)
    ensures 0.0 <= d
  {
    (px - R0X) * (px - R0X) + (py - R0Y) * (py - R0Y)
  }

  /** The distance from the impact epicentre, the array's value before the
      loop overwrites it. */
  function EpicentreDistance(num: Numerics, px: real, py: real): (d: real)
    requires ValidNumerics(num)
    ensures 0.0 <= d && d * d == EpicentreDistanceSq(px, py)
  {
    num.sqrt(EpicentreDistanceSq(px, py))
  }

  /** The source amplitude decayed to time t: u_0 ** exp(-t/10). */
  function Amplitude(num: Numerics, t: real): real
  {
    num.pow(U0, num.exp(-(t / 10.0)))
  }

  /** The closed-form diffusion solution at distance r from the epicentre,
      for a layer with baseline temperature layerTemp and diffusivity a. */
  function Temperature(num: Numerics, layerTemp: real, a: real, r: real, t: real): real
    requires ValidNumerics(num)
    requires 0.0 < a && 0.0 < t
  {
    assert 0.0 < 4.0 * a * t by {
      assert 0.0 < a * t;
    }
    SqrtPositive(num, 4.0 * a * t);
    var s := num.sqrt(4.0 * a * t);
    layerTemp + 0.5 * Amplitude(num, t) * (num.erf((RMax - r) / s) - num.erf((-RMax - r) / s))
  }

  /** The value the loop writes into the cell of grid point (px, py) that
      holds rOld: the closed form for the layer of the point's zoning
      magnitude. */
  function CellUpdate(num: Numerics, px: real, py: real, rOld: real, t: real): real
    requires ValidNumerics(num)
    requires 0.0 < t
  {
    var layer := ZoneOf(ZoningMagnitude(px, py));
    Temperature(num, layer.layerTemp, layer.a, rOld, t)
  }

  /** The temperature of the grid point (px, py): its layer comes from the
      zoning magnitude, its distance from the epicentre. */
  function PointTemperature(num: Numerics, px: real, py: real, t: real): real
    requires ValidNumerics(num)
    requires 0.0 < t
  {
    CellUpdate(num, px, py, EpicentreDistance(num, px, py), t)
  }

  /** The grid lengths for which the loops stay inside the mesh: the mesh has
      |y| rows and |x| columns, while the loops run i < |x| over rows and
      j < |y| over columns. */
  predicate IndexableGrid(nx: nat, ny: nat)
  {
    nx == ny || nx == 0 || ny == 0
  }

  /** The index pair (i, j), if the loops visit it, lies inside a mesh of ny
      rows and nx columns. */
  predicate VisitInBounds(nx: nat, ny: nat, i: int, j: int)
  {
    0 <= i < nx && 0 <= j < ny ==> i < ny && j < nx
  }

  /** IndexableGrid holds exactly when every index pair the loops visit is
      inside the mesh. */
  lemma IndexableGridExact(nx: nat, ny: nat)
    ensures IndexableGrid(nx, ny) <==> forall i, j :: VisitInBounds(nx, ny, i, j)
  {
    if !IndexableGrid(nx, ny) {
      if nx < ny {
        assert !VisitInBounds(nx, ny, 0, nx);
      } else {
        assert !VisitInBounds(nx, ny, ny, 0);
      }
    }
  }

  /** Evaluates the field at time t over the mesh of x and y. The array r is
      first filled with each point's distance from the epicentre; the nested
      loops then overwrite every cell from that cell's own previous value, still
      its epicentre distance, and its own zone. */
  method Evaluate(num: Numerics, x: seq<real>, y: seq<real>, t: real) returns (r: array2<real>)
    requires ValidNumerics(num)
    requires 0.0 < t
    requires IndexableGrid(|x|, |y|)
    ensures fresh(r)
    ensures r.Length0 == |y| && r.Length1 == |x|
    ensures forall i, j :: 0 <= i < r.Length0 && 0 <= j < r.Length1 ==>
              r[i, j] == PointTemperature(num, x[j], y[i], t)
  {
    // The mesh: X[i, j] == x[j] and Y[i, j] == y[i].
    var X := new real[|y|, |x|]((i: nat, j: nat) requires i < |y| && j < |x| => x[j]);
    var Y := new real[|y|, |x|]((i: nat, j: nat) requires i < |y| && j < |x| => y[i]);
    r := new real[|y|, |x|]((i: nat, j: nat) requires i < |y| && j < |x| => EpicentreDistance(num, x[j], y[i]));

    var i := 0;
    while i < |x|
      invariant 0 <= i <= |x|
      invariant forall p, q :: 0 <= p < X.Length0 && 0 <= q < X.Length1 ==> X[p, q] == x[q] && Y[p, q] == y[p]
      invariant forall p, q :: 0 <= p < r.Length0 && 0 <= q < r.Length1 ==>
                  r[p, q] == if p < i then PointTemperature(num, x[q], y[p], t)
                             else EpicentreDistance(num, x[q], y[p])
    {
      var j := 0;
      while j < |y|
        invariant 0 <= j <= |y|
        invariant forall p, q :: 0 <= p < X.Length0 && 0 <= q < X.Length1 ==> X[p, q] == x[q] && Y[p, q] == y[p]
        invariant forall p, q :: 0 <= p < r.Length0 && 0 <= q < r.Length1 ==>
                    r[p, q] == if p < i || (p == i && q < j) then PointTemperature(num, x[q], y[p], t)
                               else EpicentreDistance(num, x[q], y[p])
      {
        r[i, j] := CellUpdate(num, X[i, j], Y[i, j], r[i, j], t);
        j := j + 1;
      }
      i := i + 1;
    }
  }

  /** Within its layer, the impact only ever adds heat, and at most the decayed
      amplitude of the source. */
  lemma TemperatureWithinImpactBand(num: Numerics, layerTemp: real, a: real, r: real, t: real)
    requires ValidNumerics(num) && ErfNonDecreasing(num) && ErfBounded(num) && PowPositive(num)
    requires 0.0 < a && 0.0 < t
    ensures layerTemp <= Temperature(num, layerTemp, a, r, t) <= layerTemp + Amplitude(num, t)
  {
    assert 0.0 < 4.0 * a * t by {
      assert 0.0 < a * t;
    }
    SqrtPositive(num, 4.0 * a * t);
    var s := num.sqrt(4.0 * a * t);
    var hi, lo := (RMax - r) / s, (-RMax - r) / s;
    DivideOrdered(-RMax - r, RMax - r, s);
    var d := num.erf(hi) - num.erf(lo);
    assert 0.0 <= d <= 2.0;
    var amp := Amplitude(num, t);
    assert 0.0 < amp by {
      var e := num.exp(-(t / 10.0));
      assert 0.0 < num.pow(U0, e);
    }
    HalfScaled(amp, d);
    assert Temperature(num, layerTemp, a, r, t) == layerTemp + 0.5 * amp * d;
  }

  /** Dividing by the positive denominator keeps the two erf arguments ordered. */
  lemma DivideOrdered(u: real, v: real, s: real)
    requires u <= v && 0.0 < s
    ensures u / s <= v / s
  {
    assert v / s - u / s == (v - u) / s;
  }

  /** Half the amplitude times an erf difference in [0, 2] lies in [0, amp]. */
  lemma HalfScaled(amp: real, d: real)
    requires 0.0 < amp && 0.0 <= d <= 2.0
    ensures 0.0 <= 0.5 * amp * d <= amp
  {
    assert 0.0 <= amp * d;
    assert amp * d <= amp * 2.0;
  }

  /** The grid origin is in the inner core while the epicentre lies in the
      crust: zoning is by distance from the origin, not from the epicentre.
      The origin's temperature is the closed form for (55, 1) at its own,
      positive, distance from the epicentre. */
  lemma ZoningIsNotEpicentric(num: Numerics, t: real)
    requires ValidNumerics(num)
    requires 0.0 < t
    ensures Classify(ZoningMagnitude(0.0, 0.0)) == InnerCore && 0.0 < EpicentreDistance(num, 0.0, 0.0)
    ensures PointTemperature(num, 0.0, 0.0, t) == Temperature(num, 55.0, 1.0, EpicentreDistance(num, 0.0, 0.0), t)
    ensures Classify(ZoningMagnitude(R0X, R0Y)) == Crust && EpicentreDistance(num, R0X, R0Y) == 0.0
  {
    assert EpicentreDistanceSq(R0X, R0Y) == 0.0;
  }
}
