/** The radially-zoned material model of the impact simulation.

    A grid point is assigned to one of six concentric layers by the squared
    magnitude m = x*x + y*y of its coordinates, measured from the grid origin
    (not from the impact epicentre). Each layer carries a baseline temperature
    and a thermal diffusivity.
 */
module Zones {

  /** The layers of the planetary body, innermost first. */
  datatype Band = InnerCore | OuterCore | Mantle | Crust | Atmosphere | Space

  /** The material constants of a layer: its baseline temperature and its diffusivity `a`. */
  datatype Layer = Layer(layerTemp: real, a: real)

  /** Position of a band in the inside-out order. */
  function Index(b: Band): (k: nat)
    ensures k < 6
  {
    match b
    case InnerCore => 0
    case OuterCore => 1
    case Mantle => 2
    case Crust => 3
    case Atmosphere => 4
    case Space => 5
  }

  /** The if/elif cascade of the simulation, with its guards as written
      (each `elif` repeats the lower bound that the previous test already
      excludes). */
  function Classify(m: real): (b: Band)
    ensures InBand(m, b)
  {
    if m <= 1.0 then InnerCore
    else if 1.0 < m <= 4.0 then OuterCore
    else if 4.0 < m <= 6.5 then Mantle
    else if 6.5 < m <= 7.5 then Crust
    else if 7.5 < m <= 8.0 then Atmosphere
    else Space
  }

  /** The constants each branch of the cascade assigns. */
  function Params(b: Band): (l: Layer)
    ensures 0.0 < l.a
  {
    match b
    case InnerCore => Layer(55.0, 1.0)
    case OuterCore => Layer(40.0, 2.0)
    case Mantle => Layer(30.0, 3.0)
    case Crust => Layer(20.0, 0.3)
    case Atmosphere => Layer(0.0, 2.0)
    case Space => Layer(-2.7, 10000.0)
  }

  /** The layer the cascade selects for a zoning magnitude m. */
  function ZoneOf(m: real): Layer
  {
    Params(Classify(m))
  }

  // ---------------------------------------------------------------------
  // Reference specification: an ordered table of bands scanned in order.

  /** A bounded band: every m with m <= upper that no earlier row took. */
  datatype Row = Row(upper: real, band: Band)

  /** The bounded bands in ascending order of their upper bound; a value of m
      above the last bound falls into the unbounded exterior band, Space. */
  const Table: seq<Row> := [
    Row(1.0, InnerCore), Row(4.0, OuterCore), Row(6.5, Mantle),
    Row(7.5, Crust), Row(8.0, Atmosphere)
  ]

  /** The band of the first row whose upper bound admits m, or Space. */
  function FirstMatch(rows: seq<Row>, m: real): Band
  {
    if rows == [] then Space
    else if m <= rows[0].upper then rows[0].band
    else FirstMatch(rows[1..], m)
  }

  /** m lies in the half-open interval of band b: above the upper bound of the
      band before it (if any) and at most its own upper bound (if any). */
  ghost predicate InBand(m: real, b: Band)
  {
    var k := Index(b);
    (k == 0 || Table[k - 1].upper < m) && (k == |Table| || m <= Table[k].upper)
  }

  // ---------------------------------------------------------------------
  // Properties of the cascade.

  /** The table lists each bounded band at its own index, with strictly
      increasing upper bounds. */
  lemma TableWellFormed()
    ensures |Table| == Index(Space)
    ensures forall k :: 0 <= k < |Table| ==> Index(Table[k].band) == k
    ensures forall k, l :: 0 <= k < l < |Table| ==> Table[k].upper < Table[l].upper
  {
  }

  /** No m lies in two bands: the intervals are disjoint. */
  lemma BandsDisjoint(m: real, b1: Band, b2: Band)
    requires InBand(m, b1) && InBand(m, b2)
    ensures b1 == b2
  {
  }

  /** Classification is exhaustive and exclusive: the cascade yields b exactly
      when m lies in b's interval. */
  lemma ClassifyExact(m: real, b: Band)
    ensures Classify(m) == b <==> InBand(m, b)
  {
    if InBand(m, b) {
      BandsDisjoint(m, b, Classify(m));
    }
  }

  /** Scanning a suffix of the table from row k gives the first row from k
      on whose bound admits m. */
  lemma {:induction false} FirstMatchFrom(k: nat, m: real)
    requires k <= |Table|
    requires k == 0 || Table[k - 1].upper < m
    ensures FirstMatch(Table[k..], m) == Classify(m)
    decreases |Table| - k
  {
    if k < |Table| {
      assert Table[k..][0] == Table[k];
      assert Table[k..][1..] == Table[k + 1..];
      if m > Table[k].upper {
        FirstMatchFrom(k + 1, m);
      }
    }
  }

  /** The cascade is a first-match scan of the ordered table: its repeated
      lower bounds never change the outcome. */
  lemma ClassifyIsFirstMatch(m: real)
    ensures Classify(m) == FirstMatch(Table, m)
  {
    FirstMatchFrom(0, m);
    assert Table[0..] == Table;
  }

  /** A boundary value belongs to the lower band, because every test is `<=`. */
  lemma BoundariesBelongToLowerBand()
    ensures ZoneOf(1.0) == Layer(55.0, 1.0)
    ensures ZoneOf(4.0) == Layer(40.0, 2.0)
    ensures ZoneOf(6.5) == Layer(30.0, 3.0)
    ensures ZoneOf(7.5) == Layer(20.0, 0.3)
    ensures ZoneOf(8.0) == Layer(0.0, 2.0)
  {
  }

  /** Every m above 8 is outer space, and nothing else is. */
  lemma ExteriorIsSpace(m: real)
    ensures Classify(m) == Space <==> 8.0 < m
    ensures 8.0 < m ==> ZoneOf(m) == Layer(-2.7, 10000.0)
  {
  }

  /** The diffusivity is positive in every band, so the radicand 4*a*t of the
      formula's denominator is positive exactly when t is. */
  lemma RadicandPositiveIff(m: real, t: real)
    ensures 0.0 < 4.0 * ZoneOf(m).a * t <==> 0.0 < t
  {
    var a := ZoneOf(m).a;
    assert 0.0 < a;
    if 0.0 < t {
      assert 0.0 < a * t;
    } else {
      assert a * t <= 0.0;
    }
  }

  /** Going outwards, the band index never decreases. */
  lemma IndexMonotone(m1: real, m2: real)
    requires m1 <= m2
    ensures Index(Classify(m1)) <= Index(Classify(m2))
  {
  }

  /** Baseline temperatures strictly fall from one band to the next:
      55, 40, 30, 20, 0, -2.7. */
  lemma LayerTempDecreasing(b1: Band, b2: Band)
    requires Index(b1) < Index(b2)
    ensures Params(b2).layerTemp < Params(b1).layerTemp
  {
  }

  /** The baseline temperature is non-increasing in the zoning magnitude m. */
  lemma LayerTempMonotone(m1: real, m2: real)
    requires m1 <= m2
    ensures ZoneOf(m2).layerTemp <= ZoneOf(m1).layerTemp
  {
    IndexMonotone(m1, m2);
    if Classify(m1) != Classify(m2) {
      LayerTempDecreasing(Classify(m1), Classify(m2));
    }
  }
}
