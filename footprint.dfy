/** The footprint a sensor covers at one sample of doScanPass
    (SCANcontroller.cs:424-446): the range test, the field of view projected
    to the surface, its integer half-widths and the grid of cells passed to
    the coverage map. */
module Footprint {
  import opened Wrappers
  import opened ScanType
  import opened Sensors
  import Angles
  import opened RealArith

  /** One call data.registerPass(lon, lat, sensor). */
  datatype Pass = Pass(lon: real, lat: real, sensor: Mask)

  /** Math.Min. */
  function Min(a: real, b: real): (r: real)
    ensures r <= a && r <= b && (r == a || r == b)
  {
    if a <= b then a else b
  }

  /** The sensor works at this altitude: not below its minimum and not above
      its maximum or the sphere of influence. */
  predicate InRange(s: Sensor, alt: real, soi: real)
  {
    s.minAlt <= alt <= Min(s.maxAlt, soi)
  }

  /** In range and at or above the best altitude (capped by the sphere of
      influence). */
  predicate AtBestRange(s: Sensor, alt: real, soi: real)
  {
    InRange(s, alt, soi) && alt >= Min(s.bestAlt, soi)
  }

  /** The sensor's entry with its flags recomputed for this altitude. */
  function Flagged(s: Sensor, alt: real, soi: real): Sensor
  {
    s.(inRange := InRange(s, alt, soi), bestRange := AtBestRange(s, alt, soi))
  }

  /** Every entry of a table with its flags recomputed. */
  function Classified(t: Table, alt: real, soi: real): (r: Table)
    ensures r.Keys == t.Keys
  {
    map k | k in t :: Flagged(t[k], alt, soi)
  }

  /** The field of view after the altitude and surface scaling, capped at 20
      degrees; None when the best altitude is zero and the sample lies below
      it, where the source divides by zero. */
  function ProjectedFov(s: Sensor, alt: real, soi: real, scale: real): (r: Option<real>)
    ensures r.Some? ==> r.value <= 20.0
    ensures r.None? <==> alt < Min(s.bestAlt, soi) && Min(s.bestAlt, soi) == 0.0
  {
    var ba := Min(s.bestAlt, soi);
    if alt < ba && ba == 0.0 then None
    else
      var fov := if alt < ba then (alt / ba) * s.fov else s.fov;
      var scaled := fov * scale;
      Some(if scaled > 20.0 then 20.0 else scaled)
  }

  /** Below the best altitude the footprint is never wider than at it. */
  lemma BelowBestNarrower(s: Sensor, alt: real, soi: real, scale: real)
    requires 0.0 <= alt < Min(s.bestAlt, soi) && s.fov >= 0.0 && scale >= 0.0
    ensures ProjectedFov(s, alt, soi, scale).Some?
    ensures 0.0 <= ProjectedFov(s, alt, soi, scale).value <= Min(s.fov * scale, 20.0)
  {
    var ba := Min(s.bestAlt, soi);
    var q := alt / ba;
    DivBelowOne(alt, ba);
    MulLe(q, s.fov);
    MulMono(q * s.fov, s.fov, scale);
    MulNonNeg(q * s.fov, scale);
    var v := q * s.fov * scale;
    assert alt < ba && ba != 0.0;
    assert (if alt < ba then (alt / ba) * s.fov else s.fov) * scale == v;
    assert ProjectedFov(s, alt, soi, scale).Some?;
    assert ProjectedFov(s, alt, soi, scale).value == if v > 20.0 then 20.0 else v;
    assert 0.0 <= v <= s.fov * scale;
  }

  /** At or above the best altitude the field of view is the configured one
      times the surface scale, capped at 20. */
  lemma AtBestUnscaled(s: Sensor, alt: real, soi: real, scale: real)
    requires alt >= Min(s.bestAlt, soi)
    ensures ProjectedFov(s, alt, soi, scale) == Some(Min(s.fov * scale, 20.0))
  {
    var scaled := s.fov * scale;
    assert ProjectedFov(s, alt, soi, scale).Some?;
    assert ProjectedFov(s, alt, soi, scale).value == (if scaled > 20.0 then 20.0 else scaled);
  }

  /** Math.Round: the nearest integer, ties to the even one. */
  function RoundHalfEven(x: real): (r: int)
    ensures -0.5 <= r as real - x <= 0.5
    ensures (r as real - x == 0.5 || x - r as real == 0.5) ==> r % 2 == 0
  {
    var fl := x.Floor;
    var d := x - fl as real;
    if d < 0.5 then fl
    else if d > 0.5 then fl + 1
    else if fl % 2 == 0 then fl else fl + 1
  }

  /** f = (int)Math.Truncate(fov) and f1 = f + (int)Math.Round(fov - f): the
      grid reaches f cells below the sample and f1 above it. */
  function HalfWidths(fov: real): (r: (int, int))
    ensures 0.0 <= fov ==> r.0 as real <= fov < r.0 as real + 1.0
    ensures 0.0 <= fov ==> (r.1 == r.0 || r.1 == r.0 + 1)
    ensures 0.0 <= fov ==> (r.1 == r.0 + 1 <==> fov - r.0 as real > 0.5)
    ensures fov < 0.0 ==> r.0 as real - 1.0 < fov <= r.0 as real
    ensures fov < 0.0 ==> (r.1 == r.0 || r.1 == r.0 - 1)
  {
    var f := Angles.Truncate(fov);
    (f, f + RoundHalfEven(fov - f as real))
  }

  /** The registrations of the inner loop: y from lo to hi at column x. */
  function Column(lon: real, lat: real, s: Mask, x: int, lo: int, hi: int): (r: seq<Pass>)
    decreases hi - lo
  {
    if hi < lo then [] else Column(lon, lat, s, x, lo, hi - 1) + [Pass(lon + x as real, lat + hi as real, s)]
  }

  /** The registrations of both loops: x from lo to xhi, each column y from lo
      to hi, in the order the loops make them. */
  function Grid(lon: real, lat: real, s: Mask, lo: int, hi: int, xhi: int): (r: seq<Pass>)
    decreases xhi - lo
  {
    if xhi < lo then [] else Grid(lon, lat, s, lo, hi, xhi - 1) + Column(lon, lat, s, xhi, lo, hi)
  }

  /** d is a whole offset in [lo, hi]. */
  predicate Offset(d: real, lo: int, hi: int)
  {
    Angles.Whole(d) && lo as real <= d <= hi as real
  }

  /** A column has one entry per y in [lo, hi]. */
  lemma {:induction false} ColumnSize(lon: real, lat: real, s: Mask, x: int, lo: int, hi: int)
    ensures |Column(lon, lat, s, x, lo, hi)| == if hi < lo then 0 else hi - lo + 1
    decreases hi - lo
  {
    if hi >= lo {
      ColumnSize(lon, lat, s, x, lo, hi - 1);
    }
  }

  /** A column holds exactly the passes at column x whose latitude offset is
      a whole number in [lo, hi]. */
  lemma {:induction false} ColumnCells(lon: real, lat: real, s: Mask, x: int, lo: int, hi: int, p: Pass)
    ensures p in Column(lon, lat, s, x, lo, hi) <==>
              p.sensor == s && p.lon == lon + x as real && Offset(p.lat - lat, lo, hi)
    decreases hi - lo
  {
    if hi >= lo {
      ColumnCells(lon, lat, s, x, lo, hi - 1, p);
      var d := p.lat - lat;
      if Offset(d, lo, hi) && d != hi as real {
        assert d.Floor <= hi - 1;
      }
    }
  }

  /** The grid has one entry per cell of [lo, xhi] x [lo, hi]. */
  lemma {:induction false} GridSize(lon: real, lat: real, s: Mask, lo: int, hi: int, xhi: int)
    ensures |Grid(lon, lat, s, lo, hi, xhi)| ==
              (if xhi < lo then 0 else xhi - lo + 1) * (if hi < lo then 0 else hi - lo + 1)
    decreases xhi - lo
  {
    if xhi >= lo {
      GridSize(lon, lat, s, lo, hi, xhi - 1);
      ColumnSize(lon, lat, s, xhi, lo, hi);
    }
  }

  /** The grid's passes are exactly those whose offsets from the sample are
      whole and in range. */
  lemma {:induction false} GridCells(lon: real, lat: real, s: Mask, lo: int, hi: int, xhi: int, p: Pass)
    ensures p in Grid(lon, lat, s, lo, hi, xhi) <==>
              p.sensor == s && Offset(p.lon - lon, lo, xhi) && Offset(p.lat - lat, lo, hi)
    decreases xhi - lo
  {
    if xhi >= lo {
      GridCells(lon, lat, s, lo, hi, xhi - 1, p);
      ColumnCells(lon, lat, s, xhi, lo, hi, p);
      var d := p.lon - lon;
      if Offset(d, lo, xhi) && d != xhi as real {
        assert d.Floor <= xhi - 1;
      }
      if p.lon == lon + xhi as real {
        assert d == xhi as real;
      }
    }
  }

  /** The cells one sensor registers at a sample: none when out of range,
      else the grid [-f, f1] x [-f, f1] around (lon, lat). */
  function SensorCells(s: Sensor, alt: real, soi: real, scale: real, lon: real, lat: real): seq<Pass>
  {
    if !InRange(s, alt, soi) then []
    else match ProjectedFov(s, alt, soi, scale)
      case None => []
      case Some(fov) =>
        var w := HalfWidths(fov);
        Grid(lon, lat, s.sensor, -w.0, w.1, w.1)
  }

  /** The nested loops of SCANcontroller.cs:442-446: registerPass at every
      cell of [-f, f1] x [-f, f1] around (lon, lat), columns outermost. */
  method RegisterGrid(lon: real, lat: real, s: Mask, f: int, f1: int) returns (cells: seq<Pass>)
    ensures cells == Grid(lon, lat, s, -f, f1, f1)
  {
    cells := [];
    var x := -f;
    while x <= f1
      invariant -f <= x && (x <= f1 + 1 || x == -f)
      invariant cells == Grid(lon, lat, s, -f, f1, x - 1)
    {
      var y := -f;
      ghost var before := cells;
      while y <= f1
        invariant -f <= y && (y <= f1 + 1 || y == -f)
        invariant cells == before + Column(lon, lat, s, x, -f, y - 1)
      {
        ghost var col := Column(lon, lat, s, x, -f, y - 1);
        var p := Pass(lon + x as real, lat + y as real, s);
        assert Column(lon, lat, s, x, -f, y) == col + [p];
        cells := cells + [p];
        assert cells == before + (col + [p]);
        y := y + 1;
      }
      assert Grid(lon, lat, s, -f, f1, x) == before + Column(lon, lat, s, x, -f, f1);
      x := x + 1;
    }
  }

  /** The field-of-view arithmetic of SCANcontroller.cs:432-440: scaled by
      alt/ba below the best altitude ba, then by the surface scale, capped
      at 20; best tells whether the sample is at or above ba. */
  method ProjectFov(s: Sensor, alt: real, soi: real, scale: real) returns (fov: Option<real>, best: bool)
    ensures fov == ProjectedFov(s, alt, soi, scale)
    ensures best <==> alt >= Min(s.bestAlt, soi)
  {
    var v := s.fov;
    var ba := Min(s.bestAlt, soi);
    best := false;
    if alt < ba {
      if ba == 0.0 {
        // The source divides by zero here; no footprint is modelled.
        return None, false;
      }
      v := (alt / ba) * v;
    } else {
      best := true;
    }
    v := v * scale;
    if v > 20.0 {
      v := 20.0;
    }
    assert ProjectedFov(s, alt, soi, scale).Some?;
    assert ProjectedFov(s, alt, soi, scale).value == v;
    fov := Some(v);
  }

  /** One pass of the sensor loop (SCANcontroller.cs:424-446): the flags are
      cleared and recomputed, and an in-range sensor registers its grid. */
  method SensorPass(s: Sensor, alt: real, soi: real, scale: real, lon: real, lat: real)
    returns (cells: seq<Pass>, flagged: Sensor)
    ensures flagged == Flagged(s, alt, soi)
    ensures cells == SensorCells(s, alt, soi, scale, lon, lat)
  {
    flagged := s.(inRange := false, bestRange := false);
    cells := [];
    if alt < s.minAlt || alt > Min(s.maxAlt, soi) {
      return;
    }
    flagged := flagged.(inRange := true);
    var fov, best := ProjectFov(s, alt, soi, scale);
    flagged := flagged.(bestRange := best);
    if fov.Some? {
      var f := Angles.Truncate(fov.value);
      var f1 := f + RoundHalfEven(fov.value - f as real);
      cells := RegisterGrid(lon, lat, s.sensor, f, f1);
    }
  }

  /** A sensor out of range registers nothing. */
  lemma OutOfRangeNoCells(s: Sensor, alt: real, soi: real, scale: real, lon: real, lat: real)
    requires alt < s.minAlt || alt > Min(s.maxAlt, soi)
    ensures SensorCells(s, alt, soi, scale, lon, lat) == []
  {
  }

  /** An in-range sensor registers a square of cells around the sample, all
      for its own sensor bit. */
  lemma InRangeCells(s: Sensor, alt: real, soi: real, scale: real, lon: real, lat: real, p: Pass)
    requires InRange(s, alt, soi) && ProjectedFov(s, alt, soi, scale).Some?
    ensures var w := HalfWidths(ProjectedFov(s, alt, soi, scale).value);
            p in SensorCells(s, alt, soi, scale, lon, lat) <==>
              p.sensor == s.sensor && Offset(p.lon - lon, -w.0, w.1) && Offset(p.lat - lat, -w.0, w.1)
  {
    var w := HalfWidths(ProjectedFov(s, alt, soi, scale).value);
    GridCells(lon, lat, s.sensor, -w.0, w.1, w.1, p);
  }

  /** ... at most 41 cells wide, and (w.0 + w.1 + 1) squared cells for a
      non-negative footprint. */
  lemma InRangeCount(s: Sensor, alt: real, soi: real, scale: real, lon: real, lat: real)
    requires InRange(s, alt, soi) && ProjectedFov(s, alt, soi, scale).Some?
    ensures var fov := ProjectedFov(s, alt, soi, scale).value;
            var w := HalfWidths(fov);
            && |SensorCells(s, alt, soi, scale, lon, lat)| <= 41 * 41
            && (fov >= 0.0 ==> |SensorCells(s, alt, soi, scale, lon, lat)| == (w.0 + w.1 + 1) * (w.0 + w.1 + 1))
  {
    var fov := ProjectedFov(s, alt, soi, scale).value;
    var w := HalfWidths(fov);
    GridSize(lon, lat, s.sensor, -w.0, w.1, w.1);
    var n := if w.1 < -w.0 then 0 else w.1 + w.0 + 1;
    assert 0 <= n <= 41;
    MulBound(n, 41);
  }

  /** Every cell a sensor registers is for its own bit, at a whole offset of
      at most 20 degrees from the sample in each angle. */
  lemma CellNear(s: Sensor, alt: real, soi: real, scale: real, lon: real, lat: real, p: Pass)
    requires p in SensorCells(s, alt, soi, scale, lon, lat)
    ensures p.sensor == s.sensor
    ensures Angles.Whole(p.lon - lon) && -20.0 <= p.lon - lon <= 20.0
    ensures Angles.Whole(p.lat - lat) && -20.0 <= p.lat - lat <= 20.0
  {
    var fov := ProjectedFov(s, alt, soi, scale).value;
    InRangeCells(s, alt, soi, scale, lon, lat, p);
    var w := HalfWidths(fov);
    assert Offset(p.lon - lon, -w.0, w.1) && Offset(p.lat - lat, -w.0, w.1);
    assert -20 <= -w.0 && w.1 <= 20 by {
      if fov >= 0.0 {
        assert w.0 <= 20;
      }
    }
  }

  /** n * n <= m * m for 0 <= n <= m. */
  lemma MulBound(n: int, m: int)
    requires 0 <= n <= m
    ensures n * n <= m * m
  {
  }

  /** The worked example: a sensor configured with the generic profile, at
      its best altitude of 200 km on a body whose sphere of influence is at
      least its maximum altitude, is at best range and keeps its 5 degree
      field of view, which reaches 5 cells either side. */
  lemma WorkedExampleFov(soi: real)
    requires soi >= 500000.0
    ensures var s := Sensor(AltimetryLoRes, 5.0, 5000.0, 500000.0, 200000.0, false, false);
            && AtBestRange(s, 200000.0, soi)
            && ProjectedFov(s, 200000.0, soi, 1.0) == Some(5.0)
            && HalfWidths(5.0) == (5, 5)
  {
    var s := Sensor(AltimetryLoRes, 5.0, 5000.0, 500000.0, 200000.0, false, false);
    assert Min(s.bestAlt, soi) == 200000.0;
    AtBestUnscaled(s, 200000.0, soi, 1.0);
    assert Angles.Truncate(5.0) == 5;
    assert RoundHalfEven(0.0) == 0;
  }

  /** ... and so registers an 11 x 11 grid. */
  lemma WorkedExampleCells(lon: real, lat: real, soi: real)
    requires soi >= 500000.0
    ensures var s := Sensor(AltimetryLoRes, 5.0, 5000.0, 500000.0, 200000.0, false, false);
            |SensorCells(s, 200000.0, soi, 1.0, lon, lat)| == 121
  {
    var s := Sensor(AltimetryLoRes, 5.0, 5000.0, 500000.0, 200000.0, false, false);
    WorkedExampleFov(soi);
    InRangeCount(s, 200000.0, soi, 1.0, lon, lat);
  }
}
