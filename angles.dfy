/** Angle normalisation (SCANcontroller.fixLatitude / fixLongitude) over reals,
    with C#'s remainder operator, whose result takes the sign of the dividend. */
module Angles {

  /** C#'s conversion toward zero of a real, as an integer. */
  function Truncate(x: real): (t: int)
    ensures 0.0 <= x ==> t as real <= x < t as real + 1.0
    ensures x < 0.0 ==> t as real - 1.0 < x <= t as real
  {
    if x >= 0.0 then x.Floor else -((-x).Floor)
  }

  /** q is a whole number. */
  predicate Whole(q: real)
  {
    q.Floor as real == q
  }

  /** x % m for doubles in C#: x minus the truncated quotient times m. */
  function CsRem(x: real, m: real): real
    requires m > 0.0
  {
    x - Truncate(x / m) as real * m
  }

  /** fixLatitude (SCANcontroller.cs:321-323). */
  function FixLatitude(lat: real): (r: real)
    ensures lat >= -270.0 ==> -90.0 <= r < 90.0
    ensures lat < -270.0 ==> -270.0 < r <= -90.0
    ensures Whole((lat - r) / 180.0)
  {
    var t := Truncate((lat + 90.0 + 180.0) / 180.0);
    assert (lat - (CsRem(lat + 90.0 + 180.0, 180.0) - 90.0)) / 180.0 == (t - 1) as real;
    CsRem(lat + 90.0 + 180.0, 180.0) - 90.0
  }

  /** fixLongitude (SCANcontroller.cs:325-327). */
  function FixLongitude(lon: real): (r: real)
    ensures lon >= -540.0 ==> -180.0 <= r < 180.0
    ensures lon < -540.0 ==> -540.0 < r <= -180.0
    ensures Whole((lon - r) / 360.0)
  {
    var t := Truncate((lon + 180.0 + 360.0) / 360.0);
    assert (lon - (CsRem(lon + 180.0 + 360.0, 360.0) - 180.0)) / 360.0 == (t - 1) as real;
    CsRem(lon + 180.0 + 360.0, 360.0) - 180.0
  }

  /** The difference of two whole numbers is whole. */
  lemma WholeDiff(a: real, b: real)
    requires Whole(a) && Whole(b)
    ensures Whole(a - b)
  {
    assert a - b == (a.Floor - b.Floor) as real;
  }

  /** For lat >= -270 the result is the one latitude in [-90, 90) that is
      congruent to lat modulo 180. */
  lemma {:induction false} FixLatitudeUnique(lat: real, y: real)
    requires lat >= -270.0 && -90.0 <= y < 90.0 && Whole((lat - y) / 180.0)
    ensures FixLatitude(lat) == y
  {
    var r := FixLatitude(lat);
    WholeDiff((lat - y) / 180.0, (lat - r) / 180.0);
    assert (lat - y) / 180.0 - (lat - r) / 180.0 == (r - y) / 180.0;
  }

  /** For lon >= -540 the result is the one longitude in [-180, 180) that is
      congruent to lon modulo 360. */
  lemma {:induction false} FixLongitudeUnique(lon: real, y: real)
    requires lon >= -540.0 && -180.0 <= y < 180.0 && Whole((lon - y) / 360.0)
    ensures FixLongitude(lon) == y
  {
    var r := FixLongitude(lon);
    WholeDiff((lon - y) / 360.0, (lon - r) / 360.0);
    assert (lon - y) / 360.0 - (lon - r) / 360.0 == (r - y) / 360.0;
  }

  /** Latitudes already in [-90, 90) are left alone, so normalising twice is
      normalising once. */
  lemma FixLatitudeIdempotent(lat: real)
    requires lat >= -270.0
    ensures FixLatitude(FixLatitude(lat)) == FixLatitude(lat)
  {
    var r := FixLatitude(lat);
    assert Whole((r - r) / 180.0);
    FixLatitudeUnique(r, r);
  }

  /** Longitudes already in [-180, 180) are left alone, so normalising twice is
      normalising once. */
  lemma FixLongitudeIdempotent(lon: real)
    requires lon >= -540.0
    ensures FixLongitude(FixLongitude(lon)) == FixLongitude(lon)
  {
    var r := FixLongitude(lon);
    assert Whole((r - r) / 360.0);
    FixLongitudeUnique(r, r);
  }

  /** Adding a half turn of latitude does not change the normalised value. */
  lemma FixLatitudePeriodic(lat: real)
    requires lat >= -270.0
    ensures FixLatitude(lat + 180.0) == FixLatitude(lat)
  {
    var r := FixLatitude(lat);
    WholeDiff((lat - r) / 180.0, -1.0);
    assert (lat + 180.0 - r) / 180.0 == (lat - r) / 180.0 - (-1.0);
    FixLatitudeUnique(lat + 180.0, r);
  }

  /** Adding a full turn of longitude does not change the normalised value. */
  lemma FixLongitudePeriodic(lon: real)
    requires lon >= -540.0
    ensures FixLongitude(lon + 360.0) == FixLongitude(lon)
  {
    var r := FixLongitude(lon);
    WholeDiff((lon - r) / 360.0, -1.0);
    assert (lon + 360.0 - r) / 360.0 == (lon - r) / 360.0 - (-1.0);
    FixLongitudeUnique(lon + 360.0, r);
  }

  /** The worked values: -95 wraps to 85, 90 wraps to -90 (the range is
      closed below and open above), 185 wraps to -175. */
  lemma FixExamples()
    ensures FixLatitude(-95.0) == 85.0
    ensures FixLatitude(90.0) == -90.0
    ensures FixLongitude(185.0) == -175.0
  {
    assert Truncate(175.0 / 180.0) == 0;
    assert Truncate(360.0 / 180.0) == 2;
    assert Truncate(725.0 / 360.0) == 2;
  }
}
