/**
 * `listPeripheralZones`: the candidate cells of one ring of the search.  The
 * nested loops walk a square of 2-degree steps around the village, and the
 * result is stably sorted by distance to the village's true position.
 */
module Zones {
  import opened JsNumber
  import opened StableSort

  /** One candidate cell, `{lat: i, lng: j}`. */
  datatype Zone = Zone(lat: int, lng: int)

  /** `degrees = Math.round(degrees/2)*2`. */
  function RoundedDegrees(degrees: int): (d: int)
    ensures d % 2 == 0
  {
    Round(degrees as real / 2.0) * 2
  }

  /** Where both loops start: `Math.round(x/2)*2 - degrees`. */
  function RoundedStart(x: real, d: int): (s: int)
    requires d % 2 == 0
    ensures s % 2 == 0
  {
    Round(x / 2.0) * 2 - d
  }

  /** The inner loop's output for row `i`: columns j, j+2, ... up to `jHi`. */
  function ZoneRow(i: int, j: int, jHi: int): seq<Zone>
    decreases if j > jHi then 0 else jHi - j + 2
  {
    if j > jHi then [] else [Zone(i, j)] + ZoneRow(i, j + 2, jHi)
  }

  /** The outer loop's output: rows i, i+2, ... up to `iHi`, each a full `ZoneRow`. */
  function ZoneRows(i: int, iHi: int, j0: int, jHi: int): seq<Zone>
    decreases if i > iHi then 0 else iHi - i + 2
  {
    if i > iHi then [] else ZoneRow(i, j0, jHi) + ZoneRows(i + 2, iHi, j0, jHi)
  }

  /** The zones in the order the nested loops push them. */
  function Generated(lat: real, lng: real, degrees: int): seq<Zone>
  {
    var d := RoundedDegrees(degrees);
    ZoneRows(RoundedStart(lat, d), (lat + d as real).Floor, RoundedStart(lng, d), (lng + d as real).Floor)
  }

  /**
   * The sort key.  The source sorts by `Math.hypot` of the offsets; the squared
   * distance orders the zones the same way.
   */
  function SquaredDistance(z: Zone, lat: real, lng: real): (r: real)
    ensures r >= 0.0
  {
    (z.lat as real - lat) * (z.lat as real - lat) + (z.lng as real - lng) * (z.lng as real - lng)
  }

  function DistanceKey(lat: real, lng: real): Zone -> real
  {
    z => SquaredDistance(z, lat, lng)
  }

  /** A loop bound `i <= x` over a real `x` is the integer bound `i <= floor(x)`. */
  lemma FloorBound(i: int, x: real)
    ensures i as real <= x <==> i <= x.Floor
  {
  }

  /** The value `listPeripheralZones` returns. */
  function PeripheralZones(lat: real, lng: real, degrees: int): seq<Zone>
  {
    SortBy(Generated(lat, lng, degrees), DistanceKey(lat, lng))
  }

  method ListPeripheralZones(lat: real, lng: real, degrees: int) returns (zones: seq<Zone>)
    ensures zones == PeripheralZones(lat, lng, degrees)
  {
    var d := RoundedDegrees(degrees);
    ghost var iHi := (lat + d as real).Floor;
    ghost var j0, jHi := RoundedStart(lng, d), (lng + d as real).Floor;
    ghost var full := Generated(lat, lng, degrees);
    var generated: seq<Zone> := [];
    var i := RoundedStart(lat, d);
    while i as real <= lat + d as real
      invariant generated + ZoneRows(i, iHi, j0, jHi) == full
      decreases iHi - i + 2
    {
      FloorBound(i, lat + d as real);
      RowsStep(i, iHi, j0, jHi);
      ConcatAssoc(generated, ZoneRow(i, j0, jHi), ZoneRows(i + 2, iHi, j0, jHi));
      generated := PushRow(generated, i, lng, d);
      i := i + 2;
    }
    FloorBound(i, lat + d as real);
    assert generated == full;
    zones := SortBy(generated, DistanceKey(lat, lng));
  }

  lemma ConcatAssoc(a: seq<Zone>, b: seq<Zone>, c: seq<Zone>)
    ensures (a + b) + c == a + (b + c)
  {
  }

  lemma RowsStep(i: int, iHi: int, j0: int, jHi: int)
    requires i <= iHi
    ensures ZoneRows(i, iHi, j0, jHi) == ZoneRow(i, j0, jHi) + ZoneRows(i + 2, iHi, j0, jHi)
  {
  }

  /** The inner loop of listPeripheralZones: push row `i` onto `generated`. */
  method PushRow(generated: seq<Zone>, i: int, lng: real, d: int) returns (r: seq<Zone>)
    requires d % 2 == 0
    ensures r == generated + ZoneRow(i, RoundedStart(lng, d), (lng + d as real).Floor)
  {
    ghost var jHi := (lng + d as real).Floor;
    r := generated;
    var j := RoundedStart(lng, d);
    while j as real <= lng + d as real
      invariant r + ZoneRow(i, j, jHi) == generated + ZoneRow(i, RoundedStart(lng, d), jHi)
      decreases jHi - j + 2
    {
      FloorBound(j, lng + d as real);
      ConcatAssoc(r, [Zone(i, j)], ZoneRow(i, j + 2, jHi));
      r := r + [Zone(i, j)];
      j := j + 2;
    }
    FloorBound(j, lng + d as real);
  }

  lemma {:induction false} ZoneRowMembers(i: int, j: int, jHi: int, z: Zone)
    ensures z in ZoneRow(i, j, jHi) <==> z.lat == i && j <= z.lng <= jHi && (z.lng - j) % 2 == 0
    decreases if j > jHi then 0 else jHi - j + 2
  {
    if j <= jHi {
      ZoneRowMembers(i, j + 2, jHi, z);
    }
  }

  lemma {:induction false} ZoneRowsMembers(i: int, iHi: int, j0: int, jHi: int, z: Zone)
    ensures z in ZoneRows(i, iHi, j0, jHi) <==>
              i <= z.lat <= iHi && (z.lat - i) % 2 == 0 && j0 <= z.lng <= jHi && (z.lng - j0) % 2 == 0
    decreases if i > iHi then 0 else iHi - i + 2
  {
    if i <= iHi {
      ZoneRowMembers(i, j0, jHi, z);
      ZoneRowsMembers(i + 2, iHi, j0, jHi, z);
    }
  }

  /** A zone lies on one ring's grid: the 2-degree steps from the two starts up to the two bounds. */
  ghost predicate OnRing(z: Zone, lat: real, lng: real, degrees: int)
  {
    var d := RoundedDegrees(degrees);
    && RoundedStart(lat, d) <= z.lat && z.lat as real <= lat + d as real
    && (z.lat - RoundedStart(lat, d)) % 2 == 0
    && RoundedStart(lng, d) <= z.lng && z.lng as real <= lng + d as real
    && (z.lng - RoundedStart(lng, d)) % 2 == 0
  }

  lemma GeneratedMembers(lat: real, lng: real, degrees: int, z: Zone)
    ensures z in Generated(lat, lng, degrees) <==> OnRing(z, lat, lng, degrees)
  {
    var d := RoundedDegrees(degrees);
    var i0, j0 := RoundedStart(lat, d), RoundedStart(lng, d);
    var iHi, jHi := (lat + d as real).Floor, (lng + d as real).Floor;
    ZoneRowsMembers(i0, iHi, j0, jHi, z);
    FloorBound(z.lat, lat + d as real);
    FloorBound(z.lng, lng + d as real);
  }

  /**
   * The zones of one ring are exactly the 2-degree steps from the rounded
   * start to the unrounded position plus the radius, in both coordinates, so
   * every one of them has even coordinates.
   */
  lemma PeripheralZonesMembers(lat: real, lng: real, degrees: int, z: Zone)
    ensures z in PeripheralZones(lat, lng, degrees) <==> OnRing(z, lat, lng, degrees)
    ensures z in PeripheralZones(lat, lng, degrees) ==> z.lat % 2 == 0 && z.lng % 2 == 0
  {
    SortByMembers(Generated(lat, lng, degrees), DistanceKey(lat, lng), z);
    GeneratedMembers(lat, lng, degrees, z);
    if OnRing(z, lat, lng, degrees) {
      OnRingEven(z, lat, lng, degrees);
    }
  }

  lemma OnRingEven(z: Zone, lat: real, lng: real, degrees: int)
    requires OnRing(z, lat, lng, degrees)
    ensures z.lat % 2 == 0 && z.lng % 2 == 0
  {
    var d := RoundedDegrees(degrees);
    EvenStep(z.lat, RoundedStart(lat, d));
    EvenStep(z.lng, RoundedStart(lng, d));
  }

  lemma EvenStep(a: int, s: int)
    requires s % 2 == 0 && (a - s) % 2 == 0
    ensures a % 2 == 0
  {
  }

  /**
   * The ring is visited nearest first, and zones at equal distance keep the
   * order in which the loops generated them.
   */
  lemma PeripheralZonesOrder(lat: real, lng: real, degrees: int, dist: real)
    ensures SortedBy(PeripheralZones(lat, lng, degrees), DistanceKey(lat, lng))
    ensures WithKey(PeripheralZones(lat, lng, degrees), DistanceKey(lat, lng), dist)
         == WithKey(Generated(lat, lng, degrees), DistanceKey(lat, lng), dist)
  {
    SortBySorted(Generated(lat, lng, degrees), DistanceKey(lat, lng));
    SortByStable(Generated(lat, lng, degrees), DistanceKey(lat, lng), dist);
  }

  /** Every zone of every ring has even coordinates. */
  lemma PeripheralZonesEven(lat: real, lng: real, degrees: int)
    ensures forall z :: z in PeripheralZones(lat, lng, degrees) ==> z.lat % 2 == 0 && z.lng % 2 == 0
  {
    forall z | z in PeripheralZones(lat, lng, degrees)
      ensures z.lat % 2 == 0 && z.lng % 2 == 0
    {
      PeripheralZonesMembers(lat, lng, degrees, z);
    }
  }
}
