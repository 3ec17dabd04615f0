/**
 * The population grid of the import script: one cell per 2-degree raster
 * square, keyed by (latitude, longitude), each with a remaining capacity
 * (`emptyPop`) and the people groups placed in it (`villages`), and the
 * single-cell placement rule `assignToPile` as a function of the grid state.
 */
module PopulationGrid {
  import opened Wrappers
  import opened JsNumber

  /** A grid key: the integer latitude and longitude the source writes as object keys. */
  type Key = (int, int)

  /** What a cell records for one people group: `pop`, `adh`, `evn`, `jps`. */
  datatype Occupant = Occupant(pop: int, adh: int, evn: int, jps: Option<real>)

  /**
   * A grid cell.  `villages` is the cell's occupant object, kept as a sequence
   * of (id, occupant) pairs in insertion order, the order in which a JavaScript
   * object enumerates keys that are not array indices; village ids are taken
   * to be such keys.
   */
  datatype Cell = Cell(emptyPop: int, villages: seq<(string, Occupant)>)

  /** The parts of a village that placement reads: its id string and its rates. */
  datatype Group = Group(id: string, pctEvangel: real, pctAdherant: real, jps: Option<real>)

  type Cells = map<Key, Cell>

  /** The occupant stored under `id`, if any. */
  function Lookup(vs: seq<(string, Occupant)>, id: string): (r: Option<Occupant>)
    ensures r.Some? <==> exists i :: 0 <= i < |vs| && vs[i].0 == id
  {
    if vs == [] then None
    else if vs[0].0 == id then Some(vs[0].1)
    else
      var r := Lookup(vs[1..], id);
      assert forall i :: 1 <= i < |vs| ==> vs[i] == vs[1..][i - 1];
      r
  }

  predicate HasId(vs: seq<(string, Occupant)>, id: string)
  {
    Lookup(vs, id).Some?
  }

  /** Latitudes outside [-58, 82] are never assigned to. */
  predicate InRange(lat: int)
  {
    -58 <= lat <= 82
  }

  /** The two `while` loops of assignToPile that wrap a longitude into [-180, 180]. */
  function NormalizedLng(lng: int): (r: int)
    ensures -180 <= r <= 180
    ensures (r - lng) % 360 == 0
    ensures r % 2 == lng % 2
    ensures -180 <= lng <= 180 ==> r == lng
    decreases if lng < -180 then -180 - lng else if lng > 180 then lng - 180 else 0
  {
    if lng < -180 then
      var r := NormalizedLng(lng + 360);
      TurnMod(r, lng, 360);
      r
    else if lng > 180 then
      var r := NormalizedLng(lng - 360);
      TurnMod(r, lng, -360);
      r
    else lng
  }

  /** A value a whole turn away from `x + d` is a whole turn away from `x`, with the same parity. */
  lemma TurnMod(r: int, x: int, d: int)
    requires d == 360 || d == -360
    requires (r - (x + d)) % 360 == 0 && r % 2 == (x + d) % 2
    ensures (r - x) % 360 == 0 && r % 2 == x % 2
  {
    var k := (r - (x + d)) / 360;
    assert r - x == 360 * k + d;
  }

  /** The same loops as the source runs them. */
  method NormalizeLongitude(lng: int) returns (r: int)
    ensures -180 <= r <= 180 && (r - lng) % 360 == 0
    ensures r == NormalizedLng(lng)
  {
    r := lng;
    while r < -180
      invariant NormalizedLng(r) == NormalizedLng(lng)
      decreases -180 - r
    {
      r := r + 360;
    }
    while r > 180
      invariant r >= -180
      invariant NormalizedLng(r) == NormalizedLng(lng)
      decreases r - 180
    {
      r := r - 360;
    }
  }

  /** The cell that `assignToPile(lat, lng)` reads once the longitude is wrapped. */
  function PileKey(lat: int, lng: int): Key
  {
    (lat, NormalizedLng(lng))
  }

  /**
   * The grid has every cell the ring search can reach: every even latitude in
   * [-58, 82] with every even longitude in [-180, 180].  The source reads
   * `grid[lat][lng]` without a check, so a missing cell would throw.
   */
  ghost predicate Complete(cells: Cells)
  {
    forall lat: int, lng: int ::
      InRange(lat) && lat % 2 == 0 && -180 <= lng <= 180 && lng % 2 == 0 ==> (lat, lng) in cells
  }

  /** What assignToPile needs in order not to throw. */
  ghost predicate CanReach(cells: Cells, unassigned: int, lat: int, lng: int)
  {
    unassigned <= 0 || !InRange(lat) || PileKey(lat, lng) in cells
  }

  lemma CompleteReaches(cells: Cells, unassigned: int, lat: int, lng: int)
    requires Complete(cells) && lat % 2 == 0 && lng % 2 == 0
    ensures CanReach(cells, unassigned, lat, lng)
  {
    if InRange(lat) {
      var n := NormalizedLng(lng);
      assert (lat, n) in cells;
    }
  }

  lemma CompleteKeys(c0: Cells, c1: Cells)
    requires Complete(c0) && c1.Keys == c0.Keys
    ensures Complete(c1)
  {
    forall lat: int, lng: int | InRange(lat) && lat % 2 == 0 && -180 <= lng <= 180 && lng % 2 == 0
      ensures (lat, lng) in c1
    {
      assert (lat, lng) in c0;
    }
  }

  /**
   * The occupant recorded by a first placement of `assignable` people:
   * evangelicals are rounded from their rate, adherents are rounded from
   * theirs with the evangelicals taken out and never below zero.
   */
  function NewOccupant(g: Group, assignable: int): (o: Occupant)
    ensures o.pop == assignable && o.jps == g.jps
    ensures o.evn == Round(g.pctEvangel * assignable as real)
    ensures o.adh >= 0 && o.adh >= Round(g.pctAdherant * assignable as real) - o.evn
    ensures o.adh == 0 || o.adh == Round(g.pctAdherant * assignable as real) - o.evn
  {
    var evangelicals := Round(g.pctEvangel * assignable as real);
    Occupant(assignable, Max(Round(g.pctAdherant * assignable as real) - evangelicals, 0), evangelicals, g.jps)
  }

  /** The state after one call of assignToPile, and the value it returns. */
  datatype PileOutcome = PileOutcome(cells: Cells, unassigned: int, returned: int)

  /**
   * assignToPile(lat, lng) for a village with `unassigned` people still to
   * place.  Nothing happens when nothing is left, when the latitude is out of
   * range or when the cell is full; otherwise min(capacity, unassigned) people
   * move from the village into the cell, and the cell records the village
   * unless its id is already there.
   */
  function Pile(cells: Cells, g: Group, unassigned: int, lat: int, lng: int): (o: PileOutcome)
    requires CanReach(cells, unassigned, lat, lng)
    ensures o.cells.Keys == cells.Keys
    ensures o.returned == if unassigned <= 0 then 0 else o.unassigned
    // the no-op cases
    ensures unassigned <= 0 || !InRange(lat) || cells[PileKey(lat, lng)].emptyPop <= 0
            ==> o.cells == cells && o.unassigned == unassigned
    // a real placement: conservation, bounds, and which cell changes
    ensures unassigned > 0 && InRange(lat) && cells[PileKey(lat, lng)].emptyPop > 0 ==>
              var k := PileKey(lat, lng);
              var assignable := unassigned - o.unassigned;
              && assignable == Min(cells[k].emptyPop, unassigned) && assignable > 0
              && o.cells[k].emptyPop == cells[k].emptyPop - assignable >= 0
              && (o.unassigned == 0 || o.cells[k].emptyPop == 0)
              && o.cells[k].villages == (if HasId(cells[k].villages, g.id) then cells[k].villages
                                         else cells[k].villages + [(g.id, NewOccupant(g, assignable))])
              && forall k' :: k' in cells && k' != k ==> o.cells[k'] == cells[k']
  {
    if unassigned <= 0 then PileOutcome(cells, unassigned, 0)
    else if lat < -58 || lat > 82 then PileOutcome(cells, unassigned, unassigned)
    else
      var k := PileKey(lat, lng);
      var cell := cells[k];
      if cell.emptyPop <= 0 then PileOutcome(cells, unassigned, unassigned)
      else
        var assignable := Min(cell.emptyPop, unassigned);
        var villages := if HasId(cell.villages, g.id) then cell.villages
                        else cell.villages + [(g.id, NewOccupant(g, assignable))];
        PileOutcome(cells[k := Cell(cell.emptyPop - assignable, villages)],
                    unassigned - assignable, unassigned - assignable)
  }

  /**
   * Evangelicals and the remaining adherents together make up the rounded
   * adherent count, unless the evangelical count alone is larger.
   */
  lemma OccupantSplit(g: Group, assignable: int)
    ensures var o := NewOccupant(g, assignable);
            o.adh >= 0 && o.adh + o.evn == Max(Round(g.pctAdherant * assignable as real), o.evn)
  {
  }

  /**
   * With rates between 0 and 1 neither count is negative and together they
   * never exceed the people placed.
   */
  lemma OccupantBounded(g: Group, assignable: int)
    requires 0.0 <= g.pctEvangel <= 1.0 && 0.0 <= g.pctAdherant <= 1.0 && assignable >= 0
    ensures var o := NewOccupant(g, assignable);
            0 <= o.evn <= assignable && o.adh + o.evn <= assignable
  {
    RoundedShare(g.pctEvangel, assignable);
    RoundedShare(g.pctAdherant, assignable);
  }

  /** A rate between 0 and 1 of `a` people, rounded, lies between 0 and `a`. */
  lemma RoundedShare(rate: real, a: int)
    requires 0.0 <= rate <= 1.0 && a >= 0
    ensures 0 <= Round(rate * a as real) <= a
  {
    NonNegativeProduct(1.0 - rate, a as real);
    NonNegativeProduct(rate, a as real);
    assert rate * a as real == a as real - (1.0 - rate) * a as real;
  }

  lemma NonNegativeProduct(x: real, y: real)
    requires x >= 0.0 && y >= 0.0
    ensures x * y >= 0.0
  {
  }

  /** The module-level `grid` table that every step of the import updates in place. */
  class Grid {
    var cells: Cells

    constructor ()
      ensures cells == map[]
    {
      cells := map[];
    }
  }
}
