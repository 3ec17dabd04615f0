/**
 * The ring search of `assignToGrid` as functions of the grid state: the home
 * cell, then the zones of the rings of radius 10, 30, 90 and 180, each ring
 * visited nearest first until some `assignToPile` returns 0.  Every outcome
 * carries a placement ledger, the (cell, amount) pairs in the order the
 * people were placed, and the lemmas at the end show that the search keeps
 * its books: what leaves the village arrives in cells, each cell at most once.
 */
module Allocation {
  import opened Wrappers
  import opened JsNumber
  import opened PopulationGrid
  import opened Zones

  /** The placements of one search, in order: the cell and how many people went there. */
  type Ledger = seq<(Key, int)>

  function Total(log: Ledger): int
  {
    if log == [] then 0 else Total(log[..|log| - 1]) + log[|log| - 1].1
  }

  function AmountAt(log: Ledger, k: Key): int
  {
    if log == [] then 0
    else AmountAt(log[..|log| - 1], k) + (if log[|log| - 1].0 == k then log[|log| - 1].1 else 0)
  }

  function LoggedKeys(log: Ledger): set<Key>
  {
    if log == [] then {} else LoggedKeys(log[..|log| - 1]) + {log[|log| - 1].0}
  }

  /** No cell appears twice in the ledger. */
  predicate DistinctKeys(log: Ledger)
  {
    log == [] || (log[|log| - 1].0 !in LoggedKeys(log[..|log| - 1]) && DistinctKeys(log[..|log| - 1]))
  }

  /** The counts agree: the village lost exactly what the ledger placed, and never went below zero. */
  ghost predicate Counted(u0: int, u1: int, log: Ledger)
  {
    && u0 - u1 == Total(log)
    && u1 <= u0
    && (log != [] ==> u0 > 0)
    && (u0 > 0 ==> u1 >= 0)
  }

  /**
   * What one cell went through: a cell the ledger names lost exactly the
   * amount placed there, is empty if the village still has people left,
   * and records the village unless its id was already there; any other
   * cell is untouched.
   */
  ghost predicate CellLedger(before: Cell, after: Cell, g: Group, u1: int, k: Key, log: Ledger)
  {
    if k in LoggedKeys(log) then
      && InRange(k.0)
      && AmountAt(log, k) > 0
      && after.emptyPop == before.emptyPop - AmountAt(log, k) >= 0
      && (u1 > 0 ==> after.emptyPop == 0)
      && after.villages == (if HasId(before.villages, g.id) then before.villages
                            else before.villages + [(g.id, NewOccupant(g, AmountAt(log, k)))])
    else after == before
  }

  ghost predicate Placed(c0: Cells, c1: Cells, g: Group, u1: int, log: Ledger)
  {
    && c1.Keys == c0.Keys
    && LoggedKeys(log) <= c0.Keys
    && DistinctKeys(log)
    && forall k :: k in c0 ==> CellLedger(c0[k], c1[k], g, u1, k, log)
  }

  /** The books of a search from grid `c0` and `u0` unassigned people to `c1` and `u1`. */
  ghost predicate Ledgered(c0: Cells, c1: Cells, g: Group, u0: int, u1: int, log: Ledger)
  {
    Counted(u0, u1, log) && Placed(c0, c1, g, u1, log)
  }

  // ----- the search -----

  /** Whether assignToPile(lat, lng) moves anyone. */
  predicate Moves(cells: Cells, unassigned: int, lat: int, lng: int)
    requires CanReach(cells, unassigned, lat, lng)
  {
    unassigned > 0 && InRange(lat) && cells[PileKey(lat, lng)].emptyPop > 0
  }

  /** The ledger entry of one assignToPile call. */
  function StepLog(cells: Cells, g: Group, unassigned: int, lat: int, lng: int): Ledger
    requires CanReach(cells, unassigned, lat, lng)
  {
    if Moves(cells, unassigned, lat, lng)
    then [(PileKey(lat, lng), unassigned - Pile(cells, g, unassigned, lat, lng).unassigned)]
    else []
  }

  /** The state after one `_.find` over zones: `found` when some assignToPile returned 0. */
  datatype Visited = Visited(cells: Cells, unassigned: int, found: bool, log: Ledger)

  predicate AllEven(zones: seq<Zone>)
  {
    forall z :: z in zones ==> z.lat % 2 == 0 && z.lng % 2 == 0
  }

  /** `_.find(zones, z => assignToPile(z.lat, z.lng) === 0)`. */
  function Visit(cells: Cells, g: Group, u: int, zones: seq<Zone>): (o: Visited)
    requires Complete(cells) && AllEven(zones)
    ensures o.cells.Keys == cells.Keys
    decreases |zones|
  {
    if zones == [] then Visited(cells, u, false, [])
    else
      var z := zones[0];
      CompleteReaches(cells, u, z.lat, z.lng);
      var p := Pile(cells, g, u, z.lat, z.lng);
      var log := StepLog(cells, g, u, z.lat, z.lng);
      if p.returned == 0 then Visited(p.cells, p.unassigned, true, log)
      else
        CompleteKeys(cells, p.cells);
        var r := Visit(p.cells, g, p.unassigned, zones[1..]);
        Visited(r.cells, r.unassigned, r.found, log + r.log)
  }

  /** The radii of the four `_.find` calls, in order. */
  const Radii: seq<int> := [10, 30, 90, 180]

  /** One ring: `_.find` over the zones within `degrees` of (lat, lng), nearest first. */
  function Ring(cells: Cells, g: Group, u: int, lat: real, lng: real, degrees: int): (o: Visited)
    requires Complete(cells)
    ensures o.cells.Keys == cells.Keys
  {
    PeripheralZonesEven(lat, lng, degrees);
    Visit(cells, g, u, PeripheralZones(lat, lng, degrees))
  }

  /** The rings of `radii` in turn, stopping after the first ring that found a zone. */
  function Rings(cells: Cells, g: Group, u: int, lat: real, lng: real, radii: seq<int>): (o: Visited)
    requires Complete(cells)
    ensures o.cells.Keys == cells.Keys
    decreases |radii|
  {
    if radii == [] then Visited(cells, u, false, [])
    else
      var v := Ring(cells, g, u, lat, lng, radii[0]);
      if v.found then v
      else
        CompleteKeys(cells, v.cells);
        var r := Rings(v.cells, g, v.unassigned, lat, lng, radii[1..]);
        Visited(r.cells, r.unassigned, r.found, v.log + r.log)
  }

  /** One step of `Visit`: the first zone, then the rest only when it left people over. */
  lemma VisitNext(cells: Cells, g: Group, u: int, zones: seq<Zone>)
    requires Complete(cells) && AllEven(zones) && zones != []
    ensures CanReach(cells, u, zones[0].lat, zones[0].lng)
    ensures var p := Pile(cells, g, u, zones[0].lat, zones[0].lng);
            var v := Visit(cells, g, u, zones);
            && Complete(p.cells) && AllEven(zones[1..])
            && (p.returned == 0 ==> v.cells == p.cells && v.unassigned == p.unassigned && v.found)
            && (p.returned != 0 ==> var n := Visit(p.cells, g, p.unassigned, zones[1..]);
                  v.cells == n.cells && v.unassigned == n.unassigned && v.found == n.found)
  {
    var z := zones[0];
    CompleteReaches(cells, u, z.lat, z.lng);
    CompleteKeys(cells, Pile(cells, g, u, z.lat, z.lng).cells);
    assert forall y :: y in zones[1..] ==> y in zones;
  }

  /** One step of `Rings`: the first ring, then the rest only when the first found nothing. */
  lemma RingsNext(cells: Cells, g: Group, u: int, lat: real, lng: real, radii: seq<int>)
    requires Complete(cells) && radii != []
    ensures var v := Ring(cells, g, u, lat, lng, radii[0]);
            var r := Rings(cells, g, u, lat, lng, radii);
            && Complete(v.cells)
            && (v.found ==> r.cells == v.cells && r.unassigned == v.unassigned && r.found)
            && (!v.found ==>
                  var n := Rings(v.cells, g, v.unassigned, lat, lng, radii[1..]);
                  r.cells == n.cells && r.unassigned == n.unassigned && r.found == n.found)
  {
    CompleteKeys(cells, Ring(cells, g, u, lat, lng, radii[0]).cells);
  }

  /**
   * The outcome of assignToGrid: `located` is false when it returned `false`
   * for a missing coordinate, `warned` when it logged the shortfall line.
   */
  datatype Assigned = Assigned(cells: Cells, unassigned: int, located: bool, warned: bool, log: Ledger)

  /** The home cell of a position: both coordinates rounded to the 2-degree grid. */
  function HomeLat(lat: real): int { Round(lat / 2.0) * 2 }

  lemma HomeEven(x: real)
    ensures HomeLat(x) % 2 == 0
  {
  }

  /** assignToGrid for a village with `u` people unassigned at position (lat, lng). */
  function Search(cells: Cells, g: Group, u: int, lat: Option<real>, lng: Option<real>): (o: Assigned)
    requires Complete(cells)
    ensures o.cells.Keys == cells.Keys
  {
    if lat.None? || lng.None? then Assigned(cells, u, false, false, [])
    else
      var hLat, hLng := HomeLat(lat.value), HomeLat(lng.value);
      HomeEven(lat.value);
      HomeEven(lng.value);
      CompleteReaches(cells, u, hLat, hLng);
      var home := Pile(cells, g, u, hLat, hLng);
      var log := StepLog(cells, g, u, hLat, hLng);
      if home.returned <= 0 then Assigned(home.cells, home.unassigned, true, false, log)
      else
        CompleteKeys(cells, home.cells);
        var r := Rings(home.cells, g, home.unassigned, lat.value, lng.value, Radii);
        Assigned(r.cells, r.unassigned, true, !r.found, log + r.log)
  }

  // ----- ledger algebra -----

  lemma {:induction false} TotalAppend(a: Ledger, b: Ledger)
    ensures Total(a + b) == Total(a) + Total(b)
    decreases |b|
  {
    if b == [] {
      assert a + b == a;
    } else {
      assert (a + b)[..|a + b| - 1] == a + b[..|b| - 1];
      TotalAppend(a, b[..|b| - 1]);
    }
  }

  lemma {:induction false} AmountAtAppend(a: Ledger, b: Ledger, k: Key)
    ensures AmountAt(a + b, k) == AmountAt(a, k) + AmountAt(b, k)
    decreases |b|
  {
    if b == [] {
      assert a + b == a;
    } else {
      assert (a + b)[..|a + b| - 1] == a + b[..|b| - 1];
      AmountAtAppend(a, b[..|b| - 1], k);
    }
  }

  lemma {:induction false} LoggedKeysAppend(a: Ledger, b: Ledger)
    ensures LoggedKeys(a + b) == LoggedKeys(a) + LoggedKeys(b)
    decreases |b|
  {
    if b == [] {
      assert a + b == a;
    } else {
      assert (a + b)[..|a + b| - 1] == a + b[..|b| - 1];
      LoggedKeysAppend(a, b[..|b| - 1]);
    }
  }

  lemma {:induction false} DistinctAppend(a: Ledger, b: Ledger)
    requires DistinctKeys(a) && DistinctKeys(b) && LoggedKeys(a) !! LoggedKeys(b)
    ensures DistinctKeys(a + b)
    decreases |b|
  {
    if b == [] {
      assert a + b == a;
    } else {
      var b' := b[..|b| - 1];
      assert (a + b)[..|a + b| - 1] == a + b';
      assert LoggedKeys(b') <= LoggedKeys(b);
      DistinctAppend(a, b');
      LoggedKeysAppend(a, b');
    }
  }

  lemma {:induction false} AmountAtUnlogged(log: Ledger, k: Key)
    requires k !in LoggedKeys(log)
    ensures AmountAt(log, k) == 0
  {
    if log != [] {
      AmountAtUnlogged(log[..|log| - 1], k);
    }
  }

  lemma SingleLedger(k: Key, a: int)
    ensures Total([(k, a)]) == a && LoggedKeys([(k, a)]) == {k} && DistinctKeys([(k, a)])
    ensures AmountAt([(k, a)], k) == a
  {
    assert [(k, a)][..0] == [];
  }

  // ----- the books are kept -----

  /** One assignToPile call, with its ledger entry. */
  lemma PileLedger(cells: Cells, g: Group, u: int, lat: int, lng: int)
    requires CanReach(cells, u, lat, lng)
    ensures var p := Pile(cells, g, u, lat, lng);
            Ledgered(cells, p.cells, g, u, p.unassigned, StepLog(cells, g, u, lat, lng))
  {
    var p := Pile(cells, g, u, lat, lng);
    if Moves(cells, u, lat, lng) {
      SingleLedger(PileKey(lat, lng), u - p.unassigned);
    }
  }

  lemma RefLedger(c: Cells, g: Group, u: int)
    ensures Ledgered(c, c, g, u, u, [])
  {
  }

  /** One cell across two searches that do not both place people in it. */
  lemma ComposeCell(before: Cell, mid: Cell, after: Cell, g: Group, u1: int, u2: int, k: Key, a: Ledger, b: Ledger)
    requires CellLedger(before, mid, g, u1, k, a) && CellLedger(mid, after, g, u2, k, b)
    requires u2 <= u1 && !(k in LoggedKeys(a) && k in LoggedKeys(b))
    ensures CellLedger(before, after, g, u2, k, a + b)
  {
    AmountAtAppend(a, b, k);
    LoggedKeysAppend(a, b);
    if k in LoggedKeys(b) {
      AmountAtUnlogged(a, k);
    } else if k in LoggedKeys(a) {
      AmountAtUnlogged(b, k);
    }
  }

  /**
   * A later search never places people in a cell an earlier one placed
   * people in: either the village was done, or that cell was drained.
   */
  lemma ComposeDisjoint(c0: Cells, c1: Cells, c2: Cells, g: Group, u1: int, u2: int, a: Ledger, b: Ledger)
    requires Placed(c0, c1, g, u1, a) && Placed(c1, c2, g, u2, b)
    requires b != [] ==> u1 > 0
    ensures LoggedKeys(a) !! LoggedKeys(b)
  {
    if b != [] {
      forall k | k in LoggedKeys(b)
        ensures k !in LoggedKeys(a)
      {
        assert CellLedger(c1[k], c2[k], g, u2, k, b);
        assert CellLedger(c0[k], c1[k], g, u1, k, a);
      }
    }
  }

  /** Two searches one after the other keep the books of the whole. */
  lemma ComposeLedger(c0: Cells, c1: Cells, c2: Cells, g: Group, u0: int, u1: int, u2: int, a: Ledger, b: Ledger)
    requires Ledgered(c0, c1, g, u0, u1, a) && Ledgered(c1, c2, g, u1, u2, b)
    ensures Ledgered(c0, c2, g, u0, u2, a + b)
  {
    TotalAppend(a, b);
    LoggedKeysAppend(a, b);
    ComposeDisjoint(c0, c1, c2, g, u1, u2, a, b);
    DistinctAppend(a, b);
    forall k | k in c0
      ensures CellLedger(c0[k], c2[k], g, u2, k, a + b)
    {
      ComposeCell(c0[k], c1[k], c2[k], g, u1, u2, k, a, b);
    }
  }

  lemma {:induction false} VisitLedger(cells: Cells, g: Group, u: int, zones: seq<Zone>)
    requires Complete(cells) && AllEven(zones)
    ensures var v := Visit(cells, g, u, zones);
            Ledgered(cells, v.cells, g, u, v.unassigned, v.log)
    decreases |zones|
  {
    if zones != [] {
      var z := zones[0];
      CompleteReaches(cells, u, z.lat, z.lng);
      var p := Pile(cells, g, u, z.lat, z.lng);
      PileLedger(cells, g, u, z.lat, z.lng);
      if p.returned != 0 {
        CompleteKeys(cells, p.cells);
        var r := Visit(p.cells, g, p.unassigned, zones[1..]);
        VisitLedger(p.cells, g, p.unassigned, zones[1..]);
        ComposeLedger(cells, p.cells, r.cells, g, u, p.unassigned, r.unassigned,
                      StepLog(cells, g, u, z.lat, z.lng), r.log);
      }
    }
  }

  lemma {:induction false} RingsLedger(cells: Cells, g: Group, u: int, lat: real, lng: real, radii: seq<int>)
    requires Complete(cells)
    ensures var r := Rings(cells, g, u, lat, lng, radii);
            Ledgered(cells, r.cells, g, u, r.unassigned, r.log)
    decreases |radii|
  {
    if radii != [] {
      PeripheralZonesEven(lat, lng, radii[0]);
      var v := Ring(cells, g, u, lat, lng, radii[0]);
      VisitLedger(cells, g, u, PeripheralZones(lat, lng, radii[0]));
      if !v.found {
        CompleteKeys(cells, v.cells);
        var r := Rings(v.cells, g, v.unassigned, lat, lng, radii[1..]);
        RingsLedger(v.cells, g, v.unassigned, lat, lng, radii[1..]);
        ComposeLedger(cells, v.cells, r.cells, g, u, v.unassigned, r.unassigned, v.log, r.log);
      }
    }
  }

  /**
   * Conservation for a whole assignToGrid: the people that left the village
   * are exactly the amounts the ledger placed; each cell named once, only
   * cells within the latitude band, never driven below zero, drained when the
   * village is still short; the village's unassigned count never increases.
   */
  lemma SearchLedger(cells: Cells, g: Group, u: int, lat: Option<real>, lng: Option<real>)
    requires Complete(cells)
    ensures var o := Search(cells, g, u, lat, lng);
            Ledgered(cells, o.cells, g, u, o.unassigned, o.log)
  {
    if lat.Some? && lng.Some? {
      var hLat, hLng := HomeLat(lat.value), HomeLat(lng.value);
      HomeEven(lat.value);
      HomeEven(lng.value);
      CompleteReaches(cells, u, hLat, hLng);
      var home := Pile(cells, g, u, hLat, hLng);
      PileLedger(cells, g, u, hLat, hLng);
      if home.returned > 0 {
        CompleteKeys(cells, home.cells);
        var r := Rings(home.cells, g, home.unassigned, lat.value, lng.value, Radii);
        RingsLedger(home.cells, g, home.unassigned, lat.value, lng.value, Radii);
        ComposeLedger(cells, home.cells, r.cells, g, u, home.unassigned, r.unassigned,
                      StepLog(cells, g, u, hLat, hLng), r.log);
      }
    }
  }

  // ----- when the search stops -----

  /** A `_.find` that starts with people to place finds a zone exactly when it placed them all. */
  lemma {:induction false} VisitFound(cells: Cells, g: Group, u: int, zones: seq<Zone>)
    requires Complete(cells) && AllEven(zones) && u > 0
    ensures var v := Visit(cells, g, u, zones);
            v.unassigned >= 0 && (v.found <==> v.unassigned == 0)
    decreases |zones|
  {
    if zones != [] {
      var z := zones[0];
      CompleteReaches(cells, u, z.lat, z.lng);
      var p := Pile(cells, g, u, z.lat, z.lng);
      if p.returned != 0 {
        CompleteKeys(cells, p.cells);
        VisitFound(p.cells, g, p.unassigned, zones[1..]);
      }
    }
  }

  lemma {:induction false} RingsFound(cells: Cells, g: Group, u: int, lat: real, lng: real, radii: seq<int>)
    requires Complete(cells) && u > 0
    ensures var r := Rings(cells, g, u, lat, lng, radii);
            r.unassigned >= 0 && (r.found <==> r.unassigned == 0)
    decreases |radii|
  {
    if radii != [] {
      PeripheralZonesEven(lat, lng, radii[0]);
      var v := Ring(cells, g, u, lat, lng, radii[0]);
      VisitFound(cells, g, u, PeripheralZones(lat, lng, radii[0]));
      if !v.found {
        CompleteKeys(cells, v.cells);
        RingsFound(v.cells, g, v.unassigned, lat, lng, radii[1..]);
      }
    }
  }

  /**
   * assignToGrid logs its shortfall line exactly when the village, located,
   * still has people left after the last ring; a village without a position
   * is left as it was.
   */
  lemma SearchWarned(cells: Cells, g: Group, u: int, lat: Option<real>, lng: Option<real>)
    requires Complete(cells)
    ensures var o := Search(cells, g, u, lat, lng);
            && (o.located <==> lat.Some? && lng.Some?)
            && (o.warned <==> o.located && o.unassigned > 0)
            && (!o.located ==> o.cells == cells && o.unassigned == u && o.log == [])
  {
    if lat.Some? && lng.Some? {
      var hLat, hLng := HomeLat(lat.value), HomeLat(lng.value);
      HomeEven(lat.value);
      HomeEven(lng.value);
      CompleteReaches(cells, u, hLat, hLng);
      var home := Pile(cells, g, u, hLat, hLng);
      if home.returned > 0 {
        CompleteKeys(cells, home.cells);
        RingsFound(home.cells, g, home.unassigned, lat.value, lng.value, Radii);
      }
    }
  }

  /**
   * When the home cell has room for the whole village, the search places
   * everyone there and looks no further.
   */
  lemma HomeSuffices(cells: Cells, g: Group, u: int, lat: real, lng: real)
    requires Complete(cells) && u > 0
    requires var k := PileKey(HomeLat(lat), HomeLat(lng));
             InRange(HomeLat(lat)) && k in cells && cells[k].emptyPop >= u
    ensures var o := Search(cells, g, u, Some(lat), Some(lng));
            o.unassigned == 0 && !o.warned && o.log == [(PileKey(HomeLat(lat), HomeLat(lng)), u)]
  {
  }
}
