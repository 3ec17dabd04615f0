/**
 * nasaGridify: the population raster becomes the grid.  Each raster row
 * carries its latitude; every other column is a longitude whose value is the
 * population of that cell.  The row's latitude is reset to an empty row
 * first, then one cell per column is written with that population as its
 * capacity and no occupants, and every value is added to the raster total.
 */
module Raster {
  import opened Wrappers
  import opened PopulationGrid
  import opened StableSort
  import opened Export

  /** One column of a raster row: the `Lat` column itself, or a longitude and its value. */
  datatype RasterEntry = LatColumn | CellValue(lng: int, pop: int)

  datatype RasterRow = RasterRow(lat: int, entries: seq<RasterEntry>)

  /** `grid[lat] = {}`: every cell of that latitude is dropped. */
  function ClearLat(cells: Cells, lat: int): (r: Cells)
    ensures forall k :: k in r <==> k in cells && k.0 != lat
    ensures forall k :: k in r ==> r[k] == cells[k]
  {
    map k | k in cells && k.0 != lat :: cells[k]
  }

  /** The inner loop: cells written for the columns `es` of a row at `lat`. */
  function PutEntries(cells: Cells, lat: int, es: seq<RasterEntry>): Cells
  {
    if es == [] then cells
    else
      var c := PutEntries(cells, lat, es[..|es| - 1]);
      match es[|es| - 1]
      case LatColumn => c
      case CellValue(lng, pop) => c[(lat, lng) := Cell(pop, [])]
  }

  function PutRow(cells: Cells, row: RasterRow): Cells
  {
    PutEntries(ClearLat(cells, row.lat), row.lat, row.entries)
  }

  /** The grid after the rows `rows`, in order, starting from `cells`. */
  function GridOf(cells: Cells, rows: seq<RasterRow>): Cells
  {
    if rows == [] then cells else PutRow(GridOf(cells, rows[..|rows| - 1]), rows[|rows| - 1])
  }

  function EntriesSum(es: seq<RasterEntry>): int
  {
    if es == [] then 0
    else EntriesSum(es[..|es| - 1]) + (match es[|es| - 1] case LatColumn => 0 case CellValue(_, pop) => pop)
  }

  /** `nasaPopSum`: every value of every row, rows with a repeated latitude included. */
  function RasterSum(rows: seq<RasterRow>): int
  {
    if rows == [] then 0 else RasterSum(rows[..|rows| - 1]) + EntriesSum(rows[|rows| - 1].entries)
  }

  // ----- reference description -----

  /** The value of the last column for `lng` in a row, if the row has one. */
  function LastValue(es: seq<RasterEntry>, lng: int): Option<int>
  {
    if es == [] then None
    else if es[|es| - 1].CellValue? && es[|es| - 1].lng == lng then Some(es[|es| - 1].pop)
    else LastValue(es[..|es| - 1], lng)
  }

  /** The capacity the raster gives cell (lat, lng): from the last row of that latitude. */
  function RasterCell(rows: seq<RasterRow>, lat: int, lng: int): Option<int>
  {
    if rows == [] then None
    else if rows[|rows| - 1].lat == lat then LastValue(rows[|rows| - 1].entries, lng)
    else RasterCell(rows[..|rows| - 1], lat, lng)
  }

  /** Whether some row has latitude `lat`. */
  predicate HasRow(rows: seq<RasterRow>, lat: int)
  {
    exists i :: 0 <= i < |rows| && rows[i].lat == lat
  }

  lemma {:induction false} PutEntriesLookup(cells: Cells, lat: int, es: seq<RasterEntry>, k: Key)
    ensures var r := PutEntries(cells, lat, es);
            if k.0 == lat && LastValue(es, k.1).Some?
            then k in r && r[k] == Cell(LastValue(es, k.1).value, [])
            else (k in r <==> k in cells) && (k in r ==> r[k] == cells[k])
  {
    if es != [] {
      PutEntriesLookup(cells, lat, es[..|es| - 1], k);
    }
  }

  /**
   * One cell per longitude column of each latitude's last row, with that
   * column's value as capacity and no occupants; no other cell.
   */
  lemma {:induction false} GridOfLookup(rows: seq<RasterRow>, k: Key)
    ensures var g := GridOf(map[], rows);
            (k in g <==> RasterCell(rows, k.0, k.1).Some?)
            && (k in g ==> g[k] == Cell(RasterCell(rows, k.0, k.1).value, []))
  {
    if rows != [] {
      var init, row := rows[..|rows| - 1], rows[|rows| - 1];
      GridOfLookup(init, k);
      PutEntriesLookup(ClearLat(GridOf(map[], init), row.lat), row.lat, row.entries, k);
    }
  }

  /** A latitude the raster never mentions gets no cells. */
  lemma {:induction false} NoRowNoCells(rows: seq<RasterRow>, lat: int, lng: int)
    requires !HasRow(rows, lat)
    ensures RasterCell(rows, lat, lng) == None
  {
    if rows != [] {
      var init := rows[..|rows| - 1];
      assert !HasRow(init, lat) by {
        forall i | 0 <= i < |init| ensures init[i].lat != lat {
          assert init[i] == rows[i];
        }
      }
      NoRowNoCells(rows[..|rows| - 1], lat, lng);
    }
  }

  lemma {:induction false} EntriesSumAppend(a: seq<RasterEntry>, b: seq<RasterEntry>)
    ensures EntriesSum(a + b) == EntriesSum(a) + EntriesSum(b)
    decreases |b|
  {
    if b == [] {
      assert a + b == a;
    } else {
      assert (a + b)[..|a + b| - 1] == a + b[..|b| - 1];
      EntriesSumAppend(a, b[..|b| - 1]);
    }
  }

  /** A later row with an earlier row's latitude replaces its cells, but both rows count toward the total. */
  lemma RepeatedLatitude(lat: int, lng: int, p: int, q: int)
    ensures var rows := [RasterRow(lat, [CellValue(lng, p)]), RasterRow(lat, [CellValue(lng, q)])];
            GridOf(map[], rows)[(lat, lng)].emptyPop == q && RasterSum(rows) == p + q
  {
    var rows := [RasterRow(lat, [CellValue(lng, p)]), RasterRow(lat, [CellValue(lng, q)])];
    GridOfLookup(rows, (lat, lng));
    assert rows[..1] == [rows[0]];
    assert [rows[0]][..0] == [];
    assert [CellValue(lng, p)][..0] == [];
    assert [CellValue(lng, q)][..0] == [];
    assert EntriesSum([CellValue(lng, p)]) == p;
    assert EntriesSum([CellValue(lng, q)]) == q;
    assert RasterSum(rows[..1]) == p;
  }

  // ----- the raster total -----

  /** The grid keys the columns `es` of a row at `lat` write, in column order. */
  function EntryKeys(lat: int, es: seq<RasterEntry>): seq<Key>
  {
    if es == [] then []
    else EntryKeys(lat, es[..|es| - 1]) + (match es[|es| - 1] case LatColumn => [] case CellValue(lng, _) => [(lat, lng)])
  }

  /** The grid keys the rows write, row after row. */
  function RasterKeys(rows: seq<RasterRow>): seq<Key>
  {
    if rows == [] then [] else RasterKeys(rows[..|rows| - 1]) + EntryKeys(rows[|rows| - 1].lat, rows[|rows| - 1].entries)
  }

  /** A row is a record: no longitude column appears in it twice. */
  predicate DistinctColumns(es: seq<RasterEntry>)
  {
    forall i, j :: 0 <= i < j < |es| && es[i].CellValue? && es[j].CellValue? ==> es[i].lng != es[j].lng
  }

  /** Every row is a record, and no two rows share a latitude. */
  predicate DistinctRows(rows: seq<RasterRow>)
  {
    (forall i :: 0 <= i < |rows| ==> DistinctColumns(rows[i].entries))
    && (forall i, j :: 0 <= i < j < |rows| ==> rows[i].lat != rows[j].lat)
  }

  lemma {:induction false} EntryKeysMember(lat: int, es: seq<RasterEntry>, k: Key)
    requires k in EntryKeys(lat, es)
    ensures k.0 == lat && exists i :: 0 <= i < |es| && es[i].CellValue? && es[i].lng == k.1
  {
    var init := es[..|es| - 1];
    if k in EntryKeys(lat, init) {
      EntryKeysMember(lat, init, k);
      var i :| 0 <= i < |init| && init[i].CellValue? && init[i].lng == k.1;
      assert es[i] == init[i];
    }
  }

  /** Cells that agree on the capacities of `order` give the same holes total over it. */
  lemma {:induction false} HolesFrame(c0: Cells, c1: Cells, order: seq<Key>)
    requires Listed(c0, order) && Listed(c1, order)
    requires forall k :: k in order ==> c0[k].emptyPop == c1[k].emptyPop
    ensures HolesOf(c0, order) == HolesOf(c1, order)
  {
    if order != [] {
      var init := order[..|order| - 1];
      assert forall k :: k in init ==> k in order by {
        forall k | k in init ensures k in order {
          var i :| 0 <= i < |init| && init[i] == k;
          assert order[i] == k;
        }
      }
      HolesFrame(c0, c1, init);
    }
  }

  lemma DistinctSnoc(s: seq<Key>, k: Key)
    requires Distinct(s) && k !in s
    ensures Distinct(s + [k])
  {
    forall i, j | 0 <= i < j < |s + [k]| ensures (s + [k])[i] != (s + [k])[j] {
      if j == |s| {
        assert (s + [k])[i] == s[i];
      } else {
        assert (s + [k])[i] == s[i] && (s + [k])[j] == s[j];
      }
    }
  }

  /**
   * Writing a record's columns at a latitude the grid does not have adds one
   * new cell per column, enumerated after the old ones, and adds the row's
   * values to the holes total.
   */
  lemma {:induction false} PutEntriesTotal(cells: Cells, lat: int, es: seq<RasterEntry>, order: seq<Key>)
    requires Enumerates(cells, order)
    requires forall k :: k in cells ==> k.0 != lat
    requires DistinctColumns(es)
    ensures Enumerates(PutEntries(cells, lat, es), order + EntryKeys(lat, es))
    ensures HolesOf(PutEntries(cells, lat, es), order + EntryKeys(lat, es)) == HolesOf(cells, order) + EntriesSum(es)
  {
    if es == [] {
      assert order + [] == order;
    } else {
      var init := es[..|es| - 1];
      assert DistinctColumns(init) by {
        forall i, j | 0 <= i < j < |init| && init[i].CellValue? && init[j].CellValue?
          ensures init[i].lng != init[j].lng
        {
          assert init[i] == es[i] && init[j] == es[j];
        }
      }
      PutEntriesTotal(cells, lat, init, order);
      var c := PutEntries(cells, lat, init);
      var o1 := order + EntryKeys(lat, init);
      match es[|es| - 1]
      case LatColumn =>
        assert EntryKeys(lat, es) == EntryKeys(lat, init) + [];
        assert order + EntryKeys(lat, es) == o1;
        assert PutEntries(cells, lat, es) == c;
        assert EntriesSum(es) == EntriesSum(init);
      case CellValue(lng, pop) =>
        var k := (lat, lng);
        assert k !in o1 by {
          assert k !in order;
          if k in EntryKeys(lat, init) {
            EntryKeysMember(lat, init, k);
          }
        }
        assert EntryKeys(lat, es) == EntryKeys(lat, init) + [k];
        AppendAssoc(order, EntryKeys(lat, init), [k]);
        PutFresh(c, o1, k, pop);
    }
  }

  lemma AppendAssoc(a: seq<Key>, b: seq<Key>, c: seq<Key>)
    ensures a + (b + c) == a + b + c
  {
  }

  /** A new cell enumerated last adds its capacity to the holes total. */
  lemma PutFresh(c: Cells, o: seq<Key>, k: Key, pop: int)
    requires Enumerates(c, o) && k !in o
    ensures Enumerates(c[k := Cell(pop, [])], o + [k])
    ensures HolesOf(c[k := Cell(pop, [])], o + [k]) == HolesOf(c, o) + pop
  {
    var r := c[k := Cell(pop, [])];
    DistinctSnoc(o, k);
    HolesFrame(c, r, o);
    assert (o + [k])[..|o|] == o;
  }

  /**
   * For a raster whose rows are records with distinct latitudes, the grid
   * nasaGridify builds holds exactly the raster total, over whichever order
   * its cells are enumerated in.
   */
  lemma {:induction false} GridHoldsRasterSum(rows: seq<RasterRow>)
    requires DistinctRows(rows)
    ensures Enumerates(GridOf(map[], rows), RasterKeys(rows))
    ensures HolesOf(GridOf(map[], rows), RasterKeys(rows)) == RasterSum(rows)
  {
    if rows != [] {
      var init, row := rows[..|rows| - 1], rows[|rows| - 1];
      assert DistinctRows(init) by {
        forall i | 0 <= i < |init| ensures DistinctColumns(init[i].entries) {
          assert init[i] == rows[i];
        }
        forall i, j | 0 <= i < j < |init| ensures init[i].lat != init[j].lat {
          assert init[i] == rows[i] && init[j] == rows[j];
        }
      }
      GridHoldsRasterSum(init);
      var g := GridOf(map[], init);
      assert !HasRow(init, row.lat) by {
        forall i | 0 <= i < |init| ensures init[i].lat != row.lat {
          assert init[i] == rows[i];
        }
      }
      forall k | k in g ensures k.0 != row.lat {
        GridOfLookup(init, k);
        if k.0 == row.lat {
          NoRowNoCells(init, row.lat, k.1);
        }
      }
      assert ClearLat(g, row.lat) == g;
      assert DistinctColumns(row.entries) by {
        assert rows[|rows| - 1] == row;
      }
      PutEntriesTotal(g, row.lat, row.entries, RasterKeys(init));
    }
  }

  /** The raster total is what any enumeration of the gridified raster adds up to. */
  lemma RasterSumAnyOrder(rows: seq<RasterRow>, order: seq<Key>)
    requires DistinctRows(rows) && Enumerates(GridOf(map[], rows), order)
    ensures HolesOf(GridOf(map[], rows), order) == RasterSum(rows)
  {
    GridHoldsRasterSum(rows);
    HolesIndependent(GridOf(map[], rows), RasterKeys(rows), order);
  }
}
