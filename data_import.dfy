/**
 * The import script as one object: the module-level `grid`, `countries`
 * and `nasaLoaded` variables, plus the files it writes, and the passes that
 * update them in place: nasaGridify, parseJPData and sortAndFilterJP.
 */
module DataImport {
  import opened Wrappers
  import opened StableSort
  import opened PopulationGrid
  import opened Allocation
  import opened Raster
  import opened Normalize
  import opened Countries
  import opened Villages
  import opened PeopleTable
  import opened Pipeline
  import opened Export

  /** The contents of `geo.json`. */
  datatype Geo = Geo(grid: seq<ExportedCell>, ctry: Names)

  class Importer {
    const grid: Grid
    const countries: CountryTable
    /** `false` until nasaGridify has run, then the raster total. */
    var nasaLoaded: Option<int>
    /** The `v/<id>.json` files. */
    var files: map<string, Details>
    /** `geo.json`, once written. */
    var geo: Option<Geo>

    constructor ()
      ensures fresh(grid) && fresh(countries)
      ensures grid.cells == map[] && countries.names == map[]
      ensures nasaLoaded == None && files == map[] && geo == None
    {
      grid := new Grid();
      countries := new CountryTable();
      nasaLoaded := None;
      files := map[];
      geo := None;
    }

    /** nasaGridify: the raster rows become the grid and their total is recorded. */
    method NasaGridify(rows: seq<RasterRow>)
      modifies this, grid
      ensures grid.cells == GridOf(old(grid.cells), rows)
      ensures nasaLoaded == Some(RasterSum(rows))
      ensures files == old(files) && geo == old(geo)
    {
      ghost var c0 := grid.cells;
      var nasaPopSum := 0;
      var i := 0;
      while i < |rows|
        modifies grid
        invariant 0 <= i <= |rows|
        invariant grid.cells == GridOf(c0, rows[..i])
        invariant nasaPopSum == RasterSum(rows[..i])
      {
        var row := rows[i];
        assert rows[..i + 1][..i] == rows[..i];
        grid.cells := ClearLat(grid.cells, row.lat);
        ghost var cleared := grid.cells;
        var j := 0;
        while j < |row.entries|
          modifies grid
          invariant 0 <= j <= |row.entries|
          invariant grid.cells == PutEntries(cleared, row.lat, row.entries[..j])
          invariant nasaPopSum == RasterSum(rows[..i]) + EntriesSum(row.entries[..j])
        {
          assert row.entries[..j + 1][..j] == row.entries[..j];
          match row.entries[j] {
            case LatColumn =>
            case CellValue(lng, pop) =>
              grid.cells := grid.cells[(row.lat, lng) := Cell(pop, [])];
              nasaPopSum := nasaPopSum + pop;
          }
          j := j + 1;
        }
        assert row.entries[..j] == row.entries;
        i := i + 1;
      }
      assert rows[..i] == rows;
      nasaLoaded := Some(nasaPopSum);
    }

    /** `_.each(data, row => villages.push(new Village(row)))`. */
    method BuildVillages(kept: seq<PeopleRow>) returns (vs: seq<Village>)
      modifies countries
      ensures |vs| == |kept| && Distinct(vs)
      ensures forall v :: v in vs ==> fresh(v) && v.populationUnassigned == v.populationTotal
      ensures VillagePlans(vs) == RowPlans(kept)
      ensures countries.names == CountriesOf(old(countries.names), CountryPairs(kept))
    {
      ghost var names0 := countries.names;
      vs := [];
      var i := 0;
      while i < |kept|
        invariant 0 <= i <= |kept| && |vs| == i && Distinct(vs)
        invariant forall j :: 0 <= j < i ==> fresh(vs[j])
        invariant forall j :: 0 <= j < i ==> vs[j].populationUnassigned == vs[j].populationTotal
        invariant forall j {:trigger vs[j].BuiltFrom(kept[j])} :: 0 <= j < i ==> vs[j].BuiltFrom(kept[j])
        invariant countries.names == CountriesOf(names0, CountryPairs(kept[..i]))
      {
        CountriesStep(names0, kept, i);
        var v := new Village(kept[i], countries);
        vs := vs + [v];
        i := i + 1;
      }
      assert kept[..i] == kept;
      BuiltPlans(vs, kept);
    }

    /**
     * `_.sortBy(villages, v => v.populationTotal)`, whose key function also
     * adds every village's population to `populationSum`, in the original order.
     */
    method SortVillages(vs: seq<Village>) returns (sorted: seq<Village>, populationSum: int)
      ensures sorted == SortBy(vs, ByTotal())
      ensures populationSum == PopulationSum(VillagePlans(vs))
    {
      populationSum := 0;
      var i := 0;
      while i < |vs|
        invariant 0 <= i <= |vs|
        invariant populationSum == PopulationSum(VillagePlans(vs[..i]))
      {
        assert vs[..i + 1][..i] == vs[..i];
        populationSum := populationSum + vs[i].populationTotal;
        i := i + 1;
      }
      assert vs[..i] == vs;
      sorted := SortBy(vs, ByTotal());
    }

    /** `gridC.emptyPop = Math.round(gridC.emptyPop * populationScalar)` for every cell. */
    method ScaleGrid(scalar: real)
      modifies grid
      ensures grid.cells == ScaleCells(old(grid.cells), scalar)
    {
      ghost var c0 := grid.cells;
      var todo := grid.cells.Keys;
      while todo != {}
        invariant todo <= c0.Keys && grid.cells.Keys == c0.Keys
        invariant forall k :: k in c0 ==>
                    grid.cells[k] == if k in todo then c0[k] else Cell(ScaleCapacity(c0[k].emptyPop, scalar), c0[k].villages)
        decreases |todo|
      {
        var k :| k in todo;
        var cell := grid.cells[k];
        grid.cells := grid.cells[k := Cell(ScaleCapacity(cell.emptyPop, scalar), cell.villages)];
        todo := todo - {k};
      }
      assert grid.cells == ScaleCells(c0, scalar);
    }

    /**
     * One turn of the placement loop: village `vs[i]` searches the grid, then
     * writes its details file.  The ghost parameters name the grid and the
     * files before the loop.
     */
    method PlaceAt(vs: seq<Village>, i: nat, ghost c0: Cells, ghost f0: map<string, Details>)
      requires i < |vs| && Distinct(vs) && Complete(c0)
      requires grid.cells == AllocateAll(c0, VillagePlans(vs[..i])) && files == FilesOf(f0, VillagePlans(vs[..i]))
      requires forall j :: i <= j < |vs| ==> vs[j].populationUnassigned == vs[j].populationTotal
      modifies this, grid, vs[i]
      ensures grid.cells == AllocateAll(c0, VillagePlans(vs[..i + 1]))
      ensures files == FilesOf(f0, VillagePlans(vs[..i + 1]))
      ensures forall j :: i < j < |vs| ==> vs[j].populationUnassigned == vs[j].populationTotal
      ensures nasaLoaded == old(nasaLoaded) && geo == old(geo)
    {
      var v := vs[i];
      VillagePlansStep(vs, i);
      assert forall j :: i < j < |vs| ==> vs[j] != v;
      Place(v, c0, f0, VillagePlans(vs[..i]));
    }

    /** The search and the file write of one village, after the plans `done`. */
    method Place(v: Village, ghost c0: Cells, ghost f0: map<string, Details>, ghost done: seq<Plan>)
      requires Complete(c0) && grid.cells == AllocateAll(c0, done) && files == FilesOf(f0, done)
      requires v.populationUnassigned == v.populationTotal
      modifies this, grid, v
      ensures grid.cells == AllocateAll(c0, done + [PlanOf(v)])
      ensures files == FilesOf(f0, done + [PlanOf(v)])
      ensures nasaLoaded == old(nasaLoaded) && geo == old(geo)
    {
      AllocateStep(c0, done, PlanOf(v));
      FilesStep(f0, done, PlanOf(v));
      var _, _ := v.AssignToGrid(grid);
      files := files[v.Id() := v.GetDetails()];
    }

    /** The placement loop `_.each(villages, ...)` in the sorted order. */
    method Allocate(vs: seq<Village>)
      requires Complete(grid.cells) && Distinct(vs)
      requires forall v :: v in vs ==> v.populationUnassigned == v.populationTotal
      modifies this, grid, vs
      ensures grid.cells == AllocateAll(old(grid.cells), VillagePlans(vs))
      ensures files == FilesOf(old(files), VillagePlans(vs))
      ensures nasaLoaded == old(nasaLoaded) && geo == old(geo)
    {
      ghost var c0, f0 := grid.cells, files;
      var i := 0;
      while i < |vs|
        invariant 0 <= i <= |vs|
        invariant grid.cells == AllocateAll(c0, VillagePlans(vs[..i]))
        invariant files == FilesOf(f0, VillagePlans(vs[..i]))
        invariant forall j :: i <= j < |vs| ==> vs[j].populationUnassigned == vs[j].populationTotal
        invariant nasaLoaded == old(nasaLoaded) && geo == old(geo)
      {
        PlaceAt(vs, i, c0, f0);
        i := i + 1;
      }
      assert vs[..i] == vs;
    }

    /** The export loop over the grid's cells in the order `order`. */
    method ExportGrid(order: seq<Key>) returns (gridSubset: seq<ExportedCell>, holes: int)
      requires Listed(grid.cells, order)
      ensures gridSubset == ExportOf(grid.cells, order) && holes == HolesOf(grid.cells, order)
    {
      gridSubset, holes := [], 0;
      var i := 0;
      while i < |order|
        invariant 0 <= i <= |order| && Listed(grid.cells, order[..i])
        invariant gridSubset == ExportOf(grid.cells, order[..i]) && holes == HolesOf(grid.cells, order[..i])
      {
        var k := order[i];
        assert order[..i + 1][..i] == order[..i];
        assert Listed(grid.cells, order[..i + 1]) by {
          forall x | x in order[..i + 1] ensures x in grid.cells {
            var n :| 0 <= n <= i && order[n] == x;
          }
        }
        var cell := grid.cells[k];
        holes := holes + cell.emptyPop;
        if cell.villages != [] {
          gridSubset := gridSubset + [ExportedCell(k.0, k.1, SortedOccupants(cell.villages))];
        }
        i := i + 1;
      }
      assert order[..i] == order;
    }

    /**
     * The first half of sortAndFilterJP: filter the rows, build one village
     * per kept row, and sort the villages by population, adding up the
     * population they hold.
     */
    method SortedVillages(data: seq<PeopleRow>) returns (sorted: seq<Village>, populationSum: int)
      modifies countries
      ensures countries.names == CountriesOf(old(countries.names), CountryPairs(Kept(data)))
      ensures VillagePlans(sorted) == Plans(data) && Distinct(sorted)
      ensures populationSum == PopulationSum(RowPlans(Kept(data)))
      ensures forall v :: v in sorted ==> fresh(v) && v.populationUnassigned == v.populationTotal
    {
      var kept := Kept(data);
      var vs := BuildVillages(kept);
      sorted, populationSum := SortVillages(vs);
      SortedPlans(vs);
      SortByDistinct(vs, ByTotal());
      forall v | v in sorted ensures v in vs {
        assert v in multiset(sorted);
      }
    }

    /**
     * The second half of sortAndFilterJP: place the villages in order, fix
     * four country names, and export the occupied cells with the country
     * table, returning the leftover capacity.
     */
    method PlaceAndExport(sorted: seq<Village>, order: seq<Key>) returns (holes: int)
      requires Complete(grid.cells) && Enumerates(grid.cells, order) && Distinct(sorted)
      requires forall v :: v in sorted ==> v.populationUnassigned == v.populationTotal
      modifies this, grid, countries, sorted
      ensures grid.cells == AllocateAll(old(grid.cells), VillagePlans(sorted))
      ensures countries.names == WithOverrides(old(countries.names))
      ensures files == FilesOf(old(files), VillagePlans(sorted))
      ensures geo == Some(Geo(ExportOf(grid.cells, order), countries.names))
      ensures holes == HolesOf(grid.cells, order)
      ensures nasaLoaded == old(nasaLoaded)
    {
      ghost var c0 := grid.cells;
      Allocate(sorted);
      EnumeratesKeys(c0, grid.cells, order);
      holes := Publish(order);
    }

    /** The end of sortAndFilterJP: the four country names, then the export of the occupied cells. */
    method Publish(order: seq<Key>) returns (holes: int)
      requires Listed(grid.cells, order)
      modifies this, countries
      ensures countries.names == WithOverrides(old(countries.names))
      ensures geo == Some(Geo(ExportOf(grid.cells, order), countries.names))
      ensures holes == HolesOf(grid.cells, order)
      ensures files == old(files) && nasaLoaded == old(nasaLoaded)
    {
      countries.ApplyOverrides();
      var gridSubset;
      gridSubset, holes := ExportGrid(order);
      geo := Some(Geo(gridSubset, countries.names));
    }

    /**
     * sortAndFilterJP: filter the rows, build the villages, sort them by
     * population, rescale the grid, place every village, fix four country
     * names, and export the occupied cells with the country table.  The
     * returned value is the "population holes remaining" total.
     */
    method SortAndFilterJP(data: seq<PeopleRow>, order: seq<Key>) returns (holes: int)
      requires nasaLoaded.Some? && nasaLoaded.value != 0
      requires Complete(grid.cells) && Enumerates(grid.cells, order)
      modifies this, grid, countries
      ensures grid.cells == Allocated(old(grid.cells), data, old(nasaLoaded.value))
      ensures countries.names == CountryNames(old(countries.names), data)
      ensures files == FilesOf(old(files), Plans(data))
      ensures geo == Some(Geo(ExportOf(grid.cells, order), countries.names))
      ensures holes == HolesOf(grid.cells, order)
      ensures nasaLoaded == old(nasaLoaded)
    {
      ghost var c0 := grid.cells;
      var sorted, populationSum := SortedVillages(data);
      ScaleGrid(Scalar(populationSum, nasaLoaded.value));
      CompleteKeys(c0, grid.cells);
      holes := PlaceAndExport(sorted, order);
    }

    /** parseJPData: select the header and row lines, parse each row, and run sortAndFilterJP. */
    method ParseJPData(lines: seq<string>, parseRow: (string, string) -> PeopleRow, order: seq<Key>)
      returns (holes: int)
      requires nasaLoaded.Some? && nasaLoaded.value != 0
      requires Complete(grid.cells) && Enumerates(grid.cells, order)
      modifies this, grid, countries
      ensures var data := ParsedRows(lines, parseRow);
              && grid.cells == Allocated(old(grid.cells), data, old(nasaLoaded.value))
              && countries.names == CountryNames(old(countries.names), data)
              && files == FilesOf(old(files), Plans(data))
              && geo == Some(Geo(ExportOf(grid.cells, order), countries.names))
              && holes == HolesOf(grid.cells, order)
    {
      var header, body := SelectLines(lines);
      var jpData := [];
      var i := 0;
      while i < |body|
        invariant 0 <= i <= |body| && |jpData| == i
        invariant forall j :: 0 <= j < i ==> jpData[j] == parseRow(header.value, body[j])
      {
        jpData := jpData + [parseRow(header.value, body[i])];
        i := i + 1;
      }
      assert jpData == ParsedRows(lines, parseRow);
      holes := SortAndFilterJP(jpData, order);
    }

    /** The script: the raster first, then the people table. */
    method Run(raster: seq<RasterRow>, lines: seq<string>, parseRow: (string, string) -> PeopleRow, order: seq<Key>)
      returns (holes: int)
      requires RasterSum(raster) != 0
      requires Complete(GridOf(grid.cells, raster)) && Enumerates(GridOf(grid.cells, raster), order)
      modifies this, grid, countries
      ensures var data := ParsedRows(lines, parseRow);
              && grid.cells == Allocated(GridOf(old(grid.cells), raster), data, RasterSum(raster))
              && countries.names == CountryNames(old(countries.names), data)
              && files == FilesOf(old(files), Plans(data))
              && geo == Some(Geo(ExportOf(grid.cells, order), countries.names))
              && holes == HolesOf(grid.cells, order)
    {
      NasaGridify(raster);
      holes := ParseJPData(lines, parseRow, order);
    }
  }
}
