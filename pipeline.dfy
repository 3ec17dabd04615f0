/**
 * sortAndFilterJP as functions of its inputs: which rows survive the
 * filter, what each village brings to the grid, the order in which the
 * villages are placed, the grid after all of them, and the per-village
 * detail files written along the way.
 */
module Pipeline {
  import opened Wrappers
  import opened StableSort
  import opened PopulationGrid
  import opened Allocation
  import opened Countries
  import opened Villages
  import opened Normalize
  import opened PeopleTable

  /** `_.reject(data, row => isNaN(Population) || isNaN(Latitude) || isNaN(Longitude))`. */
  function Kept(rows: seq<PeopleRow>): (r: seq<PeopleRow>)
    ensures |r| <= |rows|
    ensures forall x :: x in r <==> x in rows && Usable(x)
  {
    if rows == [] then []
    else
      var init := Kept(rows[..|rows| - 1]);
      var last := rows[|rows| - 1];
      assert rows == rows[..|rows| - 1] + [last];
      if Usable(last) then init + [last] else init
  }

  /** The filter keeps order and duplicates: it works row by row. */
  lemma {:induction false} KeptAppend(a: seq<PeopleRow>, b: seq<PeopleRow>)
    ensures Kept(a + b) == Kept(a) + Kept(b)
  {
    if b == [] {
      assert a + b == a;
    } else {
      var b' := b[..|b| - 1];
      assert (a + b)[..|a + b| - 1] == a + b';
      assert (a + b)[|a + b| - 1] == b[|b| - 1];
      KeptAppend(a, b');
    }
  }

  /** One row is kept exactly when it is usable. */
  lemma KeptSingle(x: PeopleRow)
    ensures Kept([x]) == if Usable(x) then [x] else []
  {
    assert [x][..0] == [];
  }

  /** What one village brings to the grid, and the details file it writes. */
  datatype Plan = Plan(g: Group, u: int, lat: Option<real>, lng: Option<real>, details: Details)

  /** The plan a row yields through `new Village(row)`. */
  function RowPlan(row: PeopleRow): Plan
  {
    Plan(Group(VillageIdStr(row.rog3, ParseIntField(row.peopleId3)),
               Rate(row.percentEvangelical), Rate(row.percentAdherents), ParseFloat(row.jpScale)),
         ParseIntField(row.population).GetOr(0),
         ParseFloat(row.latitude), ParseFloat(row.longitude),
         Details(row.peopNameInCountry, row.primaryLanguageName, row.primaryReligion,
                 Flag(row.leastReached), Flag(row.window1040)))
  }

  /** The plan of a freshly built village, read from its constant fields. */
  function PlanOf(v: Village): Plan
  {
    Plan(v.AsGroup(), v.populationTotal, v.lat, v.lng, v.GetDetails())
  }

  lemma PlanOfBuilt(v: Village, row: PeopleRow)
    requires v.BuiltFrom(row)
    ensures PlanOf(v) == RowPlan(row)
  {
  }

  /** Villages built one per row carry, in order, the plans of those rows. */
  lemma BuiltPlans(vs: seq<Village>, rows: seq<PeopleRow>)
    requires |vs| == |rows| && forall j :: 0 <= j < |vs| ==> vs[j].BuiltFrom(rows[j])
    ensures VillagePlans(vs) == RowPlans(rows)
  {
    forall j | 0 <= j < |vs| ensures PlanOf(vs[j]) == RowPlan(rows[j]) {
      PlanOfBuilt(vs[j], rows[j]);
    }
  }

  /** The plans of the rows, in order. */
  function RowPlans(rows: seq<PeopleRow>): (r: seq<Plan>)
    ensures |r| == |rows| && forall i :: 0 <= i < |rows| ==> r[i] == RowPlan(rows[i])
  {
    if rows == [] then [] else RowPlans(rows[..|rows| - 1]) + [RowPlan(rows[|rows| - 1])]
  }

  /** The plans of the villages, in order. */
  function VillagePlans(vs: seq<Village>): (r: seq<Plan>)
    ensures |r| == |vs| && forall i :: 0 <= i < |vs| ==> r[i] == PlanOf(vs[i])
  {
    if vs == [] then [] else VillagePlans(vs[..|vs| - 1]) + [PlanOf(vs[|vs| - 1])]
  }

  lemma VillagePlansStep(vs: seq<Village>, i: int)
    requires 0 <= i < |vs|
    ensures VillagePlans(vs[..i + 1]) == VillagePlans(vs[..i]) + [PlanOf(vs[i])]
  {
    assert vs[..i + 1][..i] == vs[..i];
  }

  /** The sort key `v => v.populationTotal`, on villages and on their plans. */
  function ByTotal(): Village -> real
  {
    (v: Village) => v.populationTotal as real
  }

  function ByUnits(): Plan -> real
  {
    (p: Plan) => p.u as real
  }

  /** The (code, name) pair each row offers the country table. */
  function CountryOf(row: PeopleRow): (string, string)
  {
    (row.rog3, row.ctry)
  }

  /** The (code, name) pairs of the rows, in order. */
  function CountryPairs(rows: seq<PeopleRow>): (r: seq<(string, string)>)
    ensures |r| == |rows|
  {
    if rows == [] then [] else CountryPairs(rows[..|rows| - 1]) + [CountryOf(rows[|rows| - 1])]
  }

  lemma CountriesStep(names: Names, rows: seq<PeopleRow>, i: int)
    requires 0 <= i < |rows|
    ensures CountriesOf(names, CountryPairs(rows[..i + 1]))
            == NoteCountry(CountriesOf(names, CountryPairs(rows[..i])), rows[i].rog3, rows[i].ctry)
  {
    assert rows[..i + 1][..i] == rows[..i];
    var pairs := CountryPairs(rows[..i + 1]);
    assert pairs[..i] == CountryPairs(rows[..i]);
  }

  /**
   * Sorting the villages by population and then taking their plans gives the
   * plans sorted by the number of people they bring.
   */
  lemma SortedPlans(vs: seq<Village>)
    ensures VillagePlans(SortBy(vs, ByTotal())) == SortBy(VillagePlans(vs), ByUnits())
  {
    assert VillagePlans(vs) == MapSeq(vs, PlanOf);
    assert VillagePlans(SortBy(vs, ByTotal())) == MapSeq(SortBy(vs, ByTotal()), PlanOf);
    assert forall v :: ByUnits()(PlanOf(v)) == ByTotal()(v);
    SortByMap(vs, PlanOf, ByTotal(), ByUnits());
  }

  /** `populationSum`: the people of all villages. */
  function PopulationSum(plans: seq<Plan>): int
  {
    if plans == [] then 0 else PopulationSum(plans[..|plans| - 1]) + plans[|plans| - 1].u
  }

  /** The villages of the kept rows, least populous first, ties in row order. */
  function Plans(rows: seq<PeopleRow>): seq<Plan>
  {
    SortBy(RowPlans(Kept(rows)), ByUnits())
  }

  /** The placement loop `_.each(villages, v => v.assignToGrid())` over the grid `cells`. */
  function AllocateAll(cells: Cells, plans: seq<Plan>): (r: Cells)
    requires Complete(cells)
    ensures r.Keys == cells.Keys
    decreases |plans|
  {
    if plans == [] then cells
    else
      var c := AllocateAll(cells, plans[..|plans| - 1]);
      CompleteKeys(cells, c);
      var p := plans[|plans| - 1];
      Search(c, p.g, p.u, p.lat, p.lng).cells
  }

  lemma AllocateStep(cells: Cells, plans: seq<Plan>, p: Plan)
    requires Complete(cells)
    ensures Complete(AllocateAll(cells, plans))
    ensures AllocateAll(cells, plans + [p]) == Search(AllocateAll(cells, plans), p.g, p.u, p.lat, p.lng).cells
  {
    assert (plans + [p])[..|plans|] == plans;
    CompleteKeys(cells, AllocateAll(cells, plans));
  }

  /** The grid after the rescaling step, for the raster total `nasaLoaded`. */
  function Rescaled(cells: Cells, rows: seq<PeopleRow>, nasaLoaded: int): (r: Cells)
    requires nasaLoaded != 0
    ensures r.Keys == cells.Keys
  {
    ScaleCells(cells, Scalar(PopulationSum(RowPlans(Kept(rows))), nasaLoaded))
  }

  /** The grid once every village of `rows` has been placed on the rescaled raster grid. */
  function Allocated(cells: Cells, rows: seq<PeopleRow>, nasaLoaded: int): (r: Cells)
    requires Complete(cells) && nasaLoaded != 0
    ensures r.Keys == cells.Keys
  {
    CompleteKeys(cells, Rescaled(cells, rows, nasaLoaded));
    AllocateAll(Rescaled(cells, rows, nasaLoaded), Plans(rows))
  }

  /** The exported country table: first names from the kept rows, then the four manual edits. */
  function CountryNames(names: Names, rows: seq<PeopleRow>): Names
  {
    WithOverrides(CountriesOf(names, CountryPairs(Kept(rows))))
  }

  /**
   * The rows parseJPData hands on: each body line parsed against the header
   * line by `parseRow`, the CSV reader, which is not part of this model.
   */
  function ParsedRows(lines: seq<string>, parseRow: (string, string) -> PeopleRow): seq<PeopleRow>
  {
    match HeaderAt(lines)
    case None => []
    case Some(h) => MapSeq(CommaRun(lines[h + 1..]), (l: string) => parseRow(lines[h], l))
  }

  /** The `v/<id>.json` files after the plans, each write replacing any file of that name. */
  function FilesOf(files: map<string, Details>, plans: seq<Plan>): map<string, Details>
  {
    if plans == [] then files
    else FilesOf(files, plans[..|plans| - 1])[plans[|plans| - 1].g.id := plans[|plans| - 1].details]
  }

  lemma FilesStep(files: map<string, Details>, plans: seq<Plan>, p: Plan)
    ensures FilesOf(files, plans + [p]) == FilesOf(files, plans)[p.g.id := p.details]
  {
    assert (plans + [p])[..|plans|] == plans;
  }

  /** The reference description: the details of the last plan with id `id`. */
  function LastDetails(plans: seq<Plan>, id: string): Option<Details>
  {
    if plans == [] then None
    else if plans[|plans| - 1].g.id == id then Some(plans[|plans| - 1].details)
    else LastDetails(plans[..|plans| - 1], id)
  }

  /** Last write wins: a file holds the details of the last village with that id. */
  lemma {:induction false} FilesLastWrite(files: map<string, Details>, plans: seq<Plan>, id: string)
    ensures id in FilesOf(files, plans) <==> id in files || LastDetails(plans, id).Some?
    ensures id in FilesOf(files, plans) ==>
              FilesOf(files, plans)[id] == match LastDetails(plans, id) case Some(d) => d case None => files[id]
  {
    if plans != [] {
      FilesLastWrite(files, plans[..|plans| - 1], id);
    }
  }

  // ----- what placement does to every cell -----

  /**
   * How the grid may change while villages are placed: the same cells, no
   * capacity grows, no capacity goes from non-negative to negative, and the
   * occupants of a cell are only ever extended at the end.
   */
  ghost predicate Shrinks(c0: Cells, c1: Cells)
  {
    && c1.Keys == c0.Keys
    && forall k :: k in c0 ==>
         && c1[k].emptyPop <= c0[k].emptyPop
         && (c0[k].emptyPop >= 0 ==> c1[k].emptyPop >= 0)
         && c0[k].villages <= c1[k].villages
  }

  lemma ShrinksTransitive(c0: Cells, c1: Cells, c2: Cells)
    requires Shrinks(c0, c1) && Shrinks(c1, c2)
    ensures Shrinks(c0, c2)
  {
  }

  /** One village's search only shrinks the grid. */
  lemma SearchShrinks(cells: Cells, g: Group, u: int, lat: Option<real>, lng: Option<real>)
    requires Complete(cells)
    ensures Shrinks(cells, Search(cells, g, u, lat, lng).cells)
  {
    var o := Search(cells, g, u, lat, lng);
    SearchLedger(cells, g, u, lat, lng);
    forall k | k in cells
      ensures o.cells[k].emptyPop <= cells[k].emptyPop
      ensures cells[k].emptyPop >= 0 ==> o.cells[k].emptyPop >= 0
      ensures cells[k].villages <= o.cells[k].villages
    {
      assert CellLedger(cells[k], o.cells[k], g, o.unassigned, k, o.log);
    }
  }

  /**
   * Placing all villages only shrinks the grid: in particular a grid with
   * no negative capacity keeps none, and every occupant once recorded in a
   * cell stays there, in the same position.
   */
  lemma {:induction false} AllocateShrinks(cells: Cells, plans: seq<Plan>)
    requires Complete(cells)
    ensures Shrinks(cells, AllocateAll(cells, plans))
    decreases |plans|
  {
    if plans != [] {
      var init := plans[..|plans| - 1];
      var c := AllocateAll(cells, init);
      AllocateShrinks(cells, init);
      CompleteKeys(cells, c);
      var p := plans[|plans| - 1];
      SearchShrinks(c, p.g, p.u, p.lat, p.lng);
      ShrinksTransitive(cells, c, AllocateAll(cells, plans));
    }
  }

  /** A village without both coordinates leaves the grid as it was. */
  lemma UnlocatedNoChange(cells: Cells, plans: seq<Plan>, p: Plan)
    requires Complete(cells) && (p.lat.None? || p.lng.None?)
    ensures AllocateAll(cells, plans + [p]) == AllocateAll(cells, plans)
  {
    assert (plans + [p])[..|plans|] == plans;
  }

  /** Rows whose latitude is blank pass the filter but are never placed. */
  lemma BlankLatitudeKept(row: PeopleRow)
    requires row.latitude == Text("") && !IsNaN(row.population) && !IsNaN(row.longitude)
    ensures Usable(row) && RowPlan(row).lat.None?
  {
  }

  /** Villages built from rows whose people id did not parse share one id within a country. */
  lemma NaNIdsCollide(r1: PeopleRow, r2: PeopleRow)
    requires r1.rog3 == r2.rog3 && ParseIntField(r1.peopleId3).None? && ParseIntField(r2.peopleId3).None?
    ensures RowPlan(r1).g.id == RowPlan(r2).g.id
  {
  }
}
