/**
 * A people group in one country, the `Village` of the import script: built
 * from one row of the people table, it places its population onto the grid,
 * first in its home cell and then ring by ring outward.
 */
module Villages {
  import opened Wrappers
  import opened JsNumber
  import opened PopulationGrid
  import opened Zones
  import opened Allocation
  import opened Countries

  /**
   * One value of a parsed CSV row: a number the parser recognised, or text
   * it left as it was.
   */
  datatype Field = Number(x: real) | Text(s: string)

  /**
   * `isNaN(v)`: never for a number; for text, exactly when `Number` cannot
   * read it (blank text reads as 0).
   */
  predicate IsNaN(f: Field)
  {
    f.Text? && TextToNumber(f.s).None?
  }

  /**
   * `parseFloat(v)`: a number is itself; text yields the longest decimal
   * literal after its leading white space, or NaN when there is none.
   */
  function ParseFloat(f: Field): (r: Option<real>)
    ensures f.Number? ==> r == Some(f.x)
    ensures f.Text? ==> r == ParseFloatText(f.s)
  {
    match f
    case Number(x) => Some(x)
    case Text(s) => ParseFloatText(s)
  }

  /** `parseInt(v)`: a number loses its fraction toward zero; text is read as decimal digits. */
  function ParseIntField(f: Field): (r: Option<int>)
    ensures f.Number? ==> r == Some(Trunc(f.x))
  {
    match f
    case Number(x) => Some(Trunc(x))
    case Text(s) => ParseInt(s)
  }

  /** `parseFloat(v)*.01 || 0`: a percentage as a rate, NaN read as 0. */
  function Rate(f: Field): (r: real)
    ensures ParseFloat(f).Some? ==> r == ParseFloat(f).value * 0.01
    ensures ParseFloat(f).None? ==> r == 0.0
  {
    match ParseFloat(f)
    case Some(x) => x * 0.01
    case None => 0.0
  }

  /** A percentage written as digits, with or without a unit after it, becomes a rate. */
  lemma RateOfPercentText(n: nat, w: string)
    requires EndsLiteral(w)
    ensures Rate(Text(NatToString(n) + w)) == n as real * 0.01
  {
    ParseFloatOfNatToString(n, w);
  }

  /**
   * A field that is not NaN and not blank parses to the value `Number`
   * gives it; blank text is not NaN, yet `parseFloat` makes it NaN.
   */
  lemma NotNaNParses(f: Field)
    requires !IsNaN(f)
    ensures f.Text? && TrimEnd(TrimStart(f.s)) != [] ==> ParseFloat(f) == TextToNumber(f.s)
    ensures f.Number? ==> ParseFloat(f) == Some(f.x)
  {
    if f.Text? && TrimEnd(TrimStart(f.s)) != [] {
      ParseFloatAgreesWithNumber(f.s);
    }
  }

  /** `v === 'Y' ? 1 : 0`. */
  function Flag(s: string): (r: int)
    ensures r == 1 <==> s == "Y"
    ensures r == 0 || r == 1
  {
    if s == "Y" then 1 else 0
  }

  /** The columns of the people table a village reads. */
  datatype PeopleRow = PeopleRow(
    peopleId3: Field, rog3: string, ctry: string, jpScale: Field,
    percentEvangelical: Field, percentAdherents: Field, population: Field,
    latitude: Field, longitude: Field,
    peopNameInCountry: string, primaryLanguageName: string, primaryReligion: string,
    leastReached: string, window1040: string)

  /** A row survives the filter unless its population, latitude or longitude is NaN. */
  predicate Usable(row: PeopleRow)
  {
    !IsNaN(row.population) && !IsNaN(row.latitude) && !IsNaN(row.longitude)
  }

  /** `peopleIdStr`: the decimal text of the id, "NaN" when it did not parse. */
  function PeopleIdStr(peopleId: Option<int>): (s: string)
    ensures |s| >= 1
    ensures peopleId.Some? ==> IsDigit(s[0]) || s[0] == '-'
  {
    match peopleId
    case Some(i) => IntToString(i)
    case None => "NaN"
  }

  /** `villageIdStr`: the country code followed by the people id. */
  function VillageIdStr(countryCode: string, peopleId: Option<int>): string
  {
    countryCode + PeopleIdStr(peopleId)
  }

  predicate IsUpperLetters(s: string)
  {
    forall i :: 0 <= i < |s| ==> 'A' <= s[i] <= 'Z'
  }

  /** The number of upper-case letters `s` starts with. */
  function UpperPrefix(s: string): nat
  {
    if s != [] && 'A' <= s[0] <= 'Z' then 1 + UpperPrefix(s[1..]) else 0
  }

  lemma {:induction false} UpperPrefixOf(c: string, t: string)
    requires IsUpperLetters(c) && t != [] && !('A' <= t[0] <= 'Z')
    ensures UpperPrefix(c + t) == |c|
  {
    if c != [] {
      assert (c + t)[1..] == c[1..] + t;
      UpperPrefixOf(c[1..], t);
    } else {
      assert c + t == t;
    }
  }

  /**
   * For letter-only country codes and parsed ids, the village id names one
   * village: different (code, id) pairs never share an id string.
   */
  lemma VillageIdInjective(c1: string, i1: int, c2: string, i2: int)
    requires IsUpperLetters(c1) && IsUpperLetters(c2)
    requires VillageIdStr(c1, Some(i1)) == VillageIdStr(c2, Some(i2))
    ensures c1 == c2 && i1 == i2
  {
    var s := VillageIdStr(c1, Some(i1));
    var t1, t2 := IntToString(i1), IntToString(i2);
    UpperPrefixOf(c1, t1);
    UpperPrefixOf(c2, t2);
    assert c1 == s[..|c1|] == c2;
    assert t1 == s[|c1|..] == t2;
    IntToStringInjective(i1, i2);
  }

  /** What `getDetails` writes into the village's own file. */
  datatype Details = Details(nameLcl: string, pLang: string, pRlgn: string, lr: int, ten40: int)

  class Village {
    const peopleId: Option<int>
    const countryCode: string
    const jPScale: Option<real>
    const pctEvangel: real
    const pctAdherant: real
    var populationUnassigned: int
    const populationTotal: int
    const lat: Option<real>
    const lng: Option<real>
    const nameLocal: string
    const primaryLanguageName: string
    const primaryReligion: string
    const leastReached: int
    const ten40: int

    /** The constant fields are those the constructor reads from `row`. */
    predicate BuiltFrom(row: PeopleRow)
    {
      && peopleId == ParseIntField(row.peopleId3) && countryCode == row.rog3
      && jPScale == ParseFloat(row.jpScale)
      && pctEvangel == Rate(row.percentEvangelical) && pctAdherant == Rate(row.percentAdherents)
      && populationTotal == ParseIntField(row.population).GetOr(0)
      && lat == ParseFloat(row.latitude) && lng == ParseFloat(row.longitude)
      && nameLocal == row.peopNameInCountry && primaryLanguageName == row.primaryLanguageName
      && primaryReligion == row.primaryReligion
      && leastReached == Flag(row.leastReached) && ten40 == Flag(row.window1040)
    }

    /** `new Village(row)`, which also notes the row's country name if its code is new. */
    constructor (row: PeopleRow, countries: CountryTable)
      modifies countries
      ensures BuiltFrom(row)
      ensures populationUnassigned == populationTotal
      ensures countries.names == NoteCountry(old(countries.names), row.rog3, row.ctry)
    {
      peopleId := ParseIntField(row.peopleId3);
      countryCode := row.rog3;
      jPScale := ParseFloat(row.jpScale);
      pctEvangel := Rate(row.percentEvangelical);
      pctAdherant := Rate(row.percentAdherents);
      var population := ParseIntField(row.population).GetOr(0);
      populationUnassigned := population;
      populationTotal := population;
      lat := ParseFloat(row.latitude);
      lng := ParseFloat(row.longitude);
      nameLocal := row.peopNameInCountry;
      primaryLanguageName := row.primaryLanguageName;
      primaryReligion := row.primaryReligion;
      leastReached := Flag(row.leastReached);
      ten40 := Flag(row.window1040);
      new;
      countries.Note(row.rog3, row.ctry);
    }

    function Id(): string
    {
      VillageIdStr(countryCode, peopleId)
    }

    /** What placement reads of the village. */
    function AsGroup(): (g: Group)
      ensures g.id == Id() && g.pctEvangel == pctEvangel && g.pctAdherant == pctAdherant && g.jps == jPScale
    {
      Group(Id(), pctEvangel, pctAdherant, jPScale)
    }

    function GetDetails(): (d: Details)
      ensures d.nameLcl == nameLocal && d.pLang == primaryLanguageName && d.pRlgn == primaryReligion
      ensures d.lr == leastReached && d.ten40 == ten40
    {
      Details(nameLocal, primaryLanguageName, primaryReligion, leastReached, ten40)
    }

    /** assignToPile(lat, lng): the step the grid search repeats. */
    method AssignToPile(grid: Grid, lat: int, lng: int) returns (r: int)
      requires CanReach(grid.cells, populationUnassigned, lat, lng)
      modifies this, grid
      ensures var o := Pile(old(grid.cells), AsGroup(), old(populationUnassigned), lat, lng);
              grid.cells == o.cells && populationUnassigned == o.unassigned && r == o.returned
    {
      if populationUnassigned <= 0 {
        return 0;
      }
      if lat < -58 || lat > 82 {
        return populationUnassigned;
      }
      var l := NormalizeLongitude(lng);
      var cell := grid.cells[(lat, l)];
      if cell.emptyPop <= 0 {
        return populationUnassigned;
      }
      assert (lat, l) == PileKey(lat, lng);
      var assignable := Min(cell.emptyPop, populationUnassigned);
      populationUnassigned := populationUnassigned - assignable;
      var villages := cell.villages;
      if !HasId(villages, Id()) {
        villages := villages + [(Id(), NewOccupant(AsGroup(), assignable))];
      }
      grid.cells := grid.cells[(lat, l) := Cell(cell.emptyPop - assignable, villages)];
      return populationUnassigned;
    }

    /** `_.find(zones, z => this.assignToPile(z.lat, z.lng) === 0)`: whether some zone finished the village. */
    method AssignToFirstZone(grid: Grid, zones: seq<Zone>) returns (found: bool)
      requires Complete(grid.cells) && AllEven(zones)
      modifies this, grid
      ensures var v := Visit(old(grid.cells), AsGroup(), old(populationUnassigned), zones);
              grid.cells == v.cells && populationUnassigned == v.unassigned && found == v.found
    {
      ghost var v0 := Visit(grid.cells, AsGroup(), populationUnassigned, zones);
      var i := 0;
      while i < |zones|
        invariant 0 <= i <= |zones| && Complete(grid.cells)
        invariant var v := Visit(grid.cells, AsGroup(), populationUnassigned, zones[i..]);
                  v.cells == v0.cells && v.unassigned == v0.unassigned && v.found == v0.found
      {
        var z := zones[i];
        assert zones[i..][0] == z && zones[i..][1..] == zones[i + 1..];
        VisitNext(grid.cells, AsGroup(), populationUnassigned, zones[i..]);
        var r := AssignToPile(grid, z.lat, z.lng);
        if r == 0 {
          return true;
        }
        i := i + 1;
      }
      return false;
    }

    /** One `_.find` call of assignToGrid: the zones of the ring of `degrees` around the village. */
    method AssignToRing(grid: Grid, lat: real, lng: real, degrees: int) returns (found: bool)
      requires Complete(grid.cells)
      modifies this, grid
      ensures var v := Ring(old(grid.cells), AsGroup(), old(populationUnassigned), lat, lng, degrees);
              grid.cells == v.cells && populationUnassigned == v.unassigned && found == v.found
      ensures Complete(grid.cells)
    {
      var zones := ListPeripheralZones(lat, lng, degrees);
      PeripheralZonesEven(lat, lng, degrees);
      ghost var c := grid.cells;
      found := AssignToFirstZone(grid, zones);
      CompleteKeys(c, grid.cells);
    }

    /**
     * The four `_.find` calls of assignToGrid over the rings of 10, 30, 90
     * and 180 degrees, each made only while the earlier ones found nothing.
     */
    method AssignToRings(grid: Grid, x: real, y: real) returns (found: bool)
      requires Complete(grid.cells)
      modifies this, grid
      ensures var v := Rings(old(grid.cells), AsGroup(), old(populationUnassigned), x, y, Radii);
              grid.cells == v.cells && populationUnassigned == v.unassigned && found == v.found
    {
      ghost var g := AsGroup();
      assert Radii[1..] == [30, 90, 180] && Radii[2..] == [90, 180] && Radii[3..] == [180] && [180][1..] == [];
      RingsNext(grid.cells, g, populationUnassigned, x, y, Radii);
      found := AssignToRing(grid, x, y, 10);
      if found {
        return;
      }
      RingsNext(grid.cells, g, populationUnassigned, x, y, Radii[1..]);
      found := AssignToRing(grid, x, y, 30);
      if found {
        return;
      }
      RingsNext(grid.cells, g, populationUnassigned, x, y, Radii[2..]);
      found := AssignToRing(grid, x, y, 90);
      if found {
        return;
      }
      RingsNext(grid.cells, g, populationUnassigned, x, y, Radii[3..]);
      found := AssignToRing(grid, x, y, 180);
    }

    /**
     * assignToGrid: `located` is false when it returns `false` for a missing
     * coordinate, and `warned` is true when it reaches the shortfall line.
     */
    method AssignToGrid(grid: Grid) returns (located: bool, warned: bool)
      requires Complete(grid.cells)
      modifies this, grid
      ensures var o := Search(old(grid.cells), AsGroup(), old(populationUnassigned), lat, lng);
              grid.cells == o.cells && populationUnassigned == o.unassigned
              && located == o.located && warned == o.warned
    {
      if lat.None? || lng.None? {
        return false, false;
      }
      located, warned := true, false;
      ghost var c0 := grid.cells;
      var x, y := lat.value, lng.value;
      HomeEven(x);
      HomeEven(y);
      CompleteReaches(grid.cells, populationUnassigned, Round(x / 2.0) * 2, Round(y / 2.0) * 2);
      var remaining := AssignToPile(grid, Round(x / 2.0) * 2, Round(y / 2.0) * 2);
      if remaining <= 0 {
        return;
      }
      CompleteKeys(c0, grid.cells);
      var found := AssignToRings(grid, x, y);
      warned := !found;
    }
  }
}
