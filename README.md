# FathersMarble: the population allocation engine and the globe's bar logic

FathersMarble draws every people group of the Joshua Project table on a
globe. It shows them as coloured bars standing on a 2-degree grid whose
cells carry a NASA population estimate. This project models two parts of
it.

**The offline import script (`data/dataImport.js`).**
- `nasaGridify` turns the raster into a grid of cells. Each cell has a capacity (`emptyPop`) and its occupants.
- `parseJPData` picks out the table's header and body lines.
- `sortAndFilterJP` does the rest:
  - drops rows with a NaN population or coordinate;
  - builds one `Village` per row and notes its country name on first sight;
  - sorts the villages stably by population;
  - rescales every capacity by `(S + 1E7) / R`;
  - places each village with `assignToGrid`. That tries the home cell, then the cells within 10, 30, 90 and 180 degrees nearest first, through `assignToPile`;
  - writes a detail file per village;
  - exports the occupied cells with their occupants by descending population, with the leftover capacity and the country table plus four overrides.

**The Cesium front end (`app/main.js`).**
- `Pile.calcHeights` splits a grid point's groups into five bars.
- `load` shifts each bar's height by `heightScale` and creates a bar entity with the id `"<c> <x>"` when its height exceeds 1.
- The `seriesToDisplay` setter shows one series.
- The `heightScale` setter guards its value.
- `_setLoading` raises its event only when the flag changes.
- `handleSelection` parses a bar id back into its pile number and caches one described entity per pile.

**How the source's shapes appear here.**
- The state the script changes in place is modelled as classes, with an explicit enumeration order wherever the source iterates over an object:
  - the grid (`PopulationGrid.Grid`, a map from even `(lat, lng)` pairs to cells);
  - the country table (`Countries.CountryTable`);
  - each village (`Villages.Village`, whose `populationUnassigned` shrinks);
  - the script's globals (`DataImport.Importer`).
- Each method is proved against a specification function of the old state: `Pile`, `Visit`, `Rings`, `Search`, `AllocateAll`, `ExportOf`, `HolesOf`, `LoadBars` and `HeightsOf`.
- The promised properties are lemmas about those functions:
  - placement conservation, recorded as a ledger of placements;
  - ring order and members;
  - stable sorting;
  - order independence of the totals;
  - unique and parseable bar ids;
  - the cache that is never overwritten.
- JavaScript numbers:
  - `Math.round` is `floor(x + 1/2)`;
  - `parseInt`, `parseFloat` and the `Number` conversion behind `isNaN` read text as the language does (leading white space, the longest numeric prefix, a whole literal for `Number`) and give `Option` (None for NaN);
  - `>>` is written out as a 32-bit conversion followed by a flooring shift by the count modulo 32;
  - coordinates and percentages are exact reals.

## Model

| member | source | states |
|---|---|---|
| PopulationGrid.NormalizedLng | data/dataImport.js:125-129 | the normalised longitude lies in [-180, 180], differs from the input by a multiple of 360, keeps its parity, and is the input itself when that is already in range |
| PopulationGrid.NormalizeLongitude | data/dataImport.js:125-129 | the two `while` loops end with a longitude in [-180, 180] that differs from the input by a multiple of 360 |
| PopulationGrid.NewOccupant | data/dataImport.js:163-169 | a first placement stores `pop = assignable`, `evn = round(pctEvangel·assignable)`, `adh = max(round(pctAdherant·assignable) − evn, 0)`, and the group's `jps` |
| PopulationGrid.Pile | data/dataImport.js:118-173 | assignToPile returns 0 when nothing is left. Nothing changes when nothing is left, the latitude is outside [-58, 82] or the cell is full. Otherwise `assignable = min(cap, unassigned) > 0` leaves both amounts reduced by it, capacity ≥ 0, and (when people remain) the cell drained to 0. The occupant is recorded unless its id is already there, and no other cell changes |
| PopulationGrid.OccupantSplit | data/dataImport.js:163-169 | for every group and amount, `adh ≥ 0` and `adh + evn = max(round(pctAdherant·assignable), evn)` |
| PopulationGrid.OccupantBounded | data/dataImport.js:163-169 | with rates in [0, 1] and a non-negative amount, `0 ≤ evn ≤ assignable` and `adh + evn ≤ assignable` |
| PopulationGrid.Lookup | data/dataImport.js:144 | an occupant is found exactly when the cell lists that village id |
| PopulationGrid.Grid.constructor | data/dataImport.js:7 | the grid starts with no cells |
| Raster.ClearLat | data/dataImport.js:368 | `grid[lat] = {}` removes exactly the cells of that latitude and keeps all others |
| Raster.GridOfLookup | data/dataImport.js:362-381 | a cell exists after nasaGridify exactly when the raster has a value for it. Its capacity is the value from the last row of that latitude, and it has no occupants |
| Raster.NoRowNoCells | data/dataImport.js:365-381 | a latitude with no raster row has no cells |
| Raster.RepeatedLatitude | data/dataImport.js:367-378 | when a latitude appears twice, the second row's cells replace the first's, yet the raster total counts both |
| Raster.PutEntriesTotal | data/dataImport.js:370-380 | writing one record's columns at a latitude the grid lacks adds one new cell per column, enumerated after the old cells, and adds the row's values to the holes total |
| Raster.GridHoldsRasterSum | data/dataImport.js:362-386 | when no two rows share a latitude, the rows' keys enumerate the grid nasaGridify builds, and its capacities add up to `nasaLoaded` |
| Raster.RasterSumAnyOrder | data/dataImport.js:362-386 | when no two rows share a latitude, every enumeration of the gridified raster adds up to `nasaLoaded` |
| PeopleTable.SelectLines | data/dataImport.js:215-238 | the mode loop keeps the first line with a comma as the header and the run of comma lines after it as the body. It keeps nothing when no line has a comma |
| PeopleTable.HeaderAt | data/dataImport.js:220-226 | the header is the first line containing a comma, and there is none only when no line has one |
| PeopleTable.CommaRun | data/dataImport.js:227-236 | the body is the longest prefix of comma lines, ending at the first line without one |
| PeopleTable.FooterStays | data/dataImport.js:220-237 | once in footer mode, no later line changes anything |
| PeopleTable.BodyScan | data/dataImport.js:227-236 | in body mode the header stays and exactly the comma prefix of the rest is appended |
| PeopleTable.SelectedLines | data/dataImport.js:215-238 | the whole scan from `init` yields the header and body described by HeaderAt and CommaRun |
| Villages.ParseFloat | data/dataImport.js:29 | `parseFloat` gives a number field its own value, and text the longest decimal literal after its leading white space, such as 3.5 for `"3.5x"` |
| Villages.NotNaNParses | data/dataImport.js:29-36 | a field that `isNaN` accepts and that is not blank parses under `parseFloat` to the value `Number` gives it |
| Villages.ParseIntField | data/dataImport.js:27 | `parseInt` of a number truncates toward zero |
| Villages.Rate | data/dataImport.js:30-31 | a field whose `parseFloat` is `x` becomes `x·0.01`, and one whose `parseFloat` is NaN becomes 0 |
| Villages.RateOfPercentText | data/dataImport.js:30-31 | digits followed by anything that cannot continue a number, such as `"12%"`, become the digits' value times 0.01 |
| Villages.Flag | data/dataImport.js:39-40 | the flag is 1 exactly for `'Y'`, and 0 otherwise |
| Villages.PeopleIdStr | data/dataImport.js:48-52 | a parsed id prints as a digit string, possibly signed |
| Villages.VillageIdInjective | data/dataImport.js:53-57 | the id `countryCode + peopleId` determines both parts when the code is upper-case letters |
| Villages.Village.constructor | data/dataImport.js:26-46 | every field is read from the row as the constructor does, unassigned equals total, and the country name is noted only when its code is new |
| Villages.Village.GetDetails | data/dataImport.js:175-183 | the detail record carries the local name, language, religion and the two flags |
| Villages.Village.AssignToPile | data/dataImport.js:118-173 | the new grid, the new unassigned amount and the returned value are those of `Pile` on the old state |
| Villages.Village.AssignToFirstZone | data/dataImport.js:71-75 | `_.find` over the zones calls assignToPile in order and stops at the first that returns 0, as `Visit` states |
| Villages.Village.AssignToRing | data/dataImport.js:71-93 | one ring's zones are listed and tried, as `Ring` states, and every required cell still exists |
| Villages.Village.AssignToRings | data/dataImport.js:71-93 | the rings 10, 30, 90 and 180 are tried in order, each only while the earlier ones found nothing |
| Villages.Village.AssignToGrid | data/dataImport.js:59-97 | the grid, remainder, located and warned flags are those of `Search`: no coordinate means no change, then the home cell, then the rings |
| Zones.RoundedDegrees | data/dataImport.js:99 | the rounded radius is even |
| Zones.RoundedStart | data/dataImport.js:101-102 | each loop starts at an even coordinate |
| Zones.SquaredDistance | data/dataImport.js:112-114 | the sort key is non-negative |
| Zones.ListPeripheralZones | data/dataImport.js:98-117 | the nested loops generate the zones that the stable sort by distance then orders |
| Zones.PushRow | data/dataImport.js:102-110 | the inner loop appends one row of zones |
| Zones.ZoneRowMembers | data/dataImport.js:102-110 | a row holds the zones of that latitude stepping by 2 from the start up to the bound |
| Zones.ZoneRowsMembers | data/dataImport.js:101-111 | the rows hold exactly the zones on the 2-step lattice within both bounds |
| Zones.GeneratedMembers | data/dataImport.js:101-111 | the generated zones are exactly those in [round(lat/2)·2 − d, lat + d] × [round(lng/2)·2 − d, lng + d] on the 2-step lattice |
| Zones.PeripheralZonesMembers | data/dataImport.js:98-117 | the returned zones are exactly the generated ones, all with even coordinates |
| Zones.PeripheralZonesOrder | data/dataImport.js:112-114 | the zones are non-decreasing in distance, and zones of equal distance keep their generation order |
| Zones.OnRingEven | data/dataImport.js:101-102 | every generated zone has even coordinates |
| Zones.PeripheralZonesEven | data/dataImport.js:98-117 | every listed zone has even coordinates |
| Allocation.Visit | data/dataImport.js:71-75 | trying a list of zones keeps the grid's cell set; its order, conservation and success are stated by VisitNext, VisitLedger and VisitFound |
| Allocation.Ring | data/dataImport.js:71-93 | trying one ring keeps the grid's cell set; it is Visit over the ring's listed zones, so VisitLedger and VisitFound apply to it |
| Allocation.Rings | data/dataImport.js:71-93 | trying the rings keeps the grid's cell set; its order, conservation and success are stated by RingsNext, RingsLedger and RingsFound |
| Allocation.Search | data/dataImport.js:59-97 | assignToGrid keeps the grid's cell set; its conservation and warning are stated by SearchLedger and SearchWarned |
| Allocation.VisitNext | data/dataImport.js:71-75 | the first zone is tried. `_.find` stops there when it returns 0, and otherwise goes on with the rest from the new state |
| Allocation.RingsNext | data/dataImport.js:77-93 | a ring that found a zone ends the search, and otherwise the next ring starts from its state |
| Allocation.PileLedger | data/dataImport.js:137-140 | one assignToPile call is recorded by a ledger of at most one placement that balances people against capacity |
| Allocation.VisitLedger | data/dataImport.js:71-75 | over a ring's zones, the people placed equal the unassigned decrease. Every touched cell lost exactly its ledger amount, and untouched cells are unchanged |
| Allocation.RingsLedger | data/dataImport.js:71-93 | the same conservation over all rings |
| Allocation.SearchLedger | data/dataImport.js:59-97 | over a whole assignToGrid, unassigned never increases and drops by exactly what the cells lost. Every cell loses only what the ledger says and never goes below 0 |
| Allocation.VisitFound | data/dataImport.js:71-75 | a zone list reports success exactly when nobody is left unassigned |
| Allocation.RingsFound | data/dataImport.js:71-93 | the rings report success exactly when nobody is left unassigned |
| Allocation.SearchWarned | data/dataImport.js:63-95 | a missing coordinate returns early with no change. The shortfall line is reached exactly when people are still left after all rings |
| Allocation.HomeSuffices | data/dataImport.js:66-70 | when the home cell can hold everyone, the village goes there alone and no warning is given |
| Normalize.Scalar | data/dataImport.js:277 | the scalar is non-negative for a positive raster total |
| Normalize.ScaleCells | data/dataImport.js:279-283 | rescaling keeps every cell and its occupants |
| Normalize.ScaleZero | data/dataImport.js:281 | zero capacity stays zero |
| Normalize.ScaleNonNegative | data/dataImport.js:281 | a non-negative capacity stays non-negative |
| Normalize.ScaleMonotonic | data/dataImport.js:281 | rescaling preserves the order of capacities |
| Normalize.ScaleCellsNonNegative | data/dataImport.js:277-283 | a grid of non-negative capacities stays non-negative |
| Normalize.ScaleRounding | data/dataImport.js:281 | a rescaled capacity is within one half of `emptyPop · scalar` |
| Normalize.ScaledTotal | data/dataImport.js:279-283 | over any enumeration of the grid, the rescaled capacities sum to the scalar times the old total, give or take one half per cell |
| Normalize.RoundedTotal | data/dataImport.js:278-283 | for any grid whose capacities are each within one half of `emptyPop · scalar`, the total over an enumeration is within one half per cell of the scalar times the old total |
| Normalize.ScaledTotalOf | data/dataImport.js:276-283 | a grid whose total is `t` is rescaled to within one half per cell of `scalar · t` |
| Normalize.RescaledTotal | data/dataImport.js:276-283 | a grid holding `nasaLoaded` people, rescaled by `(populationSum + 1E7) / nasaLoaded`, holds `populationSum + 1E7` give or take one half per cell |
| Normalize.RescaledRasterTotal | data/dataImport.js:276-283 | for a raster whose rows have distinct latitudes, the grid nasaGridify builds, once rescaled by `(populationSum + 1E7) / nasaLoaded`, holds `populationSum + 1E7` give or take one half per cell, over any enumeration of its cells |
| Countries.NoteCountryLookup | data/dataImport.js:43-45 | noting a country adds its code only when new, and never changes an existing name |
| Countries.FirstNameAppend | data/dataImport.js:43-45 | the first name seen for a code is kept when more rows follow |
| Countries.CountriesFirstWrite | data/dataImport.js:43-45 | after all rows, a code's name is its earlier name or else the name on its first row |
| Countries.WithOverrides | data/dataImport.js:338-341 | the four codes KN, KS, CG and CF get the fixed names, and every other name is unchanged |
| Countries.CountryTable.constructor | data/dataImport.js:8 | the table starts empty |
| Countries.CountryTable.Note | data/dataImport.js:43-45 | the table becomes NoteCountry of the old one |
| Countries.CountryTable.ApplyOverrides | data/dataImport.js:338-341 | the table becomes WithOverrides of the old one |
| StableSort.Insert | data/dataImport.js:268-271 | one insertion step is a permutation adding exactly one element |
| StableSort.SortBy | data/dataImport.js:268-271 | `_.sortBy` returns a permutation of its input |
| StableSort.SortBySorted | data/dataImport.js:268-271 | the result is non-decreasing in the key |
| StableSort.SortByStable | data/dataImport.js:268-271 | elements of equal key keep their relative order |
| StableSort.SortByMembers | data/dataImport.js:268-271 | the result has exactly the input's members |
| StableSort.SortByMap | data/dataImport.js:268-271 | sorting commutes with a map that preserves the key |
| StableSort.SortByDistinct | data/dataImport.js:268-271 | sorting a list without duplicates gives one without duplicates |
| Export.ExportEntries | data/dataImport.js:306-329 | every exported cell is an enumerated cell with occupants, carrying them sorted |
| Export.ExportComplete | data/dataImport.js:306-329 | every enumerated cell with occupants is exported |
| Export.OccupantsDescending | data/dataImport.js:313-316 | occupants come out in descending population |
| Export.OccupantOrder | data/dataImport.js:313-322 | the reordered occupants are a permutation of the cell's, descending, and equal populations keep their insertion order |
| Export.HolesPermutation | data/dataImport.js:304-309 | the holes total is the same for any reordering of the cells |
| Export.HolesIndependent | data/dataImport.js:304-309 | any two enumerations of the grid give the same holes total |
| Pipeline.Kept | data/dataImport.js:256-258 | exactly the rows whose population, latitude and longitude are not NaN to `isNaN` (a number, or text that `Number` reads, blank text included) survive |
| Pipeline.KeptAppend | data/dataImport.js:256-258 | the filter works row by row, so it keeps the order and the duplicates of the rows it keeps |
| Pipeline.KeptSingle | data/dataImport.js:256-258 | one row is kept exactly when it is usable |
| Pipeline.PlanOfBuilt | data/dataImport.js:26-46 | a village built from a row brings what the row says |
| Pipeline.BuiltPlans | data/dataImport.js:263-265 | the villages built one per row bring the rows' plans in order |
| Pipeline.CountriesStep | data/dataImport.js:263-265 | each new Village notes its row's country |
| Pipeline.SortedPlans | data/dataImport.js:268-271 | sorting the villages sorts their plans by population |
| Pipeline.AllocateAll | data/dataImport.js:288-291 | placing every village keeps the grid's cell set; the step and the shrinking of capacities are stated by AllocateStep and AllocateShrinks |
| Pipeline.AllocateStep | data/dataImport.js:288-291 | one more village is placed by Search from the grid the earlier ones left |
| Pipeline.Rescaled | data/dataImport.js:277-283 | rescaling keeps the grid's cell set; the total it reaches is stated by Normalize.ScaledTotal, and for the gridified raster by Normalize.RescaledRasterTotal |
| Pipeline.Allocated | data/dataImport.js:256-301 | filter, sort, rescale and placement keep the grid's cell set; what placement does to each cell is stated by AllocateShrinks |
| Pipeline.FilesStep | data/dataImport.js:300 | a village's file is overwritten with its details |
| Pipeline.FilesLastWrite | data/dataImport.js:293-300 | each id's file holds the details of the last village with that id |
| Pipeline.SearchShrinks | data/dataImport.js:59-97 | during a placement no capacity grows or turns negative, and a cell's occupants are only extended at the end |
| Pipeline.AllocateShrinks | data/dataImport.js:288-291 | the same holds over the placement of all villages |
| Pipeline.UnlocatedNoChange | data/dataImport.js:63-64 | a village with no coordinate leaves the grid as it is |
| Pipeline.BlankLatitudeKept | data/dataImport.js:256-258 | a row with a blank latitude passes the filter but is never placed |
| Pipeline.NaNIdsCollide | data/dataImport.js:53-57 | two rows of one country whose ids do not parse share the village id |
| DataImport.Importer.constructor | data/dataImport.js:7-9 | empty grid, empty countries, raster not loaded, nothing written |
| DataImport.Importer.NasaGridify | data/dataImport.js:362-386 | the grid becomes GridOf of the raster and `nasaLoaded` its total |
| DataImport.Importer.BuildVillages | data/dataImport.js:261-265 | one fresh village per kept row, unassigned equal to total, bringing the rows' plans, with countries noted in row order |
| DataImport.Importer.SortVillages | data/dataImport.js:267-271 | the villages are stably sorted by total, and `populationSum` is their total |
| DataImport.Importer.ScaleGrid | data/dataImport.js:279-283 | every capacity is rescaled |
| DataImport.Importer.PlaceAt | data/dataImport.js:288-301 | the next village is placed and its file written |
| DataImport.Importer.Place | data/dataImport.js:288-301 | one village is placed by assignToGrid and its file written |
| DataImport.Importer.Allocate | data/dataImport.js:288-301 | the grid becomes AllocateAll of the plans in order, and the files FilesOf |
| DataImport.Importer.ExportGrid | data/dataImport.js:304-333 | the export loop yields ExportOf and HolesOf over the enumeration |
| DataImport.Importer.SortedVillages | data/dataImport.js:256-271 | filter, build and sort yield the sorted plans and the population total |
| DataImport.Importer.PlaceAndExport | data/dataImport.js:288-358 | placement, export, overrides and `geo.json` in sequence |
| DataImport.Importer.Publish | data/dataImport.js:304-358 | the export, the overrides and `geo.json` holding the exported cells and the final country table |
| DataImport.Importer.SortAndFilterJP | data/dataImport.js:253-359 | the final grid, countries, files, `geo.json` and holes are the functions of the rows and the old state |
| DataImport.Importer.ParseJPData | data/dataImport.js:215-240 | the same, applied to the rows the line scan selects |
| DataImport.Importer.Run | data/dataImport.js:210-211 | nasaGridify followed by parseJPData |
| JsNumber.Round | data/dataImport.js:66 | `Math.round` rounds half up |
| JsNumber.Min | data/dataImport.js:137 | `Math.min` is the smaller argument |
| JsNumber.Max | data/dataImport.js:166 | `Math.max` is the larger argument |
| JsNumber.Trunc | data/dataImport.js:27 | `parseInt` of a number truncates toward zero |
| JsNumber.ToInt32 | app/main.js:380-384 | `>>`'s operand conversion keeps a value already in 32-bit range |
| JsNumber.ShiftRightIsFloorDivision | app/main.js:380-384 | for a non-negative 31-bit height and a count in [0, 32), `h >> s` is the floor of `h / 2^s` |
| JsNumber.IntToString | app/main.js:390 | `toString` starts with a digit or a minus sign |
| JsNumber.ParseIntOfIntToString | app/main.js:607 | `parseInt(n.toString()) == n` |
| JsNumber.IntToStringInjective | data/dataImport.js:50 | distinct integers print differently |
| JsNumber.TrimStart | data/dataImport.js:27-36 | the text left after skipping is a suffix of the input that does not start with white space |
| JsNumber.TrimStartSkipsSpace | data/dataImport.js:27-36 | every character skipped in front is white space |
| JsNumber.TrimEnd | data/dataImport.js:256-258 | the text left after dropping is a prefix of the input that does not end with white space |
| JsNumber.TrimEndDropsSpace | data/dataImport.js:256-258 | every character dropped at the end is white space |
| JsNumber.ParseFloatTrimmed | data/dataImport.js:29-36 | `parseFloat` of text is the longest literal after exactly its leading white space |
| JsNumber.NumberTrimmed | data/dataImport.js:256-258 | `Number` of text is the reading of the text after exactly its leading white space |
| JsNumber.DecimalLiteralExtends | data/dataImport.js:29-31 | `parseFloat` reads the longest literal: text after a complete literal that cannot continue it leaves the value unchanged |
| JsNumber.ParseFloatAgreesWithNumber | data/dataImport.js:29-36 | whatever `Number` reads from non-blank text, `parseFloat` reads with the same value |
| JsNumber.ParseFloatOfNatToString | data/dataImport.js:29-31 | `parseFloat` reads a decimal numeral as its value, whatever non-numeric text follows |
| JsNumber.NumberOfNatToString | data/dataImport.js:256-258 | `Number` reads a decimal numeral as its value, so `isNaN` is false for it |
| JsNumber.ParseFloatSkipsSpace | data/dataImport.js:29-36 | a white-space character in front does not change `parseFloat` |
| JsNumber.NumberSkipsSpace | data/dataImport.js:256-258 | a white-space character in front does not change `Number`, so not `isNaN` either |
| Piles.BandOf | app/main.js:59-69 | a group's bar is red for jps < 2, orange for < 3, yellow for < 4, spring for < 5, green otherwise |
| Piles.CalcHeights | app/main.js:42-94 | the for-in loop yields HeightsOf the groups, and an unrecognised format gives all zeros |
| Piles.JpsPartition | app/main.js:54-72 | in the JPS format `r+o+y+s+g` equals the total population |
| Piles.JpsSum | app/main.js:92 | `sum` leaves out the orange and spring bars |
| Piles.BandTotalPermutation | app/main.js:55-57 | the bars do not depend on the enumeration order of the groups |
| Piles.ProfessNoOrangeSpring | app/main.js:73-91 | the PROFESS format never fills orange or spring |
| Piles.ProfessYellowFloor | app/main.js:78-84 | in PROFESS the yellow bar holds at least the population with jps in [2, 3), since the `max` term is ≥ 0 |
| Bars.ScaledIsDivision | app/main.js:380-384 | each scaled height is the floor of the height over 2^heightScale, and `sum` is untouched |
| Bars.PileIdOfBarId | app/main.js:607 | `parseInt(id.split(' ', 2)[1])` of a bar id `"<c> <x>"` gives back `x` |
| Bars.BarIdInjective | app/main.js:390-466 | distinct series or piles give distinct ids |
| Bars.PileBarsShape | app/main.js:387-481 | a pile's bars carry its pile number and position, one series letter each, with length equal to that scaled height, and there are at most five |
| Bars.PileBarsPresent | app/main.js:388-464 | the bar of a series exists exactly when its height exceeds 1 |
| Bars.MaybeBarWithin | app/main.js:388-404 | a bar's centre altitude puts it between its base and base plus length |
| Bars.PileBarsStack | app/main.js:392-469 | g, s, y, o, r are stacked bottom to top without overlap, within [0, total] |
| Bars.PileIdsUnique | app/main.js:387-481 | the bars of one pile have distinct ids |
| Bars.LoadBarsMembers | app/main.js:365-481 | every created bar's id parses to the index of the point it stands on |
| Bars.PointBarsIds | app/main.js:365-481 | the bars of point `x` parse back to `x` |
| Bars.LoadIdsUnique | app/main.js:365-481 | all bars of a load have distinct ids |
| GlobeDataSource.SetLoadingValid | app/main.js:493-498 | `_setLoading` keeps the events alternating, is idempotent, and raises an event exactly when the flag changes |
| GlobeDataSource.LoadRaisesPair | app/main.js:346-489 | a load when not loading raises exactly `true` then `false` |
| GlobeDataSource.ShowOnly | app/main.js:242-254 | the setter keeps the collection's size |
| GlobeDataSource.ShowOnlyMeaning | app/main.js:242-254 | afterwards `show == (seriesName == value)` for every entity, with size, order and all else unchanged |
| GlobeDataSource.ShowOnlyLastWins | app/main.js:242-254 | setting two series in a row is the same as setting the second |
| GlobeDataSource.ShiftBy31 | app/main.js:380-384 | a shift by -1 is a shift by 31 and clears any 31-bit height |
| GlobeDataSource.HeightScaleGuardInverted | app/main.js:266-268 | as written the guard refuses the default 2 and accepts -1, which draws no bar |
| GlobeDataSource.HeightScaleGuardIntended | app/main.js:266-268 | with the guard its message describes, the default is accepted and every accepted scale below 32 floor-divides the green and red heights by 2^value ≥ 2 |
| GlobeDataSource.PilesAfterStep | app/main.js:371 | each iteration sets `piles[x]` |
| GlobeDataSource.PilesAfterContents | app/main.js:371 | after a load `piles[x]` holds the groups of point `x` for every index, and other entries stay |
| GlobeDataSource.SelectMemoizes | app/main.js:609-624 | a selection caches its pile's entry without touching others, and a later selection of the same pile returns it unchanged |
| GlobeDataSource.SelectAllKeeps | app/main.js:609-624 | after any run of selections the cache holds the old entries unchanged plus one per selected pile |
| GlobeDataSource.SelectAllFirst | app/main.js:609-624 | a pile's cached entity is the one built at its first selection |
| GlobeDataSource.LoadedBarSelectable | app/main.js:607-624 | selecting a bar of the last load never throws, and a new entry sits under the bar |
| GlobeDataSource.Scene.constructor | app/main.js:602-604 | no piles, no described entities |
| GlobeDataSource.Scene.HandleSelection | app/main.js:606-625 | the cache and the answer are those of Select on the old state, and the piles are unchanged |
| GlobeDataSource.DataSource.constructor | app/main.js:131-145 | not loading, no entities, no series, height scale 2 |
| GlobeDataSource.DataSource.SetLoading | app/main.js:493-498 | the flag and events become SetLoadingOf, and nothing else changes |
| GlobeDataSource.DataSource.SetSeriesToDisplay | app/main.js:242-254 | `_seriesToDisplay` becomes the value and the entities become ShowOnly of the old ones |
| GlobeDataSource.DataSource.SetHeightScaleAsWritten | app/main.js:265-270 | throws exactly for positive values, and otherwise stores the value; the entities, loading state, series names, shown series and changed count stay as they were |
| GlobeDataSource.DataSource.SetHeightScale | app/main.js:265-270 | the corrected setter throws exactly for values ≤ 0, so a stored scale is positive; the entities, loading state, series names, shown series and changed count stay as they were |
| GlobeDataSource.DataSource.AddBars | app/main.js:387-481 | one point's bars are appended in the order g, s, y, o, r |
| GlobeDataSource.DataSource.Load | app/main.js:338-490 | raises loading true then false and the changed event once, clears the series, and replaces the entities by LoadBars of the data at the current scale. It also sets every `piles[x]` |

## Left out

- File and network I/O: the download and freshness check, the reads of both CSV files, and the writes of `v/<id>.json` and `geo.json`. The written files are the fields `files` and `geo` of `DataImport.Importer`.
- `csv-parse` is not modelled. `DataImport.Importer.ParseJPData` takes the row parser as a parameter, and a row is a record of numeric or text fields.
- Villages.IsNaN: `Number` also reads `Infinity` and `0x`, `0b` and `0o` literals; the model reads decimal literals only, so such text counts as NaN here.
- Villages.ParseFloat: `parseFloat` also reads `Infinity`; the model reads decimal literals only and treats that text as NaN. A number field is taken as its own value without the round trip through `toString`.
- JsNumber.ParseInt: `parseInt` without a radix reads text starting `0x` as hexadecimal; the model reads only decimal digits, so such text gives 0.
- Villages.ParseIntField: `parseInt` of a number field goes through `toString`, which writes 1e21 and 5e-7 in exponent form so that `parseInt` gives 1 and 5; the model truncates the number toward zero.
- `parseInt` of a non-numeric raster value: raster values are integers, and the cell's capacity is that integer.
- The `GridPoint` class (dead code) and `data/index.php` are not part of this model.
- `console.log` diagnostics: only the shortfall warning is kept, as the `warned` flag of `AssignToGrid`.
- The busy-wait `while (!nasaLoaded) {}`. It is a precondition instead: the raster has been loaded and its total is non-zero. With a total of 0 the loop never ends.
- Export.OccupantOrder: a JavaScript object enumerates its array-index keys (such as `"12345"`) first, in ascending numeric order, and its other keys afterwards in insertion order. The model keeps a cell's occupants in placement order, so it assumes that no village id is an array index. A village id is the country code followed by the people id, so the assumption holds whenever the country code holds a letter. With an empty or all-digit `ROG3`, ties would follow the key order instead.
- Export.OccupantsDescending: under the same assumption, the written `v` object keeps the sorted order. For village ids that are array indices, JavaScript would write them first in ascending id order, not in descending population.
- Raster.GridHoldsRasterSum and Raster.RasterSumAnyOrder require that no two raster rows share a latitude and that no longitude column appears twice in one row. A row is a parsed CSV record, so its columns are distinct. A repeated latitude breaks the total (`Raster.RepeatedLatitude`).
- Normalize.RescaledRasterTotal: the same requirement on the raster, for the same reason.
- The key order of JavaScript objects. Wherever the source enumerates the grid with `_.each`, the model takes that order as a parameter (`order`). The holes total is proved independent of it, but the exported list follows it.
- Floating point. Coordinates, percentages, the normalisation scalar, `Math.hypot` (sorted by squared distance, which orders identically) and bar altitudes are exact reals. Nothing is claimed about IEEE rounding.
- The grid keys are the integer pairs that the source's number-to-string keys denote.
- A missing grid cell makes the source throw (`grid[lat][lng]` of an absent key). The model requires every even cell with latitude in [-58, 82] and longitude in [-180, 180] to exist (`PopulationGrid.Complete`).
- The longitude loops leave both -180 and 180 unchanged. The model keeps the closed range [-180, 180] rather than a half-open one.
- Cesium and the DOM are not modelled:
  - `loadUrl` and its promises;
  - the viewer and imagery setup;
  - `putDescription`;
  - positions on the ellipsoid (only latitude, longitude and altitude are kept), colours, `widthScale` and the radii;
  - `suspendEvents`/`resumeEvents`;
  - the event objects themselves (the loading event is a list of raised values, and the changed event is a counter).
- `parseInt(geo.lat)` and `parseInt(geo.lng)` in `load`: a loaded point's coordinates are integers.
- Entities are values. The identity of a Cesium entity object and of an entry of `describedEntities` is not modelled. The selection's position is the one the bar was created with, not one read back from the ellipsoid.
- Piles.CalcHeights: in the PROFESS format, JavaScript would multiply `adh` and `evn` as they are stored. The exporter stores them as head counts, not fractions, so the bars are not meaningful. The model computes the source's arithmetic on integers and claims no meaning for it.
- The front end reads `geo.peoples` from each point of an array. The exporter writes `{grid, ctry}` with occupants under `v`. The two formats are modelled separately, each as its code reads or writes it.
- A NaN `jps` is written to JSON as `null`. `Piles.JpsOf` compares it as 0, so such a group counts towards the red bar.

## Findings

| source | as written | input that shows it | evidently intended | confidence | as-written member | corrected member |
|---|---|---|---|---|---|---|
| app/main.js:266-268 | the `heightScale` setter throws when `value > 0`, although its message says the value must be greater than 0 | setting the constructor's own default 2 throws; setting -1 is accepted and `>>` shifts every height by 31 places, so no bar is drawn | throw when `value <= 0` | not executed | GlobeDataSource.HeightScaleGuardInverted | GlobeDataSource.DataSource.SetHeightScale |

Other behaviour the model makes explicit:
- Two rows of one country whose ids do not parse share the id `<code>NaN` (`Pipeline.NaNIdsCollide`). The second is then never recorded in a cell that already holds the first, although it uses up that cell's capacity.
- A blank latitude is not NaN to `isNaN`, so the row passes the filter, but `parseFloat` gives NaN and the village is never placed (`Pipeline.BlankLatitudeKept`).
- A latitude repeated in the raster replaces the earlier row's cells, yet the raster total counts both rows (`Raster.RepeatedLatitude`).
