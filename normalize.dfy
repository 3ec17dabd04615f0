/**
 * The rescaling step of sortAndFilterJP: every cell's capacity is multiplied
 * by `(S + 1E7) / R` and rounded, where `S` is the total population of the
 * people table and `R` the raster total, so that the grid holds (a little
 * more than) the people there are to place.
 */
module Normalize {
  import opened JsNumber
  import opened PopulationGrid
  import opened Export
  import opened Raster

  /** `populationMargin`. */
  const POPULATION_MARGIN: int := 10_000_000

  /** `(populationSum + populationMargin) / nasaLoaded`. */
  function Scalar(populationSum: int, nasaLoaded: int): (r: real)
    requires nasaLoaded != 0
    ensures nasaLoaded > 0 && populationSum + POPULATION_MARGIN >= 0 ==> r >= 0.0
  {
    (populationSum + POPULATION_MARGIN) as real / nasaLoaded as real
  }

  /** `Math.round(emptyPop * populationScalar)`. */
  function ScaleCapacity(cap: int, scalar: real): int
  {
    Round(cap as real * scalar)
  }

  /** The grid after the rescaling loop: the same cells and occupants, every capacity rescaled. */
  function ScaleCells(cells: Cells, scalar: real): (r: Cells)
    ensures r.Keys == cells.Keys
    ensures forall k :: k in r ==> r[k].villages == cells[k].villages
  {
    map k | k in cells :: Cell(ScaleCapacity(cells[k].emptyPop, scalar), cells[k].villages)
  }

  /** An empty cell stays empty. */
  lemma ScaleZero(scalar: real)
    ensures ScaleCapacity(0, scalar) == 0
  {
  }

  /** With a non-negative scalar a non-negative capacity stays non-negative. */
  lemma ScaleNonNegative(cap: int, scalar: real)
    requires cap >= 0 && scalar >= 0.0
    ensures ScaleCapacity(cap, scalar) >= 0
  {
    assert cap as real * scalar >= 0.0;
  }

  /** With a non-negative scalar rescaling keeps the order of capacities. */
  lemma ScaleMonotonic(a: int, b: int, scalar: real)
    requires a <= b && scalar >= 0.0
    ensures ScaleCapacity(a, scalar) <= ScaleCapacity(b, scalar)
  {
    assert b as real * scalar - a as real * scalar == (b - a) as real * scalar;
    assert (b - a) as real * scalar >= 0.0;
  }

  /** The rescaled grid keeps every capacity non-negative when the totals are non-negative. */
  lemma ScaleCellsNonNegative(cells: Cells, populationSum: int, nasaLoaded: int)
    requires nasaLoaded > 0 && populationSum >= 0
    requires forall k :: k in cells ==> cells[k].emptyPop >= 0
    ensures var r := ScaleCells(cells, Scalar(populationSum, nasaLoaded));
            forall k :: k in r ==> r[k].emptyPop >= 0
  {
    var s := Scalar(populationSum, nasaLoaded);
    forall k | k in cells
      ensures ScaleCapacity(cells[k].emptyPop, s) >= 0
    {
      ScaleNonNegative(cells[k].emptyPop, s);
    }
  }

  /** Rounding moves a rescaled capacity by at most one half. */
  lemma ScaleRounding(cap: int, scalar: real)
    ensures cap as real * scalar - 0.5 < ScaleCapacity(cap, scalar) as real <= cap as real * scalar + 0.5
  {
  }

  /** A total `t` lies within one half per cell of `e`, for `n` cells. */
  predicate Near(t: int, e: real, n: nat)
  {
    e - n as real / 2.0 <= t as real <= e + n as real / 2.0
  }

  /**
   * Over any enumeration of the grid the rescaled capacities add up to the
   * scalar times the old total, give or take one half per cell.
   */
  lemma ScaledTotal(cells: Cells, order: seq<Key>, scalar: real)
    requires Listed(cells, order)
    ensures Listed(ScaleCells(cells, scalar), order)
    ensures Near(HolesOf(ScaleCells(cells, scalar), order), scalar * HolesOf(cells, order) as real, |order|)
  {
    var r := ScaleCells(cells, scalar);
    forall k | k in order
      ensures cells[k].emptyPop as real * scalar - 0.5 < r[k].emptyPop as real <= cells[k].emptyPop as real * scalar + 0.5
    {
      ScaleRounding(cells[k].emptyPop, scalar);
    }
    RoundedTotal(cells, r, order, scalar);
  }

  /** The induction of ScaledTotal, for any grid whose capacities are rounded shares. */
  lemma {:induction false} RoundedTotal(cells: Cells, r: Cells, order: seq<Key>, scalar: real)
    requires Listed(cells, order) && Listed(r, order)
    requires forall k :: k in order ==>
               cells[k].emptyPop as real * scalar - 0.5 < r[k].emptyPop as real <= cells[k].emptyPop as real * scalar + 0.5
    ensures Near(HolesOf(r, order), scalar * HolesOf(cells, order) as real, |order|)
  {
    if order != [] {
      var init := order[..|order| - 1];
      var k := order[|order| - 1];
      forall j | j in init ensures j in order {
        var i :| 0 <= i < |init| && init[i] == j;
        assert order[i] == j;
      }
      RoundedTotal(cells, r, init, scalar);
      NearStep(HolesOf(r, init), HolesOf(cells, init), r[k].emptyPop, cells[k].emptyPop, scalar, |init|);
    }
  }

  /** One more cell: its rounded capacity is within one half of its exact share. */
  lemma NearStep(t: int, h: int, c: int, cap: int, scalar: real, n: nat)
    requires Near(t, scalar * h as real, n)
    requires cap as real * scalar - 0.5 < c as real <= cap as real * scalar + 0.5
    ensures Near(t + c, scalar * (h + cap) as real, n + 1)
  {
    assert scalar * (h + cap) as real == scalar * h as real + cap as real * scalar;
  }

  /**
   * nasaGridify followed by the rescaling: for a raster whose rows are
   * records with distinct latitudes, the rescaled grid holds the table's
   * population plus the margin, give or take one half per cell, over any
   * enumeration of its cells.
   */
  lemma RescaledRasterTotal(rows: seq<RasterRow>, order: seq<Key>, populationSum: int)
    requires DistinctRows(rows) && Enumerates(GridOf(map[], rows), order) && RasterSum(rows) != 0
    ensures var g := ScaleCells(GridOf(map[], rows), Scalar(populationSum, RasterSum(rows)));
            Listed(g, order) && Near(HolesOf(g, order), (populationSum + POPULATION_MARGIN) as real, |order|)
  {
    RasterSumAnyOrder(rows, order);
    RescaledTotal(GridOf(map[], rows), order, populationSum, RasterSum(rows));
  }

  /** A grid holding `nasaLoaded` is rescaled to the table's population plus the margin. */
  lemma RescaledTotal(cells: Cells, order: seq<Key>, populationSum: int, nasaLoaded: int)
    requires Listed(cells, order) && HolesOf(cells, order) == nasaLoaded && nasaLoaded != 0
    ensures var g := ScaleCells(cells, Scalar(populationSum, nasaLoaded));
            Listed(g, order) && Near(HolesOf(g, order), (populationSum + POPULATION_MARGIN) as real, |order|)
  {
    ScalarUndone(populationSum, nasaLoaded);
    ScaledTotalOf(cells, order, Scalar(populationSum, nasaLoaded), nasaLoaded, (populationSum + POPULATION_MARGIN) as real);
  }

  /** ScaledTotal for a grid whose total is known. */
  lemma ScaledTotalOf(cells: Cells, order: seq<Key>, scalar: real, total: int, e: real)
    requires Listed(cells, order) && HolesOf(cells, order) == total && scalar * total as real == e
    ensures Listed(ScaleCells(cells, scalar), order)
    ensures Near(HolesOf(ScaleCells(cells, scalar), order), e, |order|)
  {
    ScaledTotal(cells, order, scalar);
  }

  lemma ScalarUndone(populationSum: int, nasaLoaded: int)
    requires nasaLoaded != 0
    ensures Scalar(populationSum, nasaLoaded) * nasaLoaded as real == (populationSum + POPULATION_MARGIN) as real
  {
  }
}
