/**
 * `Pile.calcHeights` of the globe front end: the people groups of one grid
 * point are bucketed into five coloured bars.  In the Joshua Project Status
 * format a group's whole population goes to one bar chosen by its `jps`
 * value; in the professed-faith format it is split by the evangelical and
 * adherent shares and then counted once more by `jps`.
 */
module Piles {
  import opened Wrappers
  import opened JsNumber
  import opened PopulationGrid
  import opened StableSort

  /** `Pile.heightFormat.JPS`. */
  const JPS: int := 1
  /** `Pile.heightFormat.PROFESS`. */
  const PROFESS: int := 2

  /** The `out` record of calcHeights. */
  datatype Heights = Heights(r: int, o: int, y: int, s: int, g: int, sum: int)

  /** The five bars, reached, orange, yellow, spring green and green, in `out`'s field order. */
  datatype Band = Red | Orange | Yellow | Spring | Green

  /**
   * `people.jps` as the browser compares it.  A status that was NaN at
   * import time is written to JSON as `null`, and `null < 2` holds in
   * JavaScript because `null` compares as 0.
   */
  function JpsOf(p: Occupant): real
  {
    p.jps.GetOr(0.0)
  }

  /** The bar a group's population goes to in the JPS format. */
  function BandOf(p: Occupant): (b: Band)
    ensures b == Red <==> JpsOf(p) < 2.0
    ensures b == Orange <==> 2.0 <= JpsOf(p) < 3.0
    ensures b == Yellow <==> 3.0 <= JpsOf(p) < 4.0
    ensures b == Spring <==> 4.0 <= JpsOf(p) < 5.0
    ensures b == Green <==> 5.0 <= JpsOf(p)
  {
    if JpsOf(p) < 2.0 then Red
    else if JpsOf(p) < 3.0 then Orange
    else if JpsOf(p) < 4.0 then Yellow
    else if JpsOf(p) < 5.0 then Spring
    else Green
  }

  /** The population of the groups of `ps` whose JPS bar is `b`. */
  function BandTotal(ps: seq<Occupant>, b: Band): int
  {
    if ps == [] then 0
    else BandTotal(ps[..|ps| - 1], b) + (if BandOf(ps[|ps| - 1]) == b then ps[|ps| - 1].pop else 0)
  }

  /** The population of all groups of `ps`. */
  function TotalPop(ps: seq<Occupant>): int
  {
    if ps == [] then 0 else TotalPop(ps[..|ps| - 1]) + ps[|ps| - 1].pop
  }

  /** One group's contribution in the PROFESS format, added to `h`. */
  function ProfessStep(h: Heights, p: Occupant): Heights
  {
    var h1 := h.(g := h.g + p.evn * p.pop,
                 y := h.y + Max((p.adh - p.evn) * p.pop, 0),
                 r := h.r + (1 - p.adh) * p.pop);
    if JpsOf(p) < 2.0 then h1.(r := h1.r + p.pop)
    else if JpsOf(p) < 3.0 then h1.(y := h1.y + p.pop)
    else h1.(g := h1.g + p.pop)
  }

  /** The `out` record after the PROFESS loop over `ps`, before `sum` is set. */
  function ProfessTally(ps: seq<Occupant>): Heights
  {
    if ps == [] then Heights(0, 0, 0, 0, 0, 0) else ProfessStep(ProfessTally(ps[..|ps| - 1]), ps[|ps| - 1])
  }

  /** The record calcHeights returns for the groups `ps` in `format`. */
  function HeightsOf(ps: seq<Occupant>, format: int): Heights
  {
    var h :=
      if format == JPS then
        Heights(BandTotal(ps, Red), BandTotal(ps, Orange), BandTotal(ps, Yellow),
                BandTotal(ps, Spring), BandTotal(ps, Green), 0)
      else if format == PROFESS then ProfessTally(ps)
      else Heights(0, 0, 0, 0, 0, 0);
    h.(sum := h.r + h.y + h.g)
  }

  lemma BandTotalStep(ps: seq<Occupant>, i: int, b: Band)
    requires 0 <= i < |ps|
    ensures BandTotal(ps[..i + 1], b) == BandTotal(ps[..i], b) + (if BandOf(ps[i]) == b then ps[i].pop else 0)
  {
    assert ps[..i + 1][..i] == ps[..i];
  }

  lemma ProfessTallyStep(ps: seq<Occupant>, i: int)
    requires 0 <= i < |ps|
    ensures ProfessTally(ps[..i + 1]) == ProfessStep(ProfessTally(ps[..i]), ps[i])
  {
    assert ps[..i + 1][..i] == ps[..i];
  }

  /**
   * `Pile.prototype.calcHeights`: one pass over the groups for the chosen
   * format, accumulating into `out`; an unknown format leaves every bar at 0.
   */
  method CalcHeights(peoples: seq<Occupant>, format: int) returns (out: Heights)
    ensures out == HeightsOf(peoples, format)
    ensures format != JPS && format != PROFESS ==> out == Heights(0, 0, 0, 0, 0, 0)
  {
    out := Heights(0, 0, 0, 0, 0, 0);
    if format == JPS {
      for i := 0 to |peoples|
        invariant out.r == BandTotal(peoples[..i], Red) && out.o == BandTotal(peoples[..i], Orange)
        invariant out.y == BandTotal(peoples[..i], Yellow) && out.s == BandTotal(peoples[..i], Spring)
        invariant out.g == BandTotal(peoples[..i], Green) && out.sum == 0
      {
        var people := peoples[i];
        BandTotalStep(peoples, i, Red);
        BandTotalStep(peoples, i, Orange);
        BandTotalStep(peoples, i, Yellow);
        BandTotalStep(peoples, i, Spring);
        BandTotalStep(peoples, i, Green);
        if JpsOf(people) < 2.0 {
          out := out.(r := out.r + people.pop);
        } else if JpsOf(people) < 3.0 {
          out := out.(o := out.o + people.pop);
        } else if JpsOf(people) < 4.0 {
          out := out.(y := out.y + people.pop);
        } else if JpsOf(people) < 5.0 {
          out := out.(s := out.s + people.pop);
        } else {
          out := out.(g := out.g + people.pop);
        }
      }
      assert peoples[..|peoples|] == peoples;
    } else if format == PROFESS {
      for i := 0 to |peoples|
        invariant out == ProfessTally(peoples[..i])
      {
        var people := peoples[i];
        ProfessTallyStep(peoples, i);
        out := out.(g := out.g + people.evn * people.pop);
        out := out.(y := out.y + Max((people.adh - people.evn) * people.pop, 0));
        out := out.(r := out.r + (1 - people.adh) * people.pop);
        if JpsOf(people) < 2.0 {
          out := out.(r := out.r + people.pop);
        } else if JpsOf(people) < 3.0 {
          out := out.(y := out.y + people.pop);
        } else {
          out := out.(g := out.g + people.pop);
        }
      }
      assert peoples[..|peoples|] == peoples;
    }
    out := out.(sum := out.r + out.y + out.g);
  }

  // ----- what the record means -----

  /** In the JPS format every group's population lands in exactly one of the five bars. */
  lemma {:induction false} JpsPartition(ps: seq<Occupant>)
    ensures var h := HeightsOf(ps, JPS);
            h.r + h.o + h.y + h.s + h.g == TotalPop(ps)
  {
    if ps != [] {
      JpsPartition(ps[..|ps| - 1]);
    }
  }

  /** In the JPS format `sum` is the total population less the orange and spring-green bars. */
  lemma JpsSum(ps: seq<Occupant>)
    ensures var h := HeightsOf(ps, JPS);
            h.sum == TotalPop(ps) - h.o - h.s
  {
    JpsPartition(ps);
  }

  lemma {:induction false} BandTotalAppend(a: seq<Occupant>, b: seq<Occupant>, band: Band)
    ensures BandTotal(a + b, band) == BandTotal(a, band) + BandTotal(b, band)
    decreases |b|
  {
    if b == [] {
      assert a + b == a;
    } else {
      assert (a + b)[..|a + b| - 1] == a + b[..|b| - 1];
      BandTotalAppend(a, b[..|b| - 1], band);
    }
  }

  /**
   * The bars do not depend on the order in which `for-in` enumerates the
   * groups: any reordering of the groups gives the same JPS totals.
   */
  lemma {:induction false} BandTotalPermutation(a: seq<Occupant>, b: seq<Occupant>, band: Band)
    requires multiset(a) == multiset(b)
    ensures BandTotal(a, band) == BandTotal(b, band)
    decreases |a|
  {
    if a == [] {
      assert |b| == |multiset(b)| == 0;
    } else {
      var x, init := a[|a| - 1], a[..|a| - 1];
      assert a == init + [x];
      assert x in multiset(b);
      var j :| 0 <= j < |b| && b[j] == x;
      var pre, post := b[..j], b[j + 1..];
      assert multiset(a) == multiset(init) + multiset{x};
      RemoveAt(init, b, j);
      BandTotalPermutation(init, pre + post, band);
      BandTotalAppend(pre, post, band);
      BandTotalAppend(pre, [x], band);
      BandTotalAppend(pre + [x], post, band);
      assert BandTotal([x], band) == BandTotal(init + [x], band) - BandTotal(init, band) by {
        BandTotalAppend(init, [x], band);
      }
    }
  }

  /** The PROFESS format never fills the orange or the spring-green bar. */
  lemma {:induction false} ProfessNoOrangeSpring(ps: seq<Occupant>)
    ensures HeightsOf(ps, PROFESS).o == 0 && HeightsOf(ps, PROFESS).s == 0
  {
    if ps != [] {
      ProfessNoOrangeSpring(ps[..|ps| - 1]);
    }
  }

  /**
   * In the PROFESS format the yellow bar holds at least the population with
   * a status in [2, 3), because the clamped `max` term never subtracts.
   */
  lemma {:induction false} ProfessYellowFloor(ps: seq<Occupant>)
    ensures HeightsOf(ps, PROFESS).y >= BandTotal(ps, Orange)
  {
    if ps != [] {
      ProfessYellowFloor(ps[..|ps| - 1]);
    }
  }
}
