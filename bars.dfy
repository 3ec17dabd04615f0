/**
 * The cylinders `load` draws for the globe: the five heights of a grid point
 * are shifted right by the height scale, every height above 1 becomes a bar
 * stacked on the ones below it, and each bar is named `"<series> <index>"`
 * so that a click can be traced back to its grid point.
 */
module Bars {
  import opened Wrappers
  import opened JsNumber
  import opened PopulationGrid
  import opened Piles

  /** One element of the `geo.json` array the front end reads: `{lat, lng, peoples}`. */
  datatype GeoPoint = GeoPoint(lat: int, lng: int, peoples: seq<Occupant>)

  /**
   * One cylinder entity: its id, its series, the grid point it stands on,
   * the altitude of its centre (what `Cartesian3.fromDegrees` is given),
   * its length, and its `show` flag.
   */
  datatype Bar = Bar(id: string, seriesName: string, lat: int, lng: int, altitude: real, length: int, show: bool)

  /** The five `heights.X = heights.X >> heightScale` lines; `sum` is left as it is. */
  function Scaled(h: Heights, scale: int): Heights
  {
    h.(g := ShiftRight(h.g, scale), s := ShiftRight(h.s, scale), y := ShiftRight(h.y, scale),
       o := ShiftRight(h.o, scale), r := ShiftRight(h.r, scale))
  }

  /** With a shift in 0..31, a height that fits in 31 bits is divided by `2^scale`, rounding down. */
  lemma ScaledIsDivision(h: Heights, scale: int)
    requires 0 <= scale < 32
    requires 0 <= h.g < TWO_31 && 0 <= h.s < TWO_31 && 0 <= h.y < TWO_31
    requires 0 <= h.o < TWO_31 && 0 <= h.r < TWO_31
    ensures var t, p := Scaled(h, scale), Pow2(scale);
            && p * t.g <= h.g < p * (t.g + 1) && p * t.s <= h.s < p * (t.s + 1)
            && p * t.y <= h.y < p * (t.y + 1) && p * t.o <= h.o < p * (t.o + 1)
            && p * t.r <= h.r < p * (t.r + 1) && t.sum == h.sum
  {
    ShiftRightIsFloorDivision(h.g, scale);
    ShiftRightIsFloorDivision(h.s, scale);
    ShiftRightIsFloorDivision(h.y, scale);
    ShiftRightIsFloorDivision(h.o, scale);
    ShiftRightIsFloorDivision(h.r, scale);
  }

  /** `c + " " + x.toString()`. */
  function BarId(c: char, x: nat): string
  {
    [c, ' '] + NatToString(x)
  }

  /** The series letters, bottom to top. */
  const Series: seq<char> := ['g', 's', 'y', 'o', 'r']

  /** One `if (heights.X > 1)` block: a bar of `length` standing on `below`. */
  function MaybeBar(c: char, x: nat, lat: int, lng: int, below: int, length: int): seq<Bar>
  {
    if length > 1 then [Bar(BarId(c, x), [c], lat, lng, below as real + length as real / 2.0, length, true)] else []
  }

  /** The bars of grid point `x` for the already-scaled heights `h`, from the ground up. */
  function PileBars(x: nat, lat: int, lng: int, h: Heights): seq<Bar>
  {
    MaybeBar('g', x, lat, lng, 0, h.g)
    + MaybeBar('s', x, lat, lng, h.g, h.s)
    + MaybeBar('y', x, lat, lng, h.g + h.s, h.y)
    + MaybeBar('o', x, lat, lng, h.g + h.s + h.y, h.o)
    + MaybeBar('r', x, lat, lng, h.g + h.s + h.y + h.o, h.r)
  }

  /** The bars of grid point `x` of `data`, as `load` computes them. */
  function PointBars(data: seq<GeoPoint>, x: nat, scale: int): seq<Bar>
    requires x < |data|
  {
    PileBars(x, data[x].lat, data[x].lng, Scaled(HeightsOf(data[x].peoples, JPS), scale))
  }

  /** The entity collection after the `load` loop over `data`. */
  function LoadBars(data: seq<GeoPoint>, scale: int): seq<Bar>
  {
    if data == [] then [] else LoadBars(data[..|data| - 1], scale) + PointBars(data, |data| - 1, scale)
  }

  lemma LoadBarsStep(data: seq<GeoPoint>, x: nat, scale: int)
    requires x < |data|
    ensures LoadBars(data[..x + 1], scale) == LoadBars(data[..x], scale) + PointBars(data, x, scale)
  {
    assert data[..x + 1][..x] == data[..x];
  }

  // ----- the bar ids -----

  /** The index of the first space of `s`, or `|s|` when there is none. */
  function SpaceIndex(s: string): (k: nat)
    ensures k <= |s| && (k < |s| ==> s[k] == ' ')
    ensures forall i :: 0 <= i < k ==> s[i] != ' '
  {
    if s == [] || s[0] == ' ' then 0 else 1 + SpaceIndex(s[1..])
  }

  /** `s.split(' ', 2)[1]`: the text between the first and the second space, if there is a first. */
  function SecondField(s: string): Option<string>
  {
    var k := SpaceIndex(s);
    if k == |s| then None
    else
      var rest := s[k + 1..];
      Some(rest[..SpaceIndex(rest)])
  }

  /** `parseInt(id.split(' ', 2)[1])` of handleSelection; `None` stands for NaN. */
  function PileIdOf(id: string): Option<int>
  {
    match SecondField(id)
    case None => None
    case Some(t) => ParseInt(t)
  }

  /** handleSelection reads back the grid point index that `load` wrote into a bar's id. */
  lemma PileIdOfBarId(c: char, x: nat)
    requires c != ' '
    ensures PileIdOf(BarId(c, x)) == Some(x)
  {
    var id := BarId(c, x);
    var digits := NatToString(x);
    assert id[0] == c && id[1] == ' ';
    assert SpaceIndex(id) == 1;
    assert id[2..] == digits;
    DigitsHaveNoSpace(digits);
    assert digits[..|digits|] == digits;
    ParseIntOfIntToString(x);
  }

  lemma {:induction false} DigitsHaveNoSpace(s: string)
    requires AllDigits(s)
    ensures SpaceIndex(s) == |s|
  {
    if s != [] {
      assert IsDigit(s[0]);
      assert AllDigits(s[1..]) by {
        forall i | 0 <= i < |s[1..]| ensures IsDigit(s[1..][i]) { assert s[1..][i] == s[i + 1]; }
      }
      DigitsHaveNoSpace(s[1..]);
    }
  }

  /** Different series or different grid points give different ids. */
  lemma BarIdInjective(c1: char, x1: nat, c2: char, x2: nat)
    requires c1 != ' ' && c2 != ' ' && BarId(c1, x1) == BarId(c2, x2)
    ensures c1 == c2 && x1 == x2
  {
    assert BarId(c1, x1)[0] == c1;
    PileIdOfBarId(c1, x1);
    PileIdOfBarId(c2, x2);
  }

  // ----- what the bars of one grid point are -----

  /** The scaled height `load` draws for series `c`. */
  function HeightOf(h: Heights, c: char): int
  {
    if c == 'g' then h.g else if c == 's' then h.s else if c == 'y' then h.y
    else if c == 'o' then h.o else if c == 'r' then h.r else 0
  }

  /** A bar of `PileBars` is a drawn bar of one of the five series, named after it and the grid point. */
  predicate OfPile(b: Bar, x: nat, lat: int, lng: int)
  {
    && |b.seriesName| == 1 && b.seriesName[0] in Series
    && b.id == BarId(b.seriesName[0], x)
    && b.lat == lat && b.lng == lng && b.length > 1 && b.show
  }

  lemma PileBarsShape(x: nat, lat: int, lng: int, h: Heights)
    ensures forall b :: b in PileBars(x, lat, lng, h) ==>
              OfPile(b, x, lat, lng) && b.length == HeightOf(h, b.seriesName[0])
    ensures |PileBars(x, lat, lng, h)| <= 5
  {
  }

  /** The bar of series `c` is drawn exactly when its scaled height is above 1. */
  lemma PileBarsPresent(x: nat, lat: int, lng: int, h: Heights, c: char)
    requires c in Series
    ensures (exists b :: b in PileBars(x, lat, lng, h) && b.seriesName == [c]) <==> HeightOf(h, c) > 1
  {
    var bs := PileBars(x, lat, lng, h);
    PileBarsShape(x, lat, lng, h);
    if HeightOf(h, c) > 1 {
      var below := if c == 'g' then 0 else if c == 's' then h.g else if c == 'y' then h.g + h.s
                   else if c == 'o' then h.g + h.s + h.y else h.g + h.s + h.y + h.o;
      var b := MaybeBar(c, x, lat, lng, below, HeightOf(h, c))[0];
      assert b in bs;
    }
  }

  /** The lower end of a bar, from its centre and length. */
  function Bottom(b: Bar): real { b.altitude - b.length as real / 2.0 }

  /** The upper end of a bar. */
  function Top(b: Bar): real { b.altitude + b.length as real / 2.0 }

  /** Each bar of `bs` ends at or below where every later one starts. */
  predicate Stacked(bs: seq<Bar>)
  {
    forall i, j :: 0 <= i < j < |bs| ==> Top(bs[i]) <= Bottom(bs[j])
  }

  /** Every bar of `bs` lies between the altitudes `lo` and `hi`. */
  predicate Within(bs: seq<Bar>, lo: real, hi: real)
  {
    forall b :: b in bs ==> lo <= Bottom(b) && Top(b) <= hi
  }

  lemma MaybeBarWithin(c: char, x: nat, lat: int, lng: int, below: int, length: int)
    ensures Stacked(MaybeBar(c, x, lat, lng, below, length))
    ensures Within(MaybeBar(c, x, lat, lng, below, length), below as real, (below + length) as real)
  {
  }

  lemma StackAppend(a: seq<Bar>, b: seq<Bar>, lo: real, mid: real, hi: real)
    requires lo <= mid <= hi
    requires Stacked(a) && Stacked(b) && Within(a, lo, mid) && Within(b, mid, hi)
    ensures Stacked(a + b) && Within(a + b, lo, hi)
  {
    forall i, j | 0 <= i < j < |a + b| ensures Top((a + b)[i]) <= Bottom((a + b)[j]) {
      if j < |a| {
        assert (a + b)[i] == a[i] && (a + b)[j] == a[j];
      } else if i >= |a| {
        assert (a + b)[i] == b[i - |a|] && (a + b)[j] == b[j - |a|];
      } else {
        assert (a + b)[i] == a[i] && (a + b)[j] == b[j - |a|];
        assert a[i] in a && b[j - |a|] in b;
      }
    }
    forall u | u in a + b ensures lo <= Bottom(u) && Top(u) <= hi {
      assert u in a || u in b;
    }
  }

  /**
   * With non-negative heights the bars of one grid point do not overlap:
   * each one starts at or above the top of every bar drawn before it, and
   * together they reach no higher than the sum of the five heights.
   */
  lemma PileBarsStack(x: nat, lat: int, lng: int, h: Heights)
    requires h.g >= 0 && h.s >= 0 && h.y >= 0 && h.o >= 0 && h.r >= 0
    ensures Stacked(PileBars(x, lat, lng, h))
    ensures Within(PileBars(x, lat, lng, h), 0.0, (h.g + h.s + h.y + h.o + h.r) as real)
  {
    var g := MaybeBar('g', x, lat, lng, 0, h.g);
    var s := MaybeBar('s', x, lat, lng, h.g, h.s);
    var y := MaybeBar('y', x, lat, lng, h.g + h.s, h.y);
    var o := MaybeBar('o', x, lat, lng, h.g + h.s + h.y, h.o);
    var r := MaybeBar('r', x, lat, lng, h.g + h.s + h.y + h.o, h.r);
    assert PileBars(x, lat, lng, h) == g + s + y + o + r;
    MaybeBarWithin('g', x, lat, lng, 0, h.g);
    MaybeBarWithin('s', x, lat, lng, h.g, h.s);
    MaybeBarWithin('y', x, lat, lng, h.g + h.s, h.y);
    MaybeBarWithin('o', x, lat, lng, h.g + h.s + h.y, h.o);
    MaybeBarWithin('r', x, lat, lng, h.g + h.s + h.y + h.o, h.r);
    StackAppend(g, s, 0.0, h.g as real, (h.g + h.s) as real);
    StackAppend(g + s, y, 0.0, (h.g + h.s) as real, (h.g + h.s + h.y) as real);
    StackAppend(g + s + y, o, 0.0, (h.g + h.s + h.y) as real, (h.g + h.s + h.y + h.o) as real);
    StackAppend(g + s + y + o, r, 0.0, (h.g + h.s + h.y + h.o) as real, (h.g + h.s + h.y + h.o + h.r) as real);
  }

  // ----- what the bars of a load are -----

  /** No two entities of the collection share an id, so `entities.add` never meets a duplicate. */
  predicate UniqueIds(bs: seq<Bar>)
  {
    forall i, j :: 0 <= i < j < |bs| ==> bs[i].id != bs[j].id
  }

  lemma UniqueAppend(a: seq<Bar>, b: seq<Bar>)
    requires UniqueIds(a) && UniqueIds(b)
    requires forall u, v :: u in a && v in b ==> u.id != v.id
    ensures UniqueIds(a + b)
  {
    forall i, j | 0 <= i < j < |a + b| ensures (a + b)[i].id != (a + b)[j].id {
      if j < |a| {
        assert (a + b)[i] == a[i] && (a + b)[j] == a[j];
      } else if i >= |a| {
        assert (a + b)[i] == b[i - |a|] && (a + b)[j] == b[j - |a|];
      } else {
        assert (a + b)[i] == a[i] && (a + b)[j] == b[j - |a|];
        assert a[i] in a && b[j - |a|] in b;
      }
    }
  }

  /** Every id of `bs` starts with one of the letters `cs`. */
  predicate Lettered(bs: seq<Bar>, cs: set<char>)
  {
    forall b :: b in bs ==> |b.id| > 0 && b.id[0] in cs
  }

  lemma LetteredAppend(a: seq<Bar>, b: seq<Bar>, ca: set<char>, cb: set<char>)
    requires UniqueIds(a) && UniqueIds(b) && Lettered(a, ca) && Lettered(b, cb) && ca !! cb
    ensures UniqueIds(a + b) && Lettered(a + b, ca + cb)
  {
    forall u, v | u in a && v in b ensures u.id != v.id {
      assert u.id[0] in ca && v.id[0] in cb;
    }
    UniqueAppend(a, b);
  }

  lemma MaybeBarLettered(c: char, x: nat, lat: int, lng: int, below: int, length: int)
    ensures UniqueIds(MaybeBar(c, x, lat, lng, below, length))
    ensures Lettered(MaybeBar(c, x, lat, lng, below, length), {c})
  {
  }

  /** The bars of one grid point have different ids: one bar per series at most. */
  lemma PileIdsUnique(x: nat, lat: int, lng: int, h: Heights)
    ensures UniqueIds(PileBars(x, lat, lng, h))
  {
    var g := MaybeBar('g', x, lat, lng, 0, h.g);
    var s := MaybeBar('s', x, lat, lng, h.g, h.s);
    var y := MaybeBar('y', x, lat, lng, h.g + h.s, h.y);
    var o := MaybeBar('o', x, lat, lng, h.g + h.s + h.y, h.o);
    var r := MaybeBar('r', x, lat, lng, h.g + h.s + h.y + h.o, h.r);
    MaybeBarLettered('g', x, lat, lng, 0, h.g);
    MaybeBarLettered('s', x, lat, lng, h.g, h.s);
    MaybeBarLettered('y', x, lat, lng, h.g + h.s, h.y);
    MaybeBarLettered('o', x, lat, lng, h.g + h.s + h.y, h.o);
    MaybeBarLettered('r', x, lat, lng, h.g + h.s + h.y + h.o, h.r);
    LetteredAppend(g, s, {'g'}, {'s'});
    LetteredAppend(g + s, y, {'g', 's'}, {'y'});
    LetteredAppend(g + s + y, o, {'g', 's', 'y'}, {'o'});
    LetteredAppend(g + s + y + o, r, {'g', 's', 'y', 'o'}, {'r'});
    assert PileBars(x, lat, lng, h) == g + s + y + o + r;
  }

  /** Every bar of a load stands on one of the grid points, and its id names that point. */
  lemma {:induction false} LoadBarsMembers(data: seq<GeoPoint>, scale: int, b: Bar)
    requires b in LoadBars(data, scale)
    ensures var x := PileIdOf(b.id);
            x.Some? && 0 <= x.value < |data| && OfPile(b, x.value, data[x.value].lat, data[x.value].lng)
  {
    var n := |data| - 1;
    var init := data[..n];
    if b in LoadBars(init, scale) {
      LoadBarsMembers(init, scale, b);
      var x := PileIdOf(b.id).value;
      assert data[x] == init[x];
    } else {
      PileBarsShape(n, data[n].lat, data[n].lng, Scaled(HeightsOf(data[n].peoples, JPS), scale));
      assert OfPile(b, n, data[n].lat, data[n].lng);
      PileIdOfBarId(b.seriesName[0], n);
    }
  }

  /** The bars of grid point `x` carry `x` in their ids. */
  lemma PointBarsIds(data: seq<GeoPoint>, x: nat, scale: int, v: Bar)
    requires x < |data| && v in PointBars(data, x, scale)
    ensures PileIdOf(v.id) == Some(x)
  {
    PileBarsShape(x, data[x].lat, data[x].lng, Scaled(HeightsOf(data[x].peoples, JPS), scale));
    PileIdOfBarId(v.seriesName[0], x);
  }

  /** The bar ids of one load are all different. */
  lemma {:induction false} LoadIdsUnique(data: seq<GeoPoint>, scale: int)
    ensures UniqueIds(LoadBars(data, scale))
  {
    if data != [] {
      var n := |data| - 1;
      var init := data[..n];
      var a, p := LoadBars(init, scale), PointBars(data, n, scale);
      LoadIdsUnique(init, scale);
      PileIdsUnique(n, data[n].lat, data[n].lng, Scaled(HeightsOf(data[n].peoples, JPS), scale));
      assert LoadBars(data, scale) == a + p;
      forall u, v | u in a && v in p ensures u.id != v.id {
        LoadBarsMembers(init, scale, u);
        PointBarsIds(data, n, scale, v);
        assert PileIdOf(u.id) != PileIdOf(v.id);
      }
      UniqueAppend(a, p);
    }
  }
}
