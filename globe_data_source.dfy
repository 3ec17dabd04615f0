/**
 * The state of the globe front end: the `WebGLGlobeDataSource` object, whose
 * setters and `load` rewrite its entity collection and flags, and the page
 * scope around it, which keeps the piles of the last load and the cache of
 * described entities that `handleSelection` fills.
 */
module GlobeDataSource {
  import opened Wrappers
  import opened JsNumber
  import opened PopulationGrid
  import opened Piles
  import opened Bars

  /** `this._heightScale` as the constructor sets it. */
  const DEFAULT_HEIGHT_SCALE: int := 2

  // ----- the loading flag -----

  /** `_isLoading`, with the values the loading event has been raised with, oldest first. */
  datatype Loading = Loading(isLoading: bool, raised: seq<bool>)

  /** `_setLoading(b)`: the flag becomes `b`, and the event is raised only when it changes. */
  function SetLoadingOf(l: Loading, b: bool): Loading
  {
    if l.isLoading != b then Loading(b, l.raised + [b]) else l
  }

  /**
   * What the loading events look like from outside: they alternate, start
   * with `true` (the flag starts out false), and the last one is the flag.
   */
  predicate LoadingValid(l: Loading)
  {
    && (l.raised == [] ==> !l.isLoading)
    && (l.raised != [] ==> l.raised[0] && l.raised[|l.raised| - 1] == l.isLoading)
    && (forall i :: 0 < i < |l.raised| ==> l.raised[i] != l.raised[i - 1])
  }

  /**
   * `_setLoading` keeps the events alternating, and setting the same value
   * a second time raises nothing.
   */
  lemma SetLoadingValid(l: Loading, b: bool)
    requires LoadingValid(l)
    ensures LoadingValid(SetLoadingOf(l, b))
    ensures SetLoadingOf(SetLoadingOf(l, b), b) == SetLoadingOf(l, b)
    ensures SetLoadingOf(l, b).raised == l.raised <==> l.isLoading == b
  {
    var r := SetLoadingOf(l, b).raised;
    if l.isLoading != b {
      assert |r| == |l.raised| + 1;
      forall i | 0 < i < |r| ensures r[i] != r[i - 1] {
        if i < |l.raised| {
          assert r[i] == l.raised[i] && r[i - 1] == l.raised[i - 1];
        }
      }
    }
  }

  /** A `load` from a settled state raises exactly `true` and then `false`. */
  lemma LoadRaisesPair(l: Loading)
    requires LoadingValid(l) && !l.isLoading
    ensures var t := SetLoadingOf(SetLoadingOf(l, true), false);
            LoadingValid(t) && t.raised == l.raised + [true, false] && !t.isLoading
  {
    SetLoadingValid(l, true);
    SetLoadingValid(SetLoadingOf(l, true), false);
  }

  // ----- the series filter -----

  /** The collection after `seriesToDisplay = value`: each entity shown exactly when it is of series `value`. */
  function ShowOnly(es: seq<Bar>, value: string): (r: seq<Bar>)
    ensures |r| == |es|
  {
    seq(|es|, i requires 0 <= i < |es| => es[i].(show := value == es[i].seriesName))
  }

  /**
   * After the setter only the entities of the chosen series are shown; the
   * collection keeps its size, its order and everything else about each entity.
   */
  lemma ShowOnlyMeaning(es: seq<Bar>, value: string)
    ensures var r := ShowOnly(es, value);
            && |r| == |es|
            && (forall i :: 0 <= i < |r| ==> (r[i].show <==> r[i].seriesName == value))
            && (forall i :: 0 <= i < |r| ==> r[i].(show := es[i].show) == es[i])
  {
    var r := ShowOnly(es, value);
    forall i | 0 <= i < |r| ensures r[i].(show := es[i].show) == es[i] {
      assert r[i] == es[i].(show := value == es[i].seriesName);
    }
  }

  /** Only the last choice of series matters. */
  lemma ShowOnlyLastWins(es: seq<Bar>, a: string, b: string)
    ensures ShowOnly(ShowOnly(es, a), b) == ShowOnly(es, b)
  {
    var l, r := ShowOnly(ShowOnly(es, a), b), ShowOnly(es, b);
    forall i | 0 <= i < |es| ensures l[i] == r[i] {
      assert ShowOnly(es, a)[i] == es[i].(show := a == es[i].seriesName);
    }
  }

  // ----- the height scale guard -----

  /** The `heightScale` setter's guard as written: it throws for every positive value. */
  predicate RejectsAsWritten(value: int)
  {
    value > 0
  }

  /** The guard its error message describes: the value must be greater than 0. */
  predicate Rejects(value: int)
  {
    value <= 0
  }

  /** A height that fits in 31 bits shifted by 31 places is 0. */
  lemma ShiftBy31(x: int)
    requires 0 <= x < TWO_31
    ensures ShiftRight(x, -1) == 0 && ShiftRight(x, 31) == 0
  {
    assert -1 % 32 == 31;
    Pow2Of31();
    HalveIsFloorDivision(x, 31);
  }

  /**
   * As written, the setter refuses the constructor's own default of 2, yet
   * accepts -1, which `>>` reads as a shift of 31 places: every height that
   * fits in 31 bits becomes 0 and no bar is drawn at all.
   */
  lemma HeightScaleGuardInverted(x: nat, lat: int, lng: int, h: Heights)
    requires 0 <= h.g < TWO_31 && 0 <= h.s < TWO_31 && 0 <= h.y < TWO_31
    requires 0 <= h.o < TWO_31 && 0 <= h.r < TWO_31
    ensures RejectsAsWritten(DEFAULT_HEIGHT_SCALE) && !RejectsAsWritten(-1)
    ensures PileBars(x, lat, lng, Scaled(h, -1)) == []
  {
    ShiftBy31(h.g);
    ShiftBy31(h.s);
    ShiftBy31(h.y);
    ShiftBy31(h.o);
    ShiftBy31(h.r);
  }

  /**
   * With the guard the message describes the default is allowed, every value
   * the setter lets through is positive, and one below 32 divides each height
   * by its power of two.
   */
  lemma HeightScaleGuardIntended(value: int, h: Heights)
    requires !Rejects(value) && value < 32
    requires 0 <= h.g < TWO_31 && 0 <= h.s < TWO_31 && 0 <= h.y < TWO_31
    requires 0 <= h.o < TWO_31 && 0 <= h.r < TWO_31
    ensures !Rejects(DEFAULT_HEIGHT_SCALE) && value > 0
    ensures var t, p := Scaled(h, value), Pow2(value);
            && p * t.g <= h.g < p * (t.g + 1) && p * t.r <= h.r < p * (t.r + 1)
            && p >= 2
  {
    ScaledIsDivision(h, value);
  }

  // ----- the piles and the selection cache -----

  /** The `piles` array after `load` stored a new Pile at each index of `data`. */
  function PilesAfter(piles: map<int, seq<Occupant>>, data: seq<GeoPoint>): map<int, seq<Occupant>>
  {
    if data == [] then piles else PilesAfter(piles, data[..|data| - 1])[|data| - 1 := data[|data| - 1].peoples]
  }

  lemma PilesAfterStep(piles: map<int, seq<Occupant>>, data: seq<GeoPoint>, x: nat)
    requires x < |data|
    ensures PilesAfter(piles, data[..x + 1]) == PilesAfter(piles, data[..x])[x := data[x].peoples]
  {
    assert data[..x + 1][..x] == data[..x];
  }

  /** `load` fills the first `|data|` indexes with the new groups and leaves the rest of the array alone. */
  lemma {:induction false} PilesAfterContents(piles: map<int, seq<Occupant>>, data: seq<GeoPoint>, k: int)
    ensures var r := PilesAfter(piles, data);
            && (0 <= k < |data| ==> k in r && r[k] == data[k].peoples)
            && (!(0 <= k < |data|) ==> (k in r <==> k in piles) && (k in piles ==> r[k] == piles[k]))
  {
    if data != [] {
      var init := data[..|data| - 1];
      PilesAfterContents(piles, init, k);
      if 0 <= k < |data| - 1 {
        assert init[k] == data[k];
      }
    }
  }

  /** The entity handleSelection builds for a pile: `"DE " + pileId.toString()`, on the ground under the bar. */
  datatype Described = Described(id: string, lat: int, lng: int, show: bool, seriesName: string)

  /** What handleSelection gives back: the described entity, or the TypeError of `piles[NaN].putDescription`. */
  datatype Selection = Selected(entity: Described) | Thrown

  function DescribedOf(pid: Option<int>, selected: Bar): Described
  {
    var digits := match pid case Some(n) => IntToString(n) case None => "NaN";
    Described("DE " + digits, selected.lat, selected.lng, true, "DE")
  }

  /**
   * handleSelection: the cache is keyed by the parsed pile id; an entry is
   * built only when there is none, and it is stored before the description
   * is read from the pile, so a missing pile throws after the entry exists.
   */
  function Select(cache: map<Option<int>, Described>, piles: map<int, seq<Occupant>>, selected: Bar)
    : (map<Option<int>, Described>, Selection)
  {
    var pid := PileIdOf(selected.id);
    if pid in cache then (cache, Selected(cache[pid]))
    else
      var d := DescribedOf(pid, selected);
      (cache[pid := d], if pid.Some? && pid.value in piles then Selected(d) else Thrown)
  }

  /**
   * After one selection the pile's entry exists and no earlier entry has
   * changed; every later selection of a bar of the same pile returns that
   * same entry and leaves the cache as it is.
   */
  lemma SelectMemoizes(cache: map<Option<int>, Described>, piles: map<int, seq<Occupant>>, e: Bar, e2: Bar)
    requires PileIdOf(e2.id) == PileIdOf(e.id)
    ensures var (c1, r1) := Select(cache, piles, e);
            && PileIdOf(e.id) in c1
            && (forall k :: k in cache ==> k in c1 && c1[k] == cache[k])
            && (r1.Selected? ==> r1.entity == c1[PileIdOf(e.id)])
            && Select(c1, piles, e2) == (c1, Selected(c1[PileIdOf(e.id)]))
  {
  }

  /** The cache after a run of selections. */
  function SelectAll(cache: map<Option<int>, Described>, piles: map<int, seq<Occupant>>, es: seq<Bar>)
    : map<Option<int>, Described>
  {
    if es == [] then cache else Select(SelectAll(cache, piles, es[..|es| - 1]), piles, es[|es| - 1]).0
  }

  /** The pile ids of a run of selections. */
  function Pids(es: seq<Bar>): set<Option<int>>
  {
    if es == [] then {} else Pids(es[..|es| - 1]) + {PileIdOf(es[|es| - 1].id)}
  }

  lemma {:induction false} PidsMembers(es: seq<Bar>, k: Option<int>)
    requires forall j :: 0 <= j < |es| ==> PileIdOf(es[j].id) != k
    ensures k !in Pids(es)
  {
    if es != [] {
      var init := es[..|es| - 1];
      forall j | 0 <= j < |init| ensures PileIdOf(init[j].id) != k {
        assert init[j] == es[j];
      }
      PidsMembers(init, k);
    }
  }

  /** Entries of the cache are never replaced, and only the selected piles get one. */
  lemma {:induction false} SelectAllKeeps(cache: map<Option<int>, Described>, piles: map<int, seq<Occupant>>,
                                          es: seq<Bar>)
    ensures var c := SelectAll(cache, piles, es);
            && c.Keys == cache.Keys + Pids(es)
            && (forall k :: k in cache ==> c[k] == cache[k])
  {
    if es != [] {
      SelectAllKeeps(cache, piles, es[..|es| - 1]);
    }
  }

  /**
   * The described entity for a pile is built once, by the first selection
   * of one of its bars: whatever was selected afterwards, the cache holds
   * the entity that first selection built.
   */
  lemma {:induction false} SelectAllFirst(cache: map<Option<int>, Described>, piles: map<int, seq<Occupant>>,
                                          es: seq<Bar>, i: int)
    requires 0 <= i < |es| && PileIdOf(es[i].id) !in cache
    requires forall j :: 0 <= j < i ==> PileIdOf(es[j].id) != PileIdOf(es[i].id)
    ensures var k := PileIdOf(es[i].id);
            k in SelectAll(cache, piles, es) && SelectAll(cache, piles, es)[k] == DescribedOf(k, es[i])
    decreases |es|
  {
    var k := PileIdOf(es[i].id);
    var init := es[..|es| - 1];
    forall j | 0 <= j < i ensures PileIdOf(init[j].id) != k {
      assert init[j] == es[j];
    }
    if i == |es| - 1 {
      SelectAllKeeps(cache, piles, init);
      PidsMembers(init, k);
    } else {
      assert init[i] == es[i];
      SelectAllFirst(cache, piles, init, i);
      SelectKeeps(SelectAll(cache, piles, init), piles, es[|es| - 1], k);
    }
  }

  /** A selection never replaces an entry the cache already holds. */
  lemma SelectKeeps(cache: map<Option<int>, Described>, piles: map<int, seq<Occupant>>, e: Bar, k: Option<int>)
    requires k in cache
    ensures k in Select(cache, piles, e).0 && Select(cache, piles, e).0[k] == cache[k]
  {
  }

  /** After a load, every bar it drew can be selected without the TypeError, and is described at its own grid point. */
  lemma LoadedBarSelectable(cache: map<Option<int>, Described>, piles: map<int, seq<Occupant>>,
                            data: seq<GeoPoint>, scale: int, b: Bar)
    requires b in LoadBars(data, scale)
    ensures var (c1, r) := Select(cache, PilesAfter(piles, data), b);
            && r.Selected?
            && (PileIdOf(b.id) !in cache ==> r.entity.lat == b.lat && r.entity.lng == b.lng)
  {
    LoadBarsMembers(data, scale, b);
    PilesAfterContents(piles, data, PileIdOf(b.id).value);
  }

  lemma AppendFive(e: seq<Bar>, a: seq<Bar>, b: seq<Bar>, c: seq<Bar>, d: seq<Bar>, f: seq<Bar>)
    ensures e + a + b + c + d + f == e + (a + b + c + d + f)
  {
    assert e + a + b == e + (a + b);
    assert e + a + b + c == e + (a + b + c);
    assert e + a + b + c + d == e + (a + b + c + d);
  }

  // ----- the objects -----

  /** The page scope of the front end: `piles` and `describedEntities`. */
  class Scene {
    var piles: map<int, seq<Occupant>>
    var described: map<Option<int>, Described>

    constructor ()
      ensures piles == map[] && described == map[]
    {
      piles := map[];
      described := map[];
    }

    /** `handleSelection(selectedEntity)`. */
    method HandleSelection(selected: Bar) returns (r: Selection)
      modifies this
      ensures (described, r) == Select(old(described), old(piles), selected)
      ensures piles == old(piles)
    {
      var pileId := PileIdOf(selected.id);
      if pileId !in described {
        var d := DescribedOf(pileId, selected);
        described := described[pileId := d];
        if !(pileId.Some? && pileId.value in piles) {
          return Thrown;
        }
      }
      return Selected(described[pileId]);
    }
  }

  /** `WebGLGlobeDataSource`: the fields its setters and `load` change. */
  class DataSource {
    var isLoading: bool
    /** The values the loading event was raised with, oldest first. */
    var loadingRaised: seq<bool>
    /** How many times the changed event was raised. */
    var changedRaised: nat
    var entities: seq<Bar>
    var seriesNames: seq<string>
    var seriesToDisplay: Option<string>
    var heightScale: int

    constructor ()
      ensures isLoading == false && loadingRaised == [] && changedRaised == 0
      ensures entities == [] && seriesNames == [] && seriesToDisplay == None
      ensures heightScale == DEFAULT_HEIGHT_SCALE
      ensures LoadingValid(LoadingState())
    {
      isLoading := false;
      loadingRaised := [];
      changedRaised := 0;
      entities := [];
      seriesNames := [];
      seriesToDisplay := None;
      heightScale := DEFAULT_HEIGHT_SCALE;
    }

    function LoadingState(): Loading
      reads this
    {
      Loading(isLoading, loadingRaised)
    }

    /** `_setLoading(isLoading)`. */
    method SetLoading(b: bool)
      modifies this
      ensures LoadingState() == SetLoadingOf(old(LoadingState()), b)
      ensures changedRaised == old(changedRaised) && entities == old(entities) && heightScale == old(heightScale)
      ensures seriesNames == old(seriesNames) && seriesToDisplay == old(seriesToDisplay)
    {
      if isLoading != b {
        isLoading := b;
        loadingRaised := loadingRaised + [b];
      }
    }

    /** The `seriesToDisplay` setter: remember the value and show only that series. */
    method SetSeriesToDisplay(value: string)
      modifies this
      ensures seriesToDisplay == Some(value)
      ensures entities == ShowOnly(old(entities), value)
      ensures LoadingState() == old(LoadingState()) && changedRaised == old(changedRaised)
      ensures heightScale == old(heightScale) && seriesNames == old(seriesNames)
    {
      seriesToDisplay := Some(value);
      ghost var es := entities;
      var i := 0;
      while i < |entities|
        invariant 0 <= i <= |entities| == |es|
        invariant forall j :: 0 <= j < i ==> entities[j] == es[j].(show := value == es[j].seriesName)
        invariant forall j :: i <= j < |entities| ==> entities[j] == es[j]
        invariant seriesToDisplay == Some(value) && LoadingState() == old(LoadingState())
        invariant changedRaised == old(changedRaised) && heightScale == old(heightScale)
        invariant seriesNames == old(seriesNames)
      {
        var entity := entities[i];
        entities := entities[i := entity.(show := value == entity.seriesName)];
        i := i + 1;
      }
      assert entities == ShowOnly(es, value);
    }

    /** The `heightScale` setter as written: it throws for a positive value. */
    method SetHeightScaleAsWritten(value: int) returns (thrown: bool)
      modifies this
      ensures thrown == RejectsAsWritten(value)
      ensures heightScale == if thrown then old(heightScale) else value
      ensures LoadingState() == old(LoadingState()) && entities == old(entities)
      ensures changedRaised == old(changedRaised) && seriesNames == old(seriesNames)
      ensures seriesToDisplay == old(seriesToDisplay)
    {
      if value > 0 {
        return true;
      }
      heightScale := value;
      return false;
    }

    /** The `heightScale` setter with the guard its message describes. */
    method SetHeightScale(value: int) returns (thrown: bool)
      modifies this
      ensures thrown == Rejects(value)
      ensures heightScale == if thrown then old(heightScale) else value
      ensures !thrown ==> heightScale > 0
      ensures LoadingState() == old(LoadingState()) && entities == old(entities)
      ensures changedRaised == old(changedRaised) && seriesNames == old(seriesNames)
      ensures seriesToDisplay == old(seriesToDisplay)
    {
      if value <= 0 {
        return true;
      }
      heightScale := value;
      return false;
    }

    /** The five `if (heights.X > 1)` blocks of `load` for grid point `x`. */
    method AddBars(x: nat, lat: int, lng: int, heights: Heights)
      modifies this
      ensures entities == old(entities) + PileBars(x, lat, lng, heights)
      ensures LoadingState() == old(LoadingState()) && changedRaised == old(changedRaised)
      ensures heightScale == old(heightScale) && seriesNames == old(seriesNames)
      ensures seriesToDisplay == old(seriesToDisplay)
    {
      var g := MaybeBar('g', x, lat, lng, 0, heights.g);
      var s := MaybeBar('s', x, lat, lng, heights.g, heights.s);
      var y := MaybeBar('y', x, lat, lng, heights.g + heights.s, heights.y);
      var o := MaybeBar('o', x, lat, lng, heights.g + heights.s + heights.y, heights.o);
      var r := MaybeBar('r', x, lat, lng, heights.g + heights.s + heights.y + heights.o, heights.r);
      assert PileBars(x, lat, lng, heights) == g + s + y + o + r;
      AppendFive(entities, g, s, y, o, r);
      entities := entities + g;
      entities := entities + s;
      entities := entities + y;
      entities := entities + o;
      entities := entities + r;
    }

    /**
     * `load(data)`: clear the collection and the series, then for each grid
     * point store its Pile, compute its JPS heights, shift them by the
     * height scale, and add a bar for every height above 1.
     */
    method Load(data: seq<GeoPoint>, scene: Scene)
      modifies this, scene
      ensures LoadingState() == SetLoadingOf(SetLoadingOf(old(LoadingState()), true), false)
      ensures entities == LoadBars(data, old(heightScale))
      ensures seriesNames == [] && seriesToDisplay == None
      ensures changedRaised == old(changedRaised) + 1 && heightScale == old(heightScale)
      ensures scene.piles == PilesAfter(old(scene.piles), data)
      ensures scene.described == old(scene.described)
    {
      SetLoading(true);
      ghost var loading := LoadingState();
      seriesNames := [];
      seriesToDisplay := None;
      var scale := heightScale;
      entities := [];
      var x := 0;
      while x < |data|
        invariant 0 <= x <= |data|
        invariant entities == LoadBars(data[..x], scale)
        invariant scene.piles == PilesAfter(old(scene.piles), data[..x])
        invariant scene.described == old(scene.described)
        invariant LoadingState() == loading && changedRaised == old(changedRaised)
        invariant heightScale == scale && seriesNames == [] && seriesToDisplay == None
      {
        var geo := data[x];
        PilesAfterStep(old(scene.piles), data, x);
        scene.piles := scene.piles[x := geo.peoples];
        var heights := CalcHeights(geo.peoples, JPS);
        heights := heights.(g := ShiftRight(heights.g, scale));
        heights := heights.(s := ShiftRight(heights.s, scale));
        heights := heights.(y := ShiftRight(heights.y, scale));
        heights := heights.(o := ShiftRight(heights.o, scale));
        heights := heights.(r := ShiftRight(heights.r, scale));
        LoadBarsStep(data, x, scale);
        AddBars(x, geo.lat, geo.lng, heights);
        x := x + 1;
      }
      assert data[..x] == data;
      changedRaised := changedRaised + 1;
      SetLoading(false);
    }
  }
}
