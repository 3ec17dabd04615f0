/**
 * The export pass of sortAndFilterJP: the grid is walked in its enumeration
 * order, the leftover capacity of every cell is added up, and every cell
 * with at least one occupant is written out with its occupants reordered by
 * descending population.
 */
module Export {
  import opened PopulationGrid
  import opened StableSort

  /** One element of `gridSubset`: `{lat, lng, v}`. */
  datatype ExportedCell = ExportedCell(lat: int, lng: int, v: seq<(string, Occupant)>)

  /** The sort key of `_.sortBy(cell.villages, v => -v.pop)`. */
  function ByPopDesc(): ((string, Occupant)) -> real
  {
    (e: (string, Occupant)) => -(e.1.pop as real)
  }

  function SortedOccupants(vs: seq<(string, Occupant)>): seq<(string, Occupant)>
  {
    SortBy(vs, ByPopDesc())
  }

  /** Every key `order` lists is a cell of the grid. */
  predicate Listed(cells: Cells, order: seq<Key>)
  {
    forall k :: k in order ==> k in cells
  }

  /** `order` lists every cell of the grid exactly once: one enumeration of the grid's keys. */
  predicate Enumerates(cells: Cells, order: seq<Key>)
  {
    Listed(cells, order) && (forall k :: k in cells ==> k in order) && Distinct(order)
  }

  /** An enumeration of a grid's keys enumerates every grid with the same keys. */
  lemma EnumeratesKeys(c0: Cells, c1: Cells, order: seq<Key>)
    requires Enumerates(c0, order) && c1.Keys == c0.Keys
    ensures Enumerates(c1, order)
  {
  }

  /** `gridSubset` after the cells of `order`. */
  function ExportOf(cells: Cells, order: seq<Key>): seq<ExportedCell>
    requires Listed(cells, order)
  {
    if order == [] then []
    else
      var k := order[|order| - 1];
      ExportOf(cells, order[..|order| - 1])
      + (if cells[k].villages != [] then [ExportedCell(k.0, k.1, SortedOccupants(cells[k].villages))] else [])
  }

  /** `popHolesRemaining` after the cells of `order`. */
  function HolesOf(cells: Cells, order: seq<Key>): int
    requires Listed(cells, order)
  {
    if order == [] then 0 else HolesOf(cells, order[..|order| - 1]) + cells[order[|order| - 1]].emptyPop
  }

  /** Every exported cell is a cell of the grid, has occupants, and carries them reordered. */
  lemma {:induction false} ExportEntries(cells: Cells, order: seq<Key>, e: ExportedCell)
    requires Listed(cells, order)
    requires e in ExportOf(cells, order)
    ensures (e.lat, e.lng) in order
    ensures cells[(e.lat, e.lng)].villages != []
    ensures e.v == SortedOccupants(cells[(e.lat, e.lng)].villages)
  {
    var init := order[..|order| - 1];
    if e !in ExportOf(cells, init) {
      assert (e.lat, e.lng) == order[|order| - 1];
    } else {
      ExportEntries(cells, init, e);
      assert (e.lat, e.lng) in init;
    }
  }

  /** The cells of `order` that have occupants are exported. */
  lemma {:induction false} ExportComplete(cells: Cells, order: seq<Key>, k: Key)
    requires Listed(cells, order)
    requires k in order && cells[k].villages != []
    ensures exists e :: e in ExportOf(cells, order) && (e.lat, e.lng) == k
  {
    var init := order[..|order| - 1];
    if k == order[|order| - 1] {
      var e := ExportedCell(k.0, k.1, SortedOccupants(cells[k].villages));
      assert ExportOf(cells, order)[|ExportOf(cells, order)| - 1] == e;
    } else {
      assert k in init by {
        var i :| 0 <= i < |order| && order[i] == k;
        assert init[i] == k;
      }
      ExportComplete(cells, init, k);
      var e :| e in ExportOf(cells, init) && (e.lat, e.lng) == k;
      assert e in ExportOf(cells, order);
    }
  }

  /** Within an exported cell, occupants are in descending population. */
  lemma OccupantsDescending(vs: seq<(string, Occupant)>)
    ensures var r := SortedOccupants(vs);
            forall i, j :: 0 <= i < j < |r| ==> r[i].1.pop >= r[j].1.pop
  {
    var r := SortedOccupants(vs);
    SortBySorted(vs, ByPopDesc());
    forall i, j | 0 <= i < j < |r| ensures r[i].1.pop >= r[j].1.pop {
      assert ByPopDesc()(r[i]) <= ByPopDesc()(r[j]);
    }
  }

  /**
   * Within an exported cell, occupants are in descending population, are
   * exactly the cell's occupants, and those with equal population keep the
   * order in which they were placed.
   */
  lemma OccupantOrder(vs: seq<(string, Occupant)>, pop: int)
    ensures var r := SortedOccupants(vs);
            && (forall i, j :: 0 <= i < j < |r| ==> r[i].1.pop >= r[j].1.pop)
            && multiset(r) == multiset(vs)
            && WithKey(r, ByPopDesc(), -(pop as real)) == WithKey(vs, ByPopDesc(), -(pop as real))
  {
    OccupantsDescending(vs);
    SortByStable(vs, ByPopDesc(), -(pop as real));
  }

  lemma {:induction false} HolesAppend(cells: Cells, a: seq<Key>, b: seq<Key>)
    requires Listed(cells, a) && Listed(cells, b)
    ensures Listed(cells, a + b)
    ensures HolesOf(cells, a + b) == HolesOf(cells, a) + HolesOf(cells, b)
    decreases |b|
  {
    if b == [] {
      assert a + b == a;
    } else {
      var b' := b[..|b| - 1];
      assert (a + b)[..|a + b| - 1] == a + b';
      assert Listed(cells, b') by {
        forall k | k in b' ensures k in cells {
          var i :| 0 <= i < |b'| && b'[i] == k;
          assert b[i] == k;
        }
      }
      HolesAppend(cells, a, b');
    }
  }

  /** Taking the cell `x` out of an enumeration takes its capacity out of the total. */
  lemma HolesSplit(cells: Cells, pre: seq<Key>, x: Key, post: seq<Key>)
    requires Listed(cells, pre + [x] + post)
    ensures Listed(cells, pre + post)
    ensures HolesOf(cells, pre + [x] + post) == HolesOf(cells, pre + post) + cells[x].emptyPop
  {
    assert Listed(cells, pre) && Listed(cells, post) && x in cells by {
      forall k | k in pre ensures k in cells { assert k in pre + [x] + post; }
      forall k | k in post ensures k in cells { assert k in pre + [x] + post; }
      assert x in pre + [x] + post;
    }
    HolesAppend(cells, pre, post);
    HolesAppend(cells, pre, [x]);
    HolesAppend(cells, pre + [x], post);
    assert HolesOf(cells, [x]) == cells[x].emptyPop by {
      assert [x][..0] == [];
    }
  }

  /**
   * The "population holes remaining" total does not depend on the order in
   * which the grid is enumerated: any two orders listing the same cells give
   * the same sum of leftover capacity.
   */
  lemma {:induction false} HolesPermutation(cells: Cells, o1: seq<Key>, o2: seq<Key>)
    requires Listed(cells, o1) && multiset(o1) == multiset(o2)
    ensures Listed(cells, o2)
    ensures HolesOf(cells, o1) == HolesOf(cells, o2)
    decreases |o1|
  {
    assert Listed(cells, o2) by {
      forall k | k in o2 ensures k in cells {
        assert k in multiset(o2);
      }
    }
    if o1 == [] {
      assert |o2| == |multiset(o2)| == 0;
    } else {
      var x := o1[|o1| - 1];
      var init := o1[..|o1| - 1];
      assert HolesOf(cells, o1) == HolesOf(cells, init) + cells[x].emptyPop;
      assert o1 == init + [x];
      assert multiset(o1) == multiset(init) + multiset{x};
      assert x in multiset(o2);
      var j :| 0 <= j < |o2| && o2[j] == x;
      var pre, post := o2[..j], o2[j + 1..];
      RemoveAt(init, o2, j);
      assert Listed(cells, init) by {
        forall k | k in init ensures k in cells {
          assert k in multiset(o1);
        }
      }
      HolesPermutation(cells, init, pre + post);
      HolesSplit(cells, pre, x, post);
      assert HolesOf(cells, o2) == HolesOf(cells, pre + [x] + post);
    }
  }

  lemma DistinctMultiset(s: seq<Key>, x: Key)
    requires Distinct(s)
    ensures multiset(s)[x] == if x in s then 1 else 0
  {
    DistinctCount(s, x);
  }

  /** Whichever order the grid is enumerated in, the holes total comes out the same. */
  lemma HolesIndependent(cells: Cells, o1: seq<Key>, o2: seq<Key>)
    requires Enumerates(cells, o1) && Enumerates(cells, o2)
    ensures HolesOf(cells, o1) == HolesOf(cells, o2)
  {
    forall x ensures multiset(o1)[x] == multiset(o2)[x] {
      DistinctMultiset(o1, x);
      DistinctMultiset(o2, x);
    }
    assert multiset(o1) == multiset(o2);
    HolesPermutation(cells, o1, o2);
  }
}
