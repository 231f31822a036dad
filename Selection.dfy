/** Boolean-mask selection `result[mask == 1]`: the values at the voxels whose
    mask value is exactly 1, in row-major order (x slowest, z fastest). */
module Selection {
  import opened Wrappers
  import opened Grid

  /** Voxel (x, y, z) is selected: its mask value is exactly 1. */
  predicate Selected(mask: Volume, n: nat, m: nat, k: nat, x: int, y: int, z: int)
    requires Shaped(mask, n, m, k)
  {
    InBounds(n, m, k, x, y, z) && mask[x][y][z] == 1.0
  }

  /** The selected values among (x, y, 0) .. (x, y, z - 1). */
  function SelectRow(vol: seq<seq<seq<int>>>, mask: Volume, n: nat, m: nat, k: nat, x: nat, y: nat, z: nat): seq<int>
    requires Shaped(vol, n, m, k) && Shaped(mask, n, m, k)
    requires x < n && y < m && z <= k
  {
    if z == 0 then []
    else SelectRow(vol, mask, n, m, k, x, y, z - 1) + (if mask[x][y][z - 1] == 1.0 then [vol[x][y][z - 1]] else [])
  }

  /** The selected values of the rows 0 .. y - 1 of plane x. */
  function SelectPlane(vol: seq<seq<seq<int>>>, mask: Volume, n: nat, m: nat, k: nat, x: nat, y: nat): seq<int>
    requires Shaped(vol, n, m, k) && Shaped(mask, n, m, k)
    requires x < n && y <= m
  {
    if y == 0 then []
    else SelectPlane(vol, mask, n, m, k, x, y - 1) + SelectRow(vol, mask, n, m, k, x, y - 1, k)
  }

  /** The selected values of the planes 0 .. x - 1. */
  function SelectPlanes(vol: seq<seq<seq<int>>>, mask: Volume, n: nat, m: nat, k: nat, x: nat): seq<int>
    requires Shaped(vol, n, m, k) && Shaped(mask, n, m, k)
    requires x <= n
  {
    if x == 0 then []
    else SelectPlanes(vol, mask, n, m, k, x - 1) + SelectPlane(vol, mask, n, m, k, x - 1, m)
  }

  /** The selected values of the whole volume. */
  function Select(vol: seq<seq<seq<int>>>, mask: Volume, n: nat, m: nat, k: nat): seq<int>
    requires Shaped(vol, n, m, k) && Shaped(mask, n, m, k)
  {
    SelectPlanes(vol, mask, n, m, k, n)
  }

  lemma {:induction false} SelectRowMembers(vol: seq<seq<seq<int>>>, mask: Volume, n: nat, m: nat, k: nat, x: nat, y: nat, z: nat)
    requires Shaped(vol, n, m, k) && Shaped(mask, n, m, k)
    requires x < n && y < m && z <= k
    ensures forall v :: v in SelectRow(vol, mask, n, m, k, x, y, z) <==>
      exists z' | 0 <= z' < z :: mask[x][y][z'] == 1.0 && vol[x][y][z'] == v
  {
    if z > 0 {
      SelectRowMembers(vol, mask, n, m, k, x, y, z - 1);
    }
  }

  lemma {:induction false} SelectPlaneMembers(vol: seq<seq<seq<int>>>, mask: Volume, n: nat, m: nat, k: nat, x: nat, y: nat)
    requires Shaped(vol, n, m, k) && Shaped(mask, n, m, k)
    requires x < n && y <= m
    ensures forall v :: v in SelectPlane(vol, mask, n, m, k, x, y) <==>
      exists y', z' | 0 <= y' < y && 0 <= z' < k :: mask[x][y'][z'] == 1.0 && vol[x][y'][z'] == v
  {
    if y > 0 {
      SelectPlaneMembers(vol, mask, n, m, k, x, y - 1);
      SelectRowMembers(vol, mask, n, m, k, x, y - 1, k);
    }
  }

  lemma {:induction false} SelectPlanesMembers(vol: seq<seq<seq<int>>>, mask: Volume, n: nat, m: nat, k: nat, x: nat)
    requires Shaped(vol, n, m, k) && Shaped(mask, n, m, k)
    requires x <= n
    ensures forall v :: v in SelectPlanes(vol, mask, n, m, k, x) <==>
      exists x', y', z' | 0 <= x' < x && 0 <= y' < m && 0 <= z' < k :: mask[x'][y'][z'] == 1.0 && vol[x'][y'][z'] == v
  {
    if x > 0 {
      SelectPlanesMembers(vol, mask, n, m, k, x - 1);
      SelectPlaneMembers(vol, mask, n, m, k, x - 1, m);
      var prev, plane := SelectPlanes(vol, mask, n, m, k, x - 1), SelectPlane(vol, mask, n, m, k, x - 1, m);
      forall v
        ensures v in prev + plane <==>
          exists x', y', z' | 0 <= x' < x && 0 <= y' < m && 0 <= z' < k :: mask[x'][y'][z'] == 1.0 && vol[x'][y'][z'] == v
      {
        if v in prev {
          var x', y', z' :| 0 <= x' < x - 1 && 0 <= y' < m && 0 <= z' < k && mask[x'][y'][z'] == 1.0 && vol[x'][y'][z'] == v;
        } else if v in plane {
          var y', z' :| 0 <= y' < m && 0 <= z' < k && mask[x - 1][y'][z'] == 1.0 && vol[x - 1][y'][z'] == v;
        }
        if exists x', y', z' | 0 <= x' < x && 0 <= y' < m && 0 <= z' < k :: mask[x'][y'][z'] == 1.0 && vol[x'][y'][z'] == v {
          var x', y', z' :| 0 <= x' < x && 0 <= y' < m && 0 <= z' < k && mask[x'][y'][z'] == 1.0 && vol[x'][y'][z'] == v;
          if x' < x - 1 {
            assert v in prev;
          } else {
            assert v in plane;
          }
        }
      }
    }
  }

  /** A value is selected exactly when some voxel whose mask value is 1 holds it;
      in particular nothing is selected exactly when no mask value is 1. */
  lemma SelectMembers(vol: seq<seq<seq<int>>>, mask: Volume, n: nat, m: nat, k: nat)
    requires Shaped(vol, n, m, k) && Shaped(mask, n, m, k)
    ensures forall v :: v in Select(vol, mask, n, m, k) <==>
      exists x, y, z | Selected(mask, n, m, k, x, y, z) :: vol[x][y][z] == v
    ensures Select(vol, mask, n, m, k) == [] <==>
      forall x, y, z | InBounds(n, m, k, x, y, z) :: mask[x][y][z] != 1.0
  {
    SelectPlanesMembers(vol, mask, n, m, k, n);
    var s := Select(vol, mask, n, m, k);
    if s != [] {
      assert s[0] in s;
    } else {
      forall x, y, z | InBounds(n, m, k, x, y, z)
        ensures mask[x][y][z] != 1.0
      {
        var v := vol[x][y][z];
        assert v !in SelectPlanes(vol, mask, n, m, k, n);
        assert vol[x][y][z] != v || mask[x][y][z] != 1.0;
      }
    }
  }

  /** Voxel (x, y, z) is selected and, when f names a value, holds that value. */
  predicate Matches(vol: seq<seq<seq<int>>>, mask: Volume, n: nat, m: nat, k: nat, f: Option<int>, x: int, y: int, z: int)
    requires Shaped(vol, n, m, k) && Shaped(mask, n, m, k)
  {
    Selected(mask, n, m, k, x, y, z) && (f.None? || vol[x][y][z] == f.value)
  }

  /** How many entries of s f admits: all of them, or those equal to the value it names. */
  function Hits(s: seq<int>, f: Option<int>): nat
  {
    if s == [] then 0
    else Hits(s[..|s| - 1], f) + if f.None? || s[|s| - 1] == f.value then 1 else 0
  }

  /** Admitting everything counts the entries; admitting one value counts its
      occurrences. */
  lemma {:induction false} HitsMeaning(s: seq<int>, f: Option<int>)
    ensures f.None? ==> Hits(s, f) == |s|
    ensures f.Some? ==> Hits(s, f) == multiset(s)[f.value]
  {
    if s != [] {
      HitsMeaning(s[..|s| - 1], f);
      assert s == s[..|s| - 1] + [s[|s| - 1]];
    }
  }

  lemma {:induction false} HitsAppend(a: seq<int>, b: seq<int>, f: Option<int>)
    ensures Hits(a + b, f) == Hits(a, f) + Hits(b, f)
  {
    if b != [] {
      var ab := a + b;
      HitsAppend(a, b[..|b| - 1], f);
      assert ab[..|ab| - 1] == a + b[..|b| - 1];
      assert ab[|ab| - 1] == b[|b| - 1];
    } else {
      assert a + b == a;
    }
  }

  /** The number of matching voxels among (x, y, 0) .. (x, y, z - 1). */
  function RowCount(vol: seq<seq<seq<int>>>, mask: Volume, n: nat, m: nat, k: nat, f: Option<int>, x: nat, y: nat, z: nat): nat
    requires Shaped(vol, n, m, k) && Shaped(mask, n, m, k)
    requires x < n && y < m && z <= k
  {
    if z == 0 then 0 else RowCount(vol, mask, n, m, k, f, x, y, z - 1) + if Matches(vol, mask, n, m, k, f, x, y, z - 1) then 1 else 0
  }

  /** The number of matching voxels in the rows 0 .. y - 1 of plane x. */
  function PlaneCount(vol: seq<seq<seq<int>>>, mask: Volume, n: nat, m: nat, k: nat, f: Option<int>, x: nat, y: nat): nat
    requires Shaped(vol, n, m, k) && Shaped(mask, n, m, k)
    requires x < n && y <= m
  {
    if y == 0 then 0 else PlaneCount(vol, mask, n, m, k, f, x, y - 1) + RowCount(vol, mask, n, m, k, f, x, y - 1, k)
  }

  /** The number of matching voxels in the planes 0 .. x - 1. */
  function PlanesCount(vol: seq<seq<seq<int>>>, mask: Volume, n: nat, m: nat, k: nat, f: Option<int>, x: nat): nat
    requires Shaped(vol, n, m, k) && Shaped(mask, n, m, k)
    requires x <= n
  {
    if x == 0 then 0 else PlanesCount(vol, mask, n, m, k, f, x - 1) + PlaneCount(vol, mask, n, m, k, f, x - 1, m)
  }

  lemma {:induction false} RowHits(vol: seq<seq<seq<int>>>, mask: Volume, n: nat, m: nat, k: nat, f: Option<int>, x: nat, y: nat, z: nat)
    requires Shaped(vol, n, m, k) && Shaped(mask, n, m, k)
    requires x < n && y < m && z <= k
    ensures Hits(SelectRow(vol, mask, n, m, k, x, y, z), f) == RowCount(vol, mask, n, m, k, f, x, y, z)
  {
    if z > 0 {
      RowHits(vol, mask, n, m, k, f, x, y, z - 1);
      var e := if mask[x][y][z - 1] == 1.0 then [vol[x][y][z - 1]] else [];
      HitsAppend(SelectRow(vol, mask, n, m, k, x, y, z - 1), e, f);
    }
  }

  lemma {:induction false} PlaneHits(vol: seq<seq<seq<int>>>, mask: Volume, n: nat, m: nat, k: nat, f: Option<int>, x: nat, y: nat)
    requires Shaped(vol, n, m, k) && Shaped(mask, n, m, k)
    requires x < n && y <= m
    ensures Hits(SelectPlane(vol, mask, n, m, k, x, y), f) == PlaneCount(vol, mask, n, m, k, f, x, y)
  {
    if y > 0 {
      PlaneHits(vol, mask, n, m, k, f, x, y - 1);
      RowHits(vol, mask, n, m, k, f, x, y - 1, k);
      HitsAppend(SelectPlane(vol, mask, n, m, k, x, y - 1), SelectRow(vol, mask, n, m, k, x, y - 1, k), f);
    }
  }

  lemma {:induction false} PlanesHits(vol: seq<seq<seq<int>>>, mask: Volume, n: nat, m: nat, k: nat, f: Option<int>, x: nat)
    requires Shaped(vol, n, m, k) && Shaped(mask, n, m, k)
    requires x <= n
    ensures Hits(SelectPlanes(vol, mask, n, m, k, x), f) == PlanesCount(vol, mask, n, m, k, f, x)
  {
    if x > 0 {
      PlanesHits(vol, mask, n, m, k, f, x - 1);
      PlaneHits(vol, mask, n, m, k, f, x - 1, m);
      HitsAppend(SelectPlanes(vol, mask, n, m, k, x - 1), SelectPlane(vol, mask, n, m, k, x - 1, m), f);
    }
  }

  ghost function RowMatches(vol: seq<seq<seq<int>>>, mask: Volume, n: nat, m: nat, k: nat, f: Option<int>, x: int, y: int, z: int): set<(int, int, int)>
    requires Shaped(vol, n, m, k) && Shaped(mask, n, m, k)
  {
    set z' | 0 <= z' < z && Matches(vol, mask, n, m, k, f, x, y, z') :: (x, y, z')
  }

  ghost function PlaneMatches(vol: seq<seq<seq<int>>>, mask: Volume, n: nat, m: nat, k: nat, f: Option<int>, x: int, y: int): set<(int, int, int)>
    requires Shaped(vol, n, m, k) && Shaped(mask, n, m, k)
  {
    set y', z' | 0 <= y' < y && 0 <= z' < k && Matches(vol, mask, n, m, k, f, x, y', z') :: (x, y', z')
  }

  ghost function PlanesMatches(vol: seq<seq<seq<int>>>, mask: Volume, n: nat, m: nat, k: nat, f: Option<int>, x: int): set<(int, int, int)>
    requires Shaped(vol, n, m, k) && Shaped(mask, n, m, k)
  {
    set x', y', z' | 0 <= x' < x && 0 <= y' < m && 0 <= z' < k && Matches(vol, mask, n, m, k, f, x', y', z') :: (x', y', z')
  }

  /** The size of a union of disjoint sets. */
  lemma DisjointUnion<T>(a: set<T>, b: set<T>)
    requires a * b == {}
    ensures |a + b| == |a| + |b|
  {
    assert |a + b| + |a * b| == |a| + |b|;
  }

  lemma {:induction false} RowCounted(vol: seq<seq<seq<int>>>, mask: Volume, n: nat, m: nat, k: nat, f: Option<int>, x: nat, y: nat, z: nat)
    requires Shaped(vol, n, m, k) && Shaped(mask, n, m, k)
    requires x < n && y < m && z <= k
    ensures RowCount(vol, mask, n, m, k, f, x, y, z) == |RowMatches(vol, mask, n, m, k, f, x, y, z)|
  {
    if z > 0 {
      RowCounted(vol, mask, n, m, k, f, x, y, z - 1);
      RowSplit(vol, mask, n, m, k, f, x, y, z);
    } else {
      assert RowMatches(vol, mask, n, m, k, f, x, y, z) == {};
    }
  }

  /** The matches among the first z voxels of a row grow by the voxel z - 1
      exactly when it matches, and it is not among the earlier ones. */
  lemma RowSplit(vol: seq<seq<seq<int>>>, mask: Volume, n: nat, m: nat, k: nat, f: Option<int>, x: nat, y: nat, z: nat)
    requires Shaped(vol, n, m, k) && Shaped(mask, n, m, k)
    requires x < n && y < m && 0 < z <= k
    ensures |RowMatches(vol, mask, n, m, k, f, x, y, z)| ==
      |RowMatches(vol, mask, n, m, k, f, x, y, z - 1)| + if Matches(vol, mask, n, m, k, f, x, y, z - 1) then 1 else 0
  {
    var prev, cur := RowMatches(vol, mask, n, m, k, f, x, y, z - 1), RowMatches(vol, mask, n, m, k, f, x, y, z);
    var last := if Matches(vol, mask, n, m, k, f, x, y, z - 1) then {(x, y, z - 1)} else {};
    forall t | t in cur
      ensures t in prev + last
    {
      var z' :| 0 <= z' < z && Matches(vol, mask, n, m, k, f, x, y, z') && t == (x, y, z');
      if z' < z - 1 {
        assert t in prev;
      }
    }
    assert cur == prev + last;
    DisjointUnion(prev, last);
  }

  lemma {:induction false} PlaneCounted(vol: seq<seq<seq<int>>>, mask: Volume, n: nat, m: nat, k: nat, f: Option<int>, x: nat, y: nat)
    requires Shaped(vol, n, m, k) && Shaped(mask, n, m, k)
    requires x < n && y <= m
    ensures PlaneCount(vol, mask, n, m, k, f, x, y) == |PlaneMatches(vol, mask, n, m, k, f, x, y)|
  {
    if y > 0 {
      PlaneCounted(vol, mask, n, m, k, f, x, y - 1);
      RowCounted(vol, mask, n, m, k, f, x, y - 1, k);
      PlaneSplit(vol, mask, n, m, k, f, x, y);
    } else {
      assert PlaneMatches(vol, mask, n, m, k, f, x, y) == {};
    }
  }

  /** The matches of rows 0 .. y - 1 are those of rows 0 .. y - 2 and, apart
      from them, those of row y - 1, so their numbers add up. */
  lemma PlaneSplit(vol: seq<seq<seq<int>>>, mask: Volume, n: nat, m: nat, k: nat, f: Option<int>, x: nat, y: nat)
    requires Shaped(vol, n, m, k) && Shaped(mask, n, m, k)
    requires x < n && 0 < y <= m
    ensures |PlaneMatches(vol, mask, n, m, k, f, x, y)| ==
      |PlaneMatches(vol, mask, n, m, k, f, x, y - 1)| + |RowMatches(vol, mask, n, m, k, f, x, y - 1, k)|
  {
    var prev, row := PlaneMatches(vol, mask, n, m, k, f, x, y - 1), RowMatches(vol, mask, n, m, k, f, x, y - 1, k);
    var cur := PlaneMatches(vol, mask, n, m, k, f, x, y);
    forall t | t in cur
      ensures t in prev + row
    {
      var y', z' :| 0 <= y' < y && 0 <= z' < k && Matches(vol, mask, n, m, k, f, x, y', z') && t == (x, y', z');
      if y' < y - 1 {
        assert t in prev;
      } else {
        assert t in row;
      }
    }
    assert cur == prev + row;
    DisjointUnion(prev, row);
  }

  lemma {:induction false} PlanesCounted(vol: seq<seq<seq<int>>>, mask: Volume, n: nat, m: nat, k: nat, f: Option<int>, x: nat)
    requires Shaped(vol, n, m, k) && Shaped(mask, n, m, k)
    requires x <= n
    ensures PlanesCount(vol, mask, n, m, k, f, x) == |PlanesMatches(vol, mask, n, m, k, f, x)|
  {
    if x > 0 {
      PlanesCounted(vol, mask, n, m, k, f, x - 1);
      PlaneCounted(vol, mask, n, m, k, f, x - 1, m);
      PlanesSplit(vol, mask, n, m, k, f, x);
    } else {
      assert PlanesMatches(vol, mask, n, m, k, f, x) == {};
    }
  }

  /** The matches of planes 0 .. x - 1 are those of planes 0 .. x - 2 and,
      apart from them, those of plane x - 1, so their numbers add up. */
  lemma PlanesSplit(vol: seq<seq<seq<int>>>, mask: Volume, n: nat, m: nat, k: nat, f: Option<int>, x: nat)
    requires Shaped(vol, n, m, k) && Shaped(mask, n, m, k)
    requires 0 < x <= n
    ensures |PlanesMatches(vol, mask, n, m, k, f, x)| ==
      |PlanesMatches(vol, mask, n, m, k, f, x - 1)| + |PlaneMatches(vol, mask, n, m, k, f, x - 1, m)|
  {
    var prev, plane := PlanesMatches(vol, mask, n, m, k, f, x - 1), PlaneMatches(vol, mask, n, m, k, f, x - 1, m);
    var cur := PlanesMatches(vol, mask, n, m, k, f, x);
    forall t | t in cur
      ensures t in prev + plane
    {
      var x', y', z' :| 0 <= x' < x && 0 <= y' < m && 0 <= z' < k && Matches(vol, mask, n, m, k, f, x', y', z') &&
        t == (x', y', z');
      if x' < x - 1 {
        assert t in prev;
      } else {
        assert t in plane;
      }
    }
    assert cur == prev + plane;
    DisjointUnion(prev, plane);
  }

  /** The voxels whose mask value is 1. */
  ghost function MaskedVoxels(mask: Volume, n: nat, m: nat, k: nat): set<(int, int, int)>
    requires Shaped(mask, n, m, k)
  {
    set x, y, z | 0 <= x < n && 0 <= y < m && 0 <= z < k && mask[x][y][z] == 1.0 :: (x, y, z)
  }

  /** The voxels whose mask value is 1 and that hold c. */
  ghost function MaskedVoxelsHolding(vol: seq<seq<seq<int>>>, mask: Volume, n: nat, m: nat, k: nat, c: int): set<(int, int, int)>
    requires Shaped(vol, n, m, k) && Shaped(mask, n, m, k)
  {
    set x, y, z | 0 <= x < n && 0 <= y < m && 0 <= z < k && mask[x][y][z] == 1.0 && vol[x][y][z] == c :: (x, y, z)
  }

  /** One value is selected per voxel whose mask value is 1, and each value is
      selected as many times as there are such voxels holding it. */
  lemma SelectCounts(vol: seq<seq<seq<int>>>, mask: Volume, n: nat, m: nat, k: nat)
    requires Shaped(vol, n, m, k) && Shaped(mask, n, m, k)
    ensures |Select(vol, mask, n, m, k)| == |MaskedVoxels(mask, n, m, k)|
    ensures forall c :: multiset(Select(vol, mask, n, m, k))[c] == |MaskedVoxelsHolding(vol, mask, n, m, k, c)|
  {
    PlanesHits(vol, mask, n, m, k, None, n);
    PlanesCounted(vol, mask, n, m, k, None, n);
    HitsMeaning(Select(vol, mask, n, m, k), None);
    assert PlanesMatches(vol, mask, n, m, k, None, n) == MaskedVoxels(mask, n, m, k);
    forall c
      ensures multiset(Select(vol, mask, n, m, k))[c] == |MaskedVoxelsHolding(vol, mask, n, m, k, c)|
    {
      PlanesHits(vol, mask, n, m, k, Some(c), n);
      PlanesCounted(vol, mask, n, m, k, Some(c), n);
      HitsMeaning(Select(vol, mask, n, m, k), Some(c));
      assert PlanesMatches(vol, mask, n, m, k, Some(c), n) == MaskedVoxelsHolding(vol, mask, n, m, k, c);
    }
  }
}
