/** `LBPFeature.feature_vector`: the six shifted images, the pattern of every
    masked voxel written into a result volume, and the histogram of the
    canonical patterns under the mask turned into a feature vector. */
module Feature {
  import opened Wrappers
  import opened Grid
  import opened NeighbourShift
  import opened Offsets
  import opened PatternEncoder
  import opened PatternTable
  import opened Histogram
  import opened Selection

  /** v is the image shifted by the j-th shift vector: its voxel (x, y, z)
      holds the j-th neighbour of image voxel (x, y, z). */
  ghost predicate IsShifted(v: Volume, image: Volume, n: nat, m: nat, k: nat, j: nat)
    requires Shaped(image, n, m, k) && j < 6
  {
    Shaped(v, n, m, k) &&
    forall x, y, z | InBounds(n, m, k, x, y, z) :: v[x][y][z] == NeighbourValue(image, n, m, k, x, y, z, j)
  }

  /** list[j] is the image shifted by the j-th shift vector. */
  ghost predicate IsShiftList(list: seq<Volume>, image: Volume, n: nat, m: nat, k: nat)
    requires Shaped(image, n, m, k)
  {
    |list| == 6 && forall j | 0 <= j < 6 :: IsShifted(list[j], image, n, m, k, j)
  }

  /** Shifting by the j-th shift vector brings neighbour j onto every voxel. */
  lemma ShiftedByFaceOffset(image: Volume, n: nat, m: nat, k: nat, j: nat)
    requires Shaped(image, n, m, k) && j < 6
    ensures IsStep(FaceOffsets[j].dx) && IsStep(FaceOffsets[j].dy) && IsStep(FaceOffsets[j].dz)
    ensures IsShifted(Shift(image, n, m, k, FaceOffsets[j].dx, FaceOffsets[j].dy, FaceOffsets[j].dz), image, n, m, k, j)
  {
    var d := FaceOffsets[j];
    FaceOffsetsAreFaceNeighbours();
    assert d in FaceOffsets;
    assert Norm(d) == 1;
    var v := Shift(image, n, m, k, d.dx, d.dy, d.dz);
    forall x, y, z | InBounds(n, m, k, x, y, z)
      ensures v[x][y][z] == NeighbourValue(image, n, m, k, x, y, z, j)
    {
    }
  }

  /** The shifted images, one per shift vector in generation order (lines 89-94). */
  method ShiftList(image: Volume, n: nat, m: nat, k: nat) returns (list: seq<Volume>)
    requires Shaped(image, n, m, k)
    ensures IsShiftList(list, image, n, m, k)
  {
    list := [];
    var i := 0;
    while i < |FaceOffsets|
      invariant 0 <= i <= 6 && |list| == i
      invariant forall j | 0 <= j < i :: IsShifted(list[j], image, n, m, k, j)
    {
      var d := FaceOffsets[i];
      ShiftedByFaceOffset(image, n, m, k, i);
      list := list + [Shift(image, n, m, k, d.dx, d.dy, d.dz)];
      i := i + 1;
    }
  }

  /** The pattern number of one voxel, accumulated bit by bit over the shifted
      images (lines 103-115). */
  method VoxelCode(list: seq<Volume>, image: Volume, n: nat, m: nat, k: nat, x: int, y: int, z: int)
    returns (decimal: int)
    requires Shaped(image, n, m, k) && InBounds(n, m, k, x, y, z)
    requires IsShiftList(list, image, n, m, k)
    ensures decimal == RawCode(image, n, m, k, x, y, z)
  {
    ghost var bits := VoxelBits(image, n, m, k, x, y, z);
    decimal := 0;
    var j := 0;
    while j < |list|
      invariant 0 <= j <= 6
      invariant decimal == Code(bits[..j])
    {
      var b := Sign(list[j][x][y][z] - image[x][y][z]);
      var sign := if b == -1 then 0 else 1;
      ShiftedBit(list, image, n, m, k, x, y, z, j);
      CodePrefix(bits, j);
      decimal := decimal + sign * Pow2(j);
      j := j + 1;
    }
    assert bits[..6] == bits;
  }

  /** The bit read off the j-th shifted image is bit j of the voxel's pattern. */
  lemma ShiftedBit(list: seq<Volume>, image: Volume, n: nat, m: nat, k: nat, x: int, y: int, z: int, j: nat)
    requires Shaped(image, n, m, k) && InBounds(n, m, k, x, y, z)
    requires IsShiftList(list, image, n, m, k) && j < 6
    ensures (if Sign(list[j][x][y][z] - image[x][y][z]) == -1 then 0 else 1) == VoxelBits(image, n, m, k, x, y, z)[j]
  {
    assert IsShifted(list[j], image, n, m, k, j);
  }

  /** Voxel (x', y', z') comes before voxel (x, y, z) in the loop's order. */
  predicate Before(x': int, y': int, z': int, x: int, y: int, z: int)
  {
    x' < x || (x' == x && (y' < y || (y' == y && z' < z)))
  }

  /** What the result volume holds at a voxel once the loop has passed it:
      the canonical pattern at a masked voxel whose code has a row, else 0. */
  function Expected(image: Volume, mask: Volume, table: seq<Row>, n: nat, m: nat, k: nat, x: int, y: int, z: int): int
    requires Shaped(image, n, m, k) && Shaped(mask, n, m, k) && InBounds(n, m, k, x, y, z)
  {
    if mask[x][y][z] == 1.0 then
      var c := Canonical(table, RawCode(image, n, m, k, x, y, z));
      if c.Ok? then c.value else 0
    else 0
  }

  /** Every masked voxel's pattern number has a row in the table. */
  ghost predicate AllCovered(image: Volume, mask: Volume, table: seq<Row>, n: nat, m: nat, k: nat)
    requires Shaped(image, n, m, k) && Shaped(mask, n, m, k)
  {
    forall x, y, z | InBounds(n, m, k, x, y, z) && mask[x][y][z] == 1.0 ::
      HasRow(table, RawCode(image, n, m, k, x, y, z))
  }

  /** The invariant of the voxel loop at voxel (x, y, z): the voxels already
      passed hold their expected value and had their code found, the others
      are still 0. */
  ghost predicate Filled(result: array3<int>, image: Volume, mask: Volume, table: seq<Row>,
                         n: nat, m: nat, k: nat, x: int, y: int, z: int)
    requires Shaped(image, n, m, k) && Shaped(mask, n, m, k)
    requires result.Length0 == n && result.Length1 == m && result.Length2 == k
    reads result
  {
    forall x', y', z' | InBounds(n, m, k, x', y', z') ::
      (Before(x', y', z', x, y, z) ==>
        result[x', y', z'] == Expected(image, mask, table, n, m, k, x', y', z') &&
        (mask[x'][y'][z'] == 1.0 ==> HasRow(table, RawCode(image, n, m, k, x', y', z')))) &&
      (!Before(x', y', z', x, y, z) ==> result[x', y', z'] == 0)
  }

  /** The result volume of the voxel loop (lines 97-125): the canonical pattern
      at every voxel whose mask value is 1, 0 elsewhere. It fails exactly when
      some masked voxel's pattern number has no row. */
  method ComputeResult(list: seq<Volume>, image: Volume, mask: Volume, table: seq<Row>, n: nat, m: nat, k: nat)
    returns (ok: bool, result: array3<int>)
    requires Shaped(image, n, m, k) && Shaped(mask, n, m, k)
    requires IsShiftList(list, image, n, m, k)
    ensures fresh(result) && result.Length0 == n && result.Length1 == m && result.Length2 == k
    ensures ok <==> AllCovered(image, mask, table, n, m, k)
    ensures ok ==> forall x, y, z | InBounds(n, m, k, x, y, z) && mask[x][y][z] == 1.0 ::
      Canonical(table, RawCode(image, n, m, k, x, y, z)) == Ok(result[x, y, z])
    ensures ok ==> forall x, y, z | InBounds(n, m, k, x, y, z) && mask[x][y][z] != 1.0 :: result[x, y, z] == 0
  {
    result := new int[n, m, k]((x, y, z) => 0);
    var x := 0;
    while x < n
      invariant 0 <= x <= n
      invariant Filled(result, image, mask, table, n, m, k, x, 0, 0)
    {
      ok := FillPlane(list, image, mask, table, n, m, k, result, x);
      if !ok {
        return;
      }
      x := x + 1;
    }
    ok := true;
    FilledAll(result, image, mask, table, n, m, k);
  }

  /** The y and z loops over plane x. */
  method FillPlane(list: seq<Volume>, image: Volume, mask: Volume, table: seq<Row>, n: nat, m: nat, k: nat,
                   result: array3<int>, x: nat) returns (ok: bool)
    requires Shaped(image, n, m, k) && Shaped(mask, n, m, k)
    requires IsShiftList(list, image, n, m, k)
    requires result.Length0 == n && result.Length1 == m && result.Length2 == k && x < n
    requires Filled(result, image, mask, table, n, m, k, x, 0, 0)
    modifies result
    ensures ok ==> Filled(result, image, mask, table, n, m, k, x + 1, 0, 0)
    ensures !ok ==> !AllCovered(image, mask, table, n, m, k)
  {
    var y := 0;
    while y < m
      invariant 0 <= y <= m
      invariant Filled(result, image, mask, table, n, m, k, x, y, 0)
    {
      ok := FillRow(list, image, mask, table, n, m, k, result, x, y);
      if !ok {
        return;
      }
      y := y + 1;
    }
    ok := true;
    FilledPlane(result, image, mask, table, n, m, k, x);
  }

  /** The z loop over row (x, y): the pattern of each masked voxel, looked up
      and written; an unknown pattern number stops the loop. */
  method FillRow(list: seq<Volume>, image: Volume, mask: Volume, table: seq<Row>, n: nat, m: nat, k: nat,
                 result: array3<int>, x: nat, y: nat) returns (ok: bool)
    requires Shaped(image, n, m, k) && Shaped(mask, n, m, k)
    requires IsShiftList(list, image, n, m, k)
    requires result.Length0 == n && result.Length1 == m && result.Length2 == k && x < n && y < m
    requires Filled(result, image, mask, table, n, m, k, x, y, 0)
    modifies result
    ensures ok ==> Filled(result, image, mask, table, n, m, k, x, y + 1, 0)
    ensures !ok ==> !AllCovered(image, mask, table, n, m, k)
  {
    var z := 0;
    while z < k
      invariant 0 <= z <= k
      invariant Filled(result, image, mask, table, n, m, k, x, y, z)
    {
      ok := FillVoxel(list, image, mask, table, n, m, k, result, x, y, z);
      if !ok {
        return;
      }
      z := z + 1;
    }
    ok := true;
    FilledRow(result, image, mask, table, n, m, k, x, y);
  }

  /** The body of the z loop: a masked voxel gets its canonical pattern, and a
      pattern number with no row stops the loop. */
  method FillVoxel(list: seq<Volume>, image: Volume, mask: Volume, table: seq<Row>, n: nat, m: nat, k: nat,
                   result: array3<int>, x: nat, y: nat, z: nat) returns (ok: bool)
    requires Shaped(image, n, m, k) && Shaped(mask, n, m, k)
    requires IsShiftList(list, image, n, m, k)
    requires result.Length0 == n && result.Length1 == m && result.Length2 == k && x < n && y < m && z < k
    requires Filled(result, image, mask, table, n, m, k, x, y, z)
    modifies result
    ensures ok ==> Filled(result, image, mask, table, n, m, k, x, y, z + 1)
    ensures !ok ==> !AllCovered(image, mask, table, n, m, k)
  {
    ok := true;
    if mask[x][y][z] == 1.0 {
      var decimal := VoxelCode(list, image, n, m, k, x, y, z);
      var c := Canonical(table, decimal);
      if c.Err? {
        return false;
      }
      result[x, y, z] := c.value;
    }
  }

  lemma FilledRow(result: array3<int>, image: Volume, mask: Volume, table: seq<Row>, n: nat, m: nat, k: nat, x: nat, y: nat)
    requires Shaped(image, n, m, k) && Shaped(mask, n, m, k)
    requires result.Length0 == n && result.Length1 == m && result.Length2 == k && x < n && y < m
    requires Filled(result, image, mask, table, n, m, k, x, y, k)
    ensures Filled(result, image, mask, table, n, m, k, x, y + 1, 0)
  {
  }

  lemma FilledPlane(result: array3<int>, image: Volume, mask: Volume, table: seq<Row>, n: nat, m: nat, k: nat, x: nat)
    requires Shaped(image, n, m, k) && Shaped(mask, n, m, k)
    requires result.Length0 == n && result.Length1 == m && result.Length2 == k && x < n
    requires Filled(result, image, mask, table, n, m, k, x, m, 0)
    ensures Filled(result, image, mask, table, n, m, k, x + 1, 0, 0)
  {
  }

  lemma FilledAll(result: array3<int>, image: Volume, mask: Volume, table: seq<Row>, n: nat, m: nat, k: nat)
    requires Shaped(image, n, m, k) && Shaped(mask, n, m, k)
    requires result.Length0 == n && result.Length1 == m && result.Length2 == k
    requires Filled(result, image, mask, table, n, m, k, n, 0, 0)
    ensures AllCovered(image, mask, table, n, m, k)
    ensures forall x, y, z | InBounds(n, m, k, x, y, z) ::
      result[x, y, z] == Expected(image, mask, table, n, m, k, x, y, z)
  {
  }

  /** The result volume as a value: what the voxel loop leaves behind when it
      completes. */
  function ResultVolume(image: Volume, mask: Volume, table: seq<Row>, n: nat, m: nat, k: nat): (r: seq<seq<seq<int>>>)
    requires Shaped(image, n, m, k) && Shaped(mask, n, m, k)
    ensures Shaped(r, n, m, k)
  {
    seq(n, x requires 0 <= x < n =>
      seq(m, y requires 0 <= y < m =>
        seq(k, z requires 0 <= z < k => Expected(image, mask, table, n, m, k, x, y, z))))
  }

  /** `result[mask == 1]` (line 127): the values at the masked voxels in
      row-major order. */
  method SelectMasked(result: array3<int>, mask: Volume, n: nat, m: nat, k: nat, ghost vol: seq<seq<seq<int>>>)
    returns (sel: seq<int>)
    requires Shaped(vol, n, m, k) && Shaped(mask, n, m, k)
    requires result.Length0 == n && result.Length1 == m && result.Length2 == k
    requires forall x, y, z | InBounds(n, m, k, x, y, z) :: result[x, y, z] == vol[x][y][z]
    ensures sel == Select(vol, mask, n, m, k)
  {
    sel := [];
    var x := 0;
    while x < n
      invariant 0 <= x <= n
      invariant sel == SelectPlanes(vol, mask, n, m, k, x)
    {
      var plane := SelectMaskedPlane(result, mask, n, m, k, vol, x);
      sel := sel + plane;
      x := x + 1;
    }
  }

  /** The selection of plane x. */
  method SelectMaskedPlane(result: array3<int>, mask: Volume, n: nat, m: nat, k: nat, ghost vol: seq<seq<seq<int>>>, x: nat)
    returns (sel: seq<int>)
    requires Shaped(vol, n, m, k) && Shaped(mask, n, m, k) && x < n
    requires result.Length0 == n && result.Length1 == m && result.Length2 == k
    requires forall x, y, z | InBounds(n, m, k, x, y, z) :: result[x, y, z] == vol[x][y][z]
    ensures sel == SelectPlane(vol, mask, n, m, k, x, m)
  {
    sel := [];
    var y := 0;
    while y < m
      invariant 0 <= y <= m
      invariant sel == SelectPlane(vol, mask, n, m, k, x, y)
    {
      var row := SelectMaskedRow(result, mask, n, m, k, vol, x, y);
      sel := sel + row;
      y := y + 1;
    }
  }

  /** The selection of row (x, y). */
  method SelectMaskedRow(result: array3<int>, mask: Volume, n: nat, m: nat, k: nat, ghost vol: seq<seq<seq<int>>>, x: nat, y: nat)
    returns (sel: seq<int>)
    requires Shaped(vol, n, m, k) && Shaped(mask, n, m, k) && x < n && y < m
    requires result.Length0 == n && result.Length1 == m && result.Length2 == k
    requires forall x, y, z | InBounds(n, m, k, x, y, z) :: result[x, y, z] == vol[x][y][z]
    ensures sel == SelectRow(vol, mask, n, m, k, x, y, k)
  {
    sel := [];
    var z := 0;
    while z < k
      invariant 0 <= z <= k
      invariant sel == SelectRow(vol, mask, n, m, k, x, y, z)
    {
      if mask[x][y][z] == 1.0 {
        sel := sel + [result[x, y, z]];
      }
      z := z + 1;
    }
  }

  /** `Counter(mask_result)` (line 130): the distinct values in order of first
      occurrence, and how often each occurs. */
  method Tally(sel: seq<int>) returns (keys: seq<int>, counts: map<int, nat>)
    ensures keys == Distinct(sel)
    ensures forall v :: v in counts <==> v in sel
    ensures forall v | v in counts :: counts[v] == Count(sel, v)
  {
    keys := [];
    counts := map[];
    var i := 0;
    while i < |sel|
      invariant 0 <= i <= |sel|
      invariant keys == Distinct(sel[..i])
      invariant forall v :: v in counts <==> v in keys
      invariant forall v | v in counts :: counts[v] == Count(sel[..i], v)
    {
      var v := sel[i];
      ghost var keys0, counts0 := keys, counts;
      if v in counts {
        counts := counts[v := counts[v] + 1];
      } else {
        keys := keys + [v];
        counts := counts[v := 1];
      }
      TallyStep(sel, i, keys0, counts0, keys, counts);
      i := i + 1;
    }
    assert sel[..|sel|] == sel;
  }

  /** One more value seen: a value seen before has its count raised, a new one
      is appended to the keys with count 1. */
  lemma TallyStep(sel: seq<int>, i: nat, keys: seq<int>, counts: map<int, nat>, keys': seq<int>, counts': map<int, nat>)
    requires i < |sel|
    requires keys == Distinct(sel[..i])
    requires forall v :: v in counts <==> v in keys
    requires forall v | v in counts :: counts[v] == Count(sel[..i], v)
    requires keys' == if sel[i] in counts then keys else keys + [sel[i]]
    requires counts' == counts[sel[i] := if sel[i] in counts then counts[sel[i]] + 1 else 1]
    ensures keys' == Distinct(sel[..i + 1])
    ensures forall v :: v in counts' <==> v in keys'
    ensures forall v | v in counts' :: counts'[v] == Count(sel[..i + 1], v)
  {
    var v, done := sel[i], sel[..i];
    assert sel[..i + 1] == done + [v];
    DistinctSnoc(done, v);
    forall w | w in counts'
      ensures counts'[w] == Count(sel[..i + 1], w)
    {
      assert Count(done + [v], w) == Count(done, w) + if w == v then 1 else 0;
    }
  }

  /** `sum(frequency.values())` (line 133): the counts add up to the number
      of values counted. */
  method Total(sel: seq<int>, keys: seq<int>, counts: map<int, nat>) returns (total: nat)
    requires keys == Distinct(sel)
    requires forall v :: v in counts <==> v in sel
    requires forall v | v in counts :: counts[v] == Count(sel, v)
    ensures total == |sel|
  {
    total := 0;
    var i := 0;
    while i < |keys|
      invariant 0 <= i <= |keys|
      invariant total == SumCounts(sel, keys[..i])
    {
      assert keys[..i + 1][..i] == keys[..i];
      assert keys[i] in Distinct(sel);
      total := total + counts[keys[i]];
      i := i + 1;
    }
    assert keys[..|keys|] == keys;
    CountsAddUp(sel);
  }

  /** The feature vector from the counter (lines 133-142): each value's label
      set to its count over the total, in the counter's order. */
  method Normalise(sel: seq<int>, keys: seq<int>, counts: map<int, nat>, table: seq<Row>)
    returns (r: Result<map<string, real>, Error>)
    requires keys == Distinct(sel)
    requires forall v :: v in counts <==> v in sel
    requires forall v | v in counts :: counts[v] == Count(sel, v)
    ensures r == Frequencies(sel, table)
  {
    var total := Total(sel, keys, counts);
    assert AllIn(keys, sel);
    var d := map[];
    var i := 0;
    while i < |keys|
      invariant 0 <= i <= |keys|
      invariant AllIn(keys[..i], sel)
      invariant Insert(sel, table, keys[..i]) == Ok(d)
    {
      var v := keys[i];
      var key := LabelOf(table, v);
      assert keys[..i + 1][..i] == keys[..i];
      if key.Err? {
        InsertFails(sel, table, keys);
        return Err(MissingLabel);
      }
      assert counts[v] as real / total as real == Share(sel, v);
      d := d[key.value := counts[v] as real / total as real];
      i := i + 1;
    }
    assert keys[..|keys|] == keys;
    r := Ok(d);
  }

  /** What `feature_vector` returns: the missing-code failure when some masked
      voxel's pattern number has no row, otherwise the feature vector of the
      canonical patterns under the mask. */
  ghost function FeatureVectorSpec(image: Volume, mask: Volume, table: seq<Row>, n: nat, m: nat, k: nat): Result<map<string, real>, Error>
    requires Shaped(image, n, m, k) && Shaped(mask, n, m, k)
  {
    if !AllCovered(image, mask, table, n, m, k) then Err(MissingCode)
    else Frequencies(MaskedPatterns(image, mask, table, n, m, k), table)
  }

  /** `LBPFeature.feature_vector` (lines 69-142) on a given image, mask and table. */
  method FeatureVector(image: Volume, mask: Volume, table: seq<Row>, n: nat, m: nat, k: nat)
    returns (r: Result<map<string, real>, Error>)
    requires Shaped(image, n, m, k) && Shaped(mask, n, m, k)
    ensures r == FeatureVectorSpec(image, mask, table, n, m, k)
  {
    var list := ShiftList(image, n, m, k);
    var ok, result := ComputeResult(list, image, mask, table, n, m, k);
    if !ok {
      return Err(MissingCode);
    }
    ghost var vol := ResultVolume(image, mask, table, n, m, k);
    var sel := SelectMasked(result, mask, n, m, k, vol);
    var keys, counts := Tally(sel);
    r := Normalise(sel, keys, counts, table);
  }

  /** The canonical patterns of the masked voxels, in the order the counter sees them. */
  function MaskedPatterns(image: Volume, mask: Volume, table: seq<Row>, n: nat, m: nat, k: nat): seq<int>
    requires Shaped(image, n, m, k) && Shaped(mask, n, m, k)
  {
    Select(ResultVolume(image, mask, table, n, m, k), mask, n, m, k)
  }

  /** With no voxel whose mask value is 1 the feature vector is empty, and no
      division is performed. */
  lemma EmptyMask(image: Volume, mask: Volume, table: seq<Row>, n: nat, m: nat, k: nat)
    requires Shaped(image, n, m, k) && Shaped(mask, n, m, k)
    requires forall x, y, z | InBounds(n, m, k, x, y, z) :: mask[x][y][z] != 1.0
    ensures FeatureVectorSpec(image, mask, table, n, m, k) == Ok(map[])
  {
    SelectMembers(ResultVolume(image, mask, table, n, m, k), mask, n, m, k);
  }

  /** Every masked pattern is the canonical value of some row. */
  lemma MaskedPatternsAreCanonical(image: Volume, mask: Volume, table: seq<Row>, n: nat, m: nat, k: nat)
    requires Shaped(image, n, m, k) && Shaped(mask, n, m, k)
    requires AllCovered(image, mask, table, n, m, k)
    ensures forall v | v in MaskedPatterns(image, mask, table, n, m, k) ::
      exists i | 0 <= i < |table| :: table[i].minvalue == v
  {
    var vol := ResultVolume(image, mask, table, n, m, k);
    SelectMembers(vol, mask, n, m, k);
    forall v | v in MaskedPatterns(image, mask, table, n, m, k)
      ensures exists i | 0 <= i < |table| :: table[i].minvalue == v
    {
      var x, y, z :| Selected(mask, n, m, k, x, y, z) && vol[x][y][z] == v;
      var i := FirstMatch(table, RawCode(image, n, m, k, x, y, z)).value;
      assert table[i].minvalue == v;
    }
  }

  /** A table with a row for every 6-bit pattern number, whose canonical values
      all have rows of their own, never makes the computation fail. */
  lemma CompleteTableSucceeds(image: Volume, mask: Volume, table: seq<Row>, n: nat, m: nat, k: nat)
    requires Shaped(image, n, m, k) && Shaped(mask, n, m, k)
    requires CoversCodes(table) && LabelsClosed(table)
    ensures AllCovered(image, mask, table, n, m, k)
    ensures FeatureVectorSpec(image, mask, table, n, m, k).Ok?
  {
    forall x, y, z | InBounds(n, m, k, x, y, z) && mask[x][y][z] == 1.0
      ensures HasRow(table, RawCode(image, n, m, k, x, y, z))
    {
      RawCodeBits(image, n, m, k, x, y, z);
    }
    var s := MaskedPatterns(image, mask, table, n, m, k);
    MaskedPatternsAreCanonical(image, mask, table, n, m, k);
    forall v | v in s
      ensures HasRow(table, v)
    {
      var i :| 0 <= i < |table| && table[i].minvalue == v;
    }
    FrequenciesOk(s, table);
  }

  /** With a complete table whose distinct canonical values carry distinct
      labels and at least one masked voxel, each masked pattern's label holds
      the share of the masked voxels with that pattern, and these entries add
      up to 1. */
  lemma FeatureVectorNormalised(image: Volume, mask: Volume, table: seq<Row>, n: nat, m: nat, k: nat)
    requires Shaped(image, n, m, k) && Shaped(mask, n, m, k)
    requires CoversCodes(table) && LabelsClosed(table) && CanonicalLabelsDistinct(table)
    requires exists x, y, z | InBounds(n, m, k, x, y, z) :: mask[x][y][z] == 1.0
    ensures FeatureVectorSpec(image, mask, table, n, m, k).Ok?
    ensures forall v | v in MaskedPatterns(image, mask, table, n, m, k) ::
      (LabelOf(table, v).Ok? && LabelOf(table, v).value in FeatureVectorSpec(image, mask, table, n, m, k).value &&
       FeatureVectorSpec(image, mask, table, n, m, k).value[LabelOf(table, v).value] ==
         Share(MaskedPatterns(image, mask, table, n, m, k), v))
    ensures |FeatureVectorSpec(image, mask, table, n, m, k).value| == |Distinct(MaskedPatterns(image, mask, table, n, m, k))|
    ensures forall l | l in FeatureVectorSpec(image, mask, table, n, m, k).value ::
      exists v | v in MaskedPatterns(image, mask, table, n, m, k) :: LabelOf(table, v) == Ok(l)
    ensures forall l | l in FeatureVectorSpec(image, mask, table, n, m, k).value ::
      0.0 < FeatureVectorSpec(image, mask, table, n, m, k).value[l] <= 1.0
    ensures SumEntries(FeatureVectorSpec(image, mask, table, n, m, k).value, table,
                       Distinct(MaskedPatterns(image, mask, table, n, m, k))) == 1.0
  {
    CompleteTableSucceeds(image, mask, table, n, m, k);
    MaskedPatternsAreCanonical(image, mask, table, n, m, k);
    var s := MaskedPatterns(image, mask, table, n, m, k);
    var d := FeatureVectorSpec(image, mask, table, n, m, k).value;
    SelectMembers(ResultVolume(image, mask, table, n, m, k), mask, n, m, k);
    MaskedLabelsInjective(table, s);
    FrequenciesShares(s, table, d);
    FrequenciesSumToOne(s, table, d);
  }

  /** Whatever the table, every entry of a computed feature vector is the share
      of the masked voxels holding some masked pattern with that label, so it
      lies in (0, 1]. */
  lemma FeatureVectorEntries(image: Volume, mask: Volume, table: seq<Row>, n: nat, m: nat, k: nat)
    requires Shaped(image, n, m, k) && Shaped(mask, n, m, k)
    requires FeatureVectorSpec(image, mask, table, n, m, k).Ok?
    ensures forall l | l in FeatureVectorSpec(image, mask, table, n, m, k).value ::
      exists v | v in MaskedPatterns(image, mask, table, n, m, k) ::
        LabelOf(table, v) == Ok(l) &&
        FeatureVectorSpec(image, mask, table, n, m, k).value[l] == Share(MaskedPatterns(image, mask, table, n, m, k), v)
    ensures forall l | l in FeatureVectorSpec(image, mask, table, n, m, k).value ::
      0.0 < FeatureVectorSpec(image, mask, table, n, m, k).value[l] <= 1.0
  {
    FrequenciesLabels(MaskedPatterns(image, mask, table, n, m, k), table, FeatureVectorSpec(image, mask, table, n, m, k).value);
  }

  /** Canonical values with distinct labels keep any list of canonical values
      free of label clashes. */
  lemma MaskedLabelsInjective(table: seq<Row>, s: seq<int>)
    requires CanonicalLabelsDistinct(table)
    requires forall v | v in s :: exists i | 0 <= i < |table| :: table[i].minvalue == v
    ensures LabelsInjective(table, s)
  {
    forall v, w | v in s && w in s && v != w
      ensures LabelOf(table, v) != LabelOf(table, w)
    {
      var i :| 0 <= i < |table| && table[i].minvalue == v;
      var j :| 0 <= j < |table| && table[j].minvalue == w;
    }
  }

  /** The counter sees one pattern per masked voxel: its counts add up to the
      number of voxels whose mask value is 1, and the count of a canonical
      pattern is the number of masked voxels whose result holds it. */
  lemma MaskedCounts(image: Volume, mask: Volume, table: seq<Row>, n: nat, m: nat, k: nat)
    requires Shaped(image, n, m, k) && Shaped(mask, n, m, k)
    ensures SumCounts(MaskedPatterns(image, mask, table, n, m, k), Distinct(MaskedPatterns(image, mask, table, n, m, k)))
      == |MaskedVoxels(mask, n, m, k)|
    ensures forall c ::
      Count(MaskedPatterns(image, mask, table, n, m, k), c) ==
      |MaskedVoxelsHolding(ResultVolume(image, mask, table, n, m, k), mask, n, m, k, c)|
  {
    SelectCounts(ResultVolume(image, mask, table, n, m, k), mask, n, m, k);
    CountsAddUp(MaskedPatterns(image, mask, table, n, m, k));
  }
}
