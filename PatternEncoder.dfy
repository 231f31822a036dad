/** The 6-bit local binary pattern of one voxel: each face neighbour is
    compared with the centre and the comparisons are read as a binary number,
    bit j belonging to the shift vector FaceOffsets[j]. */
module PatternEncoder {
  import opened Grid
  import opened NeighbourShift
  import opened Offsets

  /** The sign of an exact real: -1, 0 or 1 (numpy's `sign`). */
  function Sign(v: real): int
  {
    if v < 0.0 then -1 else if v > 0.0 then 1 else 0
  }

  /** The bit a neighbour contributes: 0 when the sign of the difference is -1,
      1 otherwise. So a tie sets the bit. */
  function Bit(neighbour: real, centre: real): (b: int)
    ensures b == 0 || b == 1
    ensures b == 1 <==> neighbour >= centre
  {
    if Sign(neighbour - centre) == -1 then 0 else 1
  }

  function Pow2(j: nat): nat
  {
    if j == 0 then 1 else 2 * Pow2(j - 1)
  }

  predicate IsBits(b: seq<int>)
  {
    forall j | 0 <= j < |b| :: b[j] == 0 || b[j] == 1
  }

  /** The number whose binary digits, least significant first, are b,
      i.e. the sum of b[j]·2^j. It fits in |b| bits. */
  function Code(b: seq<int>): (c: int)
    requires IsBits(b)
    ensures 0 <= c < Pow2(|b|)
  {
    if b == [] then 0 else b[0] + 2 * Code(b[1..])
  }

  /** The len lowest binary digits of c, least significant first. */
  function Decode(c: nat, len: nat): (b: seq<int>)
    ensures |b| == len && IsBits(b)
  {
    if len == 0 then [] else [c % 2] + Decode(c / 2, len - 1)
  }

  /** Reading the digits back out of a code gives the digits. */
  lemma {:induction false} DecodeCode(b: seq<int>)
    requires IsBits(b)
    ensures Decode(Code(b), |b|) == b
  {
    if b != [] {
      DecodeCode(b[1..]);
      assert [b[0]] + b[1..] == b;
    }
  }

  /** Every number below 2^len is the code of its len digits. */
  lemma {:induction false} CodeDecode(c: nat, len: nat)
    requires c < Pow2(len)
    ensures Code(Decode(c, len)) == c
  {
    if len > 0 {
      CodeDecode(c / 2, len - 1);
      assert Decode(c, len)[1..] == Decode(c / 2, len - 1);
    }
  }

  /** Appending digit x as the new most significant bit adds x·2^|b|: the step
      the accumulating loop takes. */
  lemma {:induction false} CodeSnoc(b: seq<int>, x: int)
    requires IsBits(b) && (x == 0 || x == 1)
    ensures IsBits(b + [x])
    ensures Code(b + [x]) == Code(b) + x * Pow2(|b|)
  {
    if b == [] {
      assert b + [x] == [x];
      assert [x][1..] == [];
    } else {
      assert (b + [x])[1..] == b[1..] + [x];
      CodeSnoc(b[1..], x);
      assert Pow2(|b|) == 2 * Pow2(|b| - 1);
    }
  }

  /** The code of the first j + 1 digits adds digit j, worth 2^j, to the code
      of the first j. */
  lemma CodePrefix(b: seq<int>, j: nat)
    requires IsBits(b) && j < |b|
    ensures Code(b[..j + 1]) == Code(b[..j]) + b[j] * Pow2(j)
  {
    assert b[..j + 1] == b[..j] + [b[j]];
    CodeSnoc(b[..j], b[j]);
  }

  /** The intensity that the j-th shifted image holds at voxel (x, y, z). */
  function NeighbourValue(image: Volume, n: nat, m: nat, k: nat, x: int, y: int, z: int, j: nat): real
    requires Shaped(image, n, m, k) && j < 6
  {
    var d := FaceOffsets[j];
    Neighbour(image, n, m, k, x + d.dy, y - d.dx, z - d.dz)
  }

  /** The six comparison bits of voxel (x, y, z), bit j for neighbour j. */
  function VoxelBits(image: Volume, n: nat, m: nat, k: nat, x: int, y: int, z: int): (b: seq<int>)
    requires Shaped(image, n, m, k) && InBounds(n, m, k, x, y, z)
    ensures |b| == 6 && IsBits(b)
  {
    seq(6, j requires 0 <= j < 6 => Bit(NeighbourValue(image, n, m, k, x, y, z, j), image[x][y][z]))
  }

  /** The pattern number of voxel (x, y, z) before the table lookup. */
  function RawCode(image: Volume, n: nat, m: nat, k: nat, x: int, y: int, z: int): int
    requires Shaped(image, n, m, k) && InBounds(n, m, k, x, y, z)
  {
    Code(VoxelBits(image, n, m, k, x, y, z))
  }

  /** A pattern number lies in [0, 63], and its bit j is set exactly when
      neighbour j is not below the centre. */
  lemma RawCodeBits(image: Volume, n: nat, m: nat, k: nat, x: int, y: int, z: int)
    requires Shaped(image, n, m, k) && InBounds(n, m, k, x, y, z)
    ensures 0 <= RawCode(image, n, m, k, x, y, z) < 64
    ensures forall j | 0 <= j < 6 ::
      Decode(RawCode(image, n, m, k, x, y, z), 6)[j] == 1 <==>
      NeighbourValue(image, n, m, k, x, y, z, j) >= image[x][y][z]
  {
    assert Pow2(6) == 64;
    DecodeCode(VoxelBits(image, n, m, k, x, y, z));
  }

  /** Every voxel of a volume of one constant intensity whose six neighbours
      all lie inside the grid has pattern 63. */
  lemma ConstantInterior(image: Volume, n: nat, m: nat, k: nat, c: real, x: int, y: int, z: int)
    requires Shaped(image, n, m, k)
    requires forall x', y', z' | InBounds(n, m, k, x', y', z') :: image[x'][y'][z'] == c
    requires 1 <= x < n - 1 && 1 <= y < m - 1 && 1 <= z < k - 1
    ensures RawCode(image, n, m, k, x, y, z) == 63
  {
    var b := VoxelBits(image, n, m, k, x, y, z);
    forall j | 0 <= j < 6
      ensures b[j] == 1
    {
      var d := FaceOffsets[j];
      assert InBounds(n, m, k, x + d.dy, y - d.dx, z - d.dz);
    }
    AllOnes(b);
    assert Pow2(6) == 64;
  }

  /** A code with every bit set is 2^|b| - 1. */
  lemma {:induction false} AllOnes(b: seq<int>)
    requires forall j | 0 <= j < |b| :: b[j] == 1
    ensures IsBits(b) && Code(b) == Pow2(|b|) - 1
  {
    if b != [] {
      AllOnes(b[1..]);
    }
  }

  /** Outside the grid the zero padding is read: a voxel of positive intensity
      on the face x = 0 has bit 2 (shift vector (0, -1, 0), which moves the
      first axis) clear, whatever the rest of the image holds. */
  lemma FaceReadsPadding(image: Volume, n: nat, m: nat, k: nat, y: int, z: int)
    requires Shaped(image, n, m, k) && InBounds(n, m, k, 0, y, z)
    requires image[0][y][z] > 0.0
    ensures Decode(RawCode(image, n, m, k, 0, y, z), 6)[2] == 0
  {
    RawCodeBits(image, n, m, k, 0, y, z);
    assert NeighbourValue(image, n, m, k, 0, y, z, 2) == 0.0;
  }
}
