/** The zero-padded neighbour shift of `LBPFeature.shift`. */
module NeighbourShift {
  import opened Grid

  /** One component of a shift vector: the generated offsets only use -1, 0 and 1. */
  predicate IsStep(d: int)
  {
    -1 <= d <= 1
  }

  /** The intensity of the voxel (x, y, z), or 0 when that position lies outside
      the grid: what the zero padding supplies. */
  function Neighbour(image: Volume, n: nat, m: nat, k: nat, x: int, y: int, z: int): real
    requires Shaped(image, n, m, k)
  {
    if InBounds(n, m, k, x, y, z) then image[x][y][z] else 0.0
  }

  /** The zero buffer three times larger than the image on each axis, with the
      image copied into its centre block [n, 2n) × [m, 2m) × [k, 2k). */
  function Padded(image: Volume, n: nat, m: nat, k: nat): (e: Volume)
    requires Shaped(image, n, m, k)
    ensures Shaped(e, 3 * n, 3 * m, 3 * k)
  {
    seq(3 * n, X =>
      seq(3 * m, Y =>
        seq(3 * k, Z =>
          if n <= X < 2 * n && m <= Y < 2 * m && k <= Z < 2 * k then image[X - n][Y - m][Z - k] else 0.0)))
  }

  /** The n×m×k window of the padded buffer starting at (n + dy, m - dx, k - dz).
      Its voxel (x, y, z) is the image voxel (x + dy, y - dx, z - dz), or 0 when
      that lies outside the grid; note that dy moves the first axis and dx the
      second. Every read stays inside the 3n×3m×3k buffer (the index checks of
      the body), and the image itself is a value that nothing changes. */
  function Shift(image: Volume, n: nat, m: nat, k: nat, dx: int, dy: int, dz: int): (r: Volume)
    requires Shaped(image, n, m, k)
    requires IsStep(dx) && IsStep(dy) && IsStep(dz)
    ensures Shaped(r, n, m, k)
    ensures forall x, y, z | InBounds(n, m, k, x, y, z) ::
      r[x][y][z] == Neighbour(image, n, m, k, x + dy, y - dx, z - dz)
  {
    var extended := Padded(image, n, m, k);
    var x0, y0, z0 := n + dy, m - dx, k - dz;
    seq(n, x requires 0 <= x < n =>
      seq(m, y requires 0 <= y < m =>
        seq(k, z requires 0 <= z < k => extended[x0 + x][y0 + y][z0 + z])))
  }

  /** The zero shift vector leaves the image as it is. */
  lemma ShiftByZero(image: Volume, n: nat, m: nat, k: nat)
    requires Shaped(image, n, m, k)
    ensures Shift(image, n, m, k, 0, 0, 0) == image
  {
    var r := Shift(image, n, m, k, 0, 0, 0);
    forall x | 0 <= x < n
      ensures r[x] == image[x]
    {
      forall y | 0 <= y < m
        ensures r[x][y] == image[x][y]
      {
        assert forall z | 0 <= z < k :: r[x][y][z] == image[x][y][z];
      }
    }
  }

  /** Shifting back by the opposite vector restores every voxel whose
      neighbour lay inside the grid; the others read the zero padding. */
  lemma ShiftBack(image: Volume, n: nat, m: nat, k: nat, dx: int, dy: int, dz: int)
    requires Shaped(image, n, m, k)
    requires IsStep(dx) && IsStep(dy) && IsStep(dz)
    ensures forall x, y, z | InBounds(n, m, k, x, y, z) ::
      Shift(Shift(image, n, m, k, dx, dy, dz), n, m, k, -dx, -dy, -dz)[x][y][z] ==
      if InBounds(n, m, k, x - dy, y + dx, z + dz) then image[x][y][z] else 0.0
  {
    var s := Shift(image, n, m, k, dx, dy, dz);
    var r := Shift(s, n, m, k, -dx, -dy, -dz);
    forall x, y, z | InBounds(n, m, k, x, y, z)
      ensures r[x][y][z] == if InBounds(n, m, k, x - dy, y + dx, z + dz) then image[x][y][z] else 0.0
    {
      if InBounds(n, m, k, x - dy, y + dx, z + dz) {
        assert r[x][y][z] == s[x - dy][y + dx][z + dz];
      }
    }
  }
}
