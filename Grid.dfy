/** Three-dimensional grids of voxels, indexed [x][y][z] as the numpy arrays
    of LBP3d.py are. */
module Grid {

  /** A volume of real-valued intensities (the image, the mask, a shifted image). */
  type Volume = seq<seq<seq<real>>>

  /** `v` has n planes, each of m rows, each of k voxels. */
  predicate Shaped<T>(v: seq<seq<seq<T>>>, n: nat, m: nat, k: nat)
  {
    |v| == n &&
    forall x | 0 <= x < n :: |v[x]| == m && forall y | 0 <= y < m :: |v[x][y]| == k
  }

  /** (x, y, z) is a voxel of an n×m×k grid. */
  predicate InBounds(n: nat, m: nat, k: nat, x: int, y: int, z: int)
  {
    0 <= x < n && 0 <= y < m && 0 <= z < k
  }
}
