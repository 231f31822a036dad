# 3D local binary pattern feature vector

This project models `LBPFeature` from `LBP3d.py`. The class computes a
rotation-invariant local binary pattern (LBP) histogram of a 3D image inside
a mask.

- Each face neighbour of a voxel is read through a zero-padded shift of the
  image (`shift`).
- The six comparisons with the centre form a 6-bit pattern number.
- A pattern table maps the number to its canonical (rotation-invariant)
  pattern and label.
- The canonical patterns of the voxels whose mask value is 1 are counted.
- Each label's share of the masked voxels becomes one entry of the feature
  vector (`feature_vector`).

Modules:

- `Grid`: volumes as nested sequences of reals, with their shape.
- `NeighbourShift`: `shift`, as a function on values: the padded buffer and
  the window read from it.
- `Offsets`: the generation of the six shift vectors (the merged
  `[-1, 1, 0]` columns filtered to unit rows), and the order it produces.
- `PatternEncoder`: the comparison bit, the binary code and its decoding,
  and the pattern number of one voxel.
- `PatternTable`: the pattern table as a list of rows, and the first-row
  lookups of the canonical value and of the label.
- `Selection`: `result[mask == 1]`, with the membership and counting facts
  about it.
- `Histogram`: the `Counter` (distinct values in first-occurrence order and
  their counts) and the dictionary of shares.
- `Feature`: `feature_vector` as imperative code.
  - `ShiftList` builds the shift list.
  - `VoxelCode` accumulates the bits of one voxel.
  - `ComputeResult`, `FillPlane`, `FillRow` and `FillVoxel` write the result
    volume, which is an `array3`, in the source's nested-loop order.
  - `SelectMasked`, `Tally`, `Total` and `Normalise` are the selection, the
    counter, the total and the dictionary loop.
  - Each method is proved against the specification functions of the other
    modules. `FeatureVector` is proved equal to `FeatureVectorSpec`.

A missing table row is an error, not a skipped voxel. The guard
`if np.where(...)` on lines 119-121 and 136 is always true, because
`np.where` returns a non-empty tuple. So a pattern number or label with no
row reaches `.values[0]` and raises `IndexError`. The model returns
`Err(MissingCode)` (the canonical lookup, line 125) or `Err(MissingLabel)`
(the label lookup, line 138) in those cases. The class docstring lists the
shift vectors in a different order from the one the code generates. The
model follows the code: (-1,0,0), (1,0,0), (0,-1,0), (0,1,0), (0,0,-1),
(0,0,1). So bit j belongs to `FaceOffsets[j]`.

## Model

| member | source | states |
|---|---|---|
| NeighbourShift.Shift | LBP3d.py:59-67 | the result has the image's shape; voxel (x, y, z) holds image voxel (x+dy, y−dx, z−dz), or 0 when that lies outside the grid |
| NeighbourShift.ShiftByZero | LBP3d.py:59-67 | the zero shift vector returns the image unchanged |
| NeighbourShift.ShiftBack | LBP3d.py:59-67 | shifting back by the opposite vector restores every voxel whose neighbour was inside the grid; the others become 0 |
| Offsets.GeneratedOrder | LBP3d.py:71-84 | filtering the 27 merged rows of [-1, 1, 0] to those with absolute sum 1 gives exactly FaceOffsets, in that order |
| Offsets.FaceOffsetsAreFaceNeighbours | LBP3d.py:81-84 | there are six shift vectors, pairwise distinct, and they are exactly the integer vectors with absolute components summing to 1 |
| Offsets.KeepUnitAppend | LBP3d.py:84 | the row filter distributes over concatenation and keeps the row order |
| Feature.ShiftedByFaceOffset | LBP3d.py:89-94 | every generated vector has components in -1..1, and shifting by the j-th vector brings neighbour j onto every voxel |
| Feature.ShiftList | LBP3d.py:89-94 | the shift list has six images, and image j is the image shifted by the j-th generated vector |
| PatternEncoder.Bit | LBP3d.py:106-113 | the bit is 0 or 1, and it is 1 exactly when the neighbour is not below the centre (a tie sets it) |
| PatternEncoder.Code | LBP3d.py:103-115 | the sum of b[j]·2^j lies in [0, 2^len), len being the number of bits |
| PatternEncoder.Decode | LBP3d.py:115 | the len lowest binary digits of a number are len bits |
| PatternEncoder.DecodeCode | LBP3d.py:115 | decoding a code gives back its bits |
| PatternEncoder.CodeDecode | LBP3d.py:115 | every number below 2^len is the code of its len bits, so codes and bit strings correspond one to one |
| PatternEncoder.CodeSnoc | LBP3d.py:115 | appending bit x to len bits adds x·2^len to the code, which is the loop's accumulation step |
| PatternEncoder.CodePrefix | LBP3d.py:115 | the code of the first j+1 bits is the code of the first j plus bit j times 2^j |
| PatternEncoder.RawCodeBits | LBP3d.py:103-115 | a voxel's pattern number lies in [0, 63], and its bit j is set exactly when neighbour j is not below the centre |
| PatternEncoder.ConstantInterior | LBP3d.py:103-115 | in a constant image every voxel whose six neighbours lie inside the grid has pattern 63 |
| PatternEncoder.AllOnes | LBP3d.py:115 | a code whose bits are all set is 2^len − 1 for len bits |
| PatternEncoder.FaceReadsPadding | LBP3d.py:59-67 | a voxel of positive intensity on the face x = 0 reads the zero padding, so bit 2 is clear whatever the rest of the image holds |
| Feature.ShiftedBit | LBP3d.py:106-113 | the bit read from the j-th shifted image is bit j of the voxel's pattern |
| Feature.VoxelCode | LBP3d.py:103-115 | the accumulated decimal equals the voxel's pattern number, i.e. the code of its six comparison bits |
| PatternTable.FirstMatch | LBP3d.py:123-125 | no index exactly when no row has the key; otherwise the first row whose `original` is the key |
| PatternTable.Canonical | LBP3d.py:119-125 | the canonical lookup succeeds exactly when some row's `original` is the code |
| PatternTable.LabelOf | LBP3d.py:136-138 | the label lookup (also on the `original` column) succeeds exactly when some row's `original` is the value |
| PatternTable.LookupFirstRow | LBP3d.py:123-125 | both lookups return the fields of the first matching row, as `.values[0]` picks it |
| PatternTable.CompleteTable | LBP3d.py:119-138 | a table with a row for every 6-bit number, whose canonical values have rows too, makes neither lookup fail |
| Feature.ComputeResult | LBP3d.py:97-125 | succeeds exactly when every masked voxel's pattern number has a row; then each masked voxel holds its canonical pattern and every other voxel holds 0 |
| Feature.FillPlane | LBP3d.py:99-125 | after plane x every voxel before plane x+1 holds its expected value and the rest are 0; a failure means some masked pattern has no row |
| Feature.FillRow | LBP3d.py:100-125 | the same for one row |
| Feature.FillVoxel | LBP3d.py:102-125 | the same for one voxel: a masked voxel gets its canonical pattern, and an unknown pattern number stops the loop |
| Feature.FilledAll | LBP3d.py:97-125 | once the loops finish, every masked pattern number has a row and every voxel holds its expected value |
| Selection.SelectMembers | LBP3d.py:127 | a value is selected exactly when some voxel with mask value 1 holds it; nothing is selected exactly when no mask value is 1 |
| Selection.SelectCounts | LBP3d.py:127 | one value is selected per voxel with mask value 1, and each value is selected as often as there are such voxels holding it |
| Selection.PlanesHits | LBP3d.py:127 | the selection from planes 0..x−1 admits as many values as those planes hold matching voxels |
| Selection.PlanesCounted | LBP3d.py:127 | that number of matching voxels is the size of the set of matching voxels |
| Feature.SelectMasked | LBP3d.py:127 | the masked values read from the result array, in row-major order, are `Select` of the result volume |
| Histogram.Distinct | LBP3d.py:130 | the counter's keys have the same members as the input and no duplicates |
| Histogram.DistinctOrder | LBP3d.py:130 | the counter lists its keys in order of first occurrence: every occurrence of a later key in the input comes after some occurrence of an earlier key |
| Histogram.DistinctSnoc | LBP3d.py:130 | one more value appends a new key, or leaves the keys as they are for a value already seen, and raises that value's count by one |
| Feature.Tally | LBP3d.py:130 | the keys are the distinct values in order of first occurrence; the counts are defined exactly on the input's values and give each value's number of occurrences |
| Histogram.CountsAddUp | LBP3d.py:130-133 | the counts over the counter's keys add up to the number of values counted |
| Histogram.CountBound | LBP3d.py:130 | a count is at most the number of values, and positive for a value that occurs |
| Feature.Total | LBP3d.py:133 | `sum(frequency.values())` is the number of selected values |
| Feature.Normalise | LBP3d.py:133-142 | the dictionary loop returns the feature vector of the selected values, or the missing-label error |
| Histogram.InsertFails | LBP3d.py:134-140 | filling the dictionary fails exactly when some key has no row, and the only error is the missing label |
| Histogram.InsertKeys | LBP3d.py:134-140 | a filled dictionary holds the label of every key |
| Histogram.InsertOnlyKeys | LBP3d.py:134-140 | a filled dictionary holds no label other than the keys' labels, and each entry is the share of some key carrying that label |
| Histogram.InsertLastWins | LBP3d.py:134-140 | each label holds the share of the last key that carries it, because later writes overwrite earlier ones |
| Histogram.ShareRange | LBP3d.py:139 | each share lies in (0, 1] |
| Histogram.SumSharesCounts | LBP3d.py:133-139 | the shares over the keys add up to the counts over the total |
| Histogram.SumEntriesShares | LBP3d.py:134-140 | where each key's entry is its share, the entries add up to the shares |
| Histogram.FrequenciesOk | LBP3d.py:130-142 | the feature vector is built exactly when every counted value has a row; otherwise the error is the missing label |
| Histogram.FrequenciesLabels | LBP3d.py:134-140 | every label of the feature vector is the label of a counted value and holds that value's share, so every entry lies in (0, 1] |
| Histogram.FrequenciesShares | LBP3d.py:134-140 | when distinct values have distinct labels, each counted value's label holds the value's share |
| Histogram.FrequenciesSumToOne | LBP3d.py:133-142 | when distinct values have distinct labels, the feature vector of a non-empty histogram has one entry per distinct value, holds only labels of counted values, has every entry in (0, 1], and its entries add up to 1 |
| Histogram.InsertSize | LBP3d.py:134-140 | when distinct keys have distinct labels, the filled dictionary has exactly one entry per key |
| Feature.FeatureVector | LBP3d.py:69-142 | the method returns `FeatureVectorSpec`: the missing-code error when some masked pattern number has no row, otherwise the feature vector of the masked canonical patterns |
| Feature.EmptyMask | LBP3d.py:127-142 | with no voxel of mask value 1 the feature vector is the empty dictionary, and no division happens |
| Feature.MaskedPatternsAreCanonical | LBP3d.py:119-127 | every value the counter sees is the canonical value of some row |
| Feature.CompleteTableSucceeds | LBP3d.py:119-142 | with a complete, closed table the computation never fails |
| Feature.FeatureVectorNormalised | LBP3d.py:130-142 | with a complete table, distinct labels for distinct canonical values and a non-empty mask, each masked pattern's label holds the share of masked voxels with that pattern; the dictionary has one entry per distinct masked pattern and no label of another pattern, every entry lies in (0, 1], and the entries add up to 1 |
| Feature.FeatureVectorEntries | LBP3d.py:130-142 | for any table, every entry of a computed feature vector is the share of some masked pattern carrying that label, so it lies in (0, 1] |
| Feature.MaskedLabelsInjective | LBP3d.py:136-138 | canonical values with distinct labels give any list of canonical values distinct labels |
| Feature.MaskedCounts | LBP3d.py:127-133 | the counts add up to the number of voxels with mask value 1, and each pattern's count is the number of masked voxels holding it |

## Left out

- `__init__` is not modelled: loading the image and the mask with nibabel and reading `rotation_invariant_pattern.txt` with pandas. The image, the mask, their shape n×m×k and the table rows are parameters.
- Floating point is not modelled. Intensities and mask values are exact reals, so `np.sign` and the `== 1` mask test are exact, there are no NaNs, and each share is an exact quotient rather than a rounded float.
- The result volume has the image's float dtype in the source. The model holds integers, which are the table's `minvalue` entries and 0.
- The pattern table is a list of rows with the columns `original`, `minvalue` and `rotation_invariant`. pandas indexing, and the CSV parsing behind it, is not modelled beyond "the first row whose `original` matches".
- `IndexError` is modelled by the two payload-less errors `MissingCode` and `MissingLabel`. A partly written result volume, which the exception leaves behind, is not part of the result.
- The `Counter` is modelled as the list of its keys in insertion order plus a map from key to count. The feature vector dictionary is a `map`, so its insertion order is not modelled; only its contents are.
- The pandas merge that generates the shift vectors is modelled as the cartesian product it produces on the shared zero index, not as a general join.
- Feature.FeatureVector: requires the mask to have the image's shape n×m×k. With a smaller mask the source raises `IndexError` at `self.mask[x,y,z]` (line 102), and with a larger one at the boolean index `result[self.mask==1]` (line 127); that error path is not modelled.
- NeighbourShift.Shift: requires each shift component to be in -1..1. `feature_vector` only passes such components; larger shifts, which numpy would also slice, are not modelled.
- Rotation invariance of the table (that `minvalue` is the least rotation of `original`) is a property of the data file, which is not part of this model. Properties that need it are stated with it as a precondition (`CoversCodes`, `LabelsClosed`, `CanonicalLabelsDistinct`).
