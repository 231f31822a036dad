/** The rotation-invariant pattern table: rows (original, minvalue,
    rotation_invariant) looked up by their `original` column, the first
    matching row winning as `.values[0]` picks it. */
module PatternTable {
  import opened Wrappers

  /** One row of the table: a pattern number, its canonical representative and
      the rotation-invariant label the feature vector is keyed by. */
  datatype Row = Row(original: int, minvalue: int, name: string)

  /** Why the pipeline stops: a pattern number with no row (the IndexError of
      the canonical lookup), or a canonical value with no row (the IndexError of
      the label lookup). */
  datatype Error = MissingCode | MissingLabel

  predicate HasRow(table: seq<Row>, key: int)
  {
    exists i | 0 <= i < |table| :: table[i].original == key
  }

  /** Row i is the first row whose `original` is key. */
  predicate IsFirst(table: seq<Row>, key: int, i: int)
  {
    0 <= i < |table| && table[i].original == key &&
    forall j | 0 <= j < i :: table[j].original != key
  }

  /** The index of the first row whose `original` is key, if any. */
  function FirstMatch(table: seq<Row>, key: int): (r: Option<nat>)
    ensures r.None? <==> !HasRow(table, key)
    ensures r.Some? ==> IsFirst(table, key, r.value)
  {
    if table == [] then None
    else if table[0].original == key then Some(0)
    else match FirstMatch(table[1..], key)
      case None => None
      case Some(i) => Some(i + 1)
  }

  /** The canonical pattern of raw pattern `code` (line 123-125). */
  function Canonical(table: seq<Row>, code: int): (r: Result<int, Error>)
    ensures r.Ok? <==> HasRow(table, code)
  {
    match FirstMatch(table, code)
    case None => Err(MissingCode)
    case Some(i) => Ok(table[i].minvalue)
  }

  /** The label of canonical pattern `value` (line 137-138): it is looked up in
      the `original` column too. */
  function LabelOf(table: seq<Row>, value: int): (r: Result<string, Error>)
    ensures r.Ok? <==> HasRow(table, value)
  {
    match FirstMatch(table, value)
    case None => Err(MissingLabel)
    case Some(i) => Ok(table[i].name)
  }

  /** Both lookups read the first row whose `original` is the key. */
  lemma LookupFirstRow(table: seq<Row>, key: int, i: int)
    requires IsFirst(table, key, i)
    ensures Canonical(table, key) == Ok(table[i].minvalue)
    ensures LabelOf(table, key) == Ok(table[i].name)
  {
  }

  /** The table has a row for every 6-bit pattern number. */
  predicate CoversCodes(table: seq<Row>)
  {
    forall c | 0 <= c < 64 :: HasRow(table, c)
  }

  /** Every canonical value the table produces names a row of its own. */
  predicate LabelsClosed(table: seq<Row>)
  {
    forall i | 0 <= i < |table| :: HasRow(table, table[i].minvalue)
  }

  /** With a complete, closed table neither lookup fails for a 6-bit code. */
  lemma CompleteTable(table: seq<Row>, code: int)
    requires CoversCodes(table) && LabelsClosed(table)
    requires 0 <= code < 64
    ensures Canonical(table, code).Ok?
    ensures LabelOf(table, Canonical(table, code).value).Ok?
  {
    var i := FirstMatch(table, code).value;
    assert HasRow(table, table[i].minvalue);
  }

  /** Distinct canonical values carry distinct labels. */
  predicate CanonicalLabelsDistinct(table: seq<Row>)
  {
    forall i, j | 0 <= i < |table| && 0 <= j < |table| && table[i].minvalue != table[j].minvalue ::
      LabelOf(table, table[i].minvalue) != LabelOf(table, table[j].minvalue)
  }
}
