/** Counting the canonical patterns of the masked voxels (the `Counter`) and
    turning the counts into the feature vector: each value's label is mapped
    to count / total, in the order the counter lists its values. */
module Histogram {
  import opened Wrappers
  import opened PatternTable

  /** How often v occurs in s. */
  function Count(s: seq<int>, v: int): nat
  {
    multiset(s)[v]
  }

  predicate NoDuplicates(d: seq<int>)
  {
    forall i, j | 0 <= i < j < |d| :: d[i] != d[j]
  }

  /** The distinct values of s in order of first occurrence: the key order of
      a counter filled from s. */
  function Distinct(s: seq<int>): (d: seq<int>)
    ensures forall v :: v in d <==> v in s
    ensures NoDuplicates(d)
  {
    if s == [] then []
    else
      var p := Distinct(s[..|s| - 1]);
      var x := s[|s| - 1];
      assert s == s[..|s| - 1] + [x];
      if x in p then p else p + [x]
  }

  /** Every occurrence of b in s comes after some occurrence of a. */
  predicate FirstBefore(s: seq<int>, a: int, b: int)
  {
    forall q | 0 <= q < |s| && s[q] == b :: exists p | 0 <= p < q :: s[p] == a
  }

  /** The counter lists its keys in order of first occurrence: a key listed
      earlier first occurs in s before a key listed later. */
  lemma {:induction false} DistinctOrder(s: seq<int>)
    ensures forall i, j | 0 <= i < j < |Distinct(s)| :: FirstBefore(s, Distinct(s)[i], Distinct(s)[j])
  {
    if s != [] {
      var p, x := s[..|s| - 1], s[|s| - 1];
      assert s == p + [x];
      DistinctOrder(p);
      var d, e := Distinct(p), Distinct(s);
      forall i, j | 0 <= i < j < |e|
        ensures FirstBefore(s, e[i], e[j])
      {
        forall q | 0 <= q < |s| && s[q] == e[j]
          ensures exists r | 0 <= r < q :: s[r] == e[i]
        {
          assert e[i] == d[i];
          if j < |d| {
            assert e[j] == d[j];
            if q < |p| {
              assert p[q] == e[j];
              var r :| 0 <= r < q && p[r] == d[i];
              assert s[r] == e[i];
            } else {
              assert d[j] in p;
              var q' :| 0 <= q' < |p| && p[q'] == d[j];
              var r :| 0 <= r < q' && p[r] == d[i];
              assert s[r] == e[i];
            }
          } else {
            assert d[i] in p;
            var r :| 0 <= r < |p| && p[r] == d[i];
            assert s[r] == e[i];
          }
        }
      }
    }
  }

  /** Counting one more value: a new value is appended to the keys, and its
      count goes up by one. */
  lemma DistinctSnoc(s: seq<int>, v: int)
    ensures Distinct(s + [v]) == if v in Distinct(s) then Distinct(s) else Distinct(s) + [v]
    ensures forall w :: Count(s + [v], w) == Count(s, w) + (if w == v then 1 else 0)
  {
    assert (s + [v])[..|s|] == s;
    assert multiset(s + [v]) == multiset(s) + multiset{v};
  }

  /** The counts of the values listed in keys, added up (`sum(frequency.values())`
      when keys are the counter's keys). */
  function SumCounts(s: seq<int>, keys: seq<int>): nat
  {
    if keys == [] then 0 else SumCounts(s, keys[..|keys| - 1]) + Count(s, keys[|keys| - 1])
  }

  /** One more occurrence of x raises the sum by the number of times x is listed. */
  lemma {:induction false} SumCountsSnoc(s: seq<int>, x: int, keys: seq<int>)
    ensures SumCounts(s + [x], keys) == SumCounts(s, keys) + Count(keys, x)
  {
    if keys != [] {
      var p, v := keys[..|keys| - 1], keys[|keys| - 1];
      assert keys == p + [v];
      SumCountsSnoc(s, x, p);
      assert multiset(s + [x]) == multiset(s) + multiset{x};
      assert multiset(keys) == multiset(p) + multiset{v};
    }
  }

  /** A list without duplicates lists each of its values once. */
  lemma {:induction false} CountNoDuplicates(d: seq<int>, x: int)
    requires NoDuplicates(d)
    ensures Count(d, x) == if x in d then 1 else 0
  {
    if d != [] {
      var p, v := d[..|d| - 1], d[|d| - 1];
      assert d == p + [v];
      assert multiset(d) == multiset(p) + multiset{v};
      CountNoDuplicates(p, x);
    }
  }

  /** The counts of a counter add up to the number of values counted. */
  lemma {:induction false} CountsAddUp(s: seq<int>)
    ensures SumCounts(s, Distinct(s)) == |s|
  {
    if s != [] {
      var p, x := s[..|s| - 1], s[|s| - 1];
      assert s == p + [x];
      CountsAddUp(p);
      var d := Distinct(p);
      SumCountsSnoc(p, x, d);
      CountNoDuplicates(d, x);
      if x !in d {
        assert Distinct(s) == d + [x];
        assert (d + [x])[..|d|] == d;
        assert multiset(s) == multiset(p) + multiset{x};
      }
    }
  }

  /** A value of s occurs at most |s| times. */
  lemma {:induction false} CountBound(s: seq<int>, v: int)
    ensures Count(s, v) <= |s|
    ensures v in s ==> Count(s, v) > 0
  {
    if s != [] {
      var p, x := s[..|s| - 1], s[|s| - 1];
      assert s == p + [x];
      assert multiset(s) == multiset(p) + multiset{x};
      CountBound(p, v);
    }
  }

  predicate AllIn(keys: seq<int>, s: seq<int>)
  {
    forall i | 0 <= i < |keys| :: keys[i] in s
  }

  /** The share of s that the value v makes up. */
  function Share(s: seq<int>, v: int): real
    requires v in s
  {
    Count(s, v) as real / |s| as real
  }

  /** The dictionary filled by visiting keys in order: each key's label is set to
      the key's share of s, so a later key with the same label overwrites an
      earlier one; a key whose label lookup fails stops the loop. */
  function Insert(s: seq<int>, table: seq<Row>, keys: seq<int>): Result<map<string, real>, Error>
    requires AllIn(keys, s)
  {
    if keys == [] then Ok(map[])
    else
      match Insert(s, table, keys[..|keys| - 1])
      case Err(e) => Err(e)
      case Ok(d) =>
        var v := keys[|keys| - 1];
        match LabelOf(table, v)
        case Err(e) => Err(e)
        case Ok(l) => Ok(d[l := Share(s, v)])
  }

  /** The feature vector of the canonical patterns s (lines 130-142). */
  function Frequencies(s: seq<int>, table: seq<Row>): Result<map<string, real>, Error>
  {
    Insert(s, table, Distinct(s))
  }

  /** No key after position i has the same label as keys[i]: keys[i] writes the
      final value of its label. */
  predicate IsLastOfLabel(table: seq<Row>, keys: seq<int>, i: int)
    requires 0 <= i < |keys|
  {
    forall j | i < j < |keys| :: LabelOf(table, keys[j]) != LabelOf(table, keys[i])
  }

  /** Filling fails exactly when some key has no row, and the only error it
      raises is the missing label. */
  lemma {:induction false} InsertFails(s: seq<int>, table: seq<Row>, keys: seq<int>)
    requires AllIn(keys, s)
    ensures Insert(s, table, keys).Ok? <==> forall i | 0 <= i < |keys| :: HasRow(table, keys[i])
    ensures Insert(s, table, keys).Err? ==> Insert(s, table, keys).error == MissingLabel
  {
    if keys != [] {
      var p := keys[..|keys| - 1];
      InsertFails(s, table, p);
      assert forall i | 0 <= i < |p| :: p[i] == keys[i];
    }
  }

  /** A filled dictionary holds the label of every key. */
  lemma {:induction false} InsertKeys(s: seq<int>, table: seq<Row>, keys: seq<int>, d: map<string, real>)
    requires AllIn(keys, s) && Insert(s, table, keys) == Ok(d)
    ensures forall i | 0 <= i < |keys| :: LabelOf(table, keys[i]).Ok? && LabelOf(table, keys[i]).value in d
  {
    if keys != [] {
      var p := keys[..|keys| - 1];
      assert AllIn(p, s);
      InsertKeys(s, table, p, Insert(s, table, p).value);
      assert forall i | 0 <= i < |p| :: keys[i] == p[i];
    }
  }

  /** A filled dictionary holds no label other than the keys' labels, and each
      of its entries is the share of some key carrying that label. */
  lemma {:induction false} InsertOnlyKeys(s: seq<int>, table: seq<Row>, keys: seq<int>, d: map<string, real>)
    requires AllIn(keys, s) && Insert(s, table, keys) == Ok(d)
    ensures forall l | l in d :: exists i | 0 <= i < |keys| ::
      LabelOf(table, keys[i]) == Ok(l) && d[l] == Share(s, keys[i])
  {
    if keys != [] {
      var p, v := keys[..|keys| - 1], keys[|keys| - 1];
      assert AllIn(p, s);
      var d0 := Insert(s, table, p).value;
      InsertOnlyKeys(s, table, p, d0);
      var l := LabelOf(table, v).value;
      assert d == d0[l := Share(s, v)];
      forall l' | l' in d
        ensures exists i | 0 <= i < |keys| :: LabelOf(table, keys[i]) == Ok(l') && d[l'] == Share(s, keys[i])
      {
        if l' != l {
          var i :| 0 <= i < |p| && LabelOf(table, p[i]) == Ok(l') && d0[l'] == Share(s, p[i]);
          assert keys[i] == p[i];
        } else {
          assert LabelOf(table, keys[|keys| - 1]) == Ok(l');
        }
      }
    }
  }

  /** Each label of a filled dictionary holds the share of the last key that
      carries it. */
  lemma {:induction false} InsertLastWins(s: seq<int>, table: seq<Row>, keys: seq<int>, d: map<string, real>)
    requires AllIn(keys, s) && Insert(s, table, keys) == Ok(d)
    ensures forall i | 0 <= i < |keys| && IsLastOfLabel(table, keys, i) ::
      LabelOf(table, keys[i]).Ok? && LabelOf(table, keys[i]).value in d &&
      d[LabelOf(table, keys[i]).value] == Share(s, keys[i])
  {
    InsertKeys(s, table, keys, d);
    if keys != [] {
      var p, v := keys[..|keys| - 1], keys[|keys| - 1];
      assert AllIn(p, s);
      var d0 := Insert(s, table, p).value;
      InsertLastWins(s, table, p, d0);
      var l := LabelOf(table, v).value;
      assert d == d0[l := Share(s, v)];
      forall i | 0 <= i < |keys| && IsLastOfLabel(table, keys, i)
        ensures d[LabelOf(table, keys[i]).value] == Share(s, keys[i])
      {
        if i < |p| {
          assert keys[i] == p[i];
          assert LabelOf(table, keys[|keys| - 1]) != LabelOf(table, keys[i]);
          assert IsLastOfLabel(table, p, i);
        }
      }
    }
  }

  /** Each share is a proportion in (0, 1]. */
  lemma ShareRange(s: seq<int>, v: int)
    requires v in s
    ensures 0.0 < Share(s, v) <= 1.0
  {
    CountBound(s, v);
  }

  /** Distinct values of s carry distinct labels. */
  predicate LabelsInjective(table: seq<Row>, s: seq<int>)
  {
    forall v, w | v in s && w in s && v != w :: LabelOf(table, v) != LabelOf(table, w)
  }

  /** The shares of the listed values, added up. */
  function SumShares(s: seq<int>, keys: seq<int>): real
    requires AllIn(keys, s)
  {
    if keys == [] then 0.0
    else SumShares(s, keys[..|keys| - 1]) + Share(s, keys[|keys| - 1])
  }

  /** The shares over the counter's keys add up to the counts over |s|. */
  lemma {:induction false} SumSharesCounts(s: seq<int>, keys: seq<int>)
    requires AllIn(keys, s) && s != []
    ensures SumShares(s, keys) == SumCounts(s, keys) as real / |s| as real
  {
    if keys != [] {
      var p, v := keys[..|keys| - 1], keys[|keys| - 1];
      assert AllIn(p, s);
      SumSharesCounts(s, p);
      AddFractions(SumCounts(s, p) as real, Count(s, v) as real, |s| as real);
    }
  }

  lemma AddFractions(a: real, b: real, c: real)
    requires c > 0.0
    ensures a / c + b / c == (a + b) / c
  {
  }

  /** The entry d holds for a value's label, or 0 when there is none. */
  function EntryOf(d: map<string, real>, table: seq<Row>, v: int): real
  {
    var l := LabelOf(table, v);
    if l.Ok? && l.value in d then d[l.value] else 0.0
  }

  /** The entries d holds for the labels of the listed values, added up. */
  function SumEntries(d: map<string, real>, table: seq<Row>, keys: seq<int>): real
  {
    if keys == [] then 0.0
    else SumEntries(d, table, keys[..|keys| - 1]) + EntryOf(d, table, keys[|keys| - 1])
  }

  /** The feature vector is built exactly when every counted value has a row. */
  lemma FrequenciesOk(s: seq<int>, table: seq<Row>)
    ensures Frequencies(s, table).Ok? <==> forall v | v in s :: HasRow(table, v)
    ensures Frequencies(s, table).Err? ==> Frequencies(s, table).error == MissingLabel
  {
    var keys := Distinct(s);
    assert AllIn(keys, s);
    InsertFails(s, table, keys);
    if forall i | 0 <= i < |keys| :: HasRow(table, keys[i]) {
      forall v | v in s
        ensures HasRow(table, v)
      {
        var i :| 0 <= i < |keys| && keys[i] == v;
      }
    }
  }

  /** Every label of the feature vector comes from a counted value and holds
      that value's share, so every entry lies in (0, 1]. */
  lemma FrequenciesLabels(s: seq<int>, table: seq<Row>, d: map<string, real>)
    requires Frequencies(s, table) == Ok(d)
    ensures forall l | l in d :: exists v | v in s :: LabelOf(table, v) == Ok(l) && d[l] == Share(s, v)
    ensures forall l | l in d :: 0.0 < d[l] <= 1.0
  {
    var keys := Distinct(s);
    assert AllIn(keys, s);
    InsertOnlyKeys(s, table, keys, d);
    forall l | l in d
      ensures exists v | v in s :: LabelOf(table, v) == Ok(l) && d[l] == Share(s, v)
      ensures 0.0 < d[l] <= 1.0
    {
      var i :| 0 <= i < |keys| && LabelOf(table, keys[i]) == Ok(l) && d[l] == Share(s, keys[i]);
      assert keys[i] in s;
      ShareRange(s, keys[i]);
    }
  }

  /** When distinct values carry distinct labels, no two keys write the same
      label, so the filled dictionary has one entry per key. */
  lemma {:induction false} InsertSize(s: seq<int>, table: seq<Row>, keys: seq<int>, d: map<string, real>)
    requires AllIn(keys, s) && NoDuplicates(keys) && LabelsInjective(table, s)
    requires Insert(s, table, keys) == Ok(d)
    ensures |d| == |keys|
  {
    if keys != [] {
      var p, v := keys[..|keys| - 1], keys[|keys| - 1];
      assert AllIn(p, s);
      assert NoDuplicates(p);
      var d0 := Insert(s, table, p).value;
      InsertSize(s, table, p, d0);
      InsertOnlyKeys(s, table, p, d0);
      var l := LabelOf(table, v).value;
      assert d == d0[l := Share(s, v)];
      forall i | 0 <= i < |p|
        ensures LabelOf(table, p[i]) != Ok(l)
      {
        assert p[i] == keys[i] && keys[i] != v;
      }
      assert l !in d0;
    }
  }

  /** When distinct values carry distinct labels, each counted value's label
      holds the value's share of s. */
  lemma FrequenciesShares(s: seq<int>, table: seq<Row>, d: map<string, real>)
    requires Frequencies(s, table) == Ok(d)
    requires LabelsInjective(table, s)
    ensures forall v | v in s ::
      (LabelOf(table, v).Ok? && LabelOf(table, v).value in d && d[LabelOf(table, v).value] == Share(s, v))
  {
    var keys := Distinct(s);
    assert AllIn(keys, s);
    InsertLastWins(s, table, keys, d);
    forall v | v in s
      ensures LabelOf(table, v).Ok? && LabelOf(table, v).value in d && d[LabelOf(table, v).value] == Share(s, v)
    {
      var i :| 0 <= i < |keys| && keys[i] == v;
      assert IsLastOfLabel(table, keys, i);
    }
  }

  /** When distinct values carry distinct labels, the feature vector of a
      non-empty histogram has exactly one entry per distinct value, each label
      being a counted value's, every entry lies in (0, 1], and the entries add
      up to 1. */
  lemma FrequenciesSumToOne(s: seq<int>, table: seq<Row>, d: map<string, real>)
    requires s != [] && Frequencies(s, table) == Ok(d)
    requires LabelsInjective(table, s)
    ensures |d| == |Distinct(s)|
    ensures forall l | l in d :: exists v | v in s :: LabelOf(table, v) == Ok(l)
    ensures forall l | l in d :: 0.0 < d[l] <= 1.0
    ensures SumEntries(d, table, Distinct(s)) == 1.0
  {
    var keys := Distinct(s);
    assert AllIn(keys, s);
    FrequenciesLabels(s, table, d);
    InsertSize(s, table, keys, d);
    forall i | 0 <= i < |keys|
      ensures EntryOf(d, table, keys[i]) == Share(s, keys[i])
    {
      FrequenciesShares(s, table, d);
      assert keys[i] in s;
    }
    SumEntriesShares(d, table, s, keys);
    assert SumShares(s, keys) == 1.0 by {
      SumSharesCounts(s, keys);
      CountsAddUp(s);
      Whole(SumCounts(s, keys), |s|);
    }
  }

  lemma Whole(a: nat, b: nat)
    requires a == b > 0
    ensures a as real / b as real == 1.0
  {
  }

  /** Where each key's entry is its share, the entries add up to the shares. */
  lemma {:induction false} SumEntriesShares(d: map<string, real>, table: seq<Row>, s: seq<int>, keys: seq<int>)
    requires AllIn(keys, s)
    requires forall i | 0 <= i < |keys| :: EntryOf(d, table, keys[i]) == Share(s, keys[i])
    ensures SumEntries(d, table, keys) == SumShares(s, keys)
  {
    if keys != [] {
      var p := keys[..|keys| - 1];
      assert AllIn(p, s);
      assert forall i | 0 <= i < |p| :: p[i] == keys[i];
      SumEntriesShares(d, table, s, p);
    }
  }
}
