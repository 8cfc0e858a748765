/** Grouping attempt rows by dimensions (`_read_group_value`, `_group_rows` in repogauge/runner/analyze.py). */
module Groups {
  import opened Metrics

  /** The (dimension, value) pairs of a group. */
  type Key = seq<(string, string)>

  /** `_read_group_value`: the row's own field wins over its metadata. */
  function GroupValue(row: Row, dim: string): string {
    if dim in row.fields then row.fields[dim] else if dim in row.metadata then row.metadata[dim] else "unknown"
  }

  function GroupKey(row: Row, dims: seq<string>): (key: Key)
    ensures |key| == |dims| && forall i | 0 <= i < |dims| :: key[i] == (dims[i], GroupValue(row, dims[i]))
  {
    if dims == [] then []
    else
      var last := dims[|dims| - 1];
      GroupKey(row, dims[..|dims| - 1]) + [(last, GroupValue(row, last))]
  }

  function Members(rows: seq<Row>, dims: seq<string>, key: Key): seq<Row> {
    if rows == [] then []
    else
      var before := Members(rows[..|rows| - 1], dims, key);
      if GroupKey(rows[|rows| - 1], dims) == key then before + [rows[|rows| - 1]] else before
  }

  ghost function GroupKeys(rows: seq<Row>, dims: seq<string>): set<Key> {
    set i | 0 <= i < |rows| :: GroupKey(rows[i], dims)
  }

  /** `grouped` is the dictionary from group key to rows. */
  ghost predicate IsGrouping(rows: seq<Row>, dims: seq<string>, grouped: map<Key, seq<Row>>) {
    && grouped.Keys == GroupKeys(rows, dims)
    && forall key | key in grouped :: grouped[key] == Members(rows, dims, key)
  }

  lemma GroupKeysAppend(rows: seq<Row>, dims: seq<string>)
    requires rows != []
    ensures GroupKeys(rows, dims) == GroupKeys(rows[..|rows| - 1], dims) + {GroupKey(rows[|rows| - 1], dims)}
  {
    var n := |rows| - 1;
    assert forall i | 0 <= i < n :: rows[..n][i] == rows[i];
  }

  lemma {:induction false} NoMembers(rows: seq<Row>, dims: seq<string>, key: Key)
    requires key !in GroupKeys(rows, dims)
    ensures Members(rows, dims, key) == []
  {
    if rows != [] {
      GroupKeysAppend(rows, dims);
      NoMembers(rows[..|rows| - 1], dims, key);
    }
  }

  /** `_group_rows` */
  method GroupRows(rows: seq<Row>, dims: seq<string>) returns (grouped: map<Key, seq<Row>>)
    ensures IsGrouping(rows, dims, grouped)
  {
    grouped := map[];
    for i := 0 to |rows|
      invariant IsGrouping(rows[..i], dims, grouped)
    {
      assert rows[..i + 1][..i] == rows[..i];
      GroupKeysAppend(rows[..i + 1], dims);
      var key := GroupKey(rows[i], dims);
      if key !in grouped {
        NoMembers(rows[..i], dims, key);
      }
      grouped := grouped[key := (if key in grouped then grouped[key] else []) + [rows[i]]];
    }
    assert rows[..|rows|] == rows;
  }

  /** Rows share a group iff every dimension reads the same on both. */
  lemma SameGroupIff(a: Row, b: Row, dims: seq<string>)
    ensures GroupKey(a, dims) == GroupKey(b, dims)
            <==> forall dim | dim in dims :: GroupValue(a, dim) == GroupValue(b, dim)
  {
    if GroupKey(a, dims) == GroupKey(b, dims) {
      forall dim | dim in dims ensures GroupValue(a, dim) == GroupValue(b, dim) {
        var i :| 0 <= i < |dims| && dims[i] == dim;
        assert GroupKey(a, dims)[i] == GroupKey(b, dims)[i];
      }
    }
  }

  ghost function GroupTotals(rows: seq<Row>, dims: seq<string>, f: Row -> real): map<Key, real> {
    map key | key in GroupKeys(rows, dims) :: SumBy(Members(rows, dims, key), f)
  }

  /** Totals do not depend on how rows are grouped: for every list of dimensions and every measure, the group totals
      add up to the total over all rows. */
  lemma {:induction false} GroupingConserves(rows: seq<Row>, dims: seq<string>, f: Row -> real)
    ensures SumMap(GroupTotals(rows, dims, f)) == SumBy(rows, f)
  {
    if rows != [] {
      GroupingConserves(rows[..|rows| - 1], dims, f);
      GroupStep(rows, dims, f);
    }
  }

  /** The same totals for any two choices of `group_by`. */
  lemma GroupByIrrelevant(rows: seq<Row>, dims1: seq<string>, dims2: seq<string>, f: Row -> real)
    ensures SumMap(GroupTotals(rows, dims1, f)) == SumMap(GroupTotals(rows, dims2, f))
  {
    GroupingConserves(rows, dims1, f);
    GroupingConserves(rows, dims2, f);
  }

  lemma GroupStep(rows: seq<Row>, dims: seq<string>, f: Row -> real)
    requires rows != []
    ensures SumMap(GroupTotals(rows, dims, f))
        == SumMap(GroupTotals(rows[..|rows| - 1], dims, f)) + f(rows[|rows| - 1])
  {
    var n := |rows| - 1;
    var before, key := rows[..n], GroupKey(rows[n], dims);
    var now, earlier := GroupTotals(rows, dims, f), GroupTotals(before, dims, f);
    GroupKeysAppend(rows, dims);
    if key !in earlier {
      NoMembers(before, dims, key);
    }
    GrownGroup(rows, dims, f);
    OtherGroups(rows, dims, f);
    SumMapReplace(earlier, now, key);
  }

  lemma OtherGroups(rows: seq<Row>, dims: seq<string>, f: Row -> real)
    requires rows != []
    ensures
      var n := |rows| - 1; var key := GroupKey(rows[n], dims);
      GroupTotals(rows, dims, f) - {key} == GroupTotals(rows[..n], dims, f) - {key}
  {
    GroupKeysAppend(rows, dims);
  }

  lemma GrownGroup(rows: seq<Row>, dims: seq<string>, f: Row -> real)
    requires rows != []
    ensures
      var n := |rows| - 1; var key := GroupKey(rows[n], dims);
      SumBy(Members(rows, dims, key), f) == SumBy(Members(rows[..n], dims, key), f) + f(rows[n])
  {
    var n := |rows| - 1;
    var earlier := Members(rows[..n], dims, GroupKey(rows[n], dims));
    var grown := earlier + [rows[n]];
    assert grown[..|grown| - 1] == earlier;
  }

  // ---------- finer groups ----------

  lemma KeyPrefix(row: Row, dims: seq<string>, more: seq<string>)
    ensures GroupKey(row, dims + more)[..|dims|] == GroupKey(row, dims)
  {
  }

  /** The totals of those finer groups that lie inside the group `key`. */
  ghost function InnerTotals(rows: seq<Row>, dims: seq<string>, more: seq<string>, key: Key, f: Row -> real)
    : map<Key, real>
  {
    map fine | fine in GroupKeys(rows, dims + more) && fine[..|dims|] == key ::
      SumBy(Members(rows, dims + more, fine), f)
  }

  lemma {:induction false} InnerMembers(rows: seq<Row>, dims: seq<string>, more: seq<string>, key: Key, fine: Key)
    requires |fine| == |dims + more| && fine[..|dims|] == key
    ensures Members(Members(rows, dims, key), dims + more, fine) == Members(rows, dims + more, fine)
  {
    if rows != [] {
      var n := |rows| - 1;
      var inside := Members(rows[..n], dims, key);
      InnerMembers(rows[..n], dims, more, key, fine);
      KeyPrefix(rows[n], dims, more);
      assert (inside + [rows[n]])[..|inside|] == inside;
    }
  }

  lemma {:induction false} MembersContents(rows: seq<Row>, dims: seq<string>, key: Key)
    ensures forall r :: r in Members(rows, dims, key) <==> r in rows && GroupKey(r, dims) == key
  {
    if rows != [] {
      var n := |rows| - 1;
      MembersContents(rows[..n], dims, key);
      assert forall r :: r in rows <==> r in rows[..n] || r == rows[n];
    }
  }

  lemma KeyInGroups(rows: seq<Row>, dims: seq<string>, key: Key)
    ensures key in GroupKeys(rows, dims) <==> exists r :: r in rows && GroupKey(r, dims) == key
  {
    if key in GroupKeys(rows, dims) {
      var i :| 0 <= i < |rows| && GroupKey(rows[i], dims) == key;
      assert rows[i] in rows;
    }
  }

  lemma InnerKeys(rows: seq<Row>, dims: seq<string>, more: seq<string>, key: Key, fine: Key)
    ensures fine in GroupKeys(Members(rows, dims, key), dims + more)
            <==> fine in GroupKeys(rows, dims + more) && fine[..|dims|] == key
  {
    MembersContents(rows, dims, key);
    KeyInGroups(rows, dims + more, fine);
    KeyInGroups(Members(rows, dims, key), dims + more, fine);
    forall r: Row {
      KeyPrefix(r, dims, more);
    }
  }

  /** Rolling up: grouping by further dimensions splits every group into groups whose totals add up to its own. */
  lemma RollUp(rows: seq<Row>, dims: seq<string>, more: seq<string>, key: Key, f: Row -> real)
    ensures SumMap(InnerTotals(rows, dims, more, key, f)) == SumBy(Members(rows, dims, key), f)
  {
    var inside := Members(rows, dims, key);
    GroupingConserves(inside, dims + more, f);
    forall fine: Key
      ensures fine in GroupKeys(inside, dims + more)
              <==> fine in GroupKeys(rows, dims + more) && fine[..|dims|] == key
      ensures fine in GroupKeys(rows, dims + more) && fine[..|dims|] == key ==>
                Members(inside, dims + more, fine) == Members(rows, dims + more, fine)
    {
      InnerKeys(rows, dims, more, key, fine);
      if fine in GroupKeys(rows, dims + more) && fine[..|dims|] == key {
        InnerMembers(rows, dims, more, key, fine);
      }
    }
    assert GroupTotals(inside, dims + more, f) == InnerTotals(rows, dims, more, key, f);
  }
}
