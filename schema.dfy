/** The GraphQL query `beneficiaryDeduplicationSummary`: the permission check, the rewriting of
    person columns into paths through the beneficiary's individual, and the loop that turns the
    aggregated rows into summary rows. */
module Schema {
  import opened Outcomes
  import opened LookupPath
  import opened Services

  // ---------------------------------------------------------------------------------------
  // Query._check_permissions
  // ---------------------------------------------------------------------------------------

  /** The requesting user: Django's `AnonymousUser`, or an account with an id (which may be
      missing or 0) and the permissions `has_perms` grants it. */
  datatype User = AnonymousUser | AccountUser(id: Option<int>, grantedPerms: set<string>)

  /** `Query._check_permissions`: anonymous users, users without an id and users lacking one of
      the permissions are refused. */
  function CheckPermissions(user: User, perms: set<string>): (r: Outcome<Exception>)
    ensures r.Fail? ==> r.error == PermissionError("Unauthorized")
    ensures user.AnonymousUser? ==> r.Fail?
    ensures user.AccountUser? && (user.id.None? || user.id.value == 0) ==> r.Fail?
    ensures user.AccountUser? && !(perms <= user.grantedPerms) ==> r.Fail?
    ensures r.Pass? ==> user.AccountUser? && user.id.Some? && user.id.value != 0 && perms <= user.grantedPerms
  {
    if user.AnonymousUser? || user.id.None? || user.id.value == 0 || !(perms <= user.grantedPerms) then
      Fail(PermissionError("Unauthorized"))
    else
      Pass
  }

  // ---------------------------------------------------------------------------------------
  // Column rewriting
  // ---------------------------------------------------------------------------------------

  /** The columns that belong to the beneficiary's individual. */
  const PersonColumns: seq<string> := ["first_name", "last_name", "dob"]

  /** The validation message returned for an empty column list. */
  const NoColumnsProvided: string := "deduplication.validation.no_columns_provided"

  function PrefixColumn(column: string): string
  {
    if column in PersonColumns then PersonPrefix + column else column
  }

  /** The rewrite of the requested columns before aggregating: exactly the person columns gain
      the prefix, every other name is kept, and no bare person column is left. */
  function PrefixPersonColumns(columns: seq<string>): (r: seq<string>)
    ensures |r| == |columns|
    ensures forall i :: 0 <= i < |columns| ==> (r[i] != columns[i] <==> columns[i] in PersonColumns)
    ensures forall i :: 0 <= i < |columns| && columns[i] in PersonColumns ==> r[i] == PersonPrefix + columns[i]
    ensures forall c :: c in r ==> c !in PersonColumns
  {
    seq(|columns|, i requires 0 <= i < |columns| => PrefixColumn(columns[i]))
  }

  /** `individual_columns` after the loop has rebound it `n` times. */
  function PersonColumnsAt(n: nat): (cols: seq<string>)
    ensures |cols| == 3
    ensures forall j :: 0 <= j < 3 ==> cols[j] == Prefixed(n, PersonColumns[j])
    ensures n >= 1 ==> forall j :: 0 <= j < 3 ==> SplitOnce(cols[j]) == ["individual", Prefixed(n - 1, PersonColumns[j])]
    ensures n >= 1 ==> forall c :: c in cols ==> |SplitOnce(c)| == 2
  {
    var cols := seq(3, j requires 0 <= j < 3 => Prefixed(n, PersonColumns[j]));
    if n >= 1 then
      SplitPersonPrefix(Prefixed(n - 1, PersonColumns[0]));
      SplitPersonPrefix(Prefixed(n - 1, PersonColumns[1]));
      SplitPersonPrefix(Prefixed(n - 1, PersonColumns[2]));
      cols
    else
      cols
  }

  /** Prefixing every entry of `individual_columns` once more gives its next value. */
  lemma RebindPersonColumns(n: nat)
    ensures forall j :: 0 <= j < 3 ==> PersonPrefix + PersonColumnsAt(n)[j] == PersonColumnsAt(n + 1)[j]
  {
  }

  // ---------------------------------------------------------------------------------------
  // Relabelling of one aggregated row
  // ---------------------------------------------------------------------------------------

  /** Python's `str` of an aggregated value: the text itself, or "None" for null. */
  function Str(v: Option<string>): string
  {
    match v
    case None => "None"
    case Some(s) => s
  }

  /** The key a column gets in `column_values`: the part after the first "__" when the column is
      one of `individualColumns`, the column itself otherwise. */
  function RelabelColumn(column: string, individualColumns: seq<string>): string
    requires forall c :: c in individualColumns ==> |SplitOnce(c)| == 2
  {
    if column in individualColumns then SplitOnce(column)[1] else column
  }

  /** A dict built from key/value pairs in order, as a Python dict comprehension builds it: a
      later pair overwrites an earlier one with the same key. */
  function DictOf(keys: seq<string>, vals: seq<string>): map<string, string>
    requires |keys| == |vals|
  {
    if keys == [] then map[]
    else
      var n := |keys| - 1;
      DictOf(keys[..n], vals[..n])[keys[n] := vals[n]]
  }

  /** No key after position `j` equals the key at `j`. */
  predicate LastOccurrence(keys: seq<string>, j: int)
    requires 0 <= j < |keys|
  {
    forall l :: j < l < |keys| ==> keys[l] != keys[j]
  }

  /** The keys of the dict are exactly the keys of the pairs. */
  lemma {:induction false} DictOfKeys(keys: seq<string>, vals: seq<string>)
    requires |keys| == |vals|
    ensures forall k :: k in DictOf(keys, vals) <==> k in keys
  {
    if keys != [] {
      var n := |keys| - 1;
      DictOfKeys(keys[..n], vals[..n]);
      assert keys == keys[..n] + [keys[n]];
    }
  }

  /** Each value of the dict is the value of some pair with its key. */
  lemma {:induction false} DictOfValues(keys: seq<string>, vals: seq<string>)
    requires |keys| == |vals|
    ensures forall k :: k in DictOf(keys, vals) ==> exists j :: 0 <= j < |keys| && keys[j] == k && DictOf(keys, vals)[k] == vals[j]
  {
    if keys != [] {
      var n := |keys| - 1;
      var ks, vs := keys[..n], vals[..n];
      DictOfValues(ks, vs);
      var m0 := DictOf(ks, vs);
      var m := DictOf(keys, vals);
      forall k | k in m
        ensures exists j :: 0 <= j < |keys| && keys[j] == k && m[k] == vals[j]
      {
        if k == keys[n] {
          assert keys[n] == k && m[k] == vals[n];
        } else {
          assert k in m0;
          var j :| 0 <= j < n && ks[j] == k && m0[k] == vs[j];
          assert keys[j] == k && m[k] == vals[j];
        }
      }
    }
  }

  /** A key holds the value of its last pair. */
  lemma {:induction false} DictOfLastWins(keys: seq<string>, vals: seq<string>)
    requires |keys| == |vals|
    ensures forall j :: 0 <= j < |keys| && LastOccurrence(keys, j) ==> keys[j] in DictOf(keys, vals) && DictOf(keys, vals)[keys[j]] == vals[j]
  {
    if keys != [] {
      var n := |keys| - 1;
      var ks, vs := keys[..n], vals[..n];
      DictOfLastWins(ks, vs);
      DictOfKeys(ks, vs);
      var m := DictOf(keys, vals);
      forall j | 0 <= j < |keys| && LastOccurrence(keys, j)
        ensures keys[j] in m && m[keys[j]] == vals[j]
      {
        if j < n {
          assert ks[j] == keys[j] && vs[j] == vals[j];
          forall l | j < l < n
            ensures ks[l] != ks[j]
          {
            assert ks[l] == keys[l];
          }
          assert LastOccurrence(ks, j);
          assert keys[j] != keys[n];
        }
      }
    }
  }

  /** The keys `column_values` gets: each column relabelled. */
  function RelabelKeys(columns: seq<string>, individualColumns: seq<string>): (keys: seq<string>)
    requires forall c :: c in individualColumns ==> |SplitOnce(c)| == 2
  {
    seq(|columns|, j requires 0 <= j < |columns| => RelabelColumn(columns[j], individualColumns))
  }

  /** The dict comprehension over the row's columns: each relabelled column maps to the string
      form of its value. */
  function ColumnValues(columns: seq<string>, values: Tuple, individualColumns: seq<string>): (m: map<string, string>)
    requires |values| == |columns|
    requires forall c :: c in individualColumns ==> |SplitOnce(c)| == 2
    ensures forall j :: 0 <= j < |columns| ==> RelabelColumn(columns[j], individualColumns) in m
  {
    var keys := RelabelKeys(columns, individualColumns);
    var vals := seq(|values|, j requires 0 <= j < |values| => Str(values[j]));
    DictOfKeys(keys, vals);
    assert forall j :: 0 <= j < |columns| ==> keys[j] == RelabelColumn(columns[j], individualColumns) && keys[j] in keys;
    DictOf(keys, vals)
  }

  /** No column after position `j` gets the same key as column `j`. */
  predicate LastWithItsKey(columns: seq<string>, individualColumns: seq<string>, j: int)
    requires forall c :: c in individualColumns ==> |SplitOnce(c)| == 2
    requires 0 <= j < |columns|
  {
    forall l :: j < l < |columns| ==> RelabelColumn(columns[l], individualColumns) != RelabelColumn(columns[j], individualColumns)
  }

  /** The keys of `column_values` are exactly the relabelled columns. */
  lemma ColumnValuesKeys(columns: seq<string>, values: Tuple, individualColumns: seq<string>)
    requires |values| == |columns|
    requires forall c :: c in individualColumns ==> |SplitOnce(c)| == 2
    ensures forall k :: k in ColumnValues(columns, values, individualColumns) <==>
              exists j :: 0 <= j < |columns| && RelabelColumn(columns[j], individualColumns) == k
  {
    var keys := RelabelKeys(columns, individualColumns);
    var vals := seq(|values|, j requires 0 <= j < |values| => Str(values[j]));
    var m := ColumnValues(columns, values, individualColumns);
    assert m == DictOf(keys, vals);
    DictOfKeys(keys, vals);
    forall k
      ensures k in m <==> exists j :: 0 <= j < |columns| && RelabelColumn(columns[j], individualColumns) == k
    {
      if k in m {
        var j :| 0 <= j < |keys| && keys[j] == k;
        assert RelabelColumn(columns[j], individualColumns) == k;
      }
      if exists j :: 0 <= j < |columns| && RelabelColumn(columns[j], individualColumns) == k {
        var j :| 0 <= j < |columns| && RelabelColumn(columns[j], individualColumns) == k;
        assert keys[j] == k;
      }
    }
  }

  /** Each key of `column_values` holds the string form of the value of a column relabelled to
      it. */
  lemma ColumnValuesFromColumns(columns: seq<string>, values: Tuple, individualColumns: seq<string>)
    requires |values| == |columns|
    requires forall c :: c in individualColumns ==> |SplitOnce(c)| == 2
    ensures forall k :: k in ColumnValues(columns, values, individualColumns) ==>
              exists j :: 0 <= j < |columns| && RelabelColumn(columns[j], individualColumns) == k
                          && ColumnValues(columns, values, individualColumns)[k] == Str(values[j])
  {
    var keys := RelabelKeys(columns, individualColumns);
    var vals := seq(|values|, j requires 0 <= j < |values| => Str(values[j]));
    var m := ColumnValues(columns, values, individualColumns);
    assert m == DictOf(keys, vals);
    DictOfValues(keys, vals);
    forall k | k in m
      ensures exists j :: 0 <= j < |columns| && RelabelColumn(columns[j], individualColumns) == k && m[k] == Str(values[j])
    {
      var j :| 0 <= j < |keys| && keys[j] == k && m[k] == vals[j];
      assert RelabelColumn(columns[j], individualColumns) == k && m[k] == Str(values[j]);
    }
  }

  /** A key of `column_values` holds the value of the last column relabelled to it. */
  lemma ColumnValuesLastWins(columns: seq<string>, values: Tuple, individualColumns: seq<string>)
    requires |values| == |columns|
    requires forall c :: c in individualColumns ==> |SplitOnce(c)| == 2
    ensures forall j :: 0 <= j < |columns| && LastWithItsKey(columns, individualColumns, j) ==>
              && RelabelColumn(columns[j], individualColumns) in ColumnValues(columns, values, individualColumns)
              && ColumnValues(columns, values, individualColumns)[RelabelColumn(columns[j], individualColumns)] == Str(values[j])
  {
    var keys := RelabelKeys(columns, individualColumns);
    var vals := seq(|values|, j requires 0 <= j < |values| => Str(values[j]));
    var m := ColumnValues(columns, values, individualColumns);
    assert m == DictOf(keys, vals);
    DictOfLastWins(keys, vals);
    forall j | 0 <= j < |columns| && LastWithItsKey(columns, individualColumns, j)
      ensures RelabelColumn(columns[j], individualColumns) in m && m[RelabelColumn(columns[j], individualColumns)] == Str(values[j])
    {
      assert LastOccurrence(keys, j);
      assert keys[j] == RelabelColumn(columns[j], individualColumns);
    }
  }

  /** A row of the summary: the relabelled column values and the group's count. */
  datatype SummaryRow = SummaryRow(columnValues: map<string, string>, count: int)

  /** The summary row the loop builds from the aggregated row it visits at `iteration`, by which
      time `individual_columns` has been rebound `iteration + 1` times. */
  function SummaryRowOf(row: AggRow, iteration: nat): (s: SummaryRow)
    requires |row.values| == |row.columns|
    ensures s.count == row.idCount
    ensures forall j :: 0 <= j < |row.columns| ==> RelabelColumn(row.columns[j], PersonColumnsAt(iteration + 1)) in s.columnValues
  {
    SummaryRow(ColumnValues(row.columns, row.values, PersonColumnsAt(iteration + 1)), row.idCount)
  }

  /** No person path, however often prefixed, relabels to `id_count`. */
  lemma NoPersonPathEndsInIdCount(n: nat)
    requires n >= 1
    ensures forall c :: c in PersonColumnsAt(n) ==> SplitOnce(c)[1] != "id_count"
  {
    var ic := PersonColumnsAt(n);
    forall c | c in ic
      ensures SplitOnce(c)[1] != "id_count"
    {
      var i :| 0 <= i < 3 && ic[i] == c;
      assert SplitOnce(c)[1] == Prefixed(n - 1, PersonColumns[i]);
      assert |PersonColumns[i]| != 8;
    }
  }

  /** A summary row carries the popped count, and `id_count` is not a key of its column values
      unless a group column is itself named so. */
  lemma SummaryRowCount(row: AggRow, iteration: nat)
    requires |row.values| == |row.columns|
    ensures SummaryRowOf(row, iteration).count == row.idCount
    ensures "id_count" in SummaryRowOf(row, iteration).columnValues ==> "id_count" in row.columns
  {
    var ic := PersonColumnsAt(iteration + 1);
    var m := SummaryRowOf(row, iteration).columnValues;
    ColumnValuesKeys(row.columns, row.values, ic);
    NoPersonPathEndsInIdCount(iteration + 1);
    if "id_count" in m {
      var j :| 0 <= j < |row.columns| && RelabelColumn(row.columns[j], ic) == "id_count";
      assert row.columns[j] !in ic;
    }
  }

  /** How the first iteration relabels one column: a person path `individual__X` becomes the
      bare `X`, any other column keeps its name. */
  lemma RelabelFirstIteration(column: string)
    ensures column in PersonColumnsAt(1) <==> exists i :: 0 <= i < 3 && column == PersonPrefix + PersonColumns[i]
    ensures forall i :: 0 <= i < 3 && column == PersonPrefix + PersonColumns[i] ==> RelabelColumn(column, PersonColumnsAt(1)) == PersonColumns[i]
    ensures column !in PersonColumnsAt(1) ==> RelabelColumn(column, PersonColumnsAt(1)) == column
  {
    var ic := PersonColumnsAt(1);
    assert forall i :: 0 <= i < 3 ==> ic[i] == PersonPrefix + PersonColumns[i];
  }

  /** A bare person column is not a person path, and its prefixed form relabels back to it. */
  lemma PersonColumnRelabelled(i: int)
    requires 0 <= i < 3
    ensures PersonColumns[i] !in PersonColumnsAt(1)
    ensures RelabelColumn(PrefixColumn(PersonColumns[i]), PersonColumnsAt(1)) == PersonColumns[i]
  {
    var ic := PersonColumnsAt(1);
    var column := PersonColumns[i];
    assert PrefixColumn(column) == PersonPrefix + column;
    RelabelFirstIteration(PersonPrefix + column);
    forall c | c in ic
      ensures |c| > |column|
    {
    }
  }

  /** Relabelling on the first iteration undoes the prefixing of the requested columns: a
      requested column comes back under its own name, except a requested person path, which
      comes back as the bare person column it names. */
  lemma RelabelUndoesPrefix(column: string)
    ensures column !in PersonColumnsAt(1) ==> RelabelColumn(PrefixColumn(column), PersonColumnsAt(1)) == column
    ensures column in PersonColumnsAt(1) ==>
              && RelabelColumn(PrefixColumn(column), PersonColumnsAt(1)) in PersonColumns
              && PersonPrefix + RelabelColumn(PrefixColumn(column), PersonColumnsAt(1)) == column
  {
    var ic := PersonColumnsAt(1);
    if column in PersonColumns {
      var i :| 0 <= i < 3 && PersonColumns[i] == column;
      PersonColumnRelabelled(i);
    } else {
      assert PrefixColumn(column) == column;
      RelabelFirstIteration(column);
      if column in ic {
        var i :| 0 <= i < 3 && column == PersonPrefix + PersonColumns[i];
      }
    }
  }

  /** When relabelling merges only equal columns and equal columns carry equal values, every
      column's key holds the string form of that column's value. */
  lemma RowRelabelling(row: AggRow, individualColumns: seq<string>)
    requires SameColumnSameValue(row)
    requires forall c :: c in individualColumns ==> |SplitOnce(c)| == 2
    requires forall i, j ::
               (0 <= i < |row.columns| && 0 <= j < |row.columns| &&
                RelabelColumn(row.columns[i], individualColumns) == RelabelColumn(row.columns[j], individualColumns))
               ==> row.columns[i] == row.columns[j]
    ensures forall j :: 0 <= j < |row.columns| ==>
              && RelabelColumn(row.columns[j], individualColumns) in ColumnValues(row.columns, row.values, individualColumns)
              && ColumnValues(row.columns, row.values, individualColumns)[RelabelColumn(row.columns[j], individualColumns)] == Str(row.values[j])
  {
    var m := ColumnValues(row.columns, row.values, individualColumns);
    ColumnValuesKeys(row.columns, row.values, individualColumns);
    ColumnValuesFromColumns(row.columns, row.values, individualColumns);
    forall j | 0 <= j < |row.columns|
      ensures RelabelColumn(row.columns[j], individualColumns) in m && m[RelabelColumn(row.columns[j], individualColumns)] == Str(row.values[j])
    {
      var key := RelabelColumn(row.columns[j], individualColumns);
      assert key in m;
      var l :| 0 <= l < |row.columns| && RelabelColumn(row.columns[l], individualColumns) == key && m[key] == Str(row.values[l]);
      assert row.columns[l] == row.columns[j];
    }
  }

  /** Each person path `individual__X` among the row's columns comes back in the summary row as
      the bare `X`, holding the string form of that column's value. */
  predicate StripsPersonPaths(row: AggRow, summary: SummaryRow)
    requires |row.values| == |row.columns|
  {
    forall i, j :: 0 <= i < 3 && 0 <= j < |row.columns| && row.columns[j] == PersonPrefix + PersonColumns[i] ==>
      PersonColumns[i] in summary.columnValues && summary.columnValues[PersonColumns[i]] == Str(row.values[j])
  }

  /** On the first iteration, two columns that are not bare person columns get the same key
      only when they are the same column. */
  lemma FirstIterationInjective(c: string, d: string)
    requires c !in PersonColumns && d !in PersonColumns
    ensures RelabelColumn(c, PersonColumnsAt(1)) == RelabelColumn(d, PersonColumnsAt(1)) ==> c == d
  {
    RelabelFirstIteration(c);
    RelabelFirstIteration(d);
  }

  /** Every key of the first summary row is a column that is not a person path, or the bare
      name of a person path among the columns. */
  lemma FirstRowKeysFromColumns(row: AggRow)
    requires |row.values| == |row.columns|
    ensures forall k :: k in SummaryRowOf(row, 0).columnValues ==>
              (k in row.columns && k !in PersonColumnsAt(1)) || (k in PersonColumns && PersonPrefix + k in row.columns)
  {
    var ic := PersonColumnsAt(1);
    var m := SummaryRowOf(row, 0).columnValues;
    ColumnValuesKeys(row.columns, row.values, ic);
    forall k | k in m
      ensures (k in row.columns && k !in ic) || (k in PersonColumns && PersonPrefix + k in row.columns)
    {
      var j :| 0 <= j < |row.columns| && RelabelColumn(row.columns[j], ic) == k;
      RelabelFirstIteration(row.columns[j]);
    }
  }

  /** The columns that are not person paths, and the bare names of the person paths, are keys
      of the first summary row. */
  lemma FirstRowKeysCovered(row: AggRow)
    requires |row.values| == |row.columns|
    ensures forall k :: (k in row.columns && k !in PersonColumnsAt(1)) || (k in PersonColumns && PersonPrefix + k in row.columns) ==>
              k in SummaryRowOf(row, 0).columnValues
  {
    var ic := PersonColumnsAt(1);
    ColumnValuesKeys(row.columns, row.values, ic);
    forall k | k in row.columns && k !in ic
      ensures k in SummaryRowOf(row, 0).columnValues
    {
      var j :| 0 <= j < |row.columns| && row.columns[j] == k;
      assert RelabelColumn(row.columns[j], ic) == k;
    }
    forall k | k in PersonColumns && PersonPrefix + k in row.columns
      ensures k in SummaryRowOf(row, 0).columnValues
    {
      var j :| 0 <= j < |row.columns| && row.columns[j] == PersonPrefix + k;
      var i :| 0 <= i < 3 && PersonColumns[i] == k;
      RelabelFirstIteration(row.columns[j]);
    }
  }

  /** The keys of the first summary row are the row's columns that are not person paths and
      the bare names of its person paths. */
  lemma FirstRowKeys(row: AggRow)
    requires |row.values| == |row.columns|
    ensures forall k :: k in SummaryRowOf(row, 0).columnValues <==>
              (k in row.columns && k !in PersonColumnsAt(1)) || (k in PersonColumns && PersonPrefix + k in row.columns)
  {
    FirstRowKeysFromColumns(row);
    FirstRowKeysCovered(row);
  }

  /** Each column's key in the first summary row holds the string form of its value. */
  lemma FirstRowValues(row: AggRow)
    requires SameColumnSameValue(row)
    requires forall c :: c in row.columns ==> c !in PersonColumns
    ensures forall j :: 0 <= j < |row.columns| ==>
              && RelabelColumn(row.columns[j], PersonColumnsAt(1)) in SummaryRowOf(row, 0).columnValues
              && SummaryRowOf(row, 0).columnValues[RelabelColumn(row.columns[j], PersonColumnsAt(1))] == Str(row.values[j])
  {
    var ic := PersonColumnsAt(1);
    forall i, j | 0 <= i < |row.columns| && 0 <= j < |row.columns| && RelabelColumn(row.columns[i], ic) == RelabelColumn(row.columns[j], ic)
      ensures row.columns[i] == row.columns[j]
    {
      assert row.columns[i] in row.columns && row.columns[j] in row.columns;
      FirstIterationInjective(row.columns[i], row.columns[j]);
    }
    RowRelabelling(row, ic);
  }

  /** The first summary row strips the prefix from person paths: its keys are the columns that
      are not person paths and the bare names of the person paths, and every key holds the
      string form of its column's value. The rows the resolver aggregates hold no bare person
      column, and equal columns carry equal values. */
  lemma FirstRowRelabelling(row: AggRow)
    requires SameColumnSameValue(row)
    requires forall c :: c in row.columns ==> c !in PersonColumns
    ensures forall k :: k in SummaryRowOf(row, 0).columnValues <==>
              (k in row.columns && k !in PersonColumnsAt(1)) || (k in PersonColumns && PersonPrefix + k in row.columns)
    ensures forall j :: 0 <= j < |row.columns| && row.columns[j] !in PersonColumnsAt(1) ==>
              row.columns[j] in SummaryRowOf(row, 0).columnValues && SummaryRowOf(row, 0).columnValues[row.columns[j]] == Str(row.values[j])
    ensures StripsPersonPaths(row, SummaryRowOf(row, 0))
  {
    var ic := PersonColumnsAt(1);
    FirstRowKeys(row);
    FirstRowValues(row);
    forall j | 0 <= j < |row.columns| && row.columns[j] !in ic
      ensures RelabelColumn(row.columns[j], ic) == row.columns[j]
    {
    }
    forall i, j | 0 <= i < 3 && 0 <= j < |row.columns| && row.columns[j] == PersonPrefix + PersonColumns[i]
      ensures RelabelColumn(row.columns[j], ic) == PersonColumns[i]
    {
      RelabelFirstIteration(row.columns[j]);
    }
  }

  /** The first summary row strips every person path to its bare name. */
  lemma FirstRowStrips(row: AggRow)
    requires SameColumnSameValue(row)
    requires forall c :: c in row.columns ==> c !in PersonColumns
    ensures StripsPersonPaths(row, SummaryRowOf(row, 0))
  {
    FirstRowRelabelling(row);
  }

  /** Every summary row after the first keeps its person paths unstripped: `individual_columns`
      has by then been prefixed again, so no column of the row is one of them, and each column
      is its own key. */
  lemma LaterRowsKeepPrefix(row: AggRow, iteration: nat)
    requires iteration >= 1
    requires SameColumnSameValue(row)
    requires forall c :: c in row.columns ==> c !in PersonColumnsAt(iteration + 1)
    ensures forall k :: k in SummaryRowOf(row, iteration).columnValues <==> k in row.columns
    ensures forall j :: 0 <= j < |row.columns| ==>
              row.columns[j] in SummaryRowOf(row, iteration).columnValues && SummaryRowOf(row, iteration).columnValues[row.columns[j]] == Str(row.values[j])
  {
    var ic := PersonColumnsAt(iteration + 1);
    forall j | 0 <= j < |row.columns|
      ensures RelabelColumn(row.columns[j], ic) == row.columns[j]
    {
      assert row.columns[j] in row.columns;
    }
    RowRelabelling(row, ic);
    ColumnValuesKeys(row.columns, row.values, ic);
    forall k | k in SummaryRowOf(row, iteration).columnValues
      ensures k in row.columns
    {
      var j :| 0 <= j < |row.columns| && RelabelColumn(row.columns[j], ic) == k;
    }
  }

  /** A one-column dict comprehension. */
  lemma SingleColumnValues(column: string, value: Option<string>, individualColumns: seq<string>)
    requires forall c :: c in individualColumns ==> |SplitOnce(c)| == 2
    ensures ColumnValues([column], [value], individualColumns) == map[RelabelColumn(column, individualColumns) := Str(value)]
  {
    assert RelabelKeys([column], individualColumns) == [RelabelColumn(column, individualColumns)];
    assert seq(1, j requires 0 <= j < 1 => Str([value][j])) == [Str(value)];
    var key := RelabelColumn(column, individualColumns);
    assert [key][..0] == [] && [Str(value)][..0] == [];
    assert DictOf([key], [Str(value)]) == map[key := Str(value)];
  }

  /** The first row of the example keeps the bare person column. */
  lemma FirstExampleRow()
    ensures SummaryRowOf(AggRow(["individual__first_name"], [Some("Ann")], 2), 0).columnValues == map["first_name" := "Ann"]
  {
    var path := "individual__first_name";
    FirstNamePath();
    assert PersonColumns[0] == "first_name";
    RelabelFirstIteration(path);
    SingleColumnValues(path, Some("Ann"), PersonColumnsAt(1));
  }

  /** The second row of the example keeps the person path. */
  lemma SecondExampleRow()
    ensures SummaryRowOf(AggRow(["individual__first_name"], [Some("Bob")], 3), 1).columnValues == map["individual__first_name" := "Bob"]
  {
    var path := "individual__first_name";
    var ic2 := PersonColumnsAt(2);
    assert path !in ic2 by {
      forall c | c in ic2
        ensures |c| > |path|
      {
      }
    }
    SingleColumnValues(path, Some("Bob"), ic2);
  }

  /** Two duplicate groups on `first_name` through the loop as written: the first summary row is
      keyed by `first_name`, the second by `individual__first_name`, so the second row does not
      strip its person path. */
  lemma SecondRowKeepsPersonPath()
    ensures SummaryRowOf(AggRow(["individual__first_name"], [Some("Ann")], 2), 0).columnValues == map["first_name" := "Ann"]
    ensures SummaryRowOf(AggRow(["individual__first_name"], [Some("Bob")], 3), 1).columnValues == map["individual__first_name" := "Bob"]
    ensures !StripsPersonPaths(AggRow(["individual__first_name"], [Some("Bob")], 3), SummaryRowOf(AggRow(["individual__first_name"], [Some("Bob")], 3), 1))
  {
    FirstExampleRow();
    SecondExampleRow();
    var second := AggRow(["individual__first_name"], [Some("Bob")], 3);
    FirstNamePath();
    assert PersonColumns[0] == "first_name";
    assert second.columns[0] == PersonPrefix + PersonColumns[0];
    assert PersonColumns[0] !in SummaryRowOf(second, 1).columnValues;
  }

  // ---------------------------------------------------------------------------------------
  // Query.resolve_beneficiary_deduplication_summary
  // ---------------------------------------------------------------------------------------

  /** The loop of the resolver: for each aggregated row, rebind `individual_columns` to its
      prefixed form, pop `id_count` and relabel the remaining columns. */
  method SummarizeRows(aggregated: seq<AggRow>) returns (rows: seq<SummaryRow>)
    requires forall row :: row in aggregated ==> |row.values| == |row.columns|
    ensures |rows| == |aggregated|
    ensures forall k :: 0 <= k < |aggregated| ==>
              |aggregated[k].values| == |aggregated[k].columns| && rows[k] == SummaryRowOf(aggregated[k], k)
  {
    var individualColumns := PersonColumns;
    rows := [];
    var i := 0;
    assert individualColumns == PersonColumnsAt(0);
    while i < |aggregated|
      invariant 0 <= i <= |aggregated|
      invariant individualColumns == PersonColumnsAt(i)
      invariant |rows| == i
      invariant forall k :: 0 <= k < i ==>
                  |aggregated[k].values| == |aggregated[k].columns| && rows[k] == SummaryRowOf(aggregated[k], k)
    {
      individualColumns := seq(|individualColumns|, j requires 0 <= j < |individualColumns| => PersonPrefix + individualColumns[j]);
      RebindPersonColumns(i);
      assert individualColumns == PersonColumnsAt(i + 1);
      var row := aggregated[i];
      assert row in aggregated;
      var count := row.idCount;
      var rowColumnValues := ColumnValues(row.columns, row.values, individualColumns);
      rows := rows + [SummaryRow(rowColumnValues, count)];
      i := i + 1;
    }
  }

  /** `summary` is what the first iteration makes of `row`, and it strips the row's person
      paths. */
  predicate SummarizedOnFirstIteration(row: AggRow, summary: SummaryRow)
  {
    && |row.values| == |row.columns|
    && summary == SummaryRowOf(row, 0)
    && StripsPersonPaths(row, summary)
  }

  /** The loop as evidently intended, with `individual_columns` prefixed once before it: every
      row is relabelled as the first one is, so every person path comes back as its bare name. */
  method SummarizeRowsIntended(aggregated: seq<AggRow>) returns (rows: seq<SummaryRow>)
    requires forall row :: row in aggregated ==> SameColumnSameValue(row) && forall c :: c in row.columns ==> c !in PersonColumns
    ensures |rows| == |aggregated|
    ensures forall k :: 0 <= k < |aggregated| ==>
              && |aggregated[k].values| == |aggregated[k].columns|
              && rows[k] == SummaryRowOf(aggregated[k], 0)
              && StripsPersonPaths(aggregated[k], rows[k])
  {
    var individualColumns := seq(|PersonColumns|, j requires 0 <= j < |PersonColumns| => PersonPrefix + PersonColumns[j]);
    RebindPersonColumns(0);
    assert individualColumns == PersonColumnsAt(1);
    rows := [];
    for i := 0 to |aggregated|
      invariant |rows| == i
      invariant forall k :: 0 <= k < i ==> SummarizedOnFirstIteration(aggregated[k], rows[k])
    {
      var row := aggregated[i];
      assert row in aggregated;
      FirstRowStrips(row);
      var rowColumnValues := ColumnValues(row.columns, row.values, individualColumns);
      rows := rows + [SummaryRow(rowColumnValues, row.idCount)];
    }
  }

  /** The rows the resolver hands to its loop: for non-empty columns and a plan, the
      aggregation succeeds, and each of its rows holds no bare person column, carries equal
      values under equal columns and counts more than one beneficiary. */
  lemma ResolverAggregatedRows(beneficiaries: seq<Record>, beneficiaryFields: set<string>, columns: seq<string>, planId: string)
    requires columns != [] && planId != ""
    ensures BeneficiaryDuplicationAggregation(beneficiaries, beneficiaryFields, Some(PrefixPersonColumns(columns)), Some(planId)).Ok?
    ensures forall row :: row in BeneficiaryDuplicationAggregation(beneficiaries, beneficiaryFields, Some(PrefixPersonColumns(columns)), Some(planId)).value ==>
              && SameColumnSameValue(row)
              && (forall c :: c in row.columns ==> c !in PersonColumns)
              && row.idCount > 1
  {
    var requested := PrefixPersonColumns(columns);
    var aggr := BeneficiaryDuplicationAggregation(beneficiaries, beneficiaryFields, Some(requested), Some(planId));
    forall row | row in aggr.value
      ensures SameColumnSameValue(row) && (forall c :: c in row.columns ==> c !in PersonColumns) && row.idCount > 1
    {
      BeneficiaryRowsConsistent(beneficiaries, beneficiaryFields, requested, planId, row);
    }
  }

  /** What the resolver returns: the validation messages, or the summary rows. */
  datatype Summary = ValidationMessages(messages: seq<string>) | DeduplicationSummary(rows: seq<SummaryRow>)

  /** `Query.resolve_beneficiary_deduplication_summary`, over the beneficiary table, the field
      names of the beneficiary model and the permissions a beneficiary search needs. */
  method ResolveBeneficiaryDeduplicationSummary(
    user: User, searchPerms: set<string>, beneficiaries: seq<Record>, beneficiaryFields: set<string>,
    columns: Option<seq<string>>, benefitPlanId: Option<string>)
    returns (r: Result<Summary, Exception>)
    ensures CheckPermissions(user, searchPerms).Fail? ==> r == Err(PermissionError("Unauthorized"))
    ensures CheckPermissions(user, searchPerms).Pass? && NoColumns(columns) ==> r == Ok(ValidationMessages([NoColumnsProvided]))
    ensures CheckPermissions(user, searchPerms).Pass? && !NoColumns(columns) ==>
              var aggr := BeneficiaryDuplicationAggregation(beneficiaries, beneficiaryFields, Some(PrefixPersonColumns(columns.value)), benefitPlanId);
              && (aggr.Err? ==> r == Err(aggr.error))
              && (aggr.Ok? ==>
                    && r.Ok? && r.value.DeduplicationSummary?
                    && |r.value.rows| == |aggr.value|
                    && forall k :: 0 <= k < |aggr.value| ==>
                         |aggr.value[k].values| == |aggr.value[k].columns| && r.value.rows[k] == SummaryRowOf(aggr.value[k], k))
  {
    var check := CheckPermissions(user, searchPerms);
    if check.Fail? {
      return Err(check.error);
    }
    if NoColumns(columns) {
      return Ok(ValidationMessages([NoColumnsProvided]));
    }
    var requested := PrefixPersonColumns(columns.value);
    var aggr := BeneficiaryDuplicationAggregation(beneficiaries, beneficiaryFields, Some(requested), benefitPlanId);
    if aggr.Err? {
      return Err(aggr.error);
    }
    var rows := SummarizeRows(aggr.value);
    r := Ok(DeduplicationSummary(rows));
  }
}
