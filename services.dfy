/** Duplicate detection over beneficiaries: classifying the requested columns into model fields
    and keys of the `json_ext` extension map, and the grouping query
    `values(*columns).annotate(id_count=Count('id')).filter(id_count__gt=1)` as a function over
    the rows of the table. */
module Services {
  import opened Outcomes
  import opened LookupPath

  // ---------------------------------------------------------------------------------------
  // Column classification (_is_model_column, _resolve_columns)
  // ---------------------------------------------------------------------------------------

  /** `model._meta.get_field(name)`: the field's name when the model has a field so named,
      otherwise `FieldDoesNotExist`. A model is given by its field names. */
  function GetField(modelFields: set<string>, name: string): (r: Result<string, Exception>)
    ensures r.Ok? <==> name in modelFields
    ensures r.Ok? ==> r.value == name
    ensures r.Err? ==> r.error.FieldDoesNotExist?
  {
    if name in modelFields then Ok(name) else Err(FieldDoesNotExist(name))
  }

  /** `_is_model_column`: true when looking the field up succeeds, false when it raises
      `FieldDoesNotExist`. */
  predicate IsModelColumn(modelFields: set<string>, name: string)
    ensures IsModelColumn(modelFields, name) <==> name in modelFields
  {
    GetField(modelFields, name).Ok?
  }

  /** A requested column is a database column when the part of it before the first "__"
      (the whole name when there is none) is a field of the model. */
  predicate IsDbColumn(modelFields: set<string>, column: string)
  {
    IsModelColumn(modelFields, SplitOnce(column)[0])
  }

  /** The requested columns whose classification is `db`, in request order. */
  function Pick(modelFields: set<string>, columns: seq<string>, db: bool): seq<string>
  {
    if columns == [] then []
    else
      var n := |columns| - 1;
      Pick(modelFields, columns[..n], db) + (if IsDbColumn(modelFields, columns[n]) == db then [columns[n]] else [])
  }

  /** The `fields` list that `_resolve_columns` returns. */
  function FieldColumns(modelFields: set<string>, columns: seq<string>): seq<string>
  {
    Pick(modelFields, columns, true)
  }

  /** The `json_fields` list that `_resolve_columns` returns. */
  function JsonColumns(modelFields: set<string>, columns: seq<string>): seq<string>
  {
    Pick(modelFields, columns, false)
  }

  /** `_resolve_columns`: one pass over the requested columns, appending each to `fields` or to
      `jsonFields`. */
  method ResolveColumns(modelFields: set<string>, columns: seq<string>) returns (fields: seq<string>, jsonFields: seq<string>)
    ensures fields == FieldColumns(modelFields, columns)
    ensures jsonFields == JsonColumns(modelFields, columns)
  {
    fields, jsonFields := [], [];
    for i := 0 to |columns|
      invariant fields == FieldColumns(modelFields, columns[..i])
      invariant jsonFields == JsonColumns(modelFields, columns[..i])
    {
      var column := columns[i];
      assert columns[..i + 1][..i] == columns[..i];
      if IsModelColumn(modelFields, SplitOnce(column)[0]) {
        fields := fields + [column];
      } else {
        jsonFields := jsonFields + [column];
      }
    }
    assert columns[..|columns|] == columns;
  }

  /** Indices of the requested columns whose classification is `db`, ascending. */
  ghost function PickPositions(modelFields: set<string>, columns: seq<string>, db: bool): seq<nat>
  {
    if columns == [] then []
    else
      var n := |columns| - 1;
      PickPositions(modelFields, columns[..n], db) + (if IsDbColumn(modelFields, columns[n]) == db then [n] else [])
  }

  /** `picked` lists, in ascending order of position, the columns at exactly the indices
      `positions`, and those are exactly the indices whose column classifies as `db`. */
  ghost predicate OrderedSelection(modelFields: set<string>, columns: seq<string>, db: bool, picked: seq<string>, positions: seq<nat>)
  {
    && |positions| == |picked|
    && (forall k :: 0 <= k < |positions| ==> positions[k] < |columns| && columns[positions[k]] == picked[k])
    && (forall k, l :: 0 <= k < l < |positions| ==> positions[k] < positions[l])
    && (forall i :: 0 <= i < |columns| ==> (i in positions <==> IsDbColumn(modelFields, columns[i]) == db))
  }

  /** Extending the request by one column extends an ordered selection by that column exactly
      when it classifies as `db`. */
  lemma OrderedSelectionStep(modelFields: set<string>, columns: seq<string>, db: bool, picked: seq<string>, positions: seq<nat>)
    requires columns != []
    requires OrderedSelection(modelFields, columns[..|columns| - 1], db, picked, positions)
    ensures IsDbColumn(modelFields, columns[|columns| - 1]) == db ==>
              OrderedSelection(modelFields, columns, db, picked + [columns[|columns| - 1]], positions + [|columns| - 1])
    ensures IsDbColumn(modelFields, columns[|columns| - 1]) != db ==> OrderedSelection(modelFields, columns, db, picked, positions)
  {
    var n := |columns| - 1;
    var init := columns[..n];
    assert forall k :: 0 <= k < |positions| ==> positions[k] < n;
    assert forall i :: 0 <= i < n ==> init[i] == columns[i];
    assert n !in positions;
  }

  /** Each of the two lists is the request restricted to the columns of its class, in the order
      they were requested. */
  lemma {:induction false} ResolveColumnsKeepsOrder(modelFields: set<string>, columns: seq<string>, db: bool)
    ensures OrderedSelection(modelFields, columns, db, Pick(modelFields, columns, db), PickPositions(modelFields, columns, db))
  {
    if columns != [] {
      var n := |columns| - 1;
      var init := columns[..n];
      ResolveColumnsKeepsOrder(modelFields, init, db);
      OrderedSelectionStep(modelFields, columns, db, Pick(modelFields, init, db), PickPositions(modelFields, init, db));
    }
  }

  /** Every requested column lands in exactly one of the two lists, so their lengths add up to
      the request's and together they hold the request's columns with their multiplicities. */
  lemma {:induction false} ResolveColumnsPartition(modelFields: set<string>, columns: seq<string>)
    ensures |FieldColumns(modelFields, columns)| + |JsonColumns(modelFields, columns)| == |columns|
    ensures multiset(FieldColumns(modelFields, columns)) + multiset(JsonColumns(modelFields, columns)) == multiset(columns)
  {
    if columns != [] {
      var n := |columns| - 1;
      var init := columns[..n];
      ResolveColumnsPartition(modelFields, init);
      assert columns == init + [columns[n]];
      assert multiset(columns) == multiset(init) + multiset{columns[n]};
      if IsDbColumn(modelFields, columns[n]) {
        assert FieldColumns(modelFields, columns) == FieldColumns(modelFields, init) + [columns[n]];
        assert JsonColumns(modelFields, columns) == JsonColumns(modelFields, init);
      } else {
        assert FieldColumns(modelFields, columns) == FieldColumns(modelFields, init);
        assert JsonColumns(modelFields, columns) == JsonColumns(modelFields, init) + [columns[n]];
      }
    }
  }

  /** A column is in `fields` iff it was requested and its root names a model field, and in
      `json_fields` iff it was requested and its root does not. */
  lemma {:induction false} ResolveColumnsClassification(modelFields: set<string>, columns: seq<string>)
    ensures forall c :: c in FieldColumns(modelFields, columns) <==> c in columns && IsDbColumn(modelFields, c)
    ensures forall c :: c in JsonColumns(modelFields, columns) <==> c in columns && !IsDbColumn(modelFields, c)
  {
    if columns != [] {
      var n := |columns| - 1;
      ResolveColumnsClassification(modelFields, columns[..n]);
      assert columns == columns[..n] + [columns[n]];
    }
  }

  // ---------------------------------------------------------------------------------------
  // Records and the text projection of the extension map
  // ---------------------------------------------------------------------------------------

  /** A JSON value stored under a key of a record's `json_ext` map. */
  datatype Json = JNull | JBool(b: bool) | JNumber(literal: string) | JString(text: string) | JComposite(serialized: string)

  /** A beneficiary row: its id, its benefit plan, the values of the database column paths
      (text, or null) and its extension map. */
  datatype Record = Record(id: string, benefitPlanId: string, fields: map<string, Option<string>>, jsonExt: map<string, Json>)

  /** The value of a database column path. */
  function FieldValue(r: Record, column: string): Option<string>
  {
    if column in r.fields then r.fields[column] else None
  }

  /** `Cast(KeyTextTransform(key, 'json_ext'), TextField())`: the value under `key` as text;
      SQL NULL when the key is absent or holds JSON null. */
  function KeyText(r: Record, key: string): (t: Option<string>)
    ensures t.None? <==> key !in r.jsonExt || r.jsonExt[key].JNull?
    ensures key in r.jsonExt && r.jsonExt[key].JString? ==> t == Some(r.jsonExt[key].text)
    ensures key in r.jsonExt && r.jsonExt[key].JNumber? ==> t == Some(r.jsonExt[key].literal)
    ensures key in r.jsonExt && r.jsonExt[key].JBool? ==> t == Some(if r.jsonExt[key].b then "true" else "false")
    ensures key in r.jsonExt && r.jsonExt[key].JComposite? ==> t == Some(r.jsonExt[key].serialized)
  {
    if key !in r.jsonExt then None
    else
      match r.jsonExt[key]
      case JNull => None
      case JBool(b) => Some(if b then "true" else "false")
      case JNumber(literal) => Some(literal)
      case JString(text) => Some(text)
      case JComposite(serialized) => Some(serialized)
  }

  /** Because extension values are compared as text, a number and a string with the same text
      fall into the same group. */
  lemma NumberAndStringGroupTogether(r1: Record, r2: Record, key: string, literal: string)
    requires key in r1.jsonExt && r1.jsonExt[key] == JNumber(literal)
    requires key in r2.jsonExt && r2.jsonExt[key] == JString(literal)
    ensures KeyText(r1, key) == KeyText(r2, key) == Some(literal)
  {
  }

  // ---------------------------------------------------------------------------------------
  // Filters, projection and the grouping query
  // ---------------------------------------------------------------------------------------

  /** The `Q` objects the callers pass; the only one used is the benefit plan filter. */
  datatype Filter = BenefitPlanIs(planId: string)

  predicate Holds(f: Filter, r: Record)
  {
    match f
    case BenefitPlanIs(planId) => r.benefitPlanId == planId
  }

  /** `model.objects.filter(*filters)` keeps the records every filter holds of. */
  predicate Satisfies(r: Record, filters: seq<Filter>)
  {
    forall i :: 0 <= i < |filters| ==> Holds(filters[i], r)
  }

  /** A group key: the values of the database columns followed by the texts of the JSON keys. */
  type Tuple = seq<Option<string>>

  /** The values a record takes on `values(*columns, *jsonKeys)`. */
  function Project(r: Record, columns: seq<string>, jsonKeys: seq<string>): (t: Tuple)
    ensures |t| == |columns| + |jsonKeys|
    ensures forall i :: 0 <= i < |columns| ==> t[i] == FieldValue(r, columns[i])
    ensures forall i :: |columns| <= i < |t| ==> t[i] == KeyText(r, jsonKeys[i - |columns|])
  {
    seq(|columns|, i requires 0 <= i < |columns| => FieldValue(r, columns[i]))
      + seq(|jsonKeys|, i requires 0 <= i < |jsonKeys| => KeyText(r, jsonKeys[i]))
  }

  /** The records of `table` that satisfy the filters, in table order. */
  function Matching(table: seq<Record>, filters: seq<Filter>): (kept: seq<Record>)
    ensures forall r :: r in kept <==> r in table && Satisfies(r, filters)
    ensures forall r :: multiset(kept)[r] == if Satisfies(r, filters) then multiset(table)[r] else 0
    ensures |kept| <= |table|
  {
    if table == [] then []
    else
      var n := |table| - 1;
      assert table == table[..n] + [table[n]];
      Matching(table[..n], filters) + (if Satisfies(table[n], filters) then [table[n]] else [])
  }

  /** The projections of the records that satisfy the filters, in table order. */
  function Tuples(table: seq<Record>, filters: seq<Filter>, columns: seq<string>, jsonKeys: seq<string>): (ts: seq<Tuple>)
    ensures forall t :: t in ts ==> |t| == |columns| + |jsonKeys|
  {
    if table == [] then []
    else
      var n := |table| - 1;
      Tuples(table[..n], filters, columns, jsonKeys)
        + (if Satisfies(table[n], filters) then [Project(table[n], columns, jsonKeys)] else [])
  }

  /** How often `t` occurs in `ts`. */
  function Occurrences(ts: seq<Tuple>, t: Tuple): nat
  {
    if ts == [] then 0
    else Occurrences(ts[..|ts| - 1], t) + (if ts[|ts| - 1] == t then 1 else 0)
  }

  /** The number of records that satisfy the filters and carry the values `t`: what
      `Count('id')` gives the group `t`, ids being never null. */
  ghost function Carriers(table: seq<Record>, filters: seq<Filter>, columns: seq<string>, jsonKeys: seq<string>, t: Tuple): nat
  {
    if table == [] then 0
    else
      var n := |table| - 1;
      Carriers(table[..n], filters, columns, jsonKeys, t)
        + (if Satisfies(table[n], filters) && Project(table[n], columns, jsonKeys) == t then 1 else 0)
  }

  /** One entry per distinct element, in order of first occurrence: the groups of GROUP BY. */
  function Distinct(xs: seq<Tuple>): (ds: seq<Tuple>)
    ensures forall x :: x in ds <==> x in xs
    ensures forall i, j :: 0 <= i < j < |ds| ==> ds[i] != ds[j]
  {
    if xs == [] then []
    else
      var rest := Distinct(xs[..|xs| - 1]);
      var x := xs[|xs| - 1];
      assert forall y :: y in xs <==> y in xs[..|xs| - 1] || y == x by {
        assert xs == xs[..|xs| - 1] + [x];
      }
      if x in rest then rest else rest + [x]
  }

  /** One aggregated row: the column names with their values, and the `id_count` annotation. */
  datatype AggRow = AggRow(columns: seq<string>, values: Tuple, idCount: nat)

  /** `HAVING COUNT(id) > 1` over the groups, each counted among the projected tuples `ts`. */
  function HavingCountAbove1(groups: seq<Tuple>, ts: seq<Tuple>, columns: seq<string>): (rows: seq<AggRow>)
    ensures forall row :: row in rows ==> row.columns == columns && row.values in groups
    ensures forall row :: row in rows ==> row.idCount == Occurrences(ts, row.values) && row.idCount > 1
    ensures forall t :: t in groups && Occurrences(ts, t) > 1 ==> exists row :: row in rows && row.values == t
    ensures (forall i, j :: 0 <= i < j < |groups| ==> groups[i] != groups[j]) ==>
              forall i, j :: 0 <= i < j < |rows| ==> rows[i].values != rows[j].values
  {
    if groups == [] then []
    else
      var t := groups[0];
      var rest := HavingCountAbove1(groups[1..], ts, columns);
      if Occurrences(ts, t) > 1 then [AggRow(columns, t, Occurrences(ts, t))] + rest else rest
  }

  /** What the aggregation promises about its rows over the filtered records of `table`. */
  ghost predicate IsDuplicateSummary(table: seq<Record>, filters: seq<Filter>, columns: seq<string>, jsonKeys: seq<string>, rows: seq<AggRow>)
  {
    // keyed by the database columns followed by the JSON keys
    && (forall row :: row in rows ==> row.columns == columns + jsonKeys && |row.values| == |row.columns|)
    // each row's values are those of some record that passed the filters
    && (forall row :: row in rows ==>
          exists r :: r in table && Satisfies(r, filters) && Project(r, columns, jsonKeys) == row.values)
    // id_count is the number of filtered records carrying the row's values, and exceeds 1
    && (forall row :: row in rows ==> row.idCount == Carriers(table, filters, columns, jsonKeys, row.values))
    && (forall row :: row in rows ==> row.idCount > 1)
    // one row per group
    && (forall i, j :: 0 <= i < j < |rows| ==> rows[i].values != rows[j].values)
    // every group of two or more filtered records has its row
    && (forall r :: r in table && Satisfies(r, filters) && Carriers(table, filters, columns, jsonKeys, Project(r, columns, jsonKeys)) > 1 ==>
          exists row :: row in rows && row.values == Project(r, columns, jsonKeys))
  }

  /** The projected tuples are exactly those of the filtered records, and each occurs as often
      as there are filtered records carrying it. */
  lemma {:induction false} TuplesOfFilteredRecords(table: seq<Record>, filters: seq<Filter>, columns: seq<string>, jsonKeys: seq<string>)
    ensures forall t :: t in Tuples(table, filters, columns, jsonKeys) <==>
              exists r :: r in table && Satisfies(r, filters) && Project(r, columns, jsonKeys) == t
    ensures forall t :: Occurrences(Tuples(table, filters, columns, jsonKeys), t) == Carriers(table, filters, columns, jsonKeys, t)
  {
    if table != [] {
      var n := |table| - 1;
      TuplesOfFilteredRecords(table[..n], filters, columns, jsonKeys);
      var ts := Tuples(table, filters, columns, jsonKeys);
      var init := Tuples(table[..n], filters, columns, jsonKeys);
      assert table == table[..n] + [table[n]];
      if Satisfies(table[n], filters) {
        assert ts[..|ts| - 1] == init;
      } else {
        assert ts == init;
      }
      forall t ensures Occurrences(ts, t) == Carriers(table, filters, columns, jsonKeys, t) {
        if Satisfies(table[n], filters) {
          assert ts[..|ts| - 1] == init;
        }
      }
    }
  }

  /** `get_duplication_aggregation`: refuses an empty column list, otherwise one row per group
      of two or more filtered records. */
  function DuplicationAggregation(table: seq<Record>, columns: seq<string>, jsonExtKeys: seq<string>, filters: seq<Filter>): (r: Result<seq<AggRow>, Exception>)
    ensures r.Err? <==> columns + jsonExtKeys == []
    ensures r.Err? ==> r.error == ValueError("At least one column required")
    ensures r.Ok? ==> IsDuplicateSummary(table, filters, columns, jsonExtKeys, r.value)
  {
    var values := columns + jsonExtKeys;
    if values == [] then Err(ValueError("At least one column required"))
    else
      var ts := Tuples(table, filters, columns, jsonExtKeys);
      TuplesOfFilteredRecords(table, filters, columns, jsonExtKeys);
      Ok(HavingCountAbove1(Distinct(ts), ts, values))
  }

  /** The records that fail the filters never change the aggregation. */
  lemma {:induction false} OnlyFilteredRecordsContribute(table: seq<Record>, filters: seq<Filter>, columns: seq<string>, jsonKeys: seq<string>)
    ensures DuplicationAggregation(table, columns, jsonKeys, filters) == DuplicationAggregation(Matching(table, filters), columns, jsonKeys, filters)
  {
    MatchingKeepsTuples(table, filters, columns, jsonKeys);
  }

  lemma TuplesAppend(table: seq<Record>, r: Record, filters: seq<Filter>, columns: seq<string>, jsonKeys: seq<string>)
    ensures Tuples(table + [r], filters, columns, jsonKeys)
         == Tuples(table, filters, columns, jsonKeys) + (if Satisfies(r, filters) then [Project(r, columns, jsonKeys)] else [])
  {
    assert (table + [r])[..|table|] == table;
  }

  lemma {:induction false} MatchingKeepsTuples(table: seq<Record>, filters: seq<Filter>, columns: seq<string>, jsonKeys: seq<string>)
    ensures Tuples(Matching(table, filters), filters, columns, jsonKeys) == Tuples(table, filters, columns, jsonKeys)
  {
    if table != [] {
      var n := |table| - 1;
      MatchingKeepsTuples(table[..n], filters, columns, jsonKeys);
      var m := Matching(table[..n], filters);
      var tail := if Satisfies(table[n], filters) then [Project(table[n], columns, jsonKeys)] else [];
      assert Tuples(table, filters, columns, jsonKeys) == Tuples(table[..n], filters, columns, jsonKeys) + tail;
      if Satisfies(table[n], filters) {
        assert Matching(table, filters) == m + [table[n]];
        TuplesAppend(m, table[n], filters, columns, jsonKeys);
      } else {
        assert Matching(table, filters) == m;
      }
    }
  }

  // ---------------------------------------------------------------------------------------
  // get_beneficiary_duplication_aggregation
  // ---------------------------------------------------------------------------------------

  /** `not columns`: the list is missing or empty. */
  predicate NoColumns(columns: Option<seq<string>>)
  {
    columns.None? || columns.value == []
  }

  /** `not benefit_plan_id`: the id is missing or empty. */
  predicate NoPlan(benefitPlanId: Option<string>)
  {
    benefitPlanId.None? || benefitPlanId.value == ""
  }

  /** `get_beneficiary_duplication_aggregation`: validates its arguments, classifies the
      columns against the beneficiary model and aggregates the beneficiaries of the plan. */
  function BeneficiaryDuplicationAggregation(beneficiaries: seq<Record>, beneficiaryFields: set<string>, columns: Option<seq<string>>, benefitPlanId: Option<string>): (r: Result<seq<AggRow>, Exception>)
    ensures NoColumns(columns) ==> r == Err(ValueError("At least one column required"))
    ensures !NoColumns(columns) && NoPlan(benefitPlanId) ==> r == Err(ValueError("Benefit Plan not specified"))
    ensures !NoColumns(columns) && !NoPlan(benefitPlanId) ==>
              r.Ok? && IsDuplicateSummary(beneficiaries, [BenefitPlanIs(benefitPlanId.value)],
                                          FieldColumns(beneficiaryFields, columns.value),
                                          JsonColumns(beneficiaryFields, columns.value), r.value)
  {
    if NoColumns(columns) then Err(ValueError("At least one column required"))
    else if NoPlan(benefitPlanId) then Err(ValueError("Benefit Plan not specified"))
    else
      ResolveColumnsPartition(beneficiaryFields, columns.value);
      DuplicationAggregation(beneficiaries, FieldColumns(beneficiaryFields, columns.value),
                             JsonColumns(beneficiaryFields, columns.value), [BenefitPlanIs(benefitPlanId.value)])
  }

  /** Beneficiaries of other plans never change the result. */
  lemma OnlyPlanBeneficiariesContribute(beneficiaries: seq<Record>, beneficiaryFields: set<string>, columns: Option<seq<string>>, planId: string)
    ensures BeneficiaryDuplicationAggregation(beneficiaries, beneficiaryFields, columns, Some(planId))
         == BeneficiaryDuplicationAggregation(Matching(beneficiaries, [BenefitPlanIs(planId)]), beneficiaryFields, columns, Some(planId))
  {
    if !NoColumns(columns) && planId != "" {
      OnlyFilteredRecordsContribute(beneficiaries, [BenefitPlanIs(planId)],
                                    FieldColumns(beneficiaryFields, columns.value), JsonColumns(beneficiaryFields, columns.value));
    }
  }

  /** Within the row, the same column name always carries the same value. */
  predicate SameColumnSameValue(row: AggRow)
  {
    && |row.values| == |row.columns|
    && forall i, j :: 0 <= i < |row.columns| && 0 <= j < |row.columns| && row.columns[i] == row.columns[j] ==> row.values[i] == row.values[j]
  }

  /** Within a row of an aggregation whose database columns and JSON keys share no name, the
      same column name always carries the same value. */
  lemma {:induction false} RowsConsistent(table: seq<Record>, filters: seq<Filter>, columns: seq<string>, jsonKeys: seq<string>, rows: seq<AggRow>, row: AggRow)
    requires forall c :: c in columns ==> c !in jsonKeys
    requires IsDuplicateSummary(table, filters, columns, jsonKeys, rows)
    requires row in rows
    ensures SameColumnSameValue(row)
  {
    var r :| r in table && Satisfies(r, filters) && Project(r, columns, jsonKeys) == row.values;
    assert row.columns == columns + jsonKeys;
    ProjectionConsistent(r, columns, jsonKeys);
  }

  /** A projection carries the same value at two positions whose names agree, when no name is
      both a database column and an extension key. */
  lemma ProjectionConsistent(r: Record, columns: seq<string>, jsonKeys: seq<string>)
    requires forall c :: c in columns ==> c !in jsonKeys
    ensures forall i, j :: 0 <= i < |columns + jsonKeys| && 0 <= j < |columns + jsonKeys| && (columns + jsonKeys)[i] == (columns + jsonKeys)[j] ==>
              Project(r, columns, jsonKeys)[i] == Project(r, columns, jsonKeys)[j]
  {
    var names := columns + jsonKeys;
    var t := Project(r, columns, jsonKeys);
    forall i | 0 <= i < |names|
      ensures i < |columns| ==> names[i] in columns && t[i] == FieldValue(r, names[i])
      ensures i >= |columns| ==> names[i] in jsonKeys && t[i] == KeyText(r, names[i])
    {
      if i < |columns| {
        assert names[i] == columns[i];
      } else {
        assert names[i] == jsonKeys[i - |columns|];
      }
    }
  }

  /** A row of the beneficiary aggregation names only requested columns, and the same column
      name always carries the same value in it. */
  lemma BeneficiaryRowsConsistent(beneficiaries: seq<Record>, beneficiaryFields: set<string>, columns: seq<string>, planId: string, row: AggRow)
    requires columns != [] && planId != ""
    requires BeneficiaryDuplicationAggregation(beneficiaries, beneficiaryFields, Some(columns), Some(planId)).Ok?
    requires row in BeneficiaryDuplicationAggregation(beneficiaries, beneficiaryFields, Some(columns), Some(planId)).value
    ensures SameColumnSameValue(row)
    ensures forall c :: c in row.columns ==> c in columns
  {
    var db := FieldColumns(beneficiaryFields, columns);
    var json := JsonColumns(beneficiaryFields, columns);
    ResolveColumnsClassification(beneficiaryFields, columns);
    var rows := BeneficiaryDuplicationAggregation(beneficiaries, beneficiaryFields, Some(columns), Some(planId)).value;
    RowsConsistent(beneficiaries, [BenefitPlanIs(planId)], db, json, rows, row);
    assert row.columns == db + json;
  }

  // ---------------------------------------------------------------------------------------
  // The scenario of the aggregation test
  // ---------------------------------------------------------------------------------------

  /** Field names of the beneficiary model used in the scenario. */
  const ScenarioBeneficiaryFields: set<string> := {"id", "individual", "benefit_plan", "status", "json_ext"}

  function ScenarioBeneficiary(id: string, planId: string, firstName: string, k1: string): Record
  {
    Record(id, planId, map["individual__first_name" := Some(firstName)], map["k1" := JString(k1)])
  }

  /** Two beneficiaries of plan "bp" whose individuals share a first name and whose extension
      maps share `k1`, one whose individual has another first name, and one of another plan. */
  const ScenarioTable: seq<Record> :=
    [ ScenarioBeneficiary("b1", "bp", "first name 1", "k1 v1"),
      ScenarioBeneficiary("b2", "bp", "first name 1", "k1 v1"),
      ScenarioBeneficiary("b3", "bp", "first name 2", "k1 v1"),
      ScenarioBeneficiary("b4", "other", "first name 1", "k1 v1") ]

  /** The person path of the scenario is the person prefix followed by `first_name`. */
  lemma FirstNamePath()
    ensures PersonPrefix + "first_name" == "individual__first_name"
  {
    var path := PersonPrefix + "first_name";
    assert |path| == 22;
    forall i | 0 <= i < 22
      ensures path[i] == "individual__first_name"[i]
    {
      if i < 12 {
        assert path[i] == PersonPrefix[i];
      } else {
        assert path[i] == "first_name"[i - 12];
      }
    }
  }

  lemma ScenarioColumns()
    ensures FieldColumns(ScenarioBeneficiaryFields, ["individual__first_name", "k1"]) == ["individual__first_name"]
    ensures JsonColumns(ScenarioBeneficiaryFields, ["individual__first_name", "k1"]) == ["k1"]
  {
    SplitPersonPrefix("first_name");
    FirstNamePath();
    assert SplitOnce("k1") == ["k1"];
    assert IsDbColumn(ScenarioBeneficiaryFields, "individual__first_name");
    assert !IsDbColumn(ScenarioBeneficiaryFields, "k1");
    var columns := ["individual__first_name", "k1"];
    assert columns[..1] == ["individual__first_name"] && columns[..1][..0] == [];
    assert Pick(ScenarioBeneficiaryFields, columns[..1], true) == ["individual__first_name"];
    assert Pick(ScenarioBeneficiaryFields, columns[..1], false) == [];
  }

  lemma ScenarioProjection(id: string, planId: string, firstName: string, k1: string)
    ensures Project(ScenarioBeneficiary(id, planId, firstName, k1), ["individual__first_name"], ["k1"]) == [Some(firstName), Some(k1)]
    ensures Satisfies(ScenarioBeneficiary(id, planId, firstName, k1), [BenefitPlanIs("bp")]) <==> planId == "bp"
  {
    var t := Project(ScenarioBeneficiary(id, planId, firstName, k1), ["individual__first_name"], ["k1"]);
    assert t[0] == Some(firstName) && t[1] == Some(k1);
    var filters := [BenefitPlanIs("bp")];
    assert filters[0] == BenefitPlanIs("bp");
    assert Holds(filters[0], ScenarioBeneficiary(id, planId, firstName, k1)) <==> planId == "bp";
  }

  /** The projections of two records that pass the filters and project alike. */
  lemma TuplesOfTwo(r0: Record, r1: Record, filters: seq<Filter>, columns: seq<string>, jsonKeys: seq<string>, t: Tuple)
    requires Satisfies(r0, filters) && Satisfies(r1, filters)
    requires Project(r0, columns, jsonKeys) == t && Project(r1, columns, jsonKeys) == t
    ensures Tuples([r0, r1], filters, columns, jsonKeys) == [t, t]
  {
    var e: seq<Record> := [];
    TuplesAppend(e, r0, filters, columns, jsonKeys);
    TuplesAppend([r0], r1, filters, columns, jsonKeys);
    assert [r0, r1] == [r0] + [r1];
  }

  /** The projections of four records of which the first three pass the filters. */
  lemma TuplesOfFour(r0: Record, r1: Record, r2: Record, r3: Record, filters: seq<Filter>, columns: seq<string>, jsonKeys: seq<string>, t1: Tuple, t2: Tuple)
    requires Satisfies(r0, filters) && Satisfies(r1, filters) && Satisfies(r2, filters)
    requires !Satisfies(r3, filters)
    requires Project(r0, columns, jsonKeys) == t1 && Project(r1, columns, jsonKeys) == t1
    requires Project(r2, columns, jsonKeys) == t2
    ensures Tuples([r0, r1, r2, r3], filters, columns, jsonKeys) == [t1, t1, t2]
  {
    TuplesOfTwo(r0, r1, filters, columns, jsonKeys, t1);
    TuplesAppend([r0, r1], r2, filters, columns, jsonKeys);
    assert [r0, r1, r2] == [r0, r1] + [r2];
    TuplesAppend([r0, r1, r2], r3, filters, columns, jsonKeys);
    assert [r0, r1, r2, r3] == [r0, r1, r2] + [r3];
  }

  lemma ScenarioTuples()
    ensures Tuples(ScenarioTable, [BenefitPlanIs("bp")], ["individual__first_name"], ["k1"])
         == [[Some("first name 1"), Some("k1 v1")], [Some("first name 1"), Some("k1 v1")], [Some("first name 2"), Some("k1 v1")]]
  {
    ScenarioProjection("b1", "bp", "first name 1", "k1 v1");
    ScenarioProjection("b2", "bp", "first name 1", "k1 v1");
    ScenarioProjection("b3", "bp", "first name 2", "k1 v1");
    ScenarioProjection("b4", "other", "first name 1", "k1 v1");
    TuplesOfFour(ScenarioTable[0], ScenarioTable[1], ScenarioTable[2], ScenarioTable[3], [BenefitPlanIs("bp")], ["individual__first_name"], ["k1"],
                 [Some("first name 1"), Some("k1 v1")], [Some("first name 2"), Some("k1 v1")]);
  }

  lemma DistinctAppend(xs: seq<Tuple>, x: Tuple)
    ensures Distinct(xs + [x]) == if x in Distinct(xs) then Distinct(xs) else Distinct(xs) + [x]
  {
    assert (xs + [x])[..|xs|] == xs;
  }

  lemma OccurrencesAppend(xs: seq<Tuple>, x: Tuple, t: Tuple)
    ensures Occurrences(xs + [x], t) == Occurrences(xs, t) + if x == t then 1 else 0
  {
    assert (xs + [x])[..|xs|] == xs;
  }

  lemma DistinctTwice(t: Tuple)
    ensures Distinct([t, t]) == [t]
  {
    var e: seq<Tuple> := [];
    assert [t] == e + [t];
    DistinctAppend(e, t);
    assert [t, t] == [t] + [t];
    DistinctAppend([t], t);
  }

  lemma ScenarioDistinct(t1: Tuple, t2: Tuple)
    requires t1 != t2
    ensures Distinct([t1, t1, t2]) == [t1, t2]
  {
    DistinctTwice(t1);
    assert [t1, t1, t2] == [t1, t1] + [t2];
    DistinctAppend([t1, t1], t2);
  }

  lemma OccurrencesTwice(t: Tuple, u: Tuple)
    requires t != u
    ensures Occurrences([t, t], t) == 2 && Occurrences([t, t], u) == 0
  {
    var e: seq<Tuple> := [];
    assert [t] == e + [t] && [t, t] == [t] + [t];
    OccurrencesAppend(e, t, t);
    OccurrencesAppend(e, t, u);
    OccurrencesAppend([t], t, t);
    OccurrencesAppend([t], t, u);
  }

  lemma ScenarioOccurrences(t1: Tuple, t2: Tuple)
    requires t1 != t2
    ensures Occurrences([t1, t1, t2], t1) == 2 && Occurrences([t1, t1, t2], t2) == 1
  {
    OccurrencesTwice(t1, t2);
    assert [t1, t1, t2] == [t1, t1] + [t2];
    OccurrencesAppend([t1, t1], t2, t1);
    OccurrencesAppend([t1, t1], t2, t2);
  }

  lemma ScenarioHaving(t1: Tuple, t2: Tuple, columns: seq<string>)
    requires t1 != t2
    ensures HavingCountAbove1([t1, t2], [t1, t1, t2], columns) == [AggRow(columns, t1, 2)]
  {
    ScenarioOccurrences(t1, t2);
    assert [t1, t2][1..] == [t2] && [t2][1..] == [];
    assert HavingCountAbove1([], [t1, t1, t2], columns) == [];
    assert HavingCountAbove1([t2], [t1, t1, t2], columns) == [];
  }

  /** The aggregation of a non-empty column list, unfolded. */
  lemma DuplicationAggregationRows(table: seq<Record>, columns: seq<string>, jsonExtKeys: seq<string>, filters: seq<Filter>)
    requires columns + jsonExtKeys != []
    ensures DuplicationAggregation(table, columns, jsonExtKeys, filters)
         == Ok(HavingCountAbove1(Distinct(Tuples(table, filters, columns, jsonExtKeys)), Tuples(table, filters, columns, jsonExtKeys), columns + jsonExtKeys))
  {
  }

  lemma ScenarioGroups()
    ensures DuplicationAggregation(ScenarioTable, ["individual__first_name"], ["k1"], [BenefitPlanIs("bp")])
         == Ok([AggRow(["individual__first_name", "k1"], [Some("first name 1"), Some("k1 v1")], 2)])
  {
    var t1: Tuple := [Some("first name 1"), Some("k1 v1")];
    var t2: Tuple := [Some("first name 2"), Some("k1 v1")];
    assert t1 != t2 by {
      assert t1[0] != t2[0];
    }
    var columns := ["individual__first_name", "k1"];
    assert ["individual__first_name"] + ["k1"] == columns;
    ScenarioTuples();
    ScenarioDistinct(t1, t2);
    ScenarioHaving(t1, t2, columns);
    DuplicationAggregationRows(ScenarioTable, ["individual__first_name"], ["k1"], [BenefitPlanIs("bp")]);
  }

  /** The aggregation test: grouping the plan's beneficiaries by `individual__first_name` and
      `k1` gives exactly one row, with count 2. */
  lemma ScenarioOneDuplicateGroup()
    ensures BeneficiaryDuplicationAggregation(ScenarioTable, ScenarioBeneficiaryFields, Some(["individual__first_name", "k1"]), Some("bp"))
         == Ok([AggRow(["individual__first_name", "k1"], [Some("first name 1"), Some("k1 v1")], 2)])
  {
    ScenarioColumns();
    ScenarioGroups();
  }
}
