# Beneficiary deduplication, modelled in Dafny

This project models the duplicate-detection core of the openIMIS deduplication module.

A caller asks which beneficiaries of a benefit plan look like duplicates of each other, naming the columns to compare. A column is either a field of the beneficiary model or a path through one of its relations (`individual__first_name`). Anything else is taken as a key of the beneficiary's `json_ext` extension map.

- `_resolve_columns` splits the requested columns into these two kinds. The test is whether the part before the first `__` is a model field.
- `get_duplication_aggregation` groups the beneficiaries that pass the filters by the values of those columns. Extension values are read as text. It counts the ids in each group and keeps the groups counting more than one (`GROUP BY … HAVING COUNT(id) > 1`).
- `get_beneficiary_duplication_aggregation` validates its arguments and restricts the aggregation to one benefit plan.
- The GraphQL resolver `beneficiaryDeduplicationSummary` runs in these steps:
  1. It checks the user's permissions.
  2. It answers an empty column list with a validation message.
  3. It turns the bare person columns `first_name`, `last_name` and `dob` into paths through the beneficiary's individual, then aggregates.
  4. It turns each aggregated row into a summary row: the popped `id_count`, and a map from column to the string form of its value, with person paths relabelled back to bare names on the first row only, because the loop prefixes `individual_columns` again on every row (see "## Findings").

Files:

- `outcomes.dfy` (module `Outcomes`): `Option` for Python's `None`, `Result` for a call that returns or raises, `Outcome` for a guard, and the three exceptions raised: `ValueError` and `PermissionError` by the deduplication code, and `FieldDoesNotExist` by Django's field lookup.
- `lookup_path.dfy` (module `LookupPath`): Python's `name.split('__', 1)` on lookup paths, and the `individual__` prefix.
- `services.dfy` (module `Services`): the column classifier as a method with its loop, proved against specification functions. The aggregation is a function over the sequence of beneficiary records, and it is specified by `IsDuplicateSummary`, which counts the records carrying each group's values. The file ends with the fixture of the aggregation test.
- `schema.dfy` (module `Schema`): the permission check, the column rewriting and the relabelling dict comprehension. It also holds the resolver's loop as a method: on every iteration, before relabelling, the loop prefixes its `individual_columns` list once more.

A beneficiary record holds its id, its plan id, the values of the database column paths (text or null) and its `json_ext` map of JSON values. The set of beneficiary model fields is a parameter. So is the set of permissions the user has been granted.

## Model

| member | source | states |
|---|---|---|
| LookupPath.FindSepFrom | deduplication/services.py:51 | the result is the first index at or after the start where `__` begins, and none means there is no `__` from there on |
| LookupPath.SplitOnce | deduplication/services.py:51 | `split('__', 1)` gives one or two parts: one part is the whole name; two parts are the text before a `__` of the name and everything after that `__` |
| LookupPath.SplitOnceMeaning | deduplication/services.py:51 | `split('__', 1)` gives one part exactly when the name holds no `__`, and that part is the whole name; otherwise it gives two parts, split at the first `__`, which joined with `__` give the name back |
| LookupPath.SplitPersonPrefix | deduplication/schema.py:36 | splitting `individual__` + X at the first `__` gives `individual` and exactly X, whatever X holds |
| LookupPath.Prefixed | deduplication/schema.py:34 | prefixing n times lengthens a name by 12·n characters |
| Services.GetField | deduplication/services.py:61 | looking a field up succeeds with that field exactly when the model has a field of that name, and otherwise raises `FieldDoesNotExist` |
| Services.IsModelColumn | deduplication/services.py:59-64 | a name is a model column exactly when the field lookup succeeds, that is, when the model has a field of that name; a failed lookup gives false instead of raising |
| Services.ResolveColumns | deduplication/services.py:45-56 | the loop returns as `fields` the requested columns whose root is a model field and as `json_fields` the others, each as specified by the selection functions |
| Services.ResolveColumnsKeepsOrder | deduplication/services.py:45-56 | each returned list is the request restricted to its class: its entries come from strictly increasing positions of the request, and those positions are exactly the ones whose column is of that class |
| Services.ResolveColumnsPartition | deduplication/services.py:50-54 | every requested column lands in exactly one list: the lengths add up to the request's, and the two lists together hold the request's columns with their multiplicities |
| Services.ResolveColumnsClassification | deduplication/services.py:51 | a column is in `fields` iff it was requested and the part before its first `__` (the whole name when there is none) is a model field, and in `json_fields` iff it was requested and that part is not a model field |
| Services.KeyText | deduplication/services.py:31-32 | an extension key reads as SQL null exactly when it is absent or holds JSON null; a JSON string reads as its text, a number as its literal, a boolean as `true` or `false`, and an array or object as its serialized text |
| Services.NumberAndStringGroupTogether | deduplication/services.py:31-33 | because extension values are compared as text, a JSON number and a JSON string with the same text read alike |
| Services.Project | deduplication/services.py:35 | a record's group key has one value per database column followed by one per extension key: position i holds the record's value of column i, and the positions after the columns hold the text of each extension key in turn |
| Services.Matching | deduplication/services.py:28 | the filtered queryset holds exactly the records of the table that pass every filter, each as often as the table holds it, and no record that fails a filter |
| Services.Tuples | deduplication/services.py:28 | every projected key has one entry per database column and extension key |
| Services.Distinct | deduplication/services.py:40 | the groups are the distinct projected keys: same members, no repeats |
| Services.HavingCountAbove1 | deduplication/services.py:40 | each emitted row is a group with its count among the projected keys, which exceeds 1; every group counting more than one gets a row; distinct groups give rows with distinct values |
| Services.TuplesOfFilteredRecords | deduplication/services.py:28-40 | the projected keys are exactly those of the records passing the filters, and each occurs as often as there are such records carrying it |
| Services.DuplicationAggregation | deduplication/services.py:26-42 | raises `ValueError("At least one column required")` iff the database columns and extension keys are both empty. Otherwise the rows are keyed by the database columns followed by the extension keys, and each row's values are those of a filtered record. `id_count` is the number of filtered records carrying the row's values and exceeds 1. Rows have distinct values, and every value shared by two or more filtered records has its row |
| Services.OnlyFilteredRecordsContribute | deduplication/services.py:28 | dropping the records that fail the filters leaves the aggregation unchanged |
| Services.MatchingKeepsTuples | deduplication/services.py:28 | the filtered table projects to the same keys as the whole table |
| Services.BeneficiaryDuplicationAggregation | deduplication/services.py:12-23 | a missing or empty column list raises "At least one column required" before the plan is examined. Otherwise a missing or empty plan id raises "Benefit Plan not specified". Otherwise the result is the duplicate summary of the plan's beneficiaries over the classified columns |
| Services.OnlyPlanBeneficiariesContribute | deduplication/services.py:21-23 | beneficiaries of other plans never change the result |
| Services.RowsConsistent | deduplication/services.py:35-40 | when no name is both a database column and an extension key, the same column name carries the same value throughout a row |
| Services.BeneficiaryRowsConsistent | deduplication/services.py:20-23 | a beneficiary aggregation row names only requested columns and carries the same value under the same name |
| Services.ScenarioColumns | deduplication/tests/test_dedup_beneficiary.py:45 | in the test's request, `individual__first_name` classifies as a database column and `k1` as an extension key |
| Services.ScenarioOneDuplicateGroup | deduplication/tests/test_dedup_beneficiary.py:44-51 | for a table shaped like the test's fixture, grouping the plan's beneficiaries by `individual__first_name` and `k1` yields exactly one row: `first name 1`, `k1 v1`, count 2 |
| Schema.CheckPermissions | deduplication/schema.py:43-45 | anonymous users, users whose id is missing or 0, and users lacking a required permission are refused with `PermissionError("Unauthorized")`; all others pass |
| Schema.PrefixPersonColumns | deduplication/schema.py:27-28 | the rewrite keeps length and order: exactly `first_name`, `last_name` and `dob` gain the `individual__` prefix, every other name is unchanged, and no bare person column is left |
| Schema.PersonColumnsAt | deduplication/schema.py:33-34 | after n rebindings `individual_columns` holds the three person columns prefixed n times, and from the first rebinding on each entry splits into `individual` and its previous value |
| Schema.RebindPersonColumns | deduplication/schema.py:34 | prefixing every entry once more gives the next rebinding |
| Schema.DictOfKeys | deduplication/schema.py:36-37 | a dict built from pairs in order has exactly the pairs' keys |
| Schema.DictOfValues | deduplication/schema.py:36-37 | each value of the dict is the value of a pair with its key |
| Schema.DictOfLastWins | deduplication/schema.py:36-37 | a key holds the value of its last pair |
| Schema.ColumnValues | deduplication/schema.py:36-37 | every column of the row, relabelled, is a key of `column_values` |
| Schema.ColumnValuesKeys | deduplication/schema.py:36-37 | the keys of `column_values` are exactly the relabelled columns of the row |
| Schema.ColumnValuesFromColumns | deduplication/schema.py:36-37 | every value of `column_values` is the string form (`None` for null) of the value of a column relabelled to its key |
| Schema.ColumnValuesLastWins | deduplication/schema.py:36-37 | a key of `column_values` holds the value of the last column relabelled to it |
| Schema.SummaryRowOf | deduplication/schema.py:34-38 | the summary row built on a given iteration carries the popped `id_count` as its count, and every column of the row, relabelled with `individual_columns` as rebound by then, is a key of its column values |
| Schema.SummaryRowCount | deduplication/schema.py:35-38 | a summary row's count is the popped `id_count`, and `id_count` is a key of `column_values` only if a group column is itself named so |
| Schema.RelabelFirstIteration | deduplication/schema.py:34-36 | on the first row, a column is relabelled iff it is `individual__` + a person column, and then becomes that bare person column; any other column keeps its name |
| Schema.RelabelUndoesPrefix | deduplication/schema.py:27-36 | relabelling on the first row undoes the prefixing: a requested column comes back under its own name, except a requested person path, which comes back as the bare person column it names |
| Schema.RowRelabelling | deduplication/schema.py:36-37 | when relabelling merges only equal columns and equal columns carry equal values, each column's key holds its value's string form |
| Schema.FirstRowKeys | deduplication/schema.py:34-37 | the first summary row's keys are exactly the row's columns that are not person paths and the bare names of its person paths |
| Schema.FirstRowValues | deduplication/schema.py:36-37 | in the first summary row, each column's key holds the string form of that column's value |
| Schema.FirstRowRelabelling | deduplication/schema.py:33-37 | the first summary row's keys are the row's columns that are not person paths, plus the bare names of its person paths; each holds its column's value as a string |
| Schema.LaterRowsKeepPrefix | deduplication/schema.py:33-37 | every later summary row keys each column by its own name, so `individual__X` stays unstripped; each key holds its column's value as a string |
| Schema.SecondRowKeepsPersonPath | deduplication/schema.py:33-37 | with two groups on `first_name`, the first summary row is keyed by `first_name` and the second by `individual__first_name`, which does not strip the person path |
| Schema.SummarizeRows | deduplication/schema.py:32-39 | the loop emits one summary row per aggregated row, in order; the row at position k is relabelled with `individual_columns` prefixed k + 1 times, and carries the popped count |
| Schema.SummarizeRowsIntended | deduplication/schema.py:32-39 | with `individual_columns` prefixed once before the loop, every summary row, not only the first, strips each person path to its bare name, with its value as a string |
| Schema.ResolverAggregatedRows | deduplication/schema.py:27-30 | for a non-empty column list and a plan, the aggregation the resolver calls succeeds. Each of its rows holds no bare person column, carries equal values under equal names and counts more than one beneficiary |
| Schema.ResolveBeneficiaryDeduplicationSummary | deduplication/schema.py:18-40 | the permission check comes first and its failure raises "Unauthorized". An empty column list then returns only the message `deduplication.validation.no_columns_provided`, without aggregating. Otherwise the prefixed columns are aggregated for the plan: an error of the aggregation propagates, and a success gives its rows, relabelled as the loop does |

## Left out

- The Django ORM and SQL are modelled as a function over the sequence of beneficiary records. The query building, `KeyTextTransform` and `Cast` are not modelled.
- Row order is not stated: `order_by()` clears the ordering. The model emits groups in order of first occurrence, and no contract relies on it.
- A column path that names no field of the related model makes Django raise a `FieldError` as soon as `.values(*values)` resolves the names, before any SQL runs. The model does not raise there and reads such a path as null.
- Database column values are text or null in the model. Typed values (dates, numbers) are represented by their text.
- `user.has_perms` is modelled as inclusion of the required permissions in the user's granted permissions.
- The permission names of `SocialProtectionConfig` are a parameter of the resolver.
- The beneficiary model's field set is a parameter.
- GraphQL arguments, graphene types and the GraphQL wire format are not modelled. `benefit_plan_id` is a string, and "not given" is modelled as missing or empty.
- The `ids` list asserted by the aggregation test is not produced by the aggregation, so it is not modelled.
- `row.pop('id_count')` is not modelled as a dict mutation. An aggregated row holds its count apart from its group columns, and the loop reads it out.
- The resolver's loop is a separate method, `Schema.SummarizeRows`, which the resolver calls.
- Requesting a column named `id_count` clashes with the annotation in Django. The model does not model that clash.
- Schema.SummaryRowCount: it states only that `id_count` is not a key unless a group column is named `id_count`, because the model does not reject that name.
- The test's fixture data file is not part of this model. The scenario table has two beneficiaries of the plan that share a first name and `k1`, one of the plan with another first name, and one of another plan.
- The event-bus signal handler, the role-rights migration and the merge or review-task services are not part of this model.

## Findings

| source | as written | input that shows it | evidently intended | confidence | as-written member | corrected member |
|---|---|---|---|---|---|---|
| deduplication/schema.py:34 | `individual_columns` is prefixed again at the top of every iteration. From the second row on it lists `individual__individual__first_name` and similar paths, so the row's `individual__first_name` column is no longer recognised and keeps its prefix | two duplicate groups requested on `first_name`: the first summary row has the key `first_name`, the second has the key `individual__first_name` | prefix `individual_columns` once, before the loop, so that every summary row is keyed by the bare person column names | medium, not executed | Schema.SecondRowKeepsPersonPath | Schema.SummarizeRowsIntended |

The resolver, `Schema.ResolveBeneficiaryDeduplicationSummary`, models the code as written and calls `Schema.SummarizeRows`. `Schema.SummarizeRowsIntended` is the corrected loop. Its contract states that every summary row strips its person paths, for rows as `Schema.ResolverAggregatedRows` describes them.
