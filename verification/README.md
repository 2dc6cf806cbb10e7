# Report mapping dashboard — a Dafny model of its matching and coverage logic

The dashboard decides which employees belong to which reports. A report has
mapping rules. Each rule is a pair (axis, value). The axis is one of five
employee identity fields: employee id, team id, area id, city id or country id.
A rule selects every employee whose field on that axis equals the value.

This project models that logic as pure functions over sequences:

- `Types` (`types.dfy`): the mapping types, in the client's camelCase
  spelling and the table's snake_case spelling, plus mappings, reports,
  employees and coverage rows.
- `EmployeeMappings` (`employee_mappings.dfy`): the client-side
  matching rule, the "Matched By" criteria of an employee, and the
  employee search box.
- `MappingTable` (`mapping_table.dfy`): the rows of the `mappings`
  table, and the pairwise join condition that decides whether a row matches
  an employee.
- `MappingWriter` (`mapping_writer.dfy`): the POST handler that adds a
  mapping. It validates the request, looks up the employee, picks the
  mapping id, upserts a `'Yes'` row and counts distinct reports. It is a
  function from (table, employees, request) to (response, new table).
- `Coverage` (`coverage.dfy`): the incomplete-mappings query. It covers
  the LEFT JOIN, the flag filter, the grouping, COUNT(DISTINCT),
  COALESCE, the threshold and the two-key ORDER BY. Each step is written
  literally, and the module proves it equal to the intended meaning: the
  number of distinct covering report names.
- `WriterVsCoverage` (`writer_vs_coverage.dfy`): how the writer's count
  relates to the coverage count.
- `ReportDashboard` (`report_dashboard.dfy`): the region filter and the
  selected-report state machine.
- `IncompleteClient`, `StatusBadge`, `IncompleteView`: the
  client table of employees with incomplete mappings. This covers the count
  map, its update after an add, the search box, the empty-table message and
  the status badge.
- `Seqs`, `Text`, `Wrappers`: `filter`/`find` over sequences,
  ASCII `toLowerCase`, `includes`, the SQLite text ordering, and `Option`.

A mapping's type is kept as the text that arrived. The declared type allows
only the five camelCase names. The client code also handles other values, and
a mapping with such a type matches nobody.

The two count queries differ, and the model states how:

- The coverage query matches a row only when its type and its id belong
  to the same axis.
- The writer's count query tests `mapping_id IN (five values)` and
  `mapping_type IN (five types)` separately.
- So every report the coverage query reaches through a `'Yes'` row is also
  counted by the writer (`YesCoverageWithinCounted`). The converse fails
  (`CrossProductOvercounts`).
- The coverage query also counts rows whose flag is NULL. The writer's
  count and `mapped_reports` ignore them (`NullFlagCountedOnlyByCoverage`).

## Model

| member | source | states |
|---|---|---|
| Types.ParseNameRoundTrip | lib/types.ts:1 | Reading a type name gives back exactly the mapping type with that spelling, in both the camelCase and the snake_case spelling; every other string is not a mapping type |
| Types.SpellingsDisjoint | lib/types.ts:1 | No string is both a client-side and a table-side type name, so the two enumerations are kept apart |
| Types.IdentityValues | lib/types.ts:16-27 | An employee's identity values are exactly its fields on the five axes |
| EmployeeMappings.MatchesIffAxisField | components/employee-mappings.tsx:31-42 | A mapping selects an employee iff its type names some axis and its value equals the employee's field on that axis |
| EmployeeMappings.UnknownTypeNeverMatches | components/employee-mappings.tsx:43-44 | A mapping whose type is none of the five names never selects anyone |
| EmployeeMappings.MatchingCriteria | components/employee-mappings.tsx:29-50 | The criteria are a subsequence of the report's mapping types. Each type name occurs exactly as often as there are mappings of that type that select the employee, so duplicates are kept. Every criterion is the type of a selecting mapping, and only the five names can appear. The relative order of entries of different types is fixed by `CriteriaOfCons` |
| EmployeeMappings.CriteriaOfCons | components/employee-mappings.tsx:30-47 | The criteria of a list are the first mapping's type, if it selects the employee, followed by the criteria of the rest. With no criteria for an empty list, this fixes the result entry by entry |
| EmployeeMappings.CriteriaKeepDuplicates | components/employee-mappings.tsx:30-47 | Criteria are not deduplicated: when every mapping matches, the result is the full list of their types |
| EmployeeMappings.SearchEmployees | components/employee-mappings.tsx:18-26 | The search result keeps the order of the employee list. An employee is kept iff the lower-cased term occurs in its lower-cased name, id, team name or location. Every occurrence of a kept employee is kept. An empty term keeps everyone. The shown count never exceeds the total |
| EmployeeMappings.EmptyMessage | components/employee-mappings.tsx:107 | The table body is replaced only when nothing is shown. The message says no employee matches the report iff the employee list is empty, and "No results found" otherwise |
| Text.IncludesIffOccurs | components/employee-mappings.tsx:21-24 | The substring test succeeds exactly when the needle occurs at some position of the text |
| MappingTable.SnakeNamesAreTheAxes | app/api/mappings/route.ts:78 | The five type names the count query lists are exactly the table-side names of the five axes |
| MappingTable.RowMatchesIffAxisField | app/api/incomplete-mappings/route.ts:17-23 | A row matches an employee iff its type and id form one (axis, employee value) pair |
| MappingWriter.FindEmployee | app/api/mappings/route.ts:19-24 | The lookup finds nothing iff no employee has that id. Otherwise it returns a listed employee with that id |
| MappingWriter.MappingIdFor | app/api/mappings/route.ts:26-46 | The switch accepts exactly the five snake_case names. The mapping id is the employee's field on the named axis |
| MappingWriter.Upsert | app/api/mappings/route.ts:48-70 | Afterwards the triple is present and every row carrying it is 'Yes'. An existing triple is updated in place and a new one is appended as one 'Yes' row. Rows without the triple are unchanged, and no row changes its triple |
| MappingWriter.UpsertIdempotent | app/api/mappings/route.ts:48-70 | Upserting a triple twice gives the same table as upserting it once |
| MappingWriter.UpsertKeepsTriplesUnique | app/api/mappings/route.ts:48-70 | If every triple had at most one row before the upsert, the same holds after it |
| MappingWriter.Post | app/api/mappings/route.ts:9-88 | Missing or empty fields give 400, an unknown employee gives 404, and an unknown type gives 400, in that order of checks. Every error leaves the table unchanged. Success happens exactly when all checks pass. It stores the employee's own value on the named axis and returns the distinct 'Yes' report count, which is at least 1 |
| MappingWriter.PostIdempotent | app/api/mappings/route.ts:48-80 | Sending the same request twice gives the same table and the same response as sending it once |
| WriterVsCoverage.PairwiseWithinCrossProduct | app/api/mappings/route.ts:76-78 | Every 'Yes' row that the pairwise join matches is also selected by the count query's separate IN tests |
| WriterVsCoverage.YesCoverageWithinCounted | app/api/mappings/route.ts:73-80 | Every report the coverage join reaches through a 'Yes' row is among the reports the writer counts |
| WriterVsCoverage.CrossProductOvercounts | app/api/mappings/route.ts:76-78 | Example: a team_id row holding the employee's country id is counted by the writer but not by the coverage query |
| WriterVsCoverage.NullFlagCountedOnlyByCoverage | app/api/incomplete-mappings/route.ts:24 | Example: a matching NULL-flag row gives a coverage count of 1. It is ignored by the writer's count and is not listed in mapped_reports |
| WriterVsCoverage.WriteCoversEmployee | app/api/mappings/route.ts:48-70 | After a successful write, the coverage query counts the requested report for the employee, so its count is at least 1 |
| Coverage.JoinedRows | app/api/incomplete-mappings/route.ts:16-23 | The left join yields every matching row and only matching rows. It yields the all-NULL row exactly when no row matches |
| Coverage.RawCountMeaning | app/api/incomplete-mappings/route.ts:14-26 | The grouped count is missing exactly when the employee has matching rows but none is 'Yes' or NULL. Otherwise it equals the number of distinct covering report names |
| Coverage.ReportCount | app/api/incomplete-mappings/route.ts:29 | The output count is the number of distinct covering report names, so a report reached via two axes counts once. It is 0 exactly when no matching row is 'Yes' or NULL, including the case where every match is 'No' |
| Coverage.QualifiesIffFewerThanTwo | app/api/incomplete-mappings/route.ts:41 | The threshold test passes exactly when fewer than two distinct reports cover the employee |
| Coverage.MappedReports | app/api/incomplete-mappings/route.ts:30-40 | mapped_reports holds the distinct names of matching 'Yes' rows whose report exists, or NULL when there are none. It is always within the covering reports |
| Coverage.Rank | app/api/incomplete-mappings/route.ts:43 | A NULL count sorts before every number, and a number sorts as itself |
| Coverage.KeyLeTotal | app/api/incomplete-mappings/route.ts:43 | Any two (count, name) keys are ordered one way or the other |
| Coverage.KeyLeTransitive | app/api/incomplete-mappings/route.ts:43 | The (count, name) order is transitive |
| Text.LexLeTransitive | app/api/incomplete-mappings/route.ts:43 | The name order is transitive |
| Text.LexLeTotal | app/api/incomplete-mappings/route.ts:43 | Any two names are ordered one way or the other |
| Text.LexLeAntisymmetric | app/api/incomplete-mappings/route.ts:43 | Two names ordered both ways are equal |
| Coverage.Sort | app/api/incomplete-mappings/route.ts:43 | Sorting permutes its input |
| Coverage.SortSorted | app/api/incomplete-mappings/route.ts:43 | The sorted list is ordered by count and then by name |
| Coverage.SelectedEmployees | app/api/incomplete-mappings/route.ts:41-42 | The employees after filter and sort are exactly those covered by fewer than two reports, each occurrence kept once |
| Coverage.IncompleteMappings | app/api/incomplete-mappings/route.ts:13-44 | The query returns one row per employee covered by fewer than two reports and no others. Each row carries that employee's count (0 or 1) and listed reports. Rows are ordered by raw count, NULL first, then by name |
| ReportDashboard.FilterByRegion | components/report-dashboard.tsx:44-47 | "all" keeps every report. Any other region keeps exactly the reports with that region, in order and with every occurrence |
| ReportDashboard.Reconcile | components/report-dashboard.tsx:51-60 | The selection is none iff the filtered list is empty. Otherwise its id is listed. A still-listed selection is kept, and any other selection becomes the first listed report |
| ReportDashboard.Init | components/report-dashboard.tsx:22-26 | The first render holds every given report, in region "all", with every report listed. It selects the first report, or none when there are no reports, and starts consistent |
| ReportDashboard.ChangeRegion | components/report-dashboard.tsx:43-65 | After a region change the dashboard is consistent again. A selection still listed is kept. Otherwise the first filtered report is selected, or none when the list is empty |
| ReportDashboard.ChangeReport | components/report-dashboard.tsx:67-72 | Choosing an id selects the first report with that id in the full list. An unknown id changes nothing |
| ReportDashboard.ChangeReportPreservesConsistency | components/report-dashboard.tsx:67-72 | Choosing one of the listed ids keeps the dashboard consistent |
| ReportDashboard.MountEffectIsNoOp | components/report-dashboard.tsx:43-61 | The effect's first run on the initial state changes nothing |
| ReportDashboard.NoSelectionMeansNoReports | components/report-dashboard.tsx:155-165 | In a consistent state, an empty selection always shows "No reports found for the selected region" |
| IncompleteClient.InitialCounts | components/incomplete-mappings-client.tsx:20-22 | The count map has exactly one key per employee id. Each key holds the count of the last row with that id |
| IncompleteClient.InitialCountsWithUniqueIds | components/incomplete-mappings-client.tsx:20-22 | With distinct ids, every employee's entry is its own count |
| IncompleteClient.MappingAdded | components/incomplete-mappings-client.tsx:34-39 | Adding sets the entry for the id to the new count and leaves every other entry unchanged |
| IncompleteClient.MappingAddedKeepsKeys | components/incomplete-mappings-client.tsx:34-39 | Adding for a listed employee keeps one entry per listed id and no more |
| IncompleteClient.SearchRows | components/incomplete-mappings-client.tsx:24-32 | The search result keeps the order of the rows. A row is kept iff the lower-cased term occurs in its name, id, team name or "city, country". Every occurrence of a kept row is kept. An empty term keeps every row |
| IncompleteClient.EmptyMessage | components/incomplete-mappings-client.tsx:123 | The table body is replaced only when nothing is shown. The message is "No employees with incomplete mappings" iff the list is empty, and "No results found" otherwise |
| IncompleteClient.EmptyListMessage | components/incomplete-mappings-client.tsx:123 | For any search, the no-employees message appears exactly when the list is empty |
| StatusBadge.GetStatusBadge | components/incomplete-mappings.tsx:15-29 | The badge has exactly two outcomes. It is "No Mappings" (destructive) iff the count is 0, and "1 Mapping" (warning) otherwise |
| StatusBadge.LabelIgnoresMagnitude | components/incomplete-mappings.tsx:24-28 | Counts of two or more still read "1 Mapping" |
| IncompleteView.BadgeExactOnQueryRows | components/incomplete-mappings.tsx:15-29 | If the client read each row's `report_count`, the badge would be exact: "No Mappings" iff the count is 0 and "1 Mapping" iff it is 1 |
| IncompleteView.AddedMappingShowsWarning | components/incomplete-mappings-client.tsx:34-39 | After a successful add, the employee's entry holds the writer's count. That count is at least 1, so the badge shows the warning |

## Left out

- Database connections, the database path setting, JSON body parsing and
  response construction are I/O. The model returns only the status and
  result variant.
- The generic 500 responses for unexpected failures are left out. They come
  only from I/O failures, which the model does not have.
- The race between the writer's check and its update or insert is a matter
  of concurrency. The model is sequential.
- The order and separator of `GROUP_CONCAT` are not modelled.
  `mapped_reports` is modelled as the set of names, or None for NULL.
- Coverage.IncompleteMappings: SQL leaves the order of rows with equal count
  and equal name unspecified. The model keeps their input order, which is
  one admissible order. The contract states only what SQL promises.
- Grouping by `employee_id` is modelled as one output row per entry of the
  employee list. This assumes `employee_id` is the table's key. Duplicate
  ids would be merged by the database but are kept apart here.
- NULL values in `report_name`, `mapping_type`, `mapping_id` and the
  employee columns are not modelled. Only the inclusion flag may be NULL.
- Request fields are modelled as absent or a string. Other JSON value kinds,
  such as numbers or booleans, are not modelled.
- `toLowerCase` is modelled for ASCII letters only. Other characters are
  left unchanged.
- The source of the initial counts is a parameter. The client reads a
  `reportCount` field, but the query returns `report_count`.
- The client also reads `mappedReports` on each row when rendering, and the
  query returns `mapped_reports`. This is the same spelling mismatch as for
  `reportCount`. The rendering is not modelled.
- IncompleteView.BadgeExactOnQueryRows: states how the badge would read if
  the client read each row's `report_count`. As written, the client reads
  `reportCount`, which the rows do not carry.
- IncompleteView.AddedMappingShowsWarning: assumes that the add dialog posts
  the employee's id and passes the writer's count back to
  `handleMappingAdded`. The dialog is not part of this model.
- One `Employee` record stands for both the `employees` table row and the
  client's employee type. The table has columns such as `employee_id`,
  `employee_name` and `team_id`. The client type has fields such as `id`,
  `name` and `teamName`. The incomplete-mappings rows are `e.*` plus two
  columns, and they reach the client without renaming. Yet the client
  reads `id`, `name`, `teamName`, `cityName` and `countryName` on them. The
  model merges the two shapes and does not model this mismatch.
- Fetching data, the reports endpoint and the employees-of-a-report
  endpoint depend on a database module that is not part of this model.
- React effect scheduling and rendering are left out. The effects are
  modelled as state transitions. The "Matched By" badge captions are
  rendering only.
