/** The incomplete-mappings query: per employee, the number of distinct
    reports its mapping rows reach, the employees below two, and their order. */
module Coverage {
  import opened Wrappers
  import opened Seqs
  import opened Text
  import opened Types
  import opened MappingTable

  function RowMatcher(e: Employee): Row -> bool {
    (row: Row) => RowMatches(row, e)
  }

  /** Wraps each row as a non-NULL joined row. */
  function Lift(rows: seq<Row>): (j: seq<Option<Row>>)
    ensures |j| == |rows|
    ensures forall i :: 0 <= i < |rows| ==> j[i] == Some(rows[i])
  {
    seq(|rows|, i requires 0 <= i < |rows| => Some(rows[i]))
  }

  /** `employees e LEFT JOIN mappings m ON (...)` for one employee: one joined
      row per matching mapping row, or a single all-NULL row when none match. */
  function JoinedRows(table: seq<Row>, e: Employee): (j: seq<Option<Row>>)
    ensures |j| > 0
    ensures forall x :: x in j && x.Some? ==> x.value in table && RowMatches(x.value, e)
    ensures forall row :: row in table && RowMatches(row, e) ==> Some(row) in j
    ensures None in j <==> forall row :: row in table ==> !RowMatches(row, e)
  {
    var hits := Filter(table, RowMatcher(e));
    if |hits| == 0 then [None]
    else
      var j := Lift(hits);
      assert forall x :: x in j ==> x.Some? && x.value in hits;
      assert forall row :: row in hits ==> Some(row) in j;
      j
  }

  /** A mapping row that counts towards coverage: flag 'Yes' or NULL. */
  predicate Inclusive(row: Row) {
    row.flag == Yes || row.flag.None?
  }

  /** `WHERE m.inclusion_flag = 'Yes' OR m.inclusion_flag IS NULL`; the
      all-NULL joined row has a NULL flag, so it passes. */
  predicate PassesWhere(x: Option<Row>) {
    x.None? || Inclusive(x.value)
  }

  function WhereFilter(): Option<Row> -> bool {
    x => PassesWhere(x)
  }

  /** `mapping_counts.report_count` for one employee: None when every joined
      row was filtered out, so the employee has no group; otherwise
      COUNT(DISTINCT m.report_name), which skips the all-NULL row. */
  function RawReportCount(table: seq<Row>, e: Employee): Option<nat> {
    var kept := Filter(JoinedRows(table, e), WhereFilter());
    if |kept| == 0 then None
    else Some(|set x | x in kept && x.Some? :: x.value.reportName|)
  }

  /** The reference definition of coverage: the distinct names of reports that
      have a 'Yes' or NULL row matching the employee. */
  function CoveringReports(table: seq<Row>, e: Employee): set<string> {
    set row | row in table && RowMatches(row, e) && Inclusive(row) :: row.reportName
  }

  /** What the raw count means: it is missing exactly when the employee has
      matching rows but none of them is 'Yes' or NULL, and otherwise it is
      the number of distinct covering reports. */
  lemma RawCountMeaning(table: seq<Row>, e: Employee)
    ensures RawReportCount(table, e).None? <==>
              && (exists row :: row in table && RowMatches(row, e))
              && (forall row :: row in table && RowMatches(row, e) ==> !Inclusive(row))
    ensures RawReportCount(table, e).Some? ==>
              RawReportCount(table, e).value == |CoveringReports(table, e)|
  {
    var j := JoinedRows(table, e);
    var kept := Filter(j, WhereFilter());
    var names := set x | x in kept && x.Some? :: x.value.reportName;
    forall n | n in names ensures n in CoveringReports(table, e) {
      var x :| x in kept && x.Some? && x.value.reportName == n;
      assert x in j && PassesWhere(x);
    }
    forall n | n in CoveringReports(table, e) ensures n in names {
      var row :| row in table && RowMatches(row, e) && Inclusive(row) && row.reportName == n;
      assert Some(row) in j && PassesWhere(Some(row));
      assert Some(row) in kept;
    }
    assert names == CoveringReports(table, e);
    if forall row :: row in table ==> !RowMatches(row, e) {
      assert None in j && PassesWhere(None);
      assert None in kept;
    } else if |kept| == 0 {
      forall row | row in table && RowMatches(row, e) ensures !Inclusive(row) {
        assert Some(row) in j;
        assert Some(row) !in kept;
      }
    } else {
      var x :| x in kept;
      assert x != None;
      assert x.value in table && RowMatches(x.value, e) && Inclusive(x.value);
    }
  }

  /** `COALESCE(mc.report_count, 0)`: the number of distinct reports covering
      the employee, a report reached through two axes counted once. */
  function ReportCount(table: seq<Row>, e: Employee): (n: nat)
    ensures n == |CoveringReports(table, e)|
    ensures n == 0 <==> forall row :: row in table && RowMatches(row, e) ==> !Inclusive(row)
  {
    RawCountMeaning(table, e);
    if forall row :: row in table && RowMatches(row, e) ==> !Inclusive(row) then
      assert CoveringReports(table, e) == {};
      RawReportCount(table, e).GetOr(0)
    else
      var row :| row in table && RowMatches(row, e) && Inclusive(row);
      assert row.reportName in CoveringReports(table, e);
      RawReportCount(table, e).GetOr(0)
  }

  /** `WHERE mc.report_count < 2 OR mc.report_count IS NULL`. */
  predicate Qualifies(table: seq<Row>, e: Employee) {
    var raw := RawReportCount(table, e);
    raw.None? || raw.value < 2
  }

  /** The employees listed are exactly those covered by fewer than two reports. */
  lemma QualifiesIffFewerThanTwo(table: seq<Row>, e: Employee)
    ensures Qualifies(table, e) <==> |CoveringReports(table, e)| < 2
  {
    RawCountMeaning(table, e);
    if RawReportCount(table, e).None? {
      assert ReportCount(table, e) == 0;
    }
  }

  function Qualifier(table: seq<Row>): Employee -> bool {
    e => Qualifies(table, e)
  }

  /** The reports listed for the employee: names of matching 'Yes' rows whose
      report exists in the reports table. */
  function ListedReports(table: seq<Row>, e: Employee, reports: seq<string>): set<string> {
    set row | row in table && RowMatches(row, e) && row.flag == Yes && row.reportName in reports :: row.reportName
  }

  /** `GROUP_CONCAT(DISTINCT r.report_name)` over the second join, where a
      report joins only through a 'Yes' row; NULL when nothing joins. */
  function MappedReports(table: seq<Row>, e: Employee, reports: seq<string>): (r: Option<set<string>>)
    ensures r == if ListedReports(table, e, reports) == {} then None else Some(ListedReports(table, e, reports))
    ensures r.Some? ==> r.value <= CoveringReports(table, e)
  {
    var j := JoinedRows(table, e);
    var names := set x | x in j && x.Some? && x.value.flag == Yes && x.value.reportName in reports :: x.value.reportName;
    forall n | n in ListedReports(table, e, reports) ensures n in names {
      var row :| row in table && RowMatches(row, e) && row.flag == Yes && row.reportName in reports && row.reportName == n;
      assert Some(row) in j;
    }
    assert names == ListedReports(table, e, reports);
    if names == {} then None else Some(names)
  }

  /** One output row of the query. */
  function CoverageOf(table: seq<Row>, reports: seq<string>, e: Employee): EmployeeWithMappings {
    EmployeeWithMappings(e, ReportCount(table, e), MappedReports(table, e, reports))
  }

  /** The ordering key of `ORDER BY mc.report_count ASC, e.employee_name ASC`;
      SQLite puts a NULL count before every number. */
  datatype SortKey = SortKey(rank: int, name: string)

  function Rank(raw: Option<nat>): (k: int)
    ensures raw.None? ==> k < 0
    ensures raw.Some? ==> k == raw.value
  {
    match raw
    case None => -1
    case Some(n) => n
  }

  function KeyOf(table: seq<Row>, e: Employee): SortKey {
    SortKey(Rank(RawReportCount(table, e)), e.name)
  }

  function KeyFn(table: seq<Row>): Employee -> SortKey {
    e => KeyOf(table, e)
  }

  predicate KeyLe(a: SortKey, b: SortKey) {
    a.rank < b.rank || (a.rank == b.rank && LexLe(a.name, b.name))
  }

  lemma KeyLeTotal(a: SortKey, b: SortKey)
    ensures KeyLe(a, b) || KeyLe(b, a)
  {
    LexLeTotal(a.name, b.name);
  }

  lemma KeyLeTransitive(a: SortKey, b: SortKey, c: SortKey)
    requires KeyLe(a, b) && KeyLe(b, c)
    ensures KeyLe(a, c)
  {
    if a.rank == b.rank == c.rank {
      LexLeTransitive(a.name, b.name, c.name);
    }
  }

  predicate SortedBy(s: seq<Employee>, key: Employee -> SortKey) {
    forall i, j :: 0 <= i < j < |s| ==> KeyLe(key(s[i]), key(s[j]))
  }

  /** Places `x` before the first element whose key it does not exceed. */
  function Insert(x: Employee, s: seq<Employee>, key: Employee -> SortKey): (r: seq<Employee>)
    ensures multiset(r) == multiset(s) + multiset{x}
  {
    if |s| == 0 then [x]
    else if KeyLe(key(x), key(s[0])) then [x] + s
    else
      assert s == [s[0]] + s[1..];
      [s[0]] + Insert(x, s[1..], key)
  }

  /** Insertion sort by key; elements with equal keys keep their input order. */
  function Sort(s: seq<Employee>, key: Employee -> SortKey): (r: seq<Employee>)
    ensures multiset(r) == multiset(s)
  {
    if |s| == 0 then []
    else
      assert s == [s[0]] + s[1..];
      Insert(s[0], Sort(s[1..], key), key)
  }

  lemma {:induction false} InsertSorted(x: Employee, s: seq<Employee>, key: Employee -> SortKey)
    requires SortedBy(s, key)
    ensures SortedBy(Insert(x, s, key), key)
  {
    var r := Insert(x, s, key);
    if |s| == 0 {
    } else if KeyLe(key(x), key(s[0])) {
      forall i, j | 0 <= i < j < |r| ensures KeyLe(key(r[i]), key(r[j])) {
        if i == 0 && j > 1 {
          KeyLeTransitive(key(x), key(s[0]), key(s[j - 1]));
        }
      }
    } else {
      KeyLeTotal(key(x), key(s[0]));
      var rest := Insert(x, s[1..], key);
      InsertSorted(x, s[1..], key);
      forall j | 0 <= j < |rest| ensures KeyLe(key(s[0]), key(rest[j])) {
        assert rest[j] in multiset(rest);
        if rest[j] != x {
          assert rest[j] in multiset(s[1..]);
          var k :| 0 <= k < |s[1..]| && s[1..][k] == rest[j];
          assert s[k + 1] == rest[j];
        }
      }
    }
  }

  lemma {:induction false} SortSorted(s: seq<Employee>, key: Employee -> SortKey)
    ensures SortedBy(Sort(s, key), key)
  {
    if |s| > 0 {
      SortSorted(s[1..], key);
      InsertSorted(s[0], Sort(s[1..], key), key);
    }
  }

  /** The employees of a result, in order. */
  function EmployeesOf(rows: seq<EmployeeWithMappings>): (es: seq<Employee>)
    ensures |es| == |rows|
    ensures forall i :: 0 <= i < |rows| ==> es[i] == rows[i].employee
  {
    seq(|rows|, i requires 0 <= i < |rows| => rows[i].employee)
  }

  /** The output rows for a list of employees, one per employee, in order. */
  function CoverageRows(table: seq<Row>, reports: seq<string>, es: seq<Employee>): (r: seq<EmployeeWithMappings>)
    ensures EmployeesOf(r) == es
    ensures forall i :: 0 <= i < |r| ==> r[i] == CoverageOf(table, reports, es[i])
  {
    var r := seq(|es|, i requires 0 <= i < |es| => CoverageOf(table, reports, es[i]));
    assert EmployeesOf(r) == es;
    r
  }

  /** The employees that survive the filter and the sort are exactly the
      employees covered by fewer than two reports, each occurrence once. */
  lemma SelectedEmployees(employees: seq<Employee>, table: seq<Row>)
    ensures var s := Sort(Filter(employees, Qualifier(table)), KeyFn(table));
            && (forall e :: e in s <==> e in employees && |CoveringReports(table, e)| < 2)
            && (forall e :: multiset(s)[e] == if |CoveringReports(table, e)| < 2 then multiset(employees)[e] else 0)
  {
    var qualifying := Filter(employees, Qualifier(table));
    var s := Sort(qualifying, KeyFn(table));
    forall e ensures Qualifies(table, e) <==> |CoveringReports(table, e)| < 2 {
      QualifiesIffFewerThanTwo(table, e);
    }
    forall e ensures e in s <==> e in qualifying {
      assert e in s <==> e in multiset(s);
      assert e in qualifying <==> e in multiset(qualifying);
    }
  }

  /** The whole query: one row per employee covered by fewer than two
      reports, ordered by raw count (NULL first) and then by name. */
  function IncompleteMappings(employees: seq<Employee>, table: seq<Row>, reports: seq<string>): (r: seq<EmployeeWithMappings>)
    ensures forall i :: 0 <= i < |r| ==> r[i] == CoverageOf(table, reports, r[i].employee)
    ensures forall i :: 0 <= i < |r| ==> 0 <= r[i].reportCount < 2
    ensures forall e :: e in EmployeesOf(r) <==> e in employees && |CoveringReports(table, e)| < 2
    ensures forall e :: multiset(EmployeesOf(r))[e] ==
              if |CoveringReports(table, e)| < 2 then multiset(employees)[e] else 0
    ensures forall i, j :: 0 <= i < j < |r| ==>
              KeyLe(KeyOf(table, r[i].employee), KeyOf(table, r[j].employee))
  {
    var sorted := Sort(Filter(employees, Qualifier(table)), KeyFn(table));
    SortSorted(Filter(employees, Qualifier(table)), KeyFn(table));
    SelectedEmployees(employees, table);
    assert forall i :: 0 <= i < |sorted| ==> sorted[i] in sorted;
    CoverageRows(table, reports, sorted)
  }
}
