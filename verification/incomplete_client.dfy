/** The client side of the incomplete-mappings table: the per-employee count
    map, its update after a mapping is added, the search box and the
    empty-table message. */
module IncompleteClient {
  import opened Wrappers
  import opened Seqs
  import opened Text
  import opened Types

  function IdsOf(rows: seq<EmployeeWithMappings>): set<string> {
    set i | 0 <= i < |rows| :: rows[i].employee.id
  }

  /** No later row carries the same employee id as row `i`. */
  predicate LastWithId(rows: seq<EmployeeWithMappings>, i: int)
    requires 0 <= i < |rows|
  {
    forall j :: i < j < |rows| ==> rows[j].employee.id != rows[i].employee.id
  }

  lemma IdsOfSnoc(rows: seq<EmployeeWithMappings>)
    requires |rows| > 0
    ensures IdsOf(rows) == IdsOf(rows[..|rows| - 1]) + {rows[|rows| - 1].employee.id}
  {
    var init := rows[..|rows| - 1];
    forall id | id in IdsOf(rows) ensures id in IdsOf(init) + {rows[|rows| - 1].employee.id} {
      var i :| 0 <= i < |rows| && rows[i].employee.id == id;
      if i < |rows| - 1 {
        assert init[i] == rows[i];
      }
    }
    forall id | id in IdsOf(init) ensures id in IdsOf(rows) {
      var i :| 0 <= i < |init| && init[i].employee.id == id;
      assert rows[i] == init[i];
    }
  }

  lemma LastWithIdInPrefix(rows: seq<EmployeeWithMappings>)
    requires |rows| > 0
    ensures forall i :: 0 <= i < |rows| - 1 && LastWithId(rows, i) ==> LastWithId(rows[..|rows| - 1], i)
  {
  }

  /** The initial `mappingCounts`: an entry per employee id, built from the
      list in order so that a later row with the same id overwrites an
      earlier one. Where the count comes from is left to `countOf`. */
  function InitialCounts<V>(rows: seq<EmployeeWithMappings>, countOf: EmployeeWithMappings -> V): (m: map<string, V>)
    ensures m.Keys == IdsOf(rows)
    ensures forall i :: 0 <= i < |rows| && LastWithId(rows, i) ==> m[rows[i].employee.id] == countOf(rows[i])
  {
    if |rows| == 0 then map[]
    else
      var init := rows[..|rows| - 1];
      var last := rows[|rows| - 1];
      var m := InitialCounts(init, countOf)[last.employee.id := countOf(last)];
      IdsOfSnoc(rows);
      LastWithIdInPrefix(rows);
      m
  }

  /** With distinct employee ids, every employee's entry is its own count. */
  lemma InitialCountsWithUniqueIds<V>(rows: seq<EmployeeWithMappings>, countOf: EmployeeWithMappings -> V)
    requires forall i, j :: 0 <= i < j < |rows| ==> rows[i].employee.id != rows[j].employee.id
    ensures forall i :: 0 <= i < |rows| ==> InitialCounts(rows, countOf)[rows[i].employee.id] == countOf(rows[i])
  {
    forall i | 0 <= i < |rows| ensures LastWithId(rows, i) {
    }
  }

  /** `handleMappingAdded`: the entry for `id` becomes `n`; no other entry changes. */
  function MappingAdded<V>(counts: map<string, V>, id: string, n: V): (m: map<string, V>)
    ensures m.Keys == counts.Keys + {id}
    ensures m[id] == n
    ensures forall k :: k in counts && k != id ==> m[k] == counts[k]
  {
    counts[id := n]
  }

  /** Adding a mapping for a listed employee keeps one entry per listed id. */
  lemma MappingAddedKeepsKeys<V>(rows: seq<EmployeeWithMappings>, counts: map<string, V>, i: int, n: V)
    requires counts.Keys == IdsOf(rows) && 0 <= i < |rows|
    ensures MappingAdded(counts, rows[i].employee.id, n).Keys == IdsOf(rows)
  {
  }

  /** The search box: the lower-cased term occurs in the lower-cased name,
      id, team name, or "city, country". */
  predicate MatchesSearch(row: EmployeeWithMappings, term: string) {
    var e := row.employee;
    || IncludesIgnoringCase(e.name, term)
    || IncludesIgnoringCase(e.id, term)
    || IncludesIgnoringCase(e.teamName, term)
    || IncludesIgnoringCase(e.cityName + ", " + e.countryName, term)
  }

  function Searcher(term: string): EmployeeWithMappings -> bool {
    row => MatchesSearch(row, term)
  }

  lemma EmptyTermKeepsAll(rows: seq<EmployeeWithMappings>)
    ensures Filter(rows, Searcher("")) == rows
  {
    FilterKeepsAll(rows, Searcher(""));
  }

  /** The rows shown for a search term. */
  function SearchRows(rows: seq<EmployeeWithMappings>, term: string): (r: seq<EmployeeWithMappings>)
    ensures IsSubsequence(r, rows)
    ensures |r| <= |rows|
    ensures forall x :: x in r <==> x in rows && MatchesSearch(x, term)
    ensures forall x :: multiset(r)[x] == if MatchesSearch(x, term) then multiset(rows)[x] else 0
    ensures |term| == 0 ==> r == rows
  {
    EmptyTermKeepsAll(rows);
    Filter(rows, Searcher(term))
  }

  /** What replaces the table body: nothing while some row is shown; else
      one message for an empty list and another for a search that hid every row. */
  function EmptyMessage(rows: seq<EmployeeWithMappings>, shown: seq<EmployeeWithMappings>): (msg: Option<string>)
    ensures msg.None? <==> |shown| > 0
    ensures msg == Some("No employees with incomplete mappings") <==> |shown| == 0 && |rows| == 0
    ensures msg == Some("No results found") <==> |shown| == 0 && |rows| > 0
  {
    if |shown| > 0 then None
    else if |rows| == 0 then Some("No employees with incomplete mappings")
    else Some("No results found")
  }

  /** For a search result, the first message appears exactly when there are no
      rows at all. */
  lemma EmptyListMessage(rows: seq<EmployeeWithMappings>, term: string)
    ensures var shown := SearchRows(rows, term);
            EmptyMessage(rows, shown) == Some("No employees with incomplete mappings") <==> |rows| == 0
  {
  }
}
