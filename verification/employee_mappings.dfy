/** The employee list shown for a selected report: which of the report's
    mappings selected each employee, and the free-text search over the list. */
module EmployeeMappings {
  import opened Wrappers
  import opened Seqs
  import opened Text
  import opened Types

  /** Does mapping `m` select employee `e`? One case per client-side type
      name; a type outside the five names selects nobody. */
  predicate MappingMatches(m: Mapping, e: Employee) {
    if m.kind == "employeeId" then m.value == e.id
    else if m.kind == "teamId" then m.value == e.teamId
    else if m.kind == "areaId" then m.value == e.areaId
    else if m.kind == "cityId" then m.value == e.cityId
    else if m.kind == "countryId" then m.value == e.countryId
    else false
  }

  /** The axis-matching rule: a mapping selects an employee exactly when its
      type names an axis and its value equals the employee's field there. */
  lemma MatchesIffAxisField(m: Mapping, e: Employee)
    ensures MappingMatches(m, e) <==>
            exists t: MappingType :: m.kind == t.CamelName() && m.value == Field(e, t)
  {
    if MappingMatches(m, e) {
      var t := ParseCamel(m.kind).value;
      assert m.kind == t.CamelName() && m.value == Field(e, t);
    }
  }

  /** A mapping whose type is none of the five names never matches. */
  lemma UnknownTypeNeverMatches(m: Mapping, e: Employee)
    requires ParseCamel(m.kind).None?
    ensures !MappingMatches(m, e)
  {
  }

  /** Only the five client-side type names can ever match. */
  lemma MatchingTypesAreKnown(ms: seq<Mapping>, e: Employee)
    requires forall m :: m in ms ==> MappingMatches(m, e)
    ensures forall m :: m in ms ==> ParseCamel(m.kind).Some?
  {
    forall m | m in ms ensures ParseCamel(m.kind).Some? {
      MatchesIffAxisField(m, e);
      var t: MappingType :| m.kind == t.CamelName() && m.value == Field(e, t);
      ParseNameRoundTrip(m.kind, t);
    }
  }

  function Matcher(e: Employee): Mapping -> bool {
    m => MappingMatches(m, e)
  }

  /** The type names of a list of mappings, in order. */
  function Kinds(ms: seq<Mapping>): (ks: seq<string>)
    ensures |ks| == |ms|
    ensures forall i :: 0 <= i < |ms| ==> ks[i] == ms[i].kind
  {
    seq(|ms|, i requires 0 <= i < |ms| => ms[i].kind)
  }

  /** Taking the type names keeps a subsequence a subsequence. */
  lemma {:induction false} KindsKeepSubsequence(sub: seq<Mapping>, ms: seq<Mapping>)
    requires IsSubsequence(sub, ms)
    ensures IsSubsequence(Kinds(sub), Kinds(ms))
    decreases |ms|
  {
    if |sub| > 0 {
      assert Kinds(sub)[1..] == Kinds(sub[1..]);
      assert Kinds(ms)[1..] == Kinds(ms[1..]);
      if sub[0] == ms[0] && IsSubsequence(sub[1..], ms[1..]) {
        KindsKeepSubsequence(sub[1..], ms[1..]);
      } else {
        KindsKeepSubsequence(sub, ms[1..]);
      }
    }
  }

  /** The type names of the matching mappings are exactly the kinds of
      mappings in `hits`. */
  lemma KindsMembers(hits: seq<Mapping>)
    ensures forall c :: c in Kinds(hits) ==> exists m :: m in hits && m.kind == c
    ensures forall m :: m in hits ==> m.kind in Kinds(hits)
  {
    forall c | c in Kinds(hits) ensures exists m :: m in hits && m.kind == c {
      var i :| 0 <= i < |hits| && Kinds(hits)[i] == c;
      assert hits[i] in hits;
    }
    forall m | m in hits ensures m.kind in Kinds(hits) {
      var i :| 0 <= i < |hits| && hits[i] == m;
      assert Kinds(hits)[i] == m.kind;
    }
  }

  /** How many of the mappings `ms` have type `c` and select `e`. */
  function MatchCount(ms: seq<Mapping>, e: Employee, c: string): nat {
    if |ms| == 0 then 0
    else (if ms[0].kind == c && MappingMatches(ms[0], e) then 1 else 0) + MatchCount(ms[1..], e, c)
  }

  /** The type names of the matching mappings occur once per matching
      mapping of that type. */
  lemma {:induction false} KindsOfMatchesCount(ms: seq<Mapping>, e: Employee)
    ensures forall c :: multiset(Kinds(Filter(ms, Matcher(e))))[c] == MatchCount(ms, e, c)
  {
    if |ms| > 0 {
      KindsOfMatchesCount(ms[1..], e);
      KindsOfMatchesCons(ms, e);
      var head: seq<string> := if MappingMatches(ms[0], e) then [ms[0].kind] else [];
      var rest := Kinds(Filter(ms[1..], Matcher(e)));
      assert multiset(head + rest) == multiset(head) + multiset(rest);
    }
  }

  /** The "Matched By" column: the type of every mapping of the report that
      selects `e`, in the report's order, duplicates kept. */
  function MatchingCriteria(report: Report, e: Employee): (r: seq<string>)
    ensures |r| <= |report.mappings|
    ensures IsSubsequence(r, Kinds(report.mappings))
    ensures forall c :: multiset(r)[c] == MatchCount(report.mappings, e, c)
    ensures forall c :: c in r ==>
              exists m :: m in report.mappings && m.kind == c && MappingMatches(m, e)
    ensures forall m :: m in report.mappings && MappingMatches(m, e) ==> m.kind in r
    ensures forall c :: c in r ==> ParseCamel(c).Some?
  {
    var hits := Filter(report.mappings, Matcher(e));
    KindsKeepSubsequence(hits, report.mappings);
    KindsMembers(hits);
    MatchingTypesAreKnown(hits, e);
    KindsOfMatchesCount(report.mappings, e);
    Kinds(hits)
  }

  /** The criteria of a non-empty list: the first mapping's type when it
      selects `e`, followed by the criteria of the remaining mappings. With
      the empty list giving no criteria, this fixes the result entry by entry:
      one entry per matching mapping, in the report's order. */
  lemma CriteriaOfCons(report: Report, e: Employee)
    requires |report.mappings| > 0
    ensures var m := report.mappings[0];
            MatchingCriteria(report, e) ==
            (if MappingMatches(m, e) then [m.kind] else []) +
            MatchingCriteria(report.(mappings := report.mappings[1..]), e)
  {
    KindsOfMatchesCons(report.mappings, e);
  }

  lemma KindsOfMatchesCons(ms: seq<Mapping>, e: Employee)
    requires |ms| > 0
    ensures Kinds(Filter(ms, Matcher(e))) ==
            (if MappingMatches(ms[0], e) then [ms[0].kind] else []) + Kinds(Filter(ms[1..], Matcher(e)))
  {
    if MappingMatches(ms[0], e) {
      KindsOfMatchesHit(ms, e);
    } else {
      KindsOfMatchesMiss(ms, e);
    }
  }

  lemma KindsOfMatchesHit(ms: seq<Mapping>, e: Employee)
    requires |ms| > 0 && MappingMatches(ms[0], e)
    ensures Kinds(Filter(ms, Matcher(e))) == [ms[0].kind] + Kinds(Filter(ms[1..], Matcher(e)))
  {
    var rest := Filter(ms[1..], Matcher(e));
    KindsCons(ms[0], rest);
    assert Filter(ms, Matcher(e)) == [ms[0]] + rest;
  }

  lemma KindsCons(m: Mapping, ms: seq<Mapping>)
    ensures Kinds([m] + ms) == [m.kind] + Kinds(ms)
  {
    var l, r := Kinds([m] + ms), [m.kind] + Kinds(ms);
    assert |l| == |r|;
    forall i | 0 <= i < |l| ensures l[i] == r[i] {
      if i > 0 {
        assert ([m] + ms)[i] == ms[i - 1];
      }
    }
  }

  lemma KindsOfMatchesMiss(ms: seq<Mapping>, e: Employee)
    requires |ms| > 0 && !MappingMatches(ms[0], e)
    ensures Kinds(Filter(ms, Matcher(e))) == Kinds(Filter(ms[1..], Matcher(e)))
  {
    assert Filter(ms, Matcher(e)) == Filter(ms[1..], Matcher(e));
  }

  /** Criteria are not deduplicated: when every mapping matches, each one
      contributes its own entry. */
  lemma CriteriaKeepDuplicates(report: Report, e: Employee)
    requires forall j :: 0 <= j < |report.mappings| ==> MappingMatches(report.mappings[j], e)
    ensures MatchingCriteria(report, e) == Kinds(report.mappings)
  {
    FilterKeepsAll(report.mappings, Matcher(e));
  }

  /** The search box: the lower-cased term occurs in the lower-cased name,
      id, team name or location. */
  predicate MatchesSearch(e: Employee, term: string) {
    || IncludesIgnoringCase(e.name, term)
    || IncludesIgnoringCase(e.id, term)
    || IncludesIgnoringCase(e.teamName, term)
    || IncludesIgnoringCase(e.location, term)
  }

  function Searcher(term: string): Employee -> bool {
    e => MatchesSearch(e, term)
  }

  /** An empty search term matches every employee. */
  lemma EmptyTermKeepsAll(employees: seq<Employee>)
    ensures Filter(employees, Searcher("")) == employees
  {
    FilterKeepsAll(employees, Searcher(""));
  }

  /** The employees shown for a search term; the footer "Showing X of Y"
      reports |r| of |employees|, and X never exceeds Y. */
  function SearchEmployees(employees: seq<Employee>, term: string): (r: seq<Employee>)
    ensures IsSubsequence(r, employees)
    ensures forall e :: e in r <==> e in employees && MatchesSearch(e, term)
    ensures forall e :: multiset(r)[e] == if MatchesSearch(e, term) then multiset(employees)[e] else 0
    ensures |r| <= |employees|
    ensures |term| == 0 ==> r == employees
  {
    EmptyTermKeepsAll(employees);
    Filter(employees, Searcher(term))
  }

  /** What replaces the table body: nothing while some employee is shown;
      else one message when the report matched nobody and another when the
      search hid every employee. */
  function EmptyMessage(employees: seq<Employee>, shown: seq<Employee>): (msg: Option<string>)
    ensures msg.None? <==> |shown| > 0
    ensures msg == Some("No employees match the report criteria") <==> |shown| == 0 && |employees| == 0
    ensures msg == Some("No results found") <==> |shown| == 0 && |employees| > 0
  {
    if |shown| > 0 then None
    else if |employees| == 0 then Some("No employees match the report criteria")
    else Some("No results found")
  }
}
