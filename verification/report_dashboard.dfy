/** The report dashboard's selection state: the region filter, the selected
    report, and how a region change or a report choice moves them. */
module ReportDashboard {
  import opened Wrappers
  import opened Seqs
  import opened Types

  function InRegion(region: string): Report -> bool {
    (r: Report) => r.region == region
  }

  /** The region filter: "all" shows every report, any other value the
      reports whose region is exactly that value, in their order. */
  function FilterByRegion(reports: seq<Report>, region: string): (r: seq<Report>)
    ensures region == "all" ==> r == reports
    ensures region != "all" ==> forall x :: x in r <==> x in reports && x.region == region
    ensures forall x :: multiset(r)[x] == if region == "all" || x.region == region then multiset(reports)[x] else 0
    ensures IsSubsequence(r, reports)
  {
    if region == "all" then
      SubsequenceReflexive(reports);
      reports
    else Filter(reports, InRegion(region))
  }

  predicate HasId(rs: seq<Report>, id: string) {
    exists i :: 0 <= i < |rs| && rs[i].id == id
  }

  /** The region effect's choice of selected report for a new filtered list:
      none when the list is empty, the current report when its id is still
      listed, and the first listed report otherwise. */
  function Reconcile(filtered: seq<Report>, selected: Option<Report>): (s: Option<Report>)
    ensures s.None? <==> |filtered| == 0
    ensures s.Some? ==> HasId(filtered, s.value.id)
    ensures selected.Some? && HasId(filtered, selected.value.id) ==> s == selected
    ensures |filtered| > 0 && (selected.None? || !HasId(filtered, selected.value.id)) ==> s == Some(filtered[0])
  {
    if |filtered| > 0 then
      if selected.None? || !HasId(filtered, selected.value.id) then
        assert HasId(filtered, filtered[0].id);
        Some(filtered[0])
      else selected
    else None
  }

  datatype State = State(reports: seq<Report>, region: string, selected: Option<Report>, filtered: seq<Report>)

  /** The invariant the dashboard keeps: the filtered list follows the region,
      and a report is selected exactly when the list is non-empty, from it. */
  predicate Consistent(st: State) {
    && st.filtered == FilterByRegion(st.reports, st.region)
    && (st.selected.None? <==> |st.filtered| == 0)
    && (st.selected.Some? ==> HasId(st.filtered, st.selected.value.id))
  }

  /** The state on first render: region "all", every report listed, the
      first report selected (or none when there are no reports). */
  function Init(reports: seq<Report>): (st: State)
    ensures Consistent(st)
    ensures st.reports == reports && st.region == "all" && st.filtered == reports
    ensures st.selected == if |reports| == 0 then None else Some(reports[0])
  {
    if |reports| == 0 then State(reports, "all", None, reports)
    else
      assert HasId(reports, reports[0].id);
      State(reports, "all", Some(reports[0]), reports)
  }

  /** Choosing a region, followed by the effect that re-filters and
      reconciles the selection. */
  function ChangeRegion(st: State, region: string): (st': State)
    ensures Consistent(st')
    ensures st'.reports == st.reports && st'.region == region
    ensures st.selected.Some? && HasId(st'.filtered, st.selected.value.id) ==> st'.selected == st.selected
    ensures |st'.filtered| > 0 && (st.selected.None? || !HasId(st'.filtered, st.selected.value.id)) ==>
              st'.selected == Some(st'.filtered[0])
  {
    var filtered := FilterByRegion(st.reports, region);
    State(st.reports, region, Reconcile(filtered, st.selected), filtered)
  }

  function IdIs(id: string): Report -> bool {
    (r: Report) => r.id == id
  }

  /** Choosing a report by id: the first report with that id in the full,
      unfiltered list; an unknown id leaves the selection as it was. */
  function ChangeReport(st: State, id: string): (st': State)
    ensures st'.reports == st.reports && st'.region == st.region && st'.filtered == st.filtered
    ensures !HasId(st.reports, id) ==> st'.selected == st.selected
    ensures HasId(st.reports, id) ==>
              exists k :: 0 <= k < |st.reports| && st'.selected == Some(st.reports[k]) && st.reports[k].id == id &&
                          forall j :: 0 <= j < k ==> st.reports[j].id != id
  {
    match FindFirst(st.reports, IdIs(id))
    case None => st
    case Some(k) =>
      assert forall j :: 0 <= j < k ==> st.reports[j].id != id;
      st.(selected := Some(st.reports[k]))
  }

  /** The selector lists only filtered reports, so choosing one of their ids
      keeps the dashboard consistent. */
  lemma ChangeReportPreservesConsistency(st: State, id: string)
    requires Consistent(st) && HasId(st.filtered, id)
    ensures Consistent(ChangeReport(st, id))
  {
    var k :| 0 <= k < |st.filtered| && st.filtered[k].id == id;
    assert st.filtered[k] in st.reports;
    var j :| 0 <= j < |st.reports| && st.reports[j] == st.filtered[k];
    assert HasId(st.reports, id);
  }

  /** The effect also runs once on mount, where it changes nothing. */
  lemma MountEffectIsNoOp(reports: seq<Report>)
    ensures ChangeRegion(Init(reports), "all") == Init(reports)
  {
  }

  /** The text shown when no report is selected. */
  function NoSelectionMessage(st: State): string {
    if |st.filtered| == 0 then "No reports found for the selected region"
    else "Select a report to view details"
  }

  /** In a consistent state the second message is never shown: with nothing
      selected the filtered list is empty. */
  lemma NoSelectionMeansNoReports(st: State)
    requires Consistent(st) && st.selected.None?
    ensures NoSelectionMessage(st) == "No reports found for the selected region"
  {
  }
}
