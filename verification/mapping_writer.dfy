/** The POST handler that adds an employee to a report: validation, choice of
    the mapping id, the upsert into `mappings`, and the refreshed count. */
module MappingWriter {
  import opened Wrappers
  import opened Seqs
  import opened Types
  import opened MappingTable

  /** The JSON body; an absent field is None. */
  datatype Request = Request(employeeId: Option<string>, reportName: Option<string>, mappingType: Option<string>)

  /** The handler's answer: an HTTP error status with its message, or
      success carrying the employee's refreshed report count. */
  datatype Response = Failure(status: int, error: string) | Success(reportCount: nat, message: string)

  const AddedMessage := "Mapping added successfully"

  /** A missing field or an empty string fails JavaScript's truthiness test. */
  predicate Falsy(v: Option<string>) {
    v.None? || v.value == ""
  }

  predicate MissingField(req: Request) {
    Falsy(req.employeeId) || Falsy(req.reportName) || Falsy(req.mappingType)
  }

  function IdIs(id: string): Employee -> bool {
    (e: Employee) => e.id == id
  }

  /** The employee lookup by employee_id: the first employee with that id. */
  function FindEmployee(employees: seq<Employee>, id: string): (r: Option<Employee>)
    ensures r.None? <==> forall i :: 0 <= i < |employees| ==> employees[i].id != id
    ensures r.Some? ==> r.value in employees && r.value.id == id
  {
    match FindFirst(employees, IdIs(id))
    case None => None
    case Some(k) => Some(employees[k])
  }

  /** The switch on the request's mapping type: the employee's value on the
      named axis, or None for a type outside the five table-side names. */
  function MappingIdFor(e: Employee, mappingType: string): (r: Option<string>)
    ensures r.Some? <==> mappingType in SnakeNames
    ensures r.Some? ==> r.value == Field(e, ParseSnake(mappingType).value)
  {
    if mappingType == "employee_id" then Some(e.id)
    else if mappingType == "team_id" then Some(e.teamId)
    else if mappingType == "area_id" then Some(e.areaId)
    else if mappingType == "city_id" then Some(e.cityId)
    else if mappingType == "country_id" then Some(e.countryId)
    else None
  }

  predicate HasTripleIn(table: seq<Row>, reportName: string, mappingType: string, mappingId: string) {
    exists i :: 0 <= i < |table| && HasTriple(table[i], reportName, mappingType, mappingId)
  }

  /** Check for the triple, then either set 'Yes' on every row carrying it
      or append one new 'Yes' row. */
  function Upsert(table: seq<Row>, reportName: string, mappingType: string, mappingId: string): (t: seq<Row>)
    // afterwards the triple is present, and every row carrying it is included
    ensures HasTripleIn(t, reportName, mappingType, mappingId)
    ensures forall i :: 0 <= i < |t| && HasTriple(t[i], reportName, mappingType, mappingId) ==> t[i].flag == Yes
    // an existing triple is updated in place; a new one is appended
    ensures HasTripleIn(table, reportName, mappingType, mappingId) ==> |t| == |table|
    ensures !HasTripleIn(table, reportName, mappingType, mappingId) ==>
              |t| == |table| + 1 && t[|table|] == Row(reportName, mappingType, mappingId, Yes)
    // earlier rows keep their triple, and rows without the triple are untouched
    ensures forall i :: 0 <= i < |table| ==>
              HasTriple(t[i], table[i].reportName, table[i].mappingType, table[i].mappingId)
    ensures forall i :: 0 <= i < |table| && !HasTriple(table[i], reportName, mappingType, mappingId) ==>
              t[i] == table[i]
  {
    if HasTripleIn(table, reportName, mappingType, mappingId) then
      var t := seq(|table|, i requires 0 <= i < |table| =>
        if HasTriple(table[i], reportName, mappingType, mappingId) then table[i].(flag := Yes) else table[i]);
      var k :| 0 <= k < |table| && HasTriple(table[k], reportName, mappingType, mappingId);
      assert HasTriple(t[k], reportName, mappingType, mappingId);
      t
    else
      var t := table + [Row(reportName, mappingType, mappingId, Yes)];
      assert HasTriple(t[|table|], reportName, mappingType, mappingId);
      t
  }

  /** Upserting the same triple twice is the same as upserting it once. */
  lemma UpsertIdempotent(table: seq<Row>, reportName: string, mappingType: string, mappingId: string)
    ensures var t := Upsert(table, reportName, mappingType, mappingId);
            Upsert(t, reportName, mappingType, mappingId) == t
  {
    var t := Upsert(table, reportName, mappingType, mappingId);
    var t2 := Upsert(t, reportName, mappingType, mappingId);
    assert |t2| == |t|;
    forall i | 0 <= i < |t| ensures t2[i] == t[i] {
      if HasTriple(t[i], reportName, mappingType, mappingId) {
        assert t[i].flag == Yes;
        assert t2[i] == t[i].(flag := Yes);
      }
    }
  }

  /** The upsert never creates a second row for a triple. */
  lemma UpsertKeepsTriplesUnique(table: seq<Row>, reportName: string, mappingType: string, mappingId: string)
    requires UniqueTriples(table)
    ensures UniqueTriples(Upsert(table, reportName, mappingType, mappingId))
  {
    var t := Upsert(table, reportName, mappingType, mappingId);
    if !HasTripleIn(table, reportName, mappingType, mappingId) {
      forall i, j | 0 <= i < j < |t|
        ensures !HasTriple(t[j], t[i].reportName, t[i].mappingType, t[i].mappingId)
      {
        if j == |table| {
          assert t[i] == table[i];
          assert !HasTriple(table[i], reportName, mappingType, mappingId);
        }
      }
    }
  }

  /** The rows the count query selects: 'Yes' rows whose id is any of the
      employee's five values and whose type is any of the five types, the
      two tests made independently of each other. */
  predicate CountSelects(row: Row, e: Employee) {
    row.mappingId in IdentityValues(e) && row.flag == Yes && row.mappingType in SnakeNames
  }

  /** The distinct report names the count query sees. */
  function CountedReports(table: seq<Row>, e: Employee): set<string> {
    set row | row in table && CountSelects(row, e) :: row.reportName
  }

  /** The whole handler: the response and the mappings table afterwards. */
  function Post(table: seq<Row>, employees: seq<Employee>, req: Request): (out: (Response, seq<Row>))
    // every error leaves the table as it was
    ensures out.0.Failure? ==> out.1 == table
    ensures MissingField(req) ==> out.0 == Failure(400, "Missing required fields")
    ensures !MissingField(req) && FindEmployee(employees, req.employeeId.value).None? ==>
              out.0 == Failure(404, "Employee not found")
    ensures !MissingField(req) && FindEmployee(employees, req.employeeId.value).Some? &&
            req.mappingType.value !in SnakeNames ==>
              out.0 == Failure(400, "Invalid mapping type")
    ensures out.0.Success? <==>
              !MissingField(req) && FindEmployee(employees, req.employeeId.value).Some? &&
              req.mappingType.value in SnakeNames
    // on success the employee's own value on the named axis is stored as 'Yes'
    ensures out.0.Success? ==>
              var e := FindEmployee(employees, req.employeeId.value).value;
              var id := Field(e, ParseSnake(req.mappingType.value).value);
              && out.1 == Upsert(table, req.reportName.value, req.mappingType.value, id)
              && out.0.reportCount == |CountedReports(out.1, e)|
              && out.0.reportCount >= 1
              && out.0.message == AddedMessage
  {
    if MissingField(req) then (Failure(400, "Missing required fields"), table)
    else
      match FindEmployee(employees, req.employeeId.value)
      case None => (Failure(404, "Employee not found"), table)
      case Some(e) =>
        match MappingIdFor(e, req.mappingType.value)
        case None => (Failure(400, "Invalid mapping type"), table)
        case Some(id) =>
          var t := Upsert(table, req.reportName.value, req.mappingType.value, id);
          var k :| 0 <= k < |t| && HasTriple(t[k], req.reportName.value, req.mappingType.value, id);
          assert CountSelects(t[k], e);
          assert req.reportName.value in CountedReports(t, e);
          (Success(|CountedReports(t, e)|, AddedMessage), t)
  }

  /** Sending the same request twice gives the same table and the same
      count as sending it once. */
  lemma PostIdempotent(table: seq<Row>, employees: seq<Employee>, req: Request)
    ensures var once := Post(table, employees, req);
            Post(once.1, employees, req) == once
  {
    var once := Post(table, employees, req);
    if once.0.Success? {
      var e := FindEmployee(employees, req.employeeId.value).value;
      var id := Field(e, ParseSnake(req.mappingType.value).value);
      UpsertIdempotent(table, req.reportName.value, req.mappingType.value, id);
    }
  }
}
