/** The shared data types of the dashboard: mapping types, mappings, reports,
    employees and the coverage rows the incomplete-mappings query returns. */
module Types {
  import opened Wrappers

  /** The five identity axes a mapping can select employees on. */
  datatype MappingType = EmployeeId | TeamId | AreaId | CityId | CountryId {

    /** The spelling the client-side types use. */
    function CamelName(): string {
      match this
      case EmployeeId => "employeeId"
      case TeamId => "teamId"
      case AreaId => "areaId"
      case CityId => "cityId"
      case CountryId => "countryId"
    }

    /** The spelling the mappings table stores and the mapping writer accepts. */
    function SnakeName(): string {
      match this
      case EmployeeId => "employee_id"
      case TeamId => "team_id"
      case AreaId => "area_id"
      case CityId => "city_id"
      case CountryId => "country_id"
    }
  }

  /** Reads a client-side type name; anything else is not a mapping type. */
  function ParseCamel(s: string): (r: Option<MappingType>)
    ensures r.Some? ==> r.value.CamelName() == s
  {
    if s == "employeeId" then Some(EmployeeId)
    else if s == "teamId" then Some(TeamId)
    else if s == "areaId" then Some(AreaId)
    else if s == "cityId" then Some(CityId)
    else if s == "countryId" then Some(CountryId)
    else None
  }

  /** Reads a table-side type name; anything else is not a mapping type. */
  function ParseSnake(s: string): (r: Option<MappingType>)
    ensures r.Some? ==> r.value.SnakeName() == s
  {
    if s == "employee_id" then Some(EmployeeId)
    else if s == "team_id" then Some(TeamId)
    else if s == "area_id" then Some(AreaId)
    else if s == "city_id" then Some(CityId)
    else if s == "country_id" then Some(CountryId)
    else None
  }

  /** Parsing inverts naming, in both spellings, and recognises nothing else. */
  lemma ParseNameRoundTrip(s: string, t: MappingType)
    ensures ParseCamel(s) == Some(t) <==> s == t.CamelName()
    ensures ParseSnake(s) == Some(t) <==> s == t.SnakeName()
  {
  }

  /** The two spellings never coincide: a client-side name is not a valid
      table-side name and vice versa. */
  lemma SpellingsDisjoint(s: string)
    ensures ParseCamel(s).None? || ParseSnake(s).None?
  {
  }

  /** One rule of a report: a mapping type and the value it must equal.
      The type is kept as the text that arrived, because the client code
      also handles values outside the five declared names. */
  datatype Mapping = Mapping(kind: string, value: string)

  datatype Report = Report(
    id: string,
    name: string,
    region: string,
    supervisors: seq<string>,
    mappings: seq<Mapping>)

  /** An employee; the database columns employee_id, employee_name, team_id,
      area_id, city_id and country_id are the fields id, name, teamId,
      areaId, cityId and countryId. */
  datatype Employee = Employee(
    id: string,
    name: string,
    teamId: string,
    teamName: string,
    areaId: string,
    cityId: string,
    cityName: string,
    countryId: string,
    countryName: string,
    location: string)

  /** The identity field of an employee that a mapping type selects. */
  function Field(e: Employee, t: MappingType): string {
    match t
    case EmployeeId => e.id
    case TeamId => e.teamId
    case AreaId => e.areaId
    case CityId => e.cityId
    case CountryId => e.countryId
  }

  /** The five identity values of an employee, one per axis. */
  function IdentityValues(e: Employee): (vs: set<string>)
    ensures forall t: MappingType :: Field(e, t) in vs
    ensures forall v :: v in vs ==> exists t: MappingType :: Field(e, t) == v
  {
    assert Field(e, EmployeeId) == e.id && Field(e, TeamId) == e.teamId;
    assert Field(e, AreaId) == e.areaId && Field(e, CityId) == e.cityId;
    assert Field(e, CountryId) == e.countryId;
    {e.id, e.teamId, e.areaId, e.cityId, e.countryId}
  }

  /** An employee with its coverage, as the incomplete-mappings query returns
      it: `reportCount` holds the query's `report_count` column (the number of
      distinct reports that include the employee) and `mappedReports` its
      `mapped_reports` column (the names of those reports, or null when none
      is listed). The camelCase field names are the client's spelling. */
  datatype EmployeeWithMappings = EmployeeWithMappings(
    employee: Employee,
    reportCount: int,
    mappedReports: Option<set<string>>)
}
