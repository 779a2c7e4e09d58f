/** Migrations 034 and 035 of the enrichment tables: the two schema contracts and the transactions that apply them. */
module EnrichmentSchema {
  import opened Outcomes
  import opened PredicateText

  datatype Table = Fields | Jobs

  datatype Column =
    | Id | CompanyId | FieldName | Value | Source | Confidence | Verified | FetchedAt | SupersededAt | RunId
    | Trigger | Status | ProvidersAttempted | StartedAt | FinishedAt | LeaseExpiresAt
    | SourceUrl | RawValue | ExtractionMethod | VerifiedAt | VerifiedBy | VerificationSourceUrl
    | FieldAttemptLog
    | OtherColumn(name: string)

  datatype IndexName =
    | FieldsCompanyFieldSource | FieldsCompany | JobsRunId | JobsCompanyActive | JobsCompanyStartedAt
    | OtherIndex(name: string)

  datatype IndexInfo = IndexInfo(unique: bool, keys: seq<Column>, filter: Option<string>)

  datatype CheckName = JobsTrigger | JobsStatus | AttemptLogShape | VerifiedEvidence | OtherCheck(name: string)

  datatype Relation = Enrichment(table: Table) | Companies | OtherRelation(name: string)

  /** A constraint as information_schema shows it: its own columns and, for a foreign key, the columns it refers to. */
  datatype Constraint = Constraint(
    name: string,
    on: Relation,
    isForeignKey: bool,
    columns: set<Column>,
    refers: set<(Relation, Column)>)

  datatype Schema = Schema(
    columns: map<Table, set<Column>>,
    indexes: map<(Table, IndexName), IndexInfo>,
    constraints: set<Constraint>,
    checks: map<(Table, CheckName), string>,
    validator: bool,
    rows: map<Table, nat>)

  function Columns034(t: Table): set<Column> {
    match t
    case Fields => {Id, CompanyId, FieldName, Value, Source, Confidence, Verified, FetchedAt, SupersededAt, RunId}
    case Jobs => {Id, RunId, CompanyId, Trigger, Status, ProvidersAttempted, StartedAt, FinishedAt, LeaseExpiresAt}
  }

  function ColumnsPhase3(t: Table): set<Column> {
    match t
    case Fields => {SourceUrl, RawValue, ExtractionMethod, VerifiedAt, VerifiedBy, VerificationSourceUrl}
    case Jobs => {FieldAttemptLog}
  }

  datatype ExpectedIndex = ExpectedIndex(name: IndexName, table: Table, info: IndexInfo)

  const EXPECTED_INDEXES := [
    ExpectedIndex(FieldsCompanyFieldSource, Fields,
                  IndexInfo(true, [CompanyId, FieldName, Source], Some("superseded_at is null"))),
    ExpectedIndex(FieldsCompany, Fields, IndexInfo(false, [CompanyId], Some("superseded_at is null"))),
    ExpectedIndex(JobsRunId, Jobs, IndexInfo(true, [RunId], None)),
    ExpectedIndex(JobsCompanyActive, Jobs, IndexInfo(true, [CompanyId], Some("status = 'running'"))),
    ExpectedIndex(JobsCompanyStartedAt, Jobs, IndexInfo(false, [CompanyId, StartedAt], None))]

  /** `_table_columns`: a table without columns reads as missing, as an absent one does. */
  function ColumnsOf(s: Schema, t: Table): set<Column> {
    if t in s.columns then s.columns[t] else {}
  }

  predicate Exists(s: Schema, t: Table) {
    ColumnsOf(s, t) != {}
  }

  /** `_index_conforms`; an expected index without a predicate also accepts an empty one. */
  predicate IndexConforms(expected: IndexInfo, actual: Option<IndexInfo>) {
    && actual.Some?
    && actual.value.unique == expected.unique
    && actual.value.keys == expected.keys
    && match expected.filter
       case None => actual.value.filter.None? || actual.value.filter == Some("")
       case Some(p) => actual.value.filter.Some? && Normalize(actual.value.filter.value) == p
  }

  function IndexOf(s: Schema, x: ExpectedIndex): Option<IndexInfo> {
    if (x.table, x.name) in s.indexes then Some(s.indexes[(x.table, x.name)]) else None
  }

  /** `_fk_exists`: three views joined on the constraint name alone. */
  predicate FkExists(s: Schema, t: Table) {
    exists a, b, c | a in s.constraints && b in s.constraints && c in s.constraints ::
      a.name == b.name == c.name && a.isForeignKey && a.on == Enrichment(t) && CompanyId in b.columns &&
      (Companies, Id) in c.refers
  }

  predicate CheckExists(s: Schema, t: Table, c: CheckName) {
    (t, c) in s.checks
  }

  datatype Violation =
    | TableMissing(table: Table)
    | ColumnsDiffer(table: Table, missing: set<Column>, unexpected: set<Column>)
    | IndexDiffers(name: IndexName)
    | FkMissing(table: Table)
    | CheckMissing(check: CheckName)
    | Phase3ColumnsMissing(table: Table, missing: set<Column>)
    | ValidatorMissing
    | CheckDiffers(check: CheckName)
    | BaseCorrupt(base: seq<Violation>)

  datatype Readiness = NotApplied | FullyApplied | Corrupt

  datatype Report = Report(status: Readiness, violations: seq<Violation>)

  // ---------------------------------------------------------------- migration 034

  function ColumnViolations(s: Schema, t: Table): seq<Violation> {
    var cols := ColumnsOf(s, t);
    var missing := Columns034(t) - cols;
    var unexpected := cols - (Columns034(t) + ColumnsPhase3(t));
    if cols == {} then [TableMissing(t)]
    else if missing != {} || unexpected != {} then [ColumnsDiffer(t, missing, unexpected)]
    else []
  }

  function IndexViolations(s: Schema, t: Table, xs: seq<ExpectedIndex>): seq<Violation> {
    if |xs| == 0 then []
    else
      var x := xs[|xs| - 1];
      IndexViolations(s, t, xs[..|xs| - 1]) +
      if x.table == t && !IndexConforms(x.info, IndexOf(s, x)) then [IndexDiffers(x.name)] else []
  }

  function DetailViolations(s: Schema, t: Table): seq<Violation> {
    if !Exists(s, t) then []
    else
      IndexViolations(s, t, EXPECTED_INDEXES)
      + (if FkExists(s, t) then [] else [FkMissing(t)])
      + (if t == Jobs && !CheckExists(s, Jobs, JobsTrigger) then [CheckMissing(JobsTrigger)] else [])
      + (if t == Jobs && !CheckExists(s, Jobs, JobsStatus) then [CheckMissing(JobsStatus)] else [])
  }

  function Violations034(s: Schema): seq<Violation> {
    ColumnViolations(s, Fields) + ColumnViolations(s, Jobs) + DetailViolations(s, Fields) + DetailViolations(s, Jobs)
  }

  function Verdict(violations: seq<Violation>): Report {
    Report(if |violations| > 0 then Corrupt else FullyApplied, violations)
  }

  /** `company_enrichment_apply_readiness`. */
  function Readiness034(s: Schema): Report {
    if !Exists(s, Fields) && !Exists(s, Jobs) then Report(NotApplied, []) else Verdict(Violations034(s))
  }

  // ---------------------------------------------------------------- migration 035

  const ATTEMPT_LOG_DEFINITION := "CHECK (company_enrichment_validate_field_attempt_log(field_attempt_log))"
  const UNVERIFIED := "NOT verified"
  const SIGNED := "verified_by IS NOT NULL"
  const DATED := "verified_at IS NOT NULL"
  const SOURCED := "verification_source_url IS NOT NULL"
  const EVIDENCE_DEFINITION :=
    "CHECK (((" + UNVERIFIED + ") OR ((" + SIGNED + ") AND (" + DATED + ") AND (" + SOURCED + "))))"

  function Phase3Check(t: Table): CheckName {
    match t case Jobs => AttemptLogShape case Fields => VerifiedEvidence
  }

  function Phase3Definition(t: Table): string {
    match t case Jobs => ATTEMPT_LOG_DEFINITION case Fields => EVIDENCE_DEFINITION
  }

  predicate Phase3CheckConforms(s: Schema, t: Table) {
    && CheckExists(s, t, Phase3Check(t))
    && Normalize(s.checks[(t, Phase3Check(t))]) == Normalize(Phase3Definition(t))
  }

  predicate NothingOfPhase3(s: Schema) {
    && ColumnsOf(s, Fields) * ColumnsPhase3(Fields) == {} && ColumnsOf(s, Jobs) * ColumnsPhase3(Jobs) == {}
    && !s.validator
    && !CheckExists(s, Jobs, AttemptLogShape) && !CheckExists(s, Fields, VerifiedEvidence)
  }

  function Phase3ColumnViolations(s: Schema, t: Table): seq<Violation> {
    var missing := ColumnsPhase3(t) - ColumnsOf(s, t);
    if missing != {} then [Phase3ColumnsMissing(t, missing)] else []
  }

  function Phase3CheckViolations(s: Schema, t: Table): seq<Violation> {
    if !CheckExists(s, t, Phase3Check(t)) then [CheckMissing(Phase3Check(t))]
    else if !Phase3CheckConforms(s, t) then [CheckDiffers(Phase3Check(t))]
    else []
  }

  function ViolationsPhase3(s: Schema): seq<Violation> {
    Phase3ColumnViolations(s, Fields) + Phase3ColumnViolations(s, Jobs)
    + (if s.validator then [] else [ValidatorMissing])
    + Phase3CheckViolations(s, Jobs) + Phase3CheckViolations(s, Fields)
  }

  /** `company_enrichment_phase3_apply_readiness`. */
  function ReadinessPhase3(s: Schema): Report {
    var base := Readiness034(s);
    match base.status
    case NotApplied => Report(NotApplied, [])
    case Corrupt => Report(Corrupt, [BaseCorrupt(base.violations)])
    case FullyApplied => if NothingOfPhase3(s) then Report(NotApplied, []) else Verdict(ViolationsPhase3(s))
  }

  // ---------------------------------------------------------------- the readiness checks and the transactions

  /** `company_enrichment_row_counts`: a missing table counts as empty. */
  function RowCount(s: Schema, t: Table): nat {
    if Exists(s, t) && t in s.rows then s.rows[t] else 0
  }

  /** Neither table, if it is there, holds a row. */
  predicate NoRows(s: Schema) {
    HoldsNone(s, Fields) && HoldsNone(s, Jobs)
  }

  predicate HoldsNone(s: Schema, t: Table) {
    t in s.columns && s.columns[t] != {} && t in s.rows ==> s.rows[t] == 0
  }

  lemma CountsAreZeroIff(s: Schema)
    ensures NoRows(s) <==> RowCount(s, Fields) == 0 && RowCount(s, Jobs) == 0
  {
  }

  /** One DDL statement on a schema; None when it raises. */
  type Statement = Schema -> Option<Schema>

  function Executed(s: Schema, ddl: seq<Statement>): Option<Schema> {
    if |ddl| == 0 then Some(s)
    else match Executed(s, ddl[..|ddl| - 1])
      case None => None
      case Some(t) => ddl[|ddl| - 1](t)
  }

  datatype Raised = DdlFailed | BaseNotApplied(base: Report) | DoesNotConform(report: Report)
      | RowsFound(fields: nat, jobs: nat)

  method CheckIndexes(s: Schema, t: Table) returns (violations: seq<Violation>)
    ensures violations == IndexViolations(s, t, EXPECTED_INDEXES)
  {
    violations := [];
    for i := 0 to |EXPECTED_INDEXES|
      invariant violations == IndexViolations(s, t, EXPECTED_INDEXES[..i])
    {
      hide IndexConforms, IndexOf;
      var expected := EXPECTED_INDEXES[i];
      assert EXPECTED_INDEXES[..i + 1][..i] == EXPECTED_INDEXES[..i];
      if expected.table == t && !IndexConforms(expected.info, IndexOf(s, expected)) {
        violations := violations + [IndexDiffers(expected.name)];
      }
    }
    assert EXPECTED_INDEXES[..|EXPECTED_INDEXES|] == EXPECTED_INDEXES;
  }

  class Engine {
    var schema: Schema

    constructor (schema: Schema)
      ensures this.schema == schema
    {
      this.schema := schema;
    }

    /** Runs the statements on the transaction's copy. */
    static method Execute(s: Schema, ddl: seq<Statement>) returns (r: Option<Schema>)
      ensures r == Executed(s, ddl)
    {
      r := Some(s);
      for i := 0 to |ddl|
        invariant r.Some? && r == Executed(s, ddl[..i])
      {
        assert ddl[..i + 1][..i] == ddl[..i];
        r := ddl[i](r.value);
        if r.None? {
          StaysFailed(s, ddl, i + 1);
          return;
        }
      }
      assert ddl[..|ddl|] == ddl;
    }

    /** Whatever the DDL does, what is committed is the full, empty 034 schema, and an error leaves the schema as it
        was. */
    method Apply034(ddl: seq<Statement>) returns (r: Result<nat, Raised>)
      modifies this
      ensures r.Ok? ==>
                && Executed(old(schema), ddl) == Some(schema) && Readiness034(schema) == Report(FullyApplied, [])
                && NoRows(schema)
      ensures r.Err? ==> schema == old(schema)
      ensures r.Ok? <==> var s := Executed(old(schema), ddl);
                         s.Some? && Readiness034(s.value).status.FullyApplied? && NoRows(s.value)
    {
      hide Violations034, Exists, RowCount, Executed, NoRows;
      var conn := Execute(schema, ddl);
      if conn.None? { return Err(DdlFailed); }
      var readiness := Readiness034(conn.value);
      if !readiness.status.FullyApplied? { return Err(DoesNotConform(readiness)); }
      var fields, jobs := RowCount(conn.value, Fields), RowCount(conn.value, Jobs);
      CountsAreZeroIff(conn.value);
      if fields != 0 || jobs != 0 { return Err(RowsFound(fields, jobs)); }
      schema := conn.value;
      r := Ok(|ddl|);
    }

    /** Likewise for 035, which asks for 034 first and accepts rows. */
    method Apply035(ddl: seq<Statement>) returns (r: Result<nat, Raised>)
      modifies this
      ensures r.Ok? ==>
                Executed(old(schema), ddl) == Some(schema) && ReadinessPhase3(schema) == Report(FullyApplied, [])
      ensures r.Err? ==> schema == old(schema)
      ensures r.Ok? <==> var s := Executed(old(schema), ddl);
                         Readiness034(old(schema)).status.FullyApplied? && s.Some? &&
                             ReadinessPhase3(s.value).status.FullyApplied?
    {
      hide Violations034, Exists, ViolationsPhase3, NothingOfPhase3, Executed, Readiness034;
      var base := Readiness034(schema);
      if !base.status.FullyApplied? { return Err(BaseNotApplied(base)); }
      var conn := Execute(schema, ddl);
      if conn.None? { return Err(DdlFailed); }
      var readiness := ReadinessPhase3(conn.value);
      if !readiness.status.FullyApplied? { return Err(DoesNotConform(readiness)); }
      schema := conn.value;
      r := Ok(|ddl|);
    }
  }

  lemma {:induction false} StaysFailed(s: Schema, ddl: seq<Statement>, i: nat)
    requires i <= |ddl| && Executed(s, ddl[..i]).None?
    ensures Executed(s, ddl).None?
  {
    if i < |ddl| {
      assert ddl[..|ddl| - 1][..i] == ddl[..i];
      StaysFailed(s, ddl[..|ddl| - 1], i);
    } else {
      assert ddl[..i] == ddl;
    }
  }
}
