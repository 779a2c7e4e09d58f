/** The two schema contracts written out, and exactly which violations each readiness report names. */
module EnrichmentContract {
  import opened Outcomes
  import opened PredicateText
  import opened EnrichmentSchema
  import opened EnrichmentLaws

  // ---------------------------------------------------------------- migration 034

  predicate HasTable(s: Schema, t: Table) {
    t in s.columns && s.columns[t] != {}
  }

  predicate HasColumn(s: Schema, t: Table, c: Column) {
    t in s.columns && c in s.columns[t]
  }

  predicate IsRequired(t: Table, c: Column) {
    match t
    case Fields =>
      c in {Id, CompanyId, FieldName, Value, Source, Confidence, Verified, FetchedAt, SupersededAt, RunId}
    case Jobs => c in {Id, RunId, CompanyId, Trigger, Status, ProvidersAttempted, StartedAt, FinishedAt, LeaseExpiresAt}
  }

  predicate IsLater(t: Table, c: Column) {
    match t
    case Fields => c in {SourceUrl, RawValue, ExtractionMethod, VerifiedAt, VerifiedBy, VerificationSourceUrl}
    case Jobs => c == FieldAttemptLog
  }

  /** The table has such an index; an index without condition may be printed with none or an empty one. */
  predicate HasIndex(s: Schema, t: Table, n: IndexName, unique: bool, keys: seq<Column>, condition: Option<string>) {
    (t, n) in s.indexes &&
    var i := s.indexes[(t, n)];
    && i.unique == unique && i.keys == keys
    && (condition.None? ==> i.filter == None || i.filter == Some(""))
    && (condition.Some? ==> i.filter.Some? && Normalize(i.filter.value) == condition.value)
  }

  predicate InPlace(s: Schema, n: IndexName) {
    match n
    case FieldsCompanyFieldSource =>
      HasIndex(s, Fields, n, true, [CompanyId, FieldName, Source], Some("superseded_at is null"))
    case FieldsCompany => HasIndex(s, Fields, n, false, [CompanyId], Some("superseded_at is null"))
    case JobsRunId => HasIndex(s, Jobs, n, true, [RunId], None)
    case JobsCompanyActive => HasIndex(s, Jobs, n, true, [CompanyId], Some("status = 'running'"))
    case JobsCompanyStartedAt => HasIndex(s, Jobs, n, false, [CompanyId, StartedAt], None)
    case OtherIndex(_) => true
  }

  predicate IsIndexOf(n: IndexName, t: Table) {
    match n
    case FieldsCompanyFieldSource => t == Fields
    case FieldsCompany => t == Fields
    case JobsRunId => t == Jobs
    case JobsCompanyActive => t == Jobs
    case JobsCompanyStartedAt => t == Jobs
    case OtherIndex(_) => false
  }

  /** A table that is there has all columns of 034, and none that neither migration brings. */
  ghost predicate ColumnsFit(s: Schema, t: Table) {
    && (forall c | IsRequired(t, c) :: HasColumn(s, t, c))
    && forall c | HasColumn(s, t, c) :: IsRequired(t, c) || IsLater(t, c)
  }

  /** What the report of 034 names once one of the tables is there. */
  ghost predicate Violated(s: Schema, v: Violation) {
    match v
    case TableMissing(t) => !HasTable(s, t)
    case ColumnsDiffer(t, missing, unexpected) =>
      && HasTable(s, t) && !ColumnsFit(s, t)
      && (forall c :: c in missing <==> IsRequired(t, c) && !HasColumn(s, t, c))
      && (forall c :: c in unexpected <==> HasColumn(s, t, c) && !IsRequired(t, c) && !IsLater(t, c))
    case IndexDiffers(n) => exists t | IsIndexOf(n, t) :: HasTable(s, t) && !InPlace(s, n)
    case FkMissing(t) => HasTable(s, t) && !NameIsShared(s, t)
    case CheckMissing(c) => HasTable(s, Jobs) && c in {JobsTrigger, JobsStatus} && (Jobs, c) !in s.checks
    case _ => false
  }

  lemma SetsAre(t: Table, c: Column)
    ensures c in Columns034(t) <==> IsRequired(t, c)
    ensures c in ColumnsPhase3(t) <==> IsLater(t, c)
  {
    match t
    case Fields =>
    case Jobs =>
  }

  lemma ColumnsAre(s: Schema, t: Table, c: Column)
    ensures c in ColumnsOf(s, t) <==> HasColumn(s, t, c)
    ensures c in Columns034(t) <==> IsRequired(t, c)
    ensures c in ColumnsPhase3(t) <==> IsLater(t, c)
    ensures Exists(s, t) <==> HasTable(s, t)
  {
    hide Columns034, ColumnsPhase3, IsRequired, IsLater;
    SetsAre(t, c);
  }

  /** How the check computes the two differences. */
  lemma DifferencesAre(s: Schema, t: Table)
    ensures var missing := Columns034(t) - ColumnsOf(s, t);
            var unexpected := ColumnsOf(s, t) - (Columns034(t) + ColumnsPhase3(t));
            && (forall c :: c in missing <==> IsRequired(t, c) && !HasColumn(s, t, c))
            && (forall c :: c in unexpected <==> HasColumn(s, t, c) && !IsRequired(t, c) && !IsLater(t, c))
            && (missing == {} && unexpected == {} <==> ColumnsFit(s, t))
  {
    hide ColumnsOf, Columns034, ColumnsPhase3, IsRequired, IsLater, HasColumn, Exists, HasTable;
    forall c
      ensures c in ColumnsOf(s, t) <==> HasColumn(s, t, c)
      ensures c in Columns034(t) <==> IsRequired(t, c)
      ensures c in ColumnsPhase3(t) <==> IsLater(t, c)
    {
      ColumnsAre(s, t, c);
    }
    var missing, unexpected := Columns034(t) - ColumnsOf(s, t), ColumnsOf(s, t) - (Columns034(t) + ColumnsPhase3(t));
    assert missing == {} <==> forall c :: c !in missing;
    assert unexpected == {} <==> forall c :: c !in unexpected;
  }

  lemma ColumnViolationsAre(s: Schema, t: Table, v: Violation)
    ensures v in ColumnViolations(s, t) <==>
            (v == TableMissing(t) || (v.ColumnsDiffer? && v.table == t)) && Violated(s, v)
  {
    hide ColumnsOf, Columns034, ColumnsPhase3, IsRequired, IsLater, HasColumn, HasTable, ColumnsFit;
    ColumnsAre(s, t, Id);
    DifferencesAre(s, t);
    if v.ColumnsDiffer? && v.table == t && Violated(s, v) {
      var missing, unexpected := Columns034(t) - ColumnsOf(s, t), ColumnsOf(s, t) - (Columns034(t) + ColumnsPhase3(t));
      assert forall c :: c in v.missing <==> c in missing;
      assert forall c :: c in v.unexpected <==> c in unexpected;
      assert v == ColumnsDiffer(t, missing, unexpected);
    }
  }

  lemma {:induction false} IndexViolationsAre(s: Schema, t: Table, xs: seq<ExpectedIndex>, v: Violation)
    ensures v in IndexViolations(s, t, xs) <==>
            v.IndexDiffers? &&
            exists x | x in xs :: x.table == t && x.name == v.name && !IndexConforms(x.info, IndexOf(s, x))
  {
    hide IndexConforms, IndexOf;
    if |xs| > 0 {
      IndexViolationsAre(s, t, xs[..|xs| - 1], v);
      assert xs == xs[..|xs| - 1] + [xs[|xs| - 1]];
    }
  }

  lemma ConformsIs(s: Schema, x: ExpectedIndex)
    ensures IndexConforms(x.info, IndexOf(s, x)) <==>
            HasIndex(s, x.table, x.name, x.info.unique, x.info.keys, x.info.filter)
  {
    hide Normalize;
  }

  /** Each expected index is the one that `InPlace` describes, and there are no others. */
  lemma ExpectedAre(s: Schema, t: Table, n: IndexName)
    ensures IsIndexOf(n, t) && !InPlace(s, n) <==>
        exists x | x in EXPECTED_INDEXES :: x.table == t && x.name == n && !IndexConforms(x.info, IndexOf(s, x))
  {
    hide HasIndex, IndexConforms, IndexOf;
    forall x | x in EXPECTED_INDEXES
      ensures IsIndexOf(x.name, x.table) && (IndexConforms(x.info, IndexOf(s, x)) <==> InPlace(s, x.name))
    {
      ConformsIs(s, x);
      ExpectedIs(s, x);
    }
    if IsIndexOf(n, t) {
      var x := ExpectedFor(n);
      assert x.table == t;
    }
  }

  lemma ExpectedIs(s: Schema, x: ExpectedIndex)
    requires x in EXPECTED_INDEXES
    ensures IsIndexOf(x.name, x.table)
    ensures InPlace(s, x.name) <==> HasIndex(s, x.table, x.name, x.info.unique, x.info.keys, x.info.filter)
  {
    hide HasIndex;
  }

  lemma ExpectedFor(n: IndexName) returns (x: ExpectedIndex)
    requires !n.OtherIndex?
    ensures x in EXPECTED_INDEXES && x.name == n && IsIndexOf(n, x.table)
  {
    x := match n
      case FieldsCompanyFieldSource => EXPECTED_INDEXES[0]
      case FieldsCompany => EXPECTED_INDEXES[1]
      case JobsRunId => EXPECTED_INDEXES[2]
      case JobsCompanyActive => EXPECTED_INDEXES[3]
      case JobsCompanyStartedAt => EXPECTED_INDEXES[4];
  }

  lemma DetailViolationsAre(s: Schema, t: Table, v: Violation)
    ensures v in DetailViolations(s, t) <==>
      && HasTable(s, t)
      && match v
         case IndexDiffers(n) => IsIndexOf(n, t) && !InPlace(s, n)
         case FkMissing(x) => x == t && !NameIsShared(s, t)
         case CheckMissing(c) => t == Jobs && c in {JobsTrigger, JobsStatus} && (Jobs, c) !in s.checks
         case _ => false
  {
    hide IndexViolations, FkExists, NameIsShared, HasTable, InPlace, IndexConforms, IndexOf, ColumnsOf;
    ColumnsAre(s, t, Id);
    IndexViolationsAre(s, t, EXPECTED_INDEXES, v);
    if v.IndexDiffers? { ExpectedAre(s, t, v.name); }
    FoundIffShared(s, t);
  }

  /** Nothing is reported while both tables are missing; otherwise exactly what is violated. */
  lemma ReportNames(s: Schema, v: Violation)
    ensures v in Readiness034(s).violations <==> (HasTable(s, Fields) || HasTable(s, Jobs)) && Violated(s, v)
  {
    hide ColumnViolations, DetailViolations, HasTable, Violated, ColumnsOf;
    ColumnsAre(s, Fields, Id);
    ColumnsAre(s, Jobs, Id);
    SplitByTable(s, v);
    forall t
      ensures v in ColumnViolations(s, t) <==>
          (v == TableMissing(t) || (v.ColumnsDiffer? && v.table == t)) && Violated(s, v)
    {
      ColumnViolationsAre(s, t, v);
    }
  }

  lemma SplitByTable(s: Schema, v: Violation)
    ensures (v in DetailViolations(s, Fields) || v in DetailViolations(s, Jobs)) <==>
            !v.TableMissing? && !v.ColumnsDiffer? && Violated(s, v)
  {
    hide DetailViolations, HasTable, InPlace, NameIsShared, ColumnsFit, HasColumn;
    DetailViolationsAre(s, Fields, v);
    DetailViolationsAre(s, Jobs, v);
    match v {
      case IndexDiffers(n) =>
        if t :| IsIndexOf(n, t) && HasTable(s, t) && !InPlace(s, n) { assert t == Fields || t == Jobs; }
      case FkMissing(t) => assert t == Fields || t == Jobs;
      case _ =>
    }
  }

  /** The contract of migration 034: both tables with the right columns, the five indexes, a foreign key as the views
      show it, and the two checks by name. */
  ghost predicate Contract034(s: Schema) {
    && TableFits(s, Fields) && TableFits(s, Jobs)
    && (forall n :: InPlace(s, n))
    && (Jobs, JobsTrigger) in s.checks && (Jobs, JobsStatus) in s.checks
  }

  ghost predicate TableFits(s: Schema, t: Table) {
    HasTable(s, t) && ColumnsFit(s, t) && NameIsShared(s, t)
  }

  lemma AppliedIsContract(s: Schema)
    ensures Readiness034(s).status.FullyApplied? <==> Contract034(s)
    ensures Readiness034(s).status.NotApplied? <==> !HasTable(s, Fields) && !HasTable(s, Jobs)
  {
    hide Readiness034, HasTable, InPlace, NameIsShared, ColumnsFit, ColumnsOf, Conforms034;
    Readiness034Means(s);
    NoTable(s);
    var found := Readiness034(s).violations;
    assert |found| > 0 ==> found[0] in found;
    if Contract034(s) {
      forall v
        ensures v !in Readiness034(s).violations
      {
        ReportNames(s, v);
        ContractNotViolated(s, v);
      }
    } else if HasTable(s, Fields) || HasTable(s, Jobs) {
      var v := ContractBroken(s);
      ReportNames(s, v);
    }
  }

  lemma NoTable(s: Schema)
    ensures ColumnsOf(s, Fields) == {} <==> !HasTable(s, Fields)
    ensures ColumnsOf(s, Jobs) == {} <==> !HasTable(s, Jobs)
  {
  }

  lemma ContractNotViolated(s: Schema, v: Violation)
    requires Contract034(s)
    ensures !Violated(s, v)
  {
    hide HasTable, InPlace, NameIsShared, ColumnsFit;
    match v {
      case TableMissing(t) => assert t == Fields || t == Jobs;
      case ColumnsDiffer(t, _, _) => assert t == Fields || t == Jobs;
      case FkMissing(t) => assert t == Fields || t == Jobs;
      case _ =>
    }
  }

  lemma ContractBroken(s: Schema) returns (v: Violation)
    requires !Contract034(s)
    ensures Violated(s, v)
  {
    if !TableFits(s, Fields) {
      v := TableBroken(s, Fields);
    } else if !TableFits(s, Jobs) {
      v := TableBroken(s, Jobs);
    } else if n :| !InPlace(s, n) {
      v := IndexDiffers(n);
      assert IsIndexOf(n, Fields) || IsIndexOf(n, Jobs);
    } else {
      v := CheckMissing(if (Jobs, JobsTrigger) !in s.checks then JobsTrigger else JobsStatus);
    }
  }

  lemma TableBroken(s: Schema, t: Table) returns (v: Violation)
    requires !TableFits(s, t)
    ensures Violated(s, v)
  {
    if !HasTable(s, t) {
      v := TableMissing(t);
    } else if !NameIsShared(s, t) {
      v := FkMissing(t);
    } else {
      v := ColumnsDiffer(t, Columns034(t) - ColumnsOf(s, t), ColumnsOf(s, t) - (Columns034(t) + ColumnsPhase3(t)));
      DifferencesAre(s, t);
    }
  }

  // ---------------------------------------------------------------- migration 035

  ghost predicate LaterThere(s: Schema, t: Table) {
    forall c | IsLater(t, c) :: HasColumn(s, t, c)
  }

  ghost predicate LaterAbsent(s: Schema, t: Table) {
    forall c | IsLater(t, c) :: !HasColumn(s, t, c)
  }

  /** The check is there, and what the database prints of it has the normal form of the expected text. */
  predicate HasCheck(s: Schema, t: Table, c: CheckName, expected: string) {
    (t, c) in s.checks && Normalize(s.checks[(t, c)]) == Normalize(expected)
  }

  /** All later columns, the validation function and both checks. */
  ghost predicate Contract035(s: Schema) {
    && LaterThere(s, Fields) && LaterThere(s, Jobs) && s.validator
    && HasCheck(s, Jobs, AttemptLogShape, ATTEMPT_LOG_DEFINITION)
    && HasCheck(s, Fields, VerifiedEvidence, EVIDENCE_DEFINITION)
  }

  /** No part of migration 035 is there. */
  ghost predicate Untouched(s: Schema) {
    && LaterAbsent(s, Fields) && LaterAbsent(s, Jobs) && !s.validator
    && (Jobs, AttemptLogShape) !in s.checks && (Fields, VerifiedEvidence) !in s.checks
  }

  /** What the report of 035 names on a schema with 034 applied and some part of 035. */
  ghost predicate ViolatedLater(s: Schema, v: Violation) {
    match v
    case Phase3ColumnsMissing(t, missing) =>
      missing != {} && forall c :: c in missing <==> IsLater(t, c) && !HasColumn(s, t, c)
    case ValidatorMissing => !s.validator
    case CheckMissing(c) =>
      || (c == AttemptLogShape && (Jobs, c) !in s.checks) || (c == VerifiedEvidence && (Fields, c) !in s.checks)
    case CheckDiffers(c) =>
      || (c == AttemptLogShape && (Jobs, c) in s.checks && !HasCheck(s, Jobs, c, ATTEMPT_LOG_DEFINITION))
      || (c == VerifiedEvidence && (Fields, c) in s.checks && !HasCheck(s, Fields, c, EVIDENCE_DEFINITION))
    case _ => false
  }

  lemma LaterColumnsAre(s: Schema, t: Table, v: Violation)
    ensures v in Phase3ColumnViolations(s, t) <==> v.Phase3ColumnsMissing? && v.table == t && ViolatedLater(s, v)
  {
    hide ColumnsOf, ColumnsPhase3, IsLater, HasColumn, IsRequired, Columns034, Exists, HasTable;
    var missing := ColumnsPhase3(t) - ColumnsOf(s, t);
    forall c
      ensures c in missing <==> IsLater(t, c) && !HasColumn(s, t, c)
    {
      ColumnsAre(s, t, c);
    }
    if v.Phase3ColumnsMissing? && v.table == t && ViolatedLater(s, v) {
      assert forall c :: c in v.missing <==> c in missing;
      assert v == Phase3ColumnsMissing(t, missing);
    }
  }

  lemma LaterChecksAre(s: Schema, t: Table)
    ensures Phase3CheckConforms(s, t) <==>
            HasCheck(s, t, Phase3Check(t), if t == Jobs then ATTEMPT_LOG_DEFINITION else EVIDENCE_DEFINITION)
    ensures Phase3Check(t) == if t == Jobs then AttemptLogShape else VerifiedEvidence
  {
    hide Normalize;
  }

  lemma LaterViolationsAre(s: Schema, v: Violation)
    ensures v in ViolationsPhase3(s) <==> ViolatedLater(s, v)
  {
    hide Phase3ColumnViolations, HasCheck, Phase3CheckConforms, IsLater, HasColumn;
    LaterColumnsAre(s, Fields, v);
    LaterColumnsAre(s, Jobs, v);
    LaterChecksAre(s, Fields);
    LaterChecksAre(s, Jobs);
  }

  lemma LaterIs(s: Schema, t: Table)
    ensures ColumnsOf(s, t) * ColumnsPhase3(t) == {} <==> LaterAbsent(s, t)
    ensures ColumnsPhase3(t) <= ColumnsOf(s, t) <==> LaterThere(s, t)
  {
    hide ColumnsOf, ColumnsPhase3, IsLater, HasColumn, IsRequired, Columns034, Exists, HasTable;
    var both := ColumnsOf(s, t) * ColumnsPhase3(t);
    forall c
      ensures c in both <==> IsLater(t, c) && HasColumn(s, t, c)
      ensures c in ColumnsPhase3(t) && c !in ColumnsOf(s, t) <==> IsLater(t, c) && !HasColumn(s, t, c)
    {
      ColumnsAre(s, t, c);
    }
    assert both == {} <==> forall c :: c !in both;
  }

  lemma UntouchedIs(s: Schema)
    ensures NothingOfPhase3(s) <==> Untouched(s)
  {
    hide ColumnsOf, ColumnsPhase3, LaterAbsent, LaterThere;
    LaterIs(s, Fields);
    LaterIs(s, Jobs);
  }

  lemma LaterContractIs(s: Schema)
    ensures ConformsPhase3(s) <==> Contract035(s)
  {
    hide ColumnsOf, ColumnsPhase3, LaterAbsent, LaterThere, HasCheck, Phase3CheckConforms;
    LaterIs(s, Fields);
    LaterIs(s, Jobs);
    LaterChecksAre(s, Fields);
    LaterChecksAre(s, Jobs);
  }

  /** The report of 035 in terms of the two contracts, with the violations it names. */
  lemma LaterReportIs(s: Schema, v: Violation)
    ensures var r := ReadinessPhase3(s);
            && (r.status.FullyApplied? <==> Contract034(s) && Contract035(s))
            && (r.status.NotApplied? <==>
                (!HasTable(s, Fields) && !HasTable(s, Jobs)) || (Contract034(s) && Untouched(s)))
            && (Contract034(s) && !Untouched(s) ==> (v in r.violations <==> ViolatedLater(s, v)))
            && (!Contract034(s) && (HasTable(s, Fields) || HasTable(s, Jobs)) ==>
                  r.violations == [BaseCorrupt(Readiness034(s).violations)])
  {
    hide Readiness034, ViolationsPhase3, Contract034, Contract035, Untouched, NothingOfPhase3, ConformsPhase3,
      ViolatedLater, HasTable;
    AppliedIsContract(s);
    ReadinessPhase3Means(s);
    LaterContractIs(s);
    UntouchedIs(s);
    LaterViolationsAre(s, v);
  }
}
