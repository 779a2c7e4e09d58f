/** What the two readiness reports mean, how they stay apart, and what runs of the two migrations keep. */
module EnrichmentLaws {
  import opened Outcomes
  import opened Ordered
  import opened PredicateText
  import opened Text
  import opened EnrichmentSchema

  // ---------------------------------------------------------------- what the reports mean

  lemma {:induction false} IndexViolationsEmptyIff(s: Schema, t: Table, xs: seq<ExpectedIndex>)
    ensures IndexViolations(s, t, xs) == [] <==>
        forall x | x in xs :: x.table == t ==> IndexConforms(x.info, IndexOf(s, x))
  {
    hide IndexConforms, IndexOf;
    if |xs| > 0 {
      IndexViolationsEmptyIff(s, t, xs[..|xs| - 1]);
      assert xs == xs[..|xs| - 1] + [xs[|xs| - 1]];
    }
  }

  /** The contract of migration 034, table by table. */
  predicate Conforms034(s: Schema, t: Table) {
    && Columns034(t) <= ColumnsOf(s, t) <= Columns034(t) + ColumnsPhase3(t)
    && (forall x | x in EXPECTED_INDEXES :: x.table == t ==> IndexConforms(x.info, IndexOf(s, x)))
    && FkExists(s, t)
    && (t == Jobs ==> CheckExists(s, t, JobsTrigger) && CheckExists(s, t, JobsStatus))
  }

  lemma DifferenceEmptyIff<T>(a: set<T>, b: set<T>)
    ensures a - b == {} <==> a <= b
  {
    if a <= b {
      assert forall x :: x !in a - b;
    } else {
      var x :| x in a && x !in b;
      assert x in a - b;
    }
  }

  lemma ColumnViolationsEmptyIff(s: Schema, t: Table)
    ensures ColumnViolations(s, t) == [] <==> Columns034(t) <= ColumnsOf(s, t) <= Columns034(t) + ColumnsPhase3(t)
  {
    assert Id in Columns034(t);
    var cols := ColumnsOf(s, t);
    DifferenceEmptyIff(Columns034(t), cols);
    DifferenceEmptyIff(cols, Columns034(t) + ColumnsPhase3(t));
  }

  lemma DetailViolationsEmptyIff(s: Schema, t: Table)
    requires Exists(s, t)
    ensures DetailViolations(s, t) == [] <==>
            && (forall x | x in EXPECTED_INDEXES :: x.table == t ==> IndexConforms(x.info, IndexOf(s, x)))
            && FkExists(s, t)
            && (t == Jobs ==> CheckExists(s, t, JobsTrigger) && CheckExists(s, t, JobsStatus))
  {
    hide IndexConforms, IndexOf, FkExists, IndexViolations, CheckExists, Exists;
    IndexViolationsEmptyIff(s, t, EXPECTED_INDEXES);
  }

  /** FULLY_APPLIED means the contract, CORRUPT is the only status with violations, NOT_APPLIED means neither table. */
  lemma Readiness034Means(s: Schema)
    ensures var r := Readiness034(s);
            && (r.status.FullyApplied? <==> Conforms034(s, Fields) && Conforms034(s, Jobs))
            && (r.status.NotApplied? <==> ColumnsOf(s, Fields) == {} && ColumnsOf(s, Jobs) == {})
            && (r.status.Corrupt? <==> r.violations != [])
  {
    hide ColumnViolations, DetailViolations, IndexConforms, IndexOf, FkExists, CheckExists, ColumnsOf, ColumnsPhase3;
    ColumnViolationsEmptyIff(s, Fields);
    ColumnViolationsEmptyIff(s, Jobs);
    assert Id in Columns034(Fields) && Id in Columns034(Jobs);
    if Exists(s, Fields) { DetailViolationsEmptyIff(s, Fields); }
    if Exists(s, Jobs) { DetailViolationsEmptyIff(s, Jobs); }
  }

  /** The contract of migration 035. */
  predicate ConformsPhase3(s: Schema) {
    && ColumnsPhase3(Fields) <= ColumnsOf(s, Fields) && ColumnsPhase3(Jobs) <= ColumnsOf(s, Jobs)
    && s.validator && Phase3CheckConforms(s, Fields) && Phase3CheckConforms(s, Jobs)
  }

  lemma Phase3ViolationsEmptyIff(s: Schema)
    ensures ViolationsPhase3(s) == [] <==> ConformsPhase3(s)
  {
    hide ColumnsOf, ColumnsPhase3, CheckExists, Normalize, Phase3Definition;
    forall t
      ensures Phase3ColumnViolations(s, t) == [] <==> ColumnsPhase3(t) <= ColumnsOf(s, t)
    {
      DifferenceEmptyIff(ColumnsPhase3(t), ColumnsOf(s, t));
    }
    forall t
      ensures Phase3CheckViolations(s, t) == [] <==> Phase3CheckConforms(s, t)
    {
    }
  }

  /** Phase 3 is applied exactly when both contracts hold, and so never without 034. */
  lemma ReadinessPhase3Means(s: Schema)
    ensures var r := ReadinessPhase3(s);
            && (r.status.FullyApplied? <==> Readiness034(s).status.FullyApplied? && ConformsPhase3(s))
            && (r.status.NotApplied? <==>
                Readiness034(s).status.NotApplied? || (Readiness034(s).status.FullyApplied? && NothingOfPhase3(s)))
            && (r.status.Corrupt? <==> r.violations != [])
  {
    hide Readiness034, ViolationsPhase3, Phase3CheckConforms, ColumnsOf;
    Phase3ViolationsEmptyIff(s);
    if ConformsPhase3(s) {
      assert FieldAttemptLog in ColumnsPhase3(Jobs);
      assert FieldAttemptLog in ColumnsOf(s, Jobs) * ColumnsPhase3(Jobs);
    }
  }

  // ---------------------------------------------------------------- the two checks stay apart

  /** The schemas differ at most in Phase 3 columns of existing tables, the validator, the Phase 3 checks and the
      rows. */
  ghost predicate SameBut035(s: Schema, t: Schema) {
    && (forall x :: Exists(s, x) <==> Exists(t, x))
    && (forall x :: ColumnsOf(s, x) - ColumnsPhase3(x) == ColumnsOf(t, x) - ColumnsPhase3(x))
    && s.indexes == t.indexes && s.constraints == t.constraints
    && (forall x, c | c != Phase3Check(x) :: CheckExists(s, x, c) <==> CheckExists(t, x, c))
  }

  lemma ColumnsUnaffected(s: Schema, t: Schema, x: Table)
    requires SameBut035(s, t)
    ensures ColumnViolations(s, x) == ColumnViolations(t, x)
  {
    var a, b, p := ColumnsOf(s, x), ColumnsOf(t, x), ColumnsPhase3(x);
    assert Exists(s, x) <==> Exists(t, x);
    assert a - p == b - p && (a == {} <==> b == {});
    forall c
      ensures c in Columns034(x) - a <==> c in Columns034(x) - b
    {
      BasePhaseApart(x, c);
      assert c in a - p <==> c in b - p;
    }
    assert Columns034(x) - a == Columns034(x) - b;
    forall c
      ensures c in a - (Columns034(x) + p) <==> c in b - (Columns034(x) + p)
    {
      assert c in a - p <==> c in b - p;
    }
    assert a - (Columns034(x) + p) == b - (Columns034(x) + p);
  }

  lemma BasePhaseApart(x: Table, c: Column)
    ensures !(c in Columns034(x) && c in ColumnsPhase3(x))
  {
    if c in ColumnsPhase3(x) {
      match x
      case Jobs => assert c == FieldAttemptLog;
      case Fields =>
    }
  }

  lemma {:induction false} IndexesUnaffected(s: Schema, t: Schema, x: Table, xs: seq<ExpectedIndex>)
    requires s.indexes == t.indexes
    ensures IndexViolations(s, x, xs) == IndexViolations(t, x, xs)
  {
    hide IndexConforms;
    if |xs| > 0 { IndexesUnaffected(s, t, x, xs[..|xs| - 1]); }
  }

  lemma DetailsUnaffected(s: Schema, t: Schema, x: Table)
    requires SameBut035(s, t)
    ensures DetailViolations(s, x) == DetailViolations(t, x) && (Exists(s, x) <==> Exists(t, x))
  {
    hide IndexViolations, CheckExists, ColumnsOf, Exists;
    IndexesUnaffected(s, t, x, EXPECTED_INDEXES);
    assert Exists(s, x) <==> Exists(t, x);
    assert CheckExists(s, Jobs, JobsTrigger) <==> CheckExists(t, Jobs, JobsTrigger);
    assert CheckExists(s, Jobs, JobsStatus) <==> CheckExists(t, Jobs, JobsStatus);
  }

  /** 034's report, status and violations alike, does not see migration 035, however much of it is there. */
  lemma Phase3IsInvisibleTo034(s: Schema, t: Schema)
    requires SameBut035(s, t)
    ensures Readiness034(s) == Readiness034(t)
  {
    hide ColumnViolations, DetailViolations, Exists, SameBut035;
    ColumnsUnaffected(s, t, Fields);
    ColumnsUnaffected(s, t, Jobs);
    DetailsUnaffected(s, t, Fields);
    DetailsUnaffected(s, t, Jobs);
  }

  /** `s` with any part of migration 035 added to the tables it has. */
  function WithPhase3(s: Schema, fields: set<Column>, jobs: set<Column>, validator: bool,
                      checks: map<Table, string>): Schema {
    s.(columns := map t | t in s.columns && s.columns[t] != {} :: s.columns[t] + if t == Fields then fields else jobs,
       validator := s.validator || validator,
       checks := s.checks + map k | k in s.checks.Keys + {(Fields, VerifiedEvidence), (Jobs, AttemptLogShape)} &&
                                    k.0 in checks && k.1 == Phase3Check(k.0) :: checks[k.0])
  }

  lemma AddingPhase3IsUnseen(s: Schema, fields: set<Column>, jobs: set<Column>, validator: bool,
                             checks: map<Table, string>)
    requires fields <= ColumnsPhase3(Fields) && jobs <= ColumnsPhase3(Jobs)
    ensures Readiness034(WithPhase3(s, fields, jobs, validator, checks)) == Readiness034(s)
  {
    hide Readiness034, ColumnsPhase3;
    var t := WithPhase3(s, fields, jobs, validator, checks);
    forall x
      ensures Exists(s, x) <==> Exists(t, x)
      ensures ColumnsOf(s, x) - ColumnsPhase3(x) == ColumnsOf(t, x) - ColumnsPhase3(x)
    {
      var added := if x == Fields then fields else jobs;
      assert ColumnsOf(t, x) == if Exists(s, x) then ColumnsOf(s, x) + added else {};
      if Exists(s, x) {
        NonEmptyUnion(ColumnsOf(s, x), added);
        UnionMinus(ColumnsOf(s, x), added, ColumnsPhase3(x));
      }
    }
    Phase3IsInvisibleTo034(s, t);
  }

  lemma NonEmptyUnion<T>(a: set<T>, b: set<T>)
    requires a != {}
    ensures a + b != {}
  {
    var x := SomeMember(a);
    assert x in a + b;
  }

  lemma UnionMinus<T>(a: set<T>, b: set<T>, c: set<T>)
    requires b <= c
    ensures a + b - c == a - c
  {
    assert forall x :: x in a + b - c <==> x in a - c;
  }

  // ---------------------------------------------------------------- runs

  /** One call of either apply, with whatever DDL. */
  datatype Apply = Apply034(ddl: seq<Statement>) | Apply035(ddl: seq<Statement>)

  /** The committed schema, or None when the call raised. */
  function Outcome(s: Schema, a: Apply): Option<Schema> {
    match Executed(s, a.ddl)
    case None => None
    case Some(t) =>
      if a.Apply034? then
        if Readiness034(t).status.FullyApplied? && RowCount(t, Fields) == 0 && RowCount(t, Jobs) == 0 then Some(t)
            else None
      else if Readiness034(s).status.FullyApplied? && ReadinessPhase3(t).status.FullyApplied? then Some(t) else None
  }

  function After(s: Schema, a: Apply): Schema {
    if Outcome(s, a).Some? then Outcome(s, a).value else s
  }

  function RunAll(s: Schema, calls: seq<Apply>): Schema {
    if |calls| == 0 then s else After(RunAll(s, calls[..|calls| - 1]), calls[|calls| - 1])
  }

  predicate AnyCommitted(s: Schema, calls: seq<Apply>) {
    |calls| > 0 &&
    (AnyCommitted(s, calls[..|calls| - 1]) || Outcome(RunAll(s, calls[..|calls| - 1]), calls[|calls| - 1]).Some?)
  }

  lemma CommitConforms(s: Schema, a: Apply)
    ensures Outcome(s, a).Some? ==> Readiness034(After(s, a)).status.FullyApplied?
    ensures Outcome(s, a).Some? && a.Apply035? ==> ReadinessPhase3(After(s, a)).status.FullyApplied?
  {
    hide Executed, Readiness034, RowCount, ConformsPhase3, NothingOfPhase3;
    if Outcome(s, a).Some? { ReadinessPhase3Means(After(s, a)); }
  }

  /** Over any run of applies, with any DDL: nothing committed means nothing changed, anything committed leaves 034
      applied. */
  lemma {:induction false} RunLeavesContract(s: Schema, calls: seq<Apply>)
    ensures if AnyCommitted(s, calls) then Readiness034(RunAll(s, calls)).status.FullyApplied?
        else RunAll(s, calls) == s
  {
    hide Executed, Readiness034, Outcome;
    if |calls| > 0 {
      var init, last := calls[..|calls| - 1], calls[|calls| - 1];
      RunLeavesContract(s, init);
      CommitConforms(RunAll(s, init), last);
    }
  }

  // ---------------------------------------------------------------- the foreign-key check

  ghost predicate ConstraintNamesUnique(s: Schema) {
    forall a, b | a in s.constraints && b in s.constraints :: a.name == b.name ==> a == b
  }

  /** The table has the foreign key that is asked for. */
  predicate HasForeignKey(s: Schema, t: Table) {
    exists a | a in s.constraints ::
      a.isForeignKey && a.on == Enrichment(t) && CompanyId in a.columns && (Companies, Id) in a.refers
  }

  /** A foreign key of the table shares its name with constraints that supply the two columns. */
  predicate NameIsShared(s: Schema, t: Table) {
    exists a | a in s.constraints ::
      && a.isForeignKey && a.on == Enrichment(t)
      && (exists b | b in s.constraints :: b.name == a.name && CompanyId in b.columns)
      && (exists c | c in s.constraints :: c.name == a.name && (Companies, Id) in c.refers)
  }

  /** The check is wrong for a table exactly when the table lacks the key but such a name is shared; it never misses a
      key. */
  lemma FkExistsWrongIff(s: Schema, t: Table)
    ensures FkExists(s, t) != HasForeignKey(s, t) <==> !HasForeignKey(s, t) && NameIsShared(s, t)
    ensures HasForeignKey(s, t) ==> FkExists(s, t)
  {
    hide FkExists, HasForeignKey, NameIsShared;
    KeyIsFound(s, t);
    FoundIffShared(s, t);
  }

  lemma KeyIsFound(s: Schema, t: Table)
    ensures HasForeignKey(s, t) ==> NameIsShared(s, t)
  {
    if HasForeignKey(s, t) {
      var a :| a in s.constraints && a.isForeignKey && a.on == Enrichment(t) && CompanyId in a.columns &&
          (Companies, Id) in a.refers;
      assert a.name == a.name;
    }
  }

  lemma FoundMeansShared(s: Schema, t: Table, a: Constraint, b: Constraint, c: Constraint)
    requires a in s.constraints && b in s.constraints && c in s.constraints && a.name == b.name == c.name
    requires a.isForeignKey && a.on == Enrichment(t) && CompanyId in b.columns && (Companies, Id) in c.refers
    ensures NameIsShared(s, t)
  {
    assert b.name == a.name && c.name == a.name;
  }

  lemma SharedMeansFound(s: Schema, t: Table)
    requires NameIsShared(s, t)
    ensures FkExists(s, t)
  {
    var a :| a in s.constraints && a.isForeignKey && a.on == Enrichment(t)
             && (exists b | b in s.constraints :: b.name == a.name && CompanyId in b.columns)
             && (exists c | c in s.constraints :: c.name == a.name && (Companies, Id) in c.refers);
    var b :| b in s.constraints && b.name == a.name && CompanyId in b.columns;
    var c :| c in s.constraints && c.name == a.name && (Companies, Id) in c.refers;
    assert a.name == b.name == c.name;
  }

  lemma FoundIffShared(s: Schema, t: Table)
    ensures FkExists(s, t) <==> NameIsShared(s, t)
  {
    hide NameIsShared;
    if a, b, c :| a in s.constraints && b in s.constraints && c in s.constraints && a.name == b.name == c.name &&
                  a.isForeignKey && a.on == Enrichment(t) && CompanyId in b.columns && (Companies, Id) in c.refers {
      FoundMeansShared(s, t, a, b, c);
    }
    if NameIsShared(s, t) { SharedMeansFound(s, t); }
  }

  /** With unique constraint names the answer is right. */
  lemma FkExistsIffReal(s: Schema, t: Table)
    requires ConstraintNamesUnique(s)
    ensures FkExists(s, t) <==> HasForeignKey(s, t)
  {
    FkExistsWrongIff(s, t);
  }

  /** A schema in which everything is in place but the foreign key of the jobs table, whose name another table uses. */
  function Borrowed(): Schema {
    Schema(map t: Table | true :: Columns034(t),
           map[(Fields, FieldsCompanyFieldSource) := IndexInfo(true, [CompanyId, FieldName, Source], Some(PLAIN)),
               (Fields, FieldsCompany) := IndexInfo(false, [CompanyId], Some(PLAIN)),
               (Jobs, JobsRunId) := IndexInfo(true, [RunId], None),
               (Jobs, JobsCompanyActive) := IndexInfo(true, [CompanyId], Some(RUNNING)),
               (Jobs, JobsCompanyStartedAt) := IndexInfo(false, [CompanyId, StartedAt], None)],
           {Constraint("fields_fk", Enrichment(Fields), true, {CompanyId}, {(Companies, Id)}),
            Constraint("fk", Enrichment(Jobs), true, {RunId}, {(OtherRelation("runs"), Id)}),
            Constraint("fk", OtherRelation("permits"), true, {CompanyId}, {(Companies, Id)})},
           map[(Jobs, JobsTrigger) := "", (Jobs, JobsStatus) := ""],
           false,
           map[])
  }

  const RUNNING := "status = 'running'"

  lemma RunningIsExpected()
    ensures Normalize(RUNNING) == RUNNING
  {
    hide Normalize, Clean, Lower, IsPlain;
    RunningIsPlain();
    PlainForm(RUNNING);
    RunningIsLower();
    RunningIsClean();
  }

  lemma RunningIsPlain()
    ensures IsPlain(RUNNING)
  {
  }

  lemma RunningIsLower()
    ensures Lower(RUNNING) == RUNNING
  {
  }

  lemma RunningIsClean()
    ensures Clean(RUNNING) == RUNNING
  {
    hide Clean;
    assert RUNNING == "status" + " " + "=" + " " + "'running'";
    ThreeWords("status", "=", "'running'");
  }

  lemma BorrowedColumns(t: Table)
    ensures Columns034(t) <= ColumnsOf(Borrowed(), t) <= Columns034(t) + ColumnsPhase3(t)
  {
  }

  lemma BorrowedIndexes(x: ExpectedIndex)
    requires x in EXPECTED_INDEXES
    ensures IndexConforms(x.info, IndexOf(Borrowed(), x))
  {
    hide Normalize;
    PlainIsExpected();
    RunningIsExpected();
  }

  lemma BorrowedKeys()
    ensures HasForeignKey(Borrowed(), Fields) && NameIsShared(Borrowed(), Jobs) && !HasForeignKey(Borrowed(), Jobs)
  {
    var s := Borrowed();
    var own, jobs := Constraint("fields_fk", Enrichment(Fields), true, {CompanyId}, {(Companies, Id)}),
                     Constraint("fk", Enrichment(Jobs), true, {RunId}, {(OtherRelation("runs"), Id)});
    var other := Constraint("fk", OtherRelation("permits"), true, {CompanyId}, {(Companies, Id)});
    assert own in s.constraints && jobs in s.constraints && other in s.constraints;
    assert other.name == jobs.name;
    assert forall a | a in s.constraints && a.on == Enrichment(Jobs) :: a == jobs;
  }

  /** PostgreSQL allows that: 034 is then reported fully applied although jobs.company_id has no foreign key at all. */
  lemma FkExistsCanBeMistaken()
    ensures Readiness034(Borrowed()) == Report(FullyApplied, []) && !HasForeignKey(Borrowed(), Jobs)
  {
    hide IndexConforms, IndexOf, ColumnsOf, FkExists, HasForeignKey, NameIsShared, Violations034;
    var s := Borrowed();
    BorrowedKeys();
    FkExistsWrongIff(s, Fields);
    FkExistsWrongIff(s, Jobs);
    forall t
      ensures Conforms034(s, t)
    {
      hide Borrowed;
      BorrowedColumns(t);
      forall x | x in EXPECTED_INDEXES
        ensures IndexConforms(x.info, IndexOf(s, x))
      {
        BorrowedIndexes(x);
      }
      BorrowedChecks();
    }
    Readiness034Means(s);
  }

  lemma BorrowedChecks()
    ensures CheckExists(Borrowed(), Jobs, JobsTrigger) && CheckExists(Borrowed(), Jobs, JobsStatus)
  {
  }

  // ---------------------------------------------------------------- what the shape checks cannot see

  /** An index conforms with any words after a cast in its predicate, up to the next parenthesis. */
  lemma IndexWithMoreConjunctsConforms(expected: IndexInfo, p: string, w: string, rest: string)
    requires Words(w) && EndsWords(rest) && ColonsApart(p, rest)
    requires expected.filter.Some? && Normalize(p + rest) == expected.filter.value
    ensures IndexConforms(expected, Some(expected.(filter := Some(p + "::" + w + rest))))
  {
    hide Normalize;
    CastSwallowsTheRest(p, w, rest);
  }

  /** As the database prints it: the unique index restricted to verified rows passes for the one of migration 034. */
  lemma RestrictedIndexConforms()
    ensures EXPECTED_INDEXES[0].name == FieldsCompanyFieldSource
    ensures IndexConforms(EXPECTED_INDEXES[0].info, Some(EXPECTED_INDEXES[0].info.(filter := Some(PRINTED))))
  {
    hide Normalize;
    PrintedIsTakenForPlain();
    PlainIsExpected();
  }

  // ---------------------------------------------------------------- a CHECK with its parentheses elsewhere

  /** The conjunction outside the disjunction: it demands a date and a source of unverified rows as well. */
  const REGROUPED :=
    "CHECK ((((" + UNVERIFIED + ") OR (" + SIGNED + ")) AND (" + DATED + ") AND (" + SOURCED + ")))"

  lemma HeadHasNoColon()
    ensures ':' !in UNVERIFIED && ':' !in SIGNED
  {
  }

  lemma TailHasNoColon()
    ensures ':' !in DATED && ':' !in SOURCED
  {
  }

  /** Without the pair about the second and the third part. */
  lemma PairDropped(a: string, b: string, c: string)
    requires ':' !in a && ':' !in b && ':' !in c
    ensures Normalize("CHECK (((" + a + ") OR ((" + b + ") AND (" + c + "))))") ==
            Normalize("CHECK (((" + a + ") OR (" + b + ") AND (" + c + ")))")
  {
    hide Normalize;
    var head, tail := "CHECK (((" + a + ") OR (", b + ") AND (" + c + ")))";
    assert "CHECK (((" + a + ") OR ((" + b + ") AND (" + c + "))))" == head + ['('] + tail + [')'] + "";
    ParensDoNotMatter(head + ['('] + tail, ')', "");
    assert head + ['('] + tail + "" == head + ['('] + tail;
    ParensDoNotMatter(head, '(', tail);
    assert head + tail == "CHECK (((" + a + ") OR (" + b + ") AND (" + c + ")))";
  }

  /** Without the pair about the first and the second part. */
  lemma OtherPairDropped(a: string, b: string, c: string)
    requires ':' !in a && ':' !in b && ':' !in c
    ensures Normalize("CHECK ((((" + a + ") OR (" + b + ")) AND (" + c + ")))") ==
            Normalize("CHECK (((" + a + ") OR (" + b + ") AND (" + c + ")))")
  {
    hide Normalize;
    var middle, tail := a + ") OR (" + b, ") AND (" + c + ")))";
    assert "CHECK ((((" + a + ") OR (" + b + ")) AND (" + c + ")))" == "CHECK ((((" + middle + [')'] + tail;
    ParensDoNotMatter("CHECK ((((" + middle, ')', tail);
    assert "CHECK ((((" + middle + tail == "CHECK (((" + ['('] + (middle + tail);
    ParensDoNotMatter("CHECK (((", '(', middle + tail);
    assert "CHECK (((" + (middle + tail) == "CHECK (((" + a + ") OR (" + b + ") AND (" + c + ")))";
  }

  /** The regrouped CHECK passes for the one of migration 035. */
  lemma RegroupedIsTakenForExpected()
    ensures Normalize(REGROUPED) == Normalize(EVIDENCE_DEFINITION)
  {
    hide Normalize;
    HeadHasNoColon();
    TailHasNoColon();
    PairDropped(UNVERIFIED, SIGNED, DATED + ") AND (" + SOURCED);
    OtherPairDropped(UNVERIFIED, SIGNED, DATED + ") AND (" + SOURCED);
    EndsAlike("CHECK (((" + UNVERIFIED + ") OR ((" + SIGNED + ") AND (", DATED, SOURCED, "))))");
    EndsAlike("CHECK ((((" + UNVERIFIED + ") OR (" + SIGNED + ")) AND (", DATED, SOURCED, ")))");
  }

  lemma EndsAlike(head: string, a: string, b: string, end: string)
    ensures head + a + ") AND (" + b + end == head + (a + ") AND (" + b) + end
  {
  }

  /** Wherever Phase 3 is reported applied, it still is with that CHECK in place of the right one. */
  lemma RegroupedCheckIsUnseen(s: Schema)
    requires ReadinessPhase3(s).status.FullyApplied?
    ensures var t := s.(checks := s.checks[(Fields, VerifiedEvidence) := REGROUPED]);
            Phase3CheckConforms(t, Fields) && ReadinessPhase3(t) == ReadinessPhase3(s)
  {
    hide Normalize, Readiness034;
    RegroupedIsTakenForExpected();
    ReadinessPhase3Means(s);
    Phase3IsInvisibleTo034(s, s.(checks := s.checks[(Fields, VerifiedEvidence) := REGROUPED]));
  }
}
