/**
 The compiler of company-ranking specs, the small SQL subset it emits, and what that subset means. Rows are
 identified by their id; a filter keeps the rows on which every clause is true.
 */
module RankingQuery {
  import opened Outcomes

  // ---------------------------------------------------------------- data

  datatype Cell = Null | Int(i: int) | Text(s: string) | Num(n: real)

  type Record = map<string, Cell>

  datatype Database = Database(base: map<int, Record>, companies: map<int, Record>)

  function Read(r: Record, column: string): Cell {
    if column in r then r[column] else Null
  }

  /** Database functions whose bodies do not matter: UPPER, the guarded date cast, ILIKE, the numeric cast. */
  datatype Lib = Lib(
    upper: string -> string,
    date: string -> Option<int>,
    like: (string, string) -> bool,
    numeric: Cell -> Cell)

  // ---------------------------------------------------------------- the request

  datatype Domain = Permits | ContractAwards | Companies | Tenders | EarlySignals

  datatype Metric = Count | Sum | Avg | Min | Max | DistinctCount

  datatype Spec = Spec(
    domain: Domain,
    geography: Option<string>,             // stripped; None when the request has none
    province: bool,
    filters: seq<(string, Cell)>,
    dates: Option<(string, int, int)>,     // date field, start, end
    groupBy: seq<string>,
    metrics: seq<Metric>)

  // ---------------------------------------------------------------- where clauses

  datatype Clause =
    | ColumnIs(column: string, value: Cell)
    | EitherIs(a: string, b: string, value: Cell)
    | LocationLike(pattern: string)
    | UpperAny(column: string, values: seq<string>)
    | DateIn(column: string, start: int, end: int)
    | ColumnIsNull(column: string)

  predicate Holds(c: Clause, r: Record, lib: Lib) {
    match c
    case ColumnIs(column, value) => Read(r, column) != Null && Read(r, column) == value
    case EitherIs(a, b, value) => value != Null && (Read(r, a) == value || Read(r, b) == value)
    case LocationLike(pattern) => Read(r, "location").Text? && lib.like(Read(r, "location").s, pattern)
    case UpperAny(column, values) => Read(r, column).Text? && lib.upper(Read(r, column).s) in values
    case DateIn(column, start, end) =>
      && Read(r, column).Text?
      && lib.date(Read(r, column).s).Some?
      && start <= lib.date(Read(r, column).s).value < end
    case ColumnIsNull(column) => Read(r, column) == Null
  }

  predicate HoldAll(cs: seq<Clause>, r: Record, lib: Lib) {
    forall i | 0 <= i < |cs| :: Holds(cs[i], r, lib)
  }

  function GeographyClauses(spec: Spec): seq<Clause> {
    if spec.geography.None? then []
    else match spec.domain
      case Permits => [ColumnIs("city", Text(spec.geography.value))]
      case ContractAwards => [EitherIs("winner_city", "delivery_region", Text(spec.geography.value))]
      case EarlySignals => [EitherIs("municipality", "region", Text(spec.geography.value))]
      case Companies => [EitherIs("primary_city", "primary_province", Text(spec.geography.value))]
      case Tenders => [LocationLike("%" + spec.geography.value + "%")]
  }

  function ProvinceClauses(spec: Spec): seq<Clause> {
    if !spec.province then []
    else
      var column := if spec.domain == ContractAwards then "winner_province" else "primary_province";
      [UpperAny(column, ["BC", "BRITISH COLUMBIA"])]
  }

  function FilterClause(spec: Spec, f: (string, Cell)): Clause {
    if spec.domain == ContractAwards && f.0 == "city" then EitherIs("winner_city", "delivery_region", f.1)
    else ColumnIs(f.0, f.1)
  }

  function FilterClauses(spec: Spec): seq<Clause> {
    seq(|spec.filters|, i requires 0 <= i < |spec.filters| => FilterClause(spec, spec.filters[i]))
  }

  function DateClauses(spec: Spec): seq<Clause> {
    if spec.dates.Some? then [DateIn(spec.dates.value.0, spec.dates.value.1, spec.dates.value.2)] else []
  }

  function WhereClauses(spec: Spec): seq<Clause> {
    GeographyClauses(spec) + ProvinceClauses(spec) + FilterClauses(spec) + DateClauses(spec)
  }

  // ---------------------------------------------------------------- which rows a request asks for

  predicate Is(r: Record, column: string, value: Cell) {
    value != Null && Read(r, column) == value
  }

  predicate InGeography(spec: Spec, r: Record, lib: Lib) {
    spec.geography.None? ||
    var place := Text(spec.geography.value);
    match spec.domain
    case Permits => Is(r, "city", place)
    case ContractAwards => Is(r, "winner_city", place) || Is(r, "delivery_region", place)
    case EarlySignals => Is(r, "municipality", place) || Is(r, "region", place)
    case Companies => Is(r, "primary_city", place) || Is(r, "primary_province", place)
    case Tenders => Read(r, "location").Text? && lib.like(Read(r, "location").s, "%" + spec.geography.value + "%")
  }

  /** Either spelling of the province, in any case. */
  predicate InProvince(spec: Spec, r: Record, lib: Lib) {
    !spec.province ||
    match Read(r, if spec.domain == ContractAwards then "winner_province" else "primary_province")
    case Text(s) => lib.upper(s) == "BC" || lib.upper(s) == "BRITISH COLUMBIA"
    case _ => false
  }

  /** A city filter on awards is about the winner's city or the region delivered to. */
  predicate PassesFilter(spec: Spec, r: Record, f: (string, Cell)) {
    if spec.domain == ContractAwards && f.0 == "city" then Is(r, "winner_city", f.1) || Is(r, "delivery_region", f.1)
    else Is(r, f.0, f.1)
  }

  /** The date field holds a date from `start` on and before `end`. */
  predicate InPeriod(spec: Spec, r: Record, lib: Lib) {
    spec.dates.None? ||
    match Read(r, spec.dates.value.0)
    case Text(s) => lib.date(s).Some? && spec.dates.value.1 <= lib.date(s).value < spec.dates.value.2
    case _ => false
  }

  predicate Matches(spec: Spec, r: Record, lib: Lib) {
    && InGeography(spec, r, lib) && InProvince(spec, r, lib)
    && (forall i | 0 <= i < |spec.filters| :: PassesFilter(spec, r, spec.filters[i]))
    && InPeriod(spec, r, lib)
  }

  lemma HoldAllOfSum(a: seq<Clause>, b: seq<Clause>, r: Record, lib: Lib)
    ensures HoldAll(a + b, r, lib) <==> HoldAll(a, r, lib) && HoldAll(b, r, lib)
  {
    hide Holds;
    if HoldAll(a + b, r, lib) {
      assert forall i | 0 <= i < |a| :: a[i] == (a + b)[i];
      assert forall i | 0 <= i < |b| :: b[i] == (a + b)[|a| + i];
    }
  }

  lemma HoldsOne(c: Clause, r: Record, lib: Lib)
    ensures HoldAll([c], r, lib) <==> Holds(c, r, lib)
  {
    hide Holds;
    assert [c][0] == c;
  }

  lemma GeographyMeans(spec: Spec, r: Record, lib: Lib)
    ensures HoldAll(GeographyClauses(spec), r, lib) <==> InGeography(spec, r, lib)
  {
    if spec.geography.Some? { HoldsOne(GeographyClauses(spec)[0], r, lib); }
  }

  lemma ProvinceMeans(spec: Spec, r: Record, lib: Lib)
    ensures HoldAll(ProvinceClauses(spec), r, lib) <==> InProvince(spec, r, lib)
  {
    if spec.province { HoldsOne(ProvinceClauses(spec)[0], r, lib); }
  }

  lemma FilterMeans(spec: Spec, r: Record, lib: Lib, f: (string, Cell))
    ensures Holds(FilterClause(spec, f), r, lib) <==> PassesFilter(spec, r, f)
  {
  }

  lemma PeriodMeans(spec: Spec, r: Record, lib: Lib)
    ensures HoldAll(DateClauses(spec), r, lib) <==> InPeriod(spec, r, lib)
  {
    if spec.dates.Some? { HoldsOne(DateClauses(spec)[0], r, lib); }
  }

  /** The clauses hold of exactly the rows the request asks for. */
  lemma WhereMeans(spec: Spec, r: Record, lib: Lib)
    ensures HoldAll(WhereClauses(spec), r, lib) <==> Matches(spec, r, lib)
  {
    hide Holds, HoldAll, GeographyClauses, ProvinceClauses, DateClauses, FilterClause, InGeography, InProvince;
    hide PassesFilter, InPeriod;
    GeographyMeans(spec, r, lib);
    ProvinceMeans(spec, r, lib);
    FiltersMean(spec, r, lib);
    PeriodMeans(spec, r, lib);
    HoldAllOfSum(GeographyClauses(spec), ProvinceClauses(spec), r, lib);
    HoldAllOfSum(GeographyClauses(spec) + ProvinceClauses(spec), FilterClauses(spec), r, lib);
    HoldAllOfSum(GeographyClauses(spec) + ProvinceClauses(spec) + FilterClauses(spec), DateClauses(spec), r, lib);
  }

  lemma FiltersMean(spec: Spec, r: Record, lib: Lib)
    ensures HoldAll(FilterClauses(spec), r, lib) <==>
        forall i | 0 <= i < |spec.filters| :: PassesFilter(spec, r, spec.filters[i])
  {
    hide Holds, FilterClause, PassesFilter;
    forall i | 0 <= i < |spec.filters|
      ensures Holds(FilterClauses(spec)[i], r, lib) <==> PassesFilter(spec, r, spec.filters[i])
    {
      FilterMeans(spec, r, lib, spec.filters[i]);
    }
  }

  // ---------------------------------------------------------------- expressions over the joined row

  datatype Source = Base | Company | Canonical

  datatype Expr =
    | Col(source: Source, column: string)
    | NullIf(e: Expr, text: string)
    | Coalesce(e: Expr, otherwise: Expr)
    | Numeric(e: Expr)

  /** One row of the joins; a LEFT JOIN without partner gives the empty record. */
  datatype Joined = Joined(base: Record, company: Record, canonical: Record)

  function Eval(e: Expr, j: Joined, lib: Lib): Cell {
    match e
    case Col(Base, c) => Read(j.base, c)
    case Col(Company, c) => Read(j.company, c)
    case Col(Canonical, c) => Read(j.canonical, c)
    case NullIf(a, text) => if Eval(a, j, lib) == Text(text) then Null else Eval(a, j, lib)
    case Coalesce(a, b) => if Eval(a, j, lib) == Null then Eval(b, j, lib) else Eval(a, j, lib)
    case Numeric(a) => lib.numeric(Eval(a, j, lib))
  }

  // ---------------------------------------------------------------- the emitted query

  type Selected = (Expr, string)

  datatype OuterMetric = OuterMetric(metric: Metric, over: Option<string>)

  /** WITH ranked AS (SELECT dimensions, id, raw, ROW_NUMBER() OVER (PARTITION BY partition ORDER BY id) AS rn
      FROM base JOIN companies [LEFT JOIN companies canonical] WHERE clauses) SELECT ... GROUP BY groupNames */
  datatype Query = Query(
    dimensions: seq<Selected>,
    partition: seq<Expr>,
    raw: seq<Selected>,
    clauses: seq<Clause>,
    canonicalJoin: bool,
    groupNames: seq<string>,
    outer: seq<OuterMetric>,
    cap: nat)

  const MAX_CONTRIBUTING_IDS: nat := 100

  const ID_EXPR := Coalesce(Col(Company, "canonical_company_id"), Col(Company, "id"))

  const NAME_EXPR :=
    Coalesce(NullIf(Col(Canonical, "display_name"), ""),
    Coalesce(Col(Canonical, "name"),
    Coalesce(NullIf(Col(Company, "display_name"), ""), Col(Company, "name"))))

  /** A dimension of its own column has no `AS`, so that its name comes out empty. */
  function DimensionsOf(group: string): seq<Selected> {
    if group == "canonical_company_id" then
      [(ID_EXPR, "canonical_company_id"), (NAME_EXPR, "canonical_company_name")]
    else if group == "company_id" then [(Col(Base, "company_id"), "company_id")]
    else [(Col(Base, group), "")]
  }

  function Dimensions(groupBy: seq<string>): seq<Selected>
    decreases |groupBy|
  {
    if |groupBy| == 0 then []
    else Dimensions(groupBy[..|groupBy| - 1]) + DimensionsOf(groupBy[|groupBy| - 1])
  }

  function Exprs(ds: seq<Selected>): seq<Expr> {
    seq(|ds|, i requires 0 <= i < |ds| => ds[i].0)
  }

  function Names(ds: seq<Selected>): seq<string> {
    seq(|ds|, i requires 0 <= i < |ds| => ds[i].1)
  }

  function MetricName(m: Metric): string {
    match m
    case Count => "count" case Sum => "sum" case Avg => "avg" case Min => "min" case Max => "max"
    case DistinctCount => "distinct_count"
  }

  function RawExpr(domain: Domain): Expr {
    if domain == Permits then Numeric(Col(Base, "project_value")) else Col(Base, "award_value")
  }

  function RawName(m: Metric): string {
    "raw_" + MetricName(m)
  }

  datatype CompileError = UnsupportedDomain | UnsupportedMetric

  predicate IsCompanyGroup(group: string) {
    group == "company_id" || group == "canonical_company_id"
  }

  /** One company dimension makes the request a ranking. */
  predicate Ranks(groupBy: seq<string>) {
    exists i | 0 <= i < |groupBy| :: IsCompanyGroup(groupBy[i])
  }

  method BuildDimensions(groupBy: seq<string>)
    returns (dimensions: seq<Selected>, partition: seq<Expr>, ranks: bool, canonicalJoin: bool)
    ensures dimensions == Dimensions(groupBy) && partition == Exprs(dimensions)
    ensures ranks <==> Ranks(groupBy)
    ensures ranks <==> "company_id" in groupBy || "canonical_company_id" in groupBy
    ensures canonicalJoin <==> "canonical_company_id" in groupBy
  {
    hide DimensionsOf;
    dimensions, partition, ranks, canonicalJoin := [], [], false, false;
    for i := 0 to |groupBy|
      invariant dimensions == Dimensions(groupBy[..i]) && partition == Exprs(dimensions)
      invariant ranks <==> "company_id" in groupBy[..i] || "canonical_company_id" in groupBy[..i]
      invariant canonicalJoin <==> "canonical_company_id" in groupBy[..i]
    {
      var done := groupBy[..i + 1];
      assert done[..|done| - 1] == groupBy[..i] && done[|done| - 1] == groupBy[i];
      assert done == groupBy[..i] + [groupBy[i]];
      var more := DimensionsOf(groupBy[i]);
      dimensions := dimensions + more;
      partition := partition + Exprs(more);
      ranks := ranks || IsCompanyGroup(groupBy[i]);
      canonicalJoin := canonicalJoin || groupBy[i] == "canonical_company_id";
    }
    assert groupBy[..|groupBy|] == groupBy;
  }

  method BuildWhere(spec: Spec) returns (clauses: seq<Clause>)
    ensures clauses == WhereClauses(spec)
    ensures forall r: Record, lib: Lib :: HoldAll(clauses, r, lib) <==> Matches(spec, r, lib)
  {
    hide FilterClause, GeographyClauses, ProvinceClauses, Matches, HoldAll;
    clauses := GeographyClauses(spec);
    clauses := clauses + ProvinceClauses(spec);
    ghost var before := clauses;
    for i := 0 to |spec.filters|
      invariant clauses == before + FilterClauses(spec)[..i]
    {
      clauses := clauses + [FilterClause(spec, spec.filters[i])];
    }
    assert FilterClauses(spec)[..|spec.filters|] == FilterClauses(spec);
    if spec.dates.Some? {
      clauses := clauses + [DateIn(spec.dates.value.0, spec.dates.value.1, spec.dates.value.2)];
    }
    assert clauses == WhereClauses(spec);
    forall r: Record, lib: Lib
      ensures HoldAll(clauses, r, lib) <==> Matches(spec, r, lib)
    {
      WhereMeans(spec, r, lib);
    }
  }

  method BuildMetrics(domain: Domain, metrics: seq<Metric>) returns (r: Option<(seq<Selected>, seq<OuterMetric>)>)
    ensures r == if DistinctCount in metrics then None else Some((RawColumns(domain, metrics), OuterMetrics(metrics)))
  {
    hide RawExpr, RawName;
    var raw: seq<Selected> := [];
    var outer: seq<OuterMetric> := [];
    for i := 0 to |metrics|
      invariant DistinctCount !in metrics[..i]
      invariant raw == RawColumns(domain, metrics[..i])
      invariant outer == OuterMetrics(metrics[..i])
    {
      var m := metrics[i];
      var done := metrics[..i + 1];
      assert done[..|done| - 1] == metrics[..i] && done[|done| - 1] == m;
      if m == DistinctCount {
        return None;
      }
      outer := outer + [OuterMetric(m, if m == Count then None else Some(RawName(m)))];
      if m != Count {
        raw := raw + [(RawExpr(domain), RawName(m))];
      }
    }
    assert metrics[..|metrics|] == metrics;
    return Some((raw, outer));
  }

  method CompileRanking(spec: Spec) returns (r: Result<Query, CompileError>)
    requires Ranks(spec.groupBy)
    ensures r == Compiled(spec)
    ensures r.Ok? <==> spec.domain in {Permits, ContractAwards} && forall m | m in spec.metrics :: m != DistinctCount
    ensures r.Err? ==>
              r.error == if spec.domain in {Permits, ContractAwards} then UnsupportedMetric else UnsupportedDomain
  {
    var dimensions, partition, _, canonicalJoin := BuildDimensions(spec.groupBy);
    if spec.domain != Permits && spec.domain != ContractAwards {
      return Err(UnsupportedDomain);
    }
    var metrics := BuildMetrics(spec.domain, spec.metrics);
    if metrics.None? {
      return Err(UnsupportedMetric);
    }
    var clauses := BuildWhere(spec);
    return Ok(Query(dimensions, partition, metrics.value.0, clauses, canonicalJoin, Names(dimensions),
                    metrics.value.1, MAX_CONTRIBUTING_IDS));
  }

  function RawColumns(domain: Domain, ms: seq<Metric>): seq<Selected>
    decreases |ms|
  {
    if |ms| == 0 then []
    else
      var before, m := RawColumns(domain, ms[..|ms| - 1]), ms[|ms| - 1];
      if m == Count then before else before + [(RawExpr(domain), RawName(m))]
  }

  function OuterMetrics(ms: seq<Metric>): seq<OuterMetric> {
    seq(|ms|, i requires 0 <= i < |ms| => OuterMetric(ms[i], if ms[i] == Count then None else Some(RawName(ms[i]))))
  }

  function Compiled(spec: Spec): Result<Query, CompileError> {
    if spec.domain != Permits && spec.domain != ContractAwards then Err(UnsupportedDomain)
    else if DistinctCount in spec.metrics then Err(UnsupportedMetric)
    else Ok(Query(Dimensions(spec.groupBy), Exprs(Dimensions(spec.groupBy)), RawColumns(spec.domain, spec.metrics),
                  WhereClauses(spec), "canonical_company_id" in spec.groupBy, Names(Dimensions(spec.groupBy)),
                  OuterMetrics(spec.metrics), MAX_CONTRIBUTING_IDS))
  }

  /** `_unresolved_count_query`: the same clauses, and no company. */
  function UnresolvedClauses(spec: Spec): seq<Clause> {
    WhereClauses(spec) + [ColumnIsNull("company_id")]
  }
}
