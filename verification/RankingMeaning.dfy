/** What a ranking query returns, and that it is the naive grouping of the request. */
module RankingMeaning {
  import opened Outcomes
  import opened Ordered
  import opened RankingQuery

  type Key = seq<Cell>

  datatype GroupRow = GroupRow(metrics: seq<Cell>, count: nat, ids: seq<int>, truncated: bool)

  /** SUM, AVG, MIN and MAX over the values of a group; their bodies do not matter. */
  type Aggregate = (Metric, seq<Cell>) -> Cell

  // ---------------------------------------------------------------- denotation of the emitted query

  function CompanyOf(db: Database, r: Record): Option<int> {
    match Read(r, "company_id")
    case Int(k) => if k in db.companies then Some(k) else None
    case _ => None
  }

  /** Rows of the CTE: the INNER JOIN drops a row whose company does not exist. */
  function CteRows(q: Query, db: Database, lib: Lib): set<int> {
    set id | id in db.base && HoldAll(q.clauses, db.base[id], lib) && CompanyOf(db, db.base[id]).Some?
  }

  function JoinedRow(canonicalJoin: bool, db: Database, id: int): Joined {
    if id !in db.base || CompanyOf(db, db.base[id]).None? then Joined(map[], map[], map[])
    else
      var company := db.companies[CompanyOf(db, db.base[id]).value];
      var canonical := match Read(company, "canonical_company_id")
        case Int(k) => if canonicalJoin && k in db.companies then db.companies[k] else map[]
        case _ => map[];
      Joined(db.base[id], company, canonical)
  }

  /** SELECT e AS name, ...: a row of named cells. */
  function Project(select: seq<Selected>, j: Joined, lib: Lib): Record
    decreases |select|
  {
    if |select| == 0 then map[]
    else
      var last := select[|select| - 1];
      Project(select[..|select| - 1], j, lib)[last.1 := Eval(last.0, j, lib)]
  }

  function Cells(names: seq<string>, r: Record): Key {
    seq(|names|, i requires 0 <= i < |names| => Read(r, names[i]))
  }

  function Evals(es: seq<Expr>, j: Joined, lib: Lib): Key {
    seq(|es|, i requires 0 <= i < |es| => Eval(es[i], j, lib))
  }

  function CteCells(q: Query, db: Database, lib: Lib, id: int): Record {
    Project(q.dimensions + q.raw, JoinedRow(q.canonicalJoin, db, id), lib)
  }

  function PartitionOf(q: Query, db: Database, lib: Lib, id: int): set<int> {
    set x | x in CteRows(q, db, lib) &&
      Evals(q.partition, JoinedRow(q.canonicalJoin, db, x), lib) ==
      Evals(q.partition, JoinedRow(q.canonicalJoin, db, id), lib)
  }

  function RowNumber(q: Query, db: Database, lib: Lib, id: int): nat {
    RankIn(PartitionOf(q, db, lib, id), id)
  }

  function GroupKey(q: Query, db: Database, lib: Lib, id: int): Key {
    Cells(q.groupNames, CteCells(q, db, lib, id))
  }

  function GroupMembers(q: Query, db: Database, lib: Lib, key: Key): set<int> {
    set id | id in CteRows(q, db, lib) && GroupKey(q, db, lib, id) == key
  }

  function OuterCell(m: OuterMetric, q: Query, db: Database, lib: Lib, agg: Aggregate, ids: seq<int>): Cell {
    match m.over
    case None => Int(|ids|)
    case Some(name) =>
      agg(m.metric, seq(|ids|, i requires 0 <= i < |ids| => Read(CteCells(q, db, lib, ids[i]), name)))
  }

  function GroupResult(q: Query, db: Database, lib: Lib, agg: Aggregate, key: Key): GroupRow {
    var members := GroupMembers(q, db, lib, key);
    var ids := Ascending(members);
    GroupRow(
      seq(|q.outer|, i requires 0 <= i < |q.outer| => OuterCell(q.outer[i], q, db, lib, agg, ids)),
      |members|,
      Ascending(set id | id in members && RowNumber(q, db, lib, id) <= q.cap),
      |members| > q.cap)
  }

  /** The rows of the whole query, before ORDER BY and LIMIT. */
  function Answer(q: Query, db: Database, lib: Lib, agg: Aggregate): map<Key, GroupRow> {
    map key | key in (set id | id in CteRows(q, db, lib) :: GroupKey(q, db, lib, id)) ::
      GroupResult(q, db, lib, agg, key)
  }

  /** The columns of the CTE, all of which the outer query names. */
  function CteNames(q: Query): seq<string> {
    Names(q.dimensions + q.raw) + ["contributing_id", "rn"]
  }

  /** PostgreSQL accepts the query: no group without a name, and no name that stands for two columns. */
  predicate Accepts(q: Query) {
    "" !in q.groupNames && Distinct(CteNames(q))
  }

  /** The result of executing the query; None when it is rejected. */
  function Execute(q: Query, db: Database, lib: Lib, agg: Aggregate): Option<map<Key, GroupRow>> {
    if Accepts(q) then Some(Answer(q, db, lib, agg)) else None
  }

  // ---------------------------------------------------------------- the naive reading of the request

  /** Only company dimensions, none of them twice, and no metric but the count twice. */
  predicate Nameable(spec: Spec) {
    && (forall i | 0 <= i < |spec.groupBy| :: IsCompanyGroup(spec.groupBy[i])) && Distinct(spec.groupBy)
    && DistinctButCount(spec.metrics)
  }

  predicate DistinctButCount(ms: seq<Metric>) {
    forall i, j | 0 <= i < j < |ms| && ms[i] == ms[j] :: ms[i] == Count
  }

  function Matching(spec: Spec, db: Database, lib: Lib): set<int> {
    set id | id in db.base && Matches(spec, db.base[id], lib)
  }

  function Attributed(spec: Spec, db: Database, lib: Lib): set<int> {
    set id | id in Matching(spec, db, lib) && CompanyOf(db, db.base[id]).Some?
  }

  /** The canonical company of a company, and the name a company goes by. */
  function CanonicalOf(db: Database, k: int): int
    requires k in db.companies
  {
    match Read(db.companies[k], "canonical_company_id") case Int(c) => c case _ => k
  }

  function NameOf(db: Database, k: int): Cell
    requires k in db.companies
  {
    var display := Read(db.companies[k], "display_name");
    if display != Null && display != Text("") then display else Read(db.companies[k], "name")
  }

  /** Foreign keys and NOT NULL columns of the schema. */
  predicate Sound(db: Database) {
    && (forall id | id in db.base :: Read(db.base[id], "company_id") == Null || CompanyOf(db, db.base[id]).Some?)
    && (forall k | k in db.companies ::
          && Read(db.companies[k], "id") == Int(k)
          && Read(db.companies[k], "name") != Null
          && (Read(db.companies[k], "canonical_company_id") == Null || CanonicalOf(db, k) in db.companies)
          && (Read(db.companies[k], "canonical_company_id").Int? ||
              Read(db.companies[k], "canonical_company_id") == Null))
  }

  function NaiveDimension(group: string, db: Database, k: int): Key
    requires k in db.companies && CanonicalOf(db, k) in db.companies
  {
    if group == "canonical_company_id" then [Int(CanonicalOf(db, k)), NameOf(db, CanonicalOf(db, k))] else [Int(k)]
  }

  function NaiveKey(groupBy: seq<string>, db: Database, k: int): Key
    requires k in db.companies && CanonicalOf(db, k) in db.companies
    decreases |groupBy|
  {
    if |groupBy| == 0 then []
    else NaiveKey(groupBy[..|groupBy| - 1], db, k) + NaiveDimension(groupBy[|groupBy| - 1], db, k)
  }

  function KeyOfRow(spec: Spec, db: Database, id: int): Key
    requires Sound(db)
  {
    if id in db.base && CompanyOf(db, db.base[id]).Some?
    then NaiveKey(spec.groupBy, db, CompanyOf(db, db.base[id]).value)
    else []
  }

  function NaiveMembers(spec: Spec, db: Database, lib: Lib, key: Key): set<int>
    requires Sound(db)
  {
    set id | id in Attributed(spec, db, lib) && KeyOfRow(spec, db, id) == key
  }

  /** The value a row contributes to a metric: the award value, or the numeric project value. */
  function ValueOf(spec: Spec, db: Database, lib: Lib, id: int): Cell {
    if id !in db.base then Null
    else if spec.domain == Permits then lib.numeric(Read(db.base[id], "project_value"))
        else Read(db.base[id], "award_value")
  }

  function NaiveMetric(m: Metric, spec: Spec, db: Database, lib: Lib, agg: Aggregate, ids: seq<int>): Cell {
    if m == Count then Int(|ids|)
    else agg(m, seq(|ids|, i requires 0 <= i < |ids| => ValueOf(spec, db, lib, ids[i])))
  }

  /** All rows of the group are counted; the smallest 100 ids, or all of them, are the evidence. */
  function NaiveGroup(spec: Spec, db: Database, lib: Lib, agg: Aggregate, key: Key): GroupRow
    requires Sound(db)
  {
    var ids := Ascending(NaiveMembers(spec, db, lib, key));
    GroupRow(
      seq(|spec.metrics|, i requires 0 <= i < |spec.metrics| => NaiveMetric(spec.metrics[i], spec, db, lib, agg, ids)),
      |ids|,
      ids[..if 100 < |ids| then 100 else |ids|],
      |ids| > 100)
  }

  function Naive(spec: Spec, db: Database, lib: Lib, agg: Aggregate): map<Key, GroupRow>
    requires Sound(db)
  {
    map key | key in (set id | id in Attributed(spec, db, lib) :: KeyOfRow(spec, db, id)) ::
      NaiveGroup(spec, db, lib, agg, key)
  }
}
