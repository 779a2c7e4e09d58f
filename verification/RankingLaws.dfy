/** The compiled ranking query means the naive grouping; nothing is lost and no company ranks twice. */
module RankingLaws {
  import opened Outcomes
  import opened Ordered
  import opened RankingQuery
  import opened RankingMeaning

  // ---------------------------------------------------------------- named cells read back their expressions

  /** The one expression each selected name stands for. */
  function ExprFor(domain: Domain, name: string): Expr {
    if name == "canonical_company_id" then ID_EXPR
    else if name == "canonical_company_name" then NAME_EXPR
    else if name == "company_id" then Col(Base, "company_id")
    else RawExpr(domain)
  }

  predicate Faithful(domain: Domain, select: seq<Selected>) {
    forall i | 0 <= i < |select| :: select[i].0 == ExprFor(domain, select[i].1)
  }

  lemma {:induction false} ProjectReads(domain: Domain, select: seq<Selected>, j: Joined, lib: Lib, i: nat)
    requires Faithful(domain, select) && i < |select|
    ensures Read(Project(select, j, lib), select[i].1) == Eval(select[i].0, j, lib)
    decreases |select|
  {
    hide ExprFor, Eval;
    var init := select[..|select| - 1];
    if i < |select| - 1 {
      assert init[i] == select[i];
      ProjectReads(domain, init, j, lib, i);
    }
  }

  lemma {:induction false} DimensionsFaithful(domain: Domain, groupBy: seq<string>)
    requires forall i | 0 <= i < |groupBy| :: IsCompanyGroup(groupBy[i])
    ensures Faithful(domain, Dimensions(groupBy))
    decreases |groupBy|
  {
    if |groupBy| > 0 { DimensionsFaithful(domain, groupBy[..|groupBy| - 1]); }
  }

  lemma {:induction false} RawFaithful(domain: Domain, ms: seq<Metric>)
    ensures Faithful(domain, RawColumns(domain, ms))
    decreases |ms|
  {
    if |ms| > 0 {
      var m := ms[|ms| - 1];
      RawFaithful(domain, ms[..|ms| - 1]);
      assert RawName(m)[0] == 'r';
    }
  }

  lemma {:induction false} RawListed(domain: Domain, ms: seq<Metric>, i: nat) returns (at: nat)
    requires i < |ms| && ms[i] != Count
    ensures at < |RawColumns(domain, ms)| && RawColumns(domain, ms)[at] == (RawExpr(domain), RawName(ms[i]))
    decreases |ms|
  {
    hide RawExpr, RawName;
    if i < |ms| - 1 {
      at := RawListed(domain, ms[..|ms| - 1], i);
    } else {
      at := |RawColumns(domain, ms[..|ms| - 1])|;
    }
  }

  // ---------------------------------------------------------------- keys

  /** The compiler emits `q` for the request. */
  predicate Emits(spec: Spec, q: Query) {
    Ranks(spec.groupBy) && Compiled(spec) == Ok(q)
  }

  /** It does so for a request whose columns can be told apart by name. */
  predicate Compiles(spec: Spec, q: Query) {
    Nameable(spec) && Emits(spec, q)
  }

  lemma SameRows(spec: Spec, q: Query, db: Database, lib: Lib)
    requires Emits(spec, q)
    ensures CteRows(q, db, lib) == Attributed(spec, db, lib)
  {
    hide Matches, HoldAll, WhereClauses, CompanyOf;
    forall id | id in db.base
      ensures HoldAll(q.clauses, db.base[id], lib) <==> Matches(spec, db.base[id], lib)
    {
      WhereMeans(spec, db.base[id], lib);
    }
    assert forall id :: id in CteRows(q, db, lib) <==> id in Attributed(spec, db, lib);
  }

  lemma DimensionEvals(group: string, canonicalJoin: bool, db: Database, id: int, lib: Lib)
    requires Sound(db) && id in db.base && CompanyOf(db, db.base[id]).Some?
    requires IsCompanyGroup(group) && (group == "canonical_company_id" ==> canonicalJoin)
    ensures Evals(Exprs(DimensionsOf(group)), JoinedRow(canonicalJoin, db, id), lib) ==
              NaiveDimension(group, db, CompanyOf(db, db.base[id]).value)
  {
    var j := JoinedRow(canonicalJoin, db, id);
    var k := CompanyOf(db, db.base[id]).value;
    if group == "canonical_company_id" {
      IdEvals(db, id, lib);
      NameEvals(db, id, lib);
    }
  }

  lemma IdEvals(db: Database, id: int, lib: Lib)
    requires Sound(db) && id in db.base && CompanyOf(db, db.base[id]).Some?
    ensures Eval(ID_EXPR, JoinedRow(true, db, id), lib) == Int(CanonicalOf(db, CompanyOf(db, db.base[id]).value))
  {
  }

  /** The COALESCE chain is the name of the canonical company, whether or not the row is canonical itself. */
  lemma NameEvals(db: Database, id: int, lib: Lib)
    requires Sound(db) && id in db.base && CompanyOf(db, db.base[id]).Some?
    ensures Eval(NAME_EXPR, JoinedRow(true, db, id), lib) ==
              NameOf(db, CanonicalOf(db, CompanyOf(db, db.base[id]).value))
  {
    var j := JoinedRow(true, db, id);
    var own := Coalesce(NullIf(Col(Company, "display_name"), ""), Col(Company, "name"));
    DisplayEvals(Company, j, lib);
    DisplayEvals(Canonical, j, lib);
    assert Eval(own, j, lib) == Displayed(j.company);
    assert Eval(Coalesce(Col(Canonical, "name"), own), j, lib) ==
      if Read(j.canonical, "name") == Null then Displayed(j.company) else Read(j.canonical, "name");
    if Read(j.company, "canonical_company_id") == Null {
      assert j.canonical == map[] && j.company == db.companies[CompanyOf(db, db.base[id]).value];
    }
  }

  /** COALESCE(NULLIF(display_name, ''), name) of one record. */
  function Displayed(r: Record): Cell {
    var display := Read(r, "display_name");
    if display != Null && display != Text("") then display else Read(r, "name")
  }

  lemma DisplayEvals(source: Source, j: Joined, lib: Lib)
    ensures source == Company ==> Eval(Col(source, "name"), j, lib) == Read(j.company, "name")
    ensures source == Canonical ==> Eval(Col(source, "name"), j, lib) == Read(j.canonical, "name")
    ensures var display := Eval(Col(source, "display_name"), j, lib);
            && (source == Company ==> display == Read(j.company, "display_name"))
            && (source == Canonical ==> display == Read(j.canonical, "display_name"))
            && Eval(NullIf(Col(source, "display_name"), ""), j, lib) == (if display == Text("") then Null else display)
  {
  }

  lemma {:induction false} KeyEvals(groupBy: seq<string>, canonicalJoin: bool, db: Database, id: int, lib: Lib)
    requires Sound(db) && id in db.base && CompanyOf(db, db.base[id]).Some?
    requires forall i | 0 <= i < |groupBy| :: IsCompanyGroup(groupBy[i])
    requires "canonical_company_id" in groupBy ==> canonicalJoin
    ensures Evals(Exprs(Dimensions(groupBy)), JoinedRow(canonicalJoin, db, id), lib) ==
              NaiveKey(groupBy, db, CompanyOf(db, db.base[id]).value)
    decreases |groupBy|
  {
    if |groupBy| > 0 {
      hide DimensionsOf, NaiveDimension, Eval, CompanyOf, JoinedRow, Sound;
      var init, last := groupBy[..|groupBy| - 1], groupBy[|groupBy| - 1];
      var j := JoinedRow(canonicalJoin, db, id);
      KeyEvals(init, canonicalJoin, db, id, lib);
      DimensionEvals(last, canonicalJoin, db, id, lib);
      assert Evals(Exprs(Dimensions(init) + DimensionsOf(last)), j, lib) ==
        Evals(Exprs(Dimensions(init)), j, lib) + Evals(Exprs(DimensionsOf(last)), j, lib);
    }
  }

  /** Both the outer GROUP BY, through the names, and the window's PARTITION BY see the naive key. */
  lemma GroupKeyIsNaive(spec: Spec, q: Query, db: Database, lib: Lib, id: int)
    requires Compiles(spec, q) && Sound(db) && id in CteRows(q, db, lib)
    ensures GroupKey(q, db, lib, id) == KeyOfRow(spec, db, id)
    ensures Evals(q.partition, JoinedRow(q.canonicalJoin, db, id), lib) == KeyOfRow(spec, db, id)
  {
    hide Eval, Sound, DimensionsOf, CompanyOf, JoinedRow;
    var j := JoinedRow(q.canonicalJoin, db, id);
    KeyEvals(spec.groupBy, q.canonicalJoin, db, id, lib);
    SelectFaithful(spec, q);
    var ds := Dimensions(spec.groupBy);
    forall i | 0 <= i < |ds|
      ensures Read(CteCells(q, db, lib, id), ds[i].1) == Eval(ds[i].0, j, lib)
    {
      assert (q.dimensions + q.raw)[i] == ds[i];
      ProjectReads(spec.domain, q.dimensions + q.raw, j, lib, i);
    }
  }

  lemma SelectFaithful(spec: Spec, q: Query)
    requires Compiles(spec, q)
    ensures Faithful(spec.domain, q.dimensions + q.raw)
  {
    DimensionsFaithful(spec.domain, spec.groupBy);
    RawFaithful(spec.domain, spec.metrics);
  }

  lemma MembersAreNaive(spec: Spec, q: Query, db: Database, lib: Lib, key: Key)
    requires Compiles(spec, q) && Sound(db)
    ensures GroupMembers(q, db, lib, key) == NaiveMembers(spec, db, lib, key)
  {
    hide GroupKey, KeyOfRow, Attributed, CteRows;
    SameRows(spec, q, db, lib);
    forall id | id in CteRows(q, db, lib)
      ensures GroupKey(q, db, lib, id) == KeyOfRow(spec, db, id)
    {
      GroupKeyIsNaive(spec, q, db, lib, id);
    }
    assert forall id :: id in GroupMembers(q, db, lib, key) <==> id in NaiveMembers(spec, db, lib, key);
  }

  lemma RowNumberIsRank(spec: Spec, q: Query, db: Database, lib: Lib, id: int)
    requires Compiles(spec, q) && Sound(db) && id in CteRows(q, db, lib)
    ensures RowNumber(q, db, lib, id) == RankIn(NaiveMembers(spec, db, lib, KeyOfRow(spec, db, id)), id)
  {
    hide Evals, KeyOfRow, Attributed, CteRows, RankIn;
    SameRows(spec, q, db, lib);
    forall x | x in CteRows(q, db, lib)
      ensures Evals(q.partition, JoinedRow(q.canonicalJoin, db, x), lib) == KeyOfRow(spec, db, x)
    {
      GroupKeyIsNaive(spec, q, db, lib, x);
    }
    var p, m := PartitionOf(q, db, lib, id), NaiveMembers(spec, db, lib, KeyOfRow(spec, db, id));
    assert forall x :: x in p <==> x in m;
    assert p == m;
  }

  lemma RawReads(spec: Spec, q: Query, db: Database, lib: Lib, id: int, i: nat)
    requires Compiles(spec, q) && id in CteRows(q, db, lib) && i < |spec.metrics| && spec.metrics[i] != Count
    ensures Read(CteCells(q, db, lib, id), RawName(spec.metrics[i])) == ValueOf(spec, db, lib, id)
  {
    hide RawExpr, RawName, ValueOf, Dimensions, RawColumns, ExprFor, Eval, JoinedRow;
    var j := JoinedRow(q.canonicalJoin, db, id);
    var at := RawListed(spec.domain, spec.metrics, i);
    SelectFaithful(spec, q);
    assert (q.dimensions + q.raw)[|q.dimensions| + at] == q.raw[at];
    ProjectReads(spec.domain, q.dimensions + q.raw, j, lib, |q.dimensions| + at);
    RawValue(spec, q, db, lib, id);
  }

  lemma RawValue(spec: Spec, q: Query, db: Database, lib: Lib, id: int)
    requires id in CteRows(q, db, lib)
    ensures Eval(RawExpr(spec.domain), JoinedRow(q.canonicalJoin, db, id), lib) == ValueOf(spec, db, lib, id)
  {
    var j := JoinedRow(q.canonicalJoin, db, id);
    assert Eval(Col(Base, "project_value"), j, lib) == Read(db.base[id], "project_value");
  }

  // ---------------------------------------------------------------- the main results

  lemma MetricsAreNaive(spec: Spec, q: Query, db: Database, lib: Lib, agg: Aggregate, ids: seq<int>, i: nat)
    requires Compiles(spec, q) && i < |spec.metrics|
    requires forall n | 0 <= n < |ids| :: ids[n] in CteRows(q, db, lib)
    ensures OuterCell(q.outer[i], q, db, lib, agg, ids) == NaiveMetric(spec.metrics[i], spec, db, lib, agg, ids)
  {
    var m := spec.metrics[i];
    if m != Count {
      hide CteCells, ValueOf;
      forall n | 0 <= n < |ids|
        ensures Read(CteCells(q, db, lib, ids[n]), RawName(m)) == ValueOf(spec, db, lib, ids[n])
      {
        RawReads(spec, q, db, lib, ids[n], i);
      }
      assert seq(|ids|, n requires 0 <= n < |ids| => Read(CteCells(q, db, lib, ids[n]), RawName(m))) ==
        seq(|ids|, n requires 0 <= n < |ids| => ValueOf(spec, db, lib, ids[n]));
    }
  }

  /** The window function with its cap returns exactly the smallest 100 ids of the group, or all of them. */
  lemma EvidenceIsPrefix(spec: Spec, q: Query, db: Database, lib: Lib, key: Key)
    requires Compiles(spec, q) && Sound(db)
    ensures Ascending(set id | id in GroupMembers(q, db, lib, key) && RowNumber(q, db, lib, id) <= q.cap) ==
              var ids := Ascending(NaiveMembers(spec, db, lib, key)); ids[..if 100 < |ids| then 100 else |ids|]
  {
    hide RowNumber, RankIn, Compiles, NaiveMembers, GroupMembers, Ascending, CteRows;
    var members := NaiveMembers(spec, db, lib, key);
    MembersAreNaive(spec, q, db, lib, key);
    RankedPrefix(members, 100);
    CapIsHundred(spec, q);
    forall id | id in members
      ensures RowNumber(q, db, lib, id) == RankIn(members, id)
    {
      MemberRank(spec, q, db, lib, key, id);
    }
    var windowed := set id | id in GroupMembers(q, db, lib, key) && RowNumber(q, db, lib, id) <= q.cap;
    var ranked := set id | id in members && RankIn(members, id) <= 100;
    assert windowed == ranked by {
      assert forall id :: id in windowed <==> id in ranked;
    }
  }

  lemma CapIsHundred(spec: Spec, q: Query)
    requires Compiles(spec, q)
    ensures q.cap == 100
  {
  }

  lemma MemberRank(spec: Spec, q: Query, db: Database, lib: Lib, key: Key, id: int)
    requires Compiles(spec, q) && Sound(db) && id in NaiveMembers(spec, db, lib, key)
    ensures RowNumber(q, db, lib, id) == RankIn(NaiveMembers(spec, db, lib, key), id)
  {
    hide RowNumber, RankIn, Compiles;
    MembersAreNaive(spec, q, db, lib, key);
    assert id in GroupMembers(q, db, lib, key);
    RowNumberIsRank(spec, q, db, lib, id);
  }

  lemma GroupMetrics(spec: Spec, q: Query, db: Database, lib: Lib, agg: Aggregate, ids: seq<int>)
    requires Compiles(spec, q) && forall n | 0 <= n < |ids| :: ids[n] in CteRows(q, db, lib)
    ensures seq(|q.outer|, i requires 0 <= i < |q.outer| => OuterCell(q.outer[i], q, db, lib, agg, ids)) ==
            seq(|spec.metrics|, i requires 0 <= i < |spec.metrics| =>
                NaiveMetric(spec.metrics[i], spec, db, lib, agg, ids))
  {
    hide OuterCell, NaiveMetric, CteRows;
    forall i | 0 <= i < |spec.metrics|
      ensures OuterCell(q.outer[i], q, db, lib, agg, ids) == NaiveMetric(spec.metrics[i], spec, db, lib, agg, ids)
    {
      MetricsAreNaive(spec, q, db, lib, agg, ids, i);
    }
  }

  lemma GroupIsNaive(spec: Spec, q: Query, db: Database, lib: Lib, agg: Aggregate, key: Key)
    requires Compiles(spec, q) && Sound(db)
    ensures GroupResult(q, db, lib, agg, key) == NaiveGroup(spec, db, lib, agg, key)
  {
    hide OuterCell, NaiveMetric, NaiveMembers, GroupMembers, RowNumber, Compiles, Sound, CteRows, Ascending;
    MembersAreNaive(spec, q, db, lib, key);
    EvidenceIsPrefix(spec, q, db, lib, key);
    var ids := Ascending(GroupMembers(q, db, lib, key));
    forall n | 0 <= n < |ids|
      ensures ids[n] in CteRows(q, db, lib)
    {
      MemberIsRow(q, db, lib, key, ids[n]);
    }
    GroupMetrics(spec, q, db, lib, agg, ids);
    CapIsHundred(spec, q);
  }

  lemma MemberIsRow(q: Query, db: Database, lib: Lib, key: Key, id: int)
    requires id in Ascending(GroupMembers(q, db, lib, key))
    ensures id in CteRows(q, db, lib)
  {
  }

  lemma AnswerIsNaive(spec: Spec, q: Query, db: Database, lib: Lib, agg: Aggregate)
    requires Compiles(spec, q) && Sound(db)
    ensures Answer(q, db, lib, agg) == Naive(spec, db, lib, agg)
  {
    hide GroupResult, NaiveGroup, GroupKey, KeyOfRow, Attributed, CteRows;
    SameRows(spec, q, db, lib);
    forall id | id in CteRows(q, db, lib)
      ensures GroupKey(q, db, lib, id) == KeyOfRow(spec, db, id)
    {
      GroupKeyIsNaive(spec, q, db, lib, id);
    }
    var a, n := Answer(q, db, lib, agg), Naive(spec, db, lib, agg);
    assert forall key :: key in a <==> key in n;
    forall key | key in a
      ensures a[key] == n[key]
    {
      GroupIsNaive(spec, q, db, lib, agg, key);
    }
  }

  /**
   * The database accepts the emitted query exactly when the request has only company dimensions and repeats none of
   * them and no metric but the count; the query then returns the naive grouping of the request.
   */
  lemma CompiledIsNaive(spec: Spec, q: Query, db: Database, lib: Lib, agg: Aggregate)
    requires Emits(spec, q) && Sound(db)
    ensures Execute(q, db, lib, agg) == if Nameable(spec) then Some(Naive(spec, db, lib, agg)) else None
  {
    hide Answer, Naive, Sound, Nameable, Accepts;
    AcceptsIff(spec, q);
    if Nameable(spec) { AnswerIsNaive(spec, q, db, lib, agg); }
  }

  /**
   * What becomes of a ranking request, in terms of the request: outside permits and awards it is refused, as it is when
   * it counts distinct values; every other request is compiled, and executing the query gives the naive grouping
   * exactly when the request is nameable.
   */
  lemma RequestIsAnswered(spec: Spec, db: Database, lib: Lib, agg: Aggregate)
    requires Ranks(spec.groupBy) && Sound(db)
    ensures var approved := spec.domain == Permits || spec.domain == ContractAwards;
            var countsDistinct := exists i | 0 <= i < |spec.metrics| :: spec.metrics[i] == DistinctCount;
            && (!approved ==> Compiled(spec) == Err(UnsupportedDomain))
            && (approved && countsDistinct ==> Compiled(spec) == Err(UnsupportedMetric))
            && (approved && !countsDistinct ==>
                  && Compiled(spec).Ok?
                  && Execute(Compiled(spec).value, db, lib, agg) ==
                     if Nameable(spec) then Some(Naive(spec, db, lib, agg)) else None)
  {
    if Compiled(spec).Ok? {
      CompiledIsNaive(spec, Compiled(spec).value, db, lib, agg);
    }
  }

  // ---------------------------------------------------------------- names

  lemma {:induction false} DimensionNames(groupBy: seq<string>, n: string)
    ensures n in Names(Dimensions(groupBy)) <==> exists g :: g in groupBy && n in Names(DimensionsOf(g))
  {
    hide DimensionsOf;
    if |groupBy| > 0 {
      var init, last := groupBy[..|groupBy| - 1], groupBy[|groupBy| - 1];
      DimensionNames(init, n);
      NamesOfSum(Dimensions(init), DimensionsOf(last));
      assert groupBy == init + [last];
    }
  }

  lemma NamesOfSum(a: seq<Selected>, b: seq<Selected>)
    ensures Names(a + b) == Names(a) + Names(b)
  {
  }

  lemma NameOfCompanyGroup(g: string, n: string)
    requires IsCompanyGroup(g)
    ensures Distinct(Names(DimensionsOf(g)))
    ensures n in Names(DimensionsOf(g)) <==>
            || (g == "company_id" && n == "company_id")
            || (g == "canonical_company_id" && (n == "canonical_company_id" || n == "canonical_company_name"))
  {
    if g == "company_id" {
      assert Names(DimensionsOf(g)) == ["company_id"];
    } else {
      assert Names(DimensionsOf(g)) == ["canonical_company_id", "canonical_company_name"];
    }
  }

  lemma {:induction false} DimensionNamesDistinctIff(groupBy: seq<string>)
    requires forall i | 0 <= i < |groupBy| :: IsCompanyGroup(groupBy[i])
    ensures Distinct(Names(Dimensions(groupBy))) <==> Distinct(groupBy)
  {
    hide DimensionsOf, Names;
    if |groupBy| == 0 {
      NoNames();
    } else {
      var init, last := groupBy[..|groupBy| - 1], groupBy[|groupBy| - 1];
      assert groupBy == init + [last];
      DimensionNamesDistinctIff(init);
      NamesOfSum(Dimensions(init), DimensionsOf(last));
      DistinctSumIff(Names(Dimensions(init)), Names(DimensionsOf(last)));
      DistinctSumIff(init, [last]);
      LastGroupIsNewIff(init, last);
      NameOfCompanyGroup(last, "");
    }
  }

  lemma NoNames()
    ensures Names([]) == []
  {
  }

  lemma LastGroupIsNewIff(init: seq<string>, last: string)
    requires (forall i | 0 <= i < |init| :: IsCompanyGroup(init[i])) && IsCompanyGroup(last)
    ensures (forall n | n in Names(Dimensions(init)) :: n !in Names(DimensionsOf(last))) <==> last !in init
  {
    hide DimensionsOf, Names, Dimensions;
    forall n
      ensures n in Names(Dimensions(init)) && n in Names(DimensionsOf(last)) ==> last in init
    {
      DimensionNames(init, n);
      NameOfCompanyGroup(last, n);
      if g :| g in init && n in Names(DimensionsOf(g)) { NameOfCompanyGroup(g, n); }
    }
    DimensionNames(init, last);
    NameOfCompanyGroup(last, last);
    if last in init { assert last in Names(DimensionsOf(last)) && last in Names(Dimensions(init)); }
  }

  lemma {:induction false} RawNames(domain: Domain, ms: seq<Metric>, n: string)
    ensures n in Names(RawColumns(domain, ms)) <==> exists m :: m in ms && m != Count && n == RawName(m)
  {
    hide RawName, RawExpr;
    if |ms| > 0 {
      var init, last := ms[..|ms| - 1], ms[|ms| - 1];
      RawNames(domain, init, n);
      NamesOfSum(RawColumns(domain, init), [(RawExpr(domain), RawName(last))]);
      OneName(RawExpr(domain), RawName(last));
      assert ms == init + [last];
    }
  }

  lemma RawNameIsOwn(m: Metric, k: Metric)
    ensures |RawName(m)| > 5 && RawName(m)[0] == 'r'
    ensures RawName(m) == RawName(k) ==> m == k
  {
    assert RawName(m)[4..] == MetricName(m) && RawName(k)[4..] == MetricName(k);
  }

  lemma {:induction false} RawNamesDistinctIff(domain: Domain, ms: seq<Metric>)
    ensures Distinct(Names(RawColumns(domain, ms))) <==> DistinctButCount(ms)
  {
    hide RawName, RawExpr, Names;
    if |ms| == 0 {
      NoNames();
    } else {
      var init, last := ms[..|ms| - 1], ms[|ms| - 1];
      assert ms == init + [last];
      RawNamesDistinctIff(domain, init);
      ButCountOfSnoc(init, last);
      if last != Count {
        var one := [(RawExpr(domain), RawName(last))];
        NamesOfSum(RawColumns(domain, init), one);
        OneName(RawExpr(domain), RawName(last));
        DistinctSumIff(Names(RawColumns(domain, init)), Names(one));
        RawNames(domain, init, RawName(last));
        if m :| m in init && m != Count && RawName(last) == RawName(m) { RawNameIsOwn(last, m); }
      }
    }
  }

  lemma OneName(e: Expr, n: string)
    ensures Names([(e, n)]) == [n] && Distinct([n])
  {
  }

  lemma ButCountOfSnoc(init: seq<Metric>, last: Metric)
    ensures DistinctButCount(init + [last]) <==> DistinctButCount(init) && (last == Count || last !in init)
  {
    var ms := init + [last];
    if DistinctButCount(ms) {
      assert forall i, j | 0 <= i < j < |init| :: init[i] == ms[i] && init[j] == ms[j];
      assert forall i | 0 <= i < |init| :: ms[i] == init[i] && ms[|init|] == last;
    }
  }

  lemma FixedNames(n: string)
    requires n == "contributing_id" || n == "rn"
    ensures n != "company_id" && n != "canonical_company_id" && n != "canonical_company_name" && |n| != 0
    ensures forall m: Metric :: RawName(m) != n
    ensures Distinct(["contributing_id", "rn"])
  {
    forall m: Metric
      ensures RawName(m) != n
    {
      RawNameIsOwn(m, m);
      assert n == "rn" ==> |n| == 2;
    }
  }

  lemma CompanyNamesOnly(groupBy: seq<string>, n: string)
    requires forall i | 0 <= i < |groupBy| :: IsCompanyGroup(groupBy[i])
    requires n in Names(Dimensions(groupBy))
    ensures n == "company_id" || n == "canonical_company_id" || n == "canonical_company_name"
  {
    hide DimensionsOf, Names, Dimensions;
    DimensionNames(groupBy, n);
    var g :| g in groupBy && n in Names(DimensionsOf(g));
    NameOfCompanyGroup(g, n);
  }

  /** With company dimensions only, the columns differ in name exactly when neither dimensions nor metrics repeat. */
  lemma CteNamesDistinctIff(domain: Domain, groupBy: seq<string>, ms: seq<Metric>)
    requires forall i | 0 <= i < |groupBy| :: IsCompanyGroup(groupBy[i])
    ensures var names := Names(Dimensions(groupBy)) + Names(RawColumns(domain, ms)) + ["contributing_id", "rn"];
            Distinct(names) <==> Distinct(groupBy) && DistinctButCount(ms)
  {
    hide DimensionsOf, Names, Dimensions, RawColumns, RawName;
    var a, b, c := Names(Dimensions(groupBy)), Names(RawColumns(domain, ms)), ["contributing_id", "rn"];
    DimensionNamesDistinctIff(groupBy);
    RawNamesDistinctIff(domain, ms);
    DistinctSumIff(a, b);
    DistinctSumIff(a + b, c);
    FixedNames("contributing_id");
    FixedNames("rn");
    forall n | n in a + b
      ensures n !in c && (n in a ==> n !in b)
    {
      RawNames(domain, ms, n);
      if n in a { CompanyNamesOnly(groupBy, n); }
      if m :| m in ms && m != Count && n == RawName(m) { RawNameIsOwn(m, m); }
    }
  }

  lemma PlainGroupIsNameless(groupBy: seq<string>, i: nat)
    requires i < |groupBy| && !IsCompanyGroup(groupBy[i])
    ensures "" in Names(Dimensions(groupBy))
  {
    DimensionNames(groupBy, "");
    assert Names(DimensionsOf(groupBy[i]))[0] == "";
  }

  lemma AcceptsIff(spec: Spec, q: Query)
    requires Emits(spec, q)
    ensures Accepts(q) <==> Nameable(spec)
  {
    hide DimensionsOf, Names, Dimensions, RawColumns, RawName, Distinct, DistinctButCount;
    NamesOfSum(q.dimensions, q.raw);
    if i :| 0 <= i < |spec.groupBy| && !IsCompanyGroup(spec.groupBy[i]) {
      PlainGroupIsNameless(spec.groupBy, i);
    } else {
      CteNamesDistinctIff(spec.domain, spec.groupBy, spec.metrics);
      if "" in q.groupNames { CompanyNamesOnly(spec.groupBy, ""); }
    }
  }

  // ---------------------------------------------------------------- one row per company

  /** Grouped by canonical company, two different result rows never carry the same company id. */
  lemma OneRowPerCanonicalCompany(spec: Spec, db: Database, lib: Lib, agg: Aggregate, a: Key, b: Key)
    requires Sound(db) && spec.groupBy == ["canonical_company_id"]
    requires a in Naive(spec, db, lib, agg) && b in Naive(spec, db, lib, agg)
    ensures |a| == 2 && |b| == 2 && (a[0] == b[0] ==> a == b)
  {
    var x :| x in Attributed(spec, db, lib) && KeyOfRow(spec, db, x) == a;
    var y :| y in Attributed(spec, db, lib) && KeyOfRow(spec, db, y) == b;
    SingleKey(spec, db, x);
    SingleKey(spec, db, y);
  }

  lemma SingleKey(spec: Spec, db: Database, x: int)
    requires Sound(db) && spec.groupBy == ["canonical_company_id"]
    requires x in db.base && CompanyOf(db, db.base[x]).Some?
    ensures var c := CanonicalOf(db, CompanyOf(db, db.base[x]).value);
            KeyOfRow(spec, db, x) == [Int(c), NameOf(db, c)]
  {
    var k := CompanyOf(db, db.base[x]).value;
    var g := spec.groupBy;
    assert g[..|g| - 1] == [];
    assert NaiveKey(g, db, k) == NaiveKey([], db, k) + NaiveDimension(g[0], db, k);
    assert NaiveKey([], db, k) == [];
  }

  // ---------------------------------------------------------------- conservation

  /** Sum of the counts of the groups `keys`. */
  ghost function TotalCount(rows: set<int>, key: int -> Key, keys: set<Key>): nat
    decreases |keys|
  {
    if keys == {} then 0
    else
      Inhabited(keys);
      var g :| g in keys;
      |set id | id in rows && key(id) == g| + TotalCount(rows, key, keys - {g})
  }

  lemma {:induction false} TotalCountIsUnion(rows: set<int>, key: int -> Key, keys: set<Key>)
    ensures TotalCount(rows, key, keys) == |set id | id in rows && key(id) in keys|
    decreases |keys|
  {
    var all := set id | id in rows && key(id) in keys;
    if keys == {} {
      NoMember(all);
    } else {
      Inhabited(keys);
      var g :| g in keys && TotalCount(rows, key, keys) ==
        |set id | id in rows && key(id) == g| + TotalCount(rows, key, keys - {g});
      var here := set id | id in rows && key(id) == g;
      var rest := set id | id in rows && key(id) in keys - {g};
      TotalCountIsUnion(rows, key, keys - {g});
      assert all == here + rest;
    }
  }

  function Unresolved(spec: Spec, db: Database, lib: Lib): set<int> {
    set id | id in db.base && HoldAll(UnresolvedClauses(spec), db.base[id], lib)
  }

  lemma UnresolvedIsComplement(spec: Spec, db: Database, lib: Lib, id: int)
    requires Sound(db) && id in db.base
    ensures id in Unresolved(spec, db, lib) <==> id in Matching(spec, db, lib) && id !in Attributed(spec, db, lib)
  {
    hide Matches, HoldAll, WhereClauses;
    HoldAllOfSum(WhereClauses(spec), [ColumnIsNull("company_id")], db.base[id], lib);
    HoldsOne(ColumnIsNull("company_id"), db.base[id], lib);
    WhereMeans(spec, db.base[id], lib);
  }

  function RowKey(spec: Spec, db: Database): int -> Key
    requires Sound(db)
  {
    (id: int) => KeyOfRow(spec, db, id)
  }

  /** Before LIMIT the contributing counts of all groups and the unresolved count add up to all matching rows. */
  lemma NothingIsLost(spec: Spec, q: Query, db: Database, lib: Lib, agg: Aggregate)
    requires Emits(spec, q) && Sound(db) && Execute(q, db, lib, agg).Some?
    ensures TotalCount(Attributed(spec, db, lib), RowKey(spec, db), Execute(q, db, lib, agg).value.Keys)
            + |Unresolved(spec, db, lib)| == |Matching(spec, db, lib)|
  {
    hide Emits, Sound, Naive, RowKey, Attributed, Unresolved, Matching, Execute, Nameable;
    CompiledIsNaive(spec, q, db, lib, agg);
    var keys := Execute(q, db, lib, agg).value.Keys;
    var attributed := Attributed(spec, db, lib);
    TotalCountIsUnion(attributed, RowKey(spec, db), keys);
    EveryRowHasItsGroup(spec, db, lib, agg);
    var grouped := set id | id in attributed && RowKey(spec, db)(id) in keys;
    assert forall id | id in attributed :: RowKey(spec, db)(id) in keys;
    assert attributed == grouped by {
      assert forall id :: id in attributed <==> id in grouped;
    }
    MatchingSplits(spec, db, lib);
  }

  lemma MatchingSplits(spec: Spec, db: Database, lib: Lib)
    requires Sound(db)
    ensures |Attributed(spec, db, lib)| + |Unresolved(spec, db, lib)| == |Matching(spec, db, lib)|
  {
    hide Sound, HoldAll, CompanyOf, Matches;
    var attributed := Attributed(spec, db, lib);
    forall id | id in db.base
      ensures id in Unresolved(spec, db, lib) <==> id in Matching(spec, db, lib) && id !in attributed
    {
      UnresolvedIsComplement(spec, db, lib, id);
    }
    assert Matching(spec, db, lib) == attributed + Unresolved(spec, db, lib);
  }

  lemma EveryRowHasItsGroup(spec: Spec, db: Database, lib: Lib, agg: Aggregate)
    requires Sound(db)
    ensures forall id | id in Attributed(spec, db, lib) :: RowKey(spec, db)(id) in Naive(spec, db, lib, agg)
  {
    hide Sound, NaiveGroup, KeyOfRow, Attributed;
  }

  /** The count shown with a group is the number of its rows that enter the total. */
  lemma CountIsGroupSize(spec: Spec, q: Query, db: Database, lib: Lib, agg: Aggregate, key: Key)
    requires Emits(spec, q) && Sound(db) && Execute(q, db, lib, agg).Some? && key in Execute(q, db, lib, agg).value
    ensures Execute(q, db, lib, agg).value[key].count ==
              |set id | id in Attributed(spec, db, lib) && RowKey(spec, db)(id) == key|
  {
    hide Emits, Sound, NaiveMetric, KeyOfRow, HoldAll, CompanyOf, Execute, Nameable, Matches;
    CompiledIsNaive(spec, q, db, lib, agg);
    assert NaiveMembers(spec, db, lib, key) == set id | id in Attributed(spec, db, lib) && RowKey(spec, db)(id) == key;
  }
}
