/** The reconciliation loop over a tender table, its counters, and what running it again does. */
module AwardsReconcile {
  import opened Outcomes
  import opened Ordered
  import opened Text
  import opened Awards

  datatype Tender = Tender(
    status: string,
    override: Option<string>,
    title: string,
    buyer: string,
    closedAt: Option<int>,
    closingAt: Option<int>,
    isOpen: bool,
    award: Option<int>,
    confidence: Option<real>,
    awardedAt: Option<int>)

  const CLOSED := "closed"
  const AWARDED := "awarded"

  predicate Overridden(t: Tender) {
    t.override.Some? && Strip(t.override.value) != ""
  }

  function CloseTime(t: Tender): Option<int> {
    if t.closedAt.Some? then t.closedAt else t.closingAt
  }

  datatype Decision = Marked(m: Match) | AlreadyAwarded | NotClosed | HasOverride | Ambiguous | NoMatch

  predicate HasCandidates(awards: set<Award>, t: Tender, lib: Lib) {
    CodeCandidates(awards, t.title, lib) != {} || TitleCandidates(awards, t.title, t.buyer, lib) != {}
  }

  function Decide(awards: set<Award>, t: Tender, now: int, lib: Lib): Decision {
    if t.status != CLOSED then if t.status == AWARDED then AlreadyAwarded else NotClosed
    else if Overridden(t) then HasOverride
    else match Scan(awards, t.title, t.buyer, CloseTime(t), now, lib)
      case Some(m) => Marked(m)
      case None => if HasCandidates(awards, t, lib) then Ambiguous else NoMatch
  }

  function Reconciled(awards: set<Award>, t: Tender, now: int, lib: Lib): Tender {
    match Decide(awards, t, now, lib)
    case Marked(m) =>
      t.(status := AWARDED, isOpen := false, award := Some(m.award), confidence := Some(1.0),
         awardedAt := Some(AwardDate(m.date, now, lib)))
    case _ => t
  }

  function ReconciledAll(awards: set<Award>, rows: seq<Tender>, now: int, lib: Lib): seq<Tender> {
    seq(|rows|, i requires 0 <= i < |rows| => Reconciled(awards, rows[i], now, lib))
  }

  datatype Summary = Summary(
    code: nat,
    titleBuyer: nat,
    skippedOverride: nat,
    alreadyAwarded: nat,
    notClosed: nat,
    ambiguous: nat,
    noMatch: nat)

  const EMPTY_SUMMARY := Summary(0, 0, 0, 0, 0, 0, 0)

  function Tally(s: Summary, d: Decision): Summary {
    match d
    case Marked(Match(_, Code, _)) => s.(code := s.code + 1)
    case Marked(Match(_, TitleBuyer, _)) => s.(titleBuyer := s.titleBuyer + 1)
    case AlreadyAwarded => s.(alreadyAwarded := s.alreadyAwarded + 1)
    case NotClosed => s.(notClosed := s.notClosed + 1)
    case HasOverride => s.(skippedOverride := s.skippedOverride + 1)
    case Ambiguous => s.(ambiguous := s.ambiguous + 1)
    case NoMatch => s.(noMatch := s.noMatch + 1)
  }

  function SummaryOf(awards: set<Award>, rows: seq<Tender>, now: int, lib: Lib): Summary {
    if |rows| == 0 then EMPTY_SUMMARY
    else Tally(SummaryOf(awards, rows[..|rows| - 1], now, lib), Decide(awards, rows[|rows| - 1], now, lib))
  }

  function Total(s: Summary): nat {
    s.code + s.titleBuyer + s.skippedOverride + s.alreadyAwarded + s.notClosed + s.ambiguous + s.noMatch
  }

  function Plus(a: Summary, b: Summary): Summary {
    Summary(a.code + b.code, a.titleBuyer + b.titleBuyer, a.skippedOverride + b.skippedOverride,
            a.alreadyAwarded + b.alreadyAwarded, a.notClosed + b.notClosed, a.ambiguous + b.ambiguous,
            a.noMatch + b.noMatch)
  }

  class TenderTable {
    var rows: seq<Tender>

    constructor (rows: seq<Tender>)
      ensures this.rows == rows
    {
      this.rows := rows;
    }

    method Reconcile(ix: Indexes, now: int, lib: Lib, ghost awards: seq<Award>) returns (summary: Summary)
      requires Indexed(ix, awards, lib) && DistinctIds(awards)
      modifies this
      ensures rows == ReconciledAll(AsSet(awards), old(rows), now, lib)
      ensures |rows| == |old(rows)|
      ensures forall i | 0 <= i < |rows| :: Settles(AsSet(awards), old(rows[i]), rows[i], now, lib)
      ensures summary == SummaryOf(AsSet(awards), old(rows), now, lib)
    {
      hide Reconciled, Decide, Settles;
      summary := EMPTY_SUMMARY;
      ghost var before := rows;
      for i := 0 to |rows|
        invariant |rows| == |before|
        invariant forall j | 0 <= j < i :: rows[j] == Reconciled(AsSet(awards), before[j], now, lib)
        invariant forall j | i <= j < |rows| :: rows[j] == before[j]
        invariant summary == SummaryOf(AsSet(awards), before[..i], now, lib)
      {
        var decision, row := ReconcileRow(rows[i], ix, now, lib, awards);
        rows := rows[i := row];
        summary := Tally(summary, decision);
        assert before[..i + 1][..i] == before[..i];
      }
      assert before[..|before|] == before;
      forall i | 0 <= i < |rows|
        ensures Settles(AsSet(awards), before[i], rows[i], now, lib)
      {
        ReconciledSettles(AsSet(awards), before[i], now, lib);
      }
    }
  }

  method ReconcileRow(row: Tender, ix: Indexes, now: int, lib: Lib, ghost awards: seq<Award>)
    returns (d: Decision, r: Tender)
    requires Indexed(ix, awards, lib) && DistinctIds(awards)
    ensures d == Decide(AsSet(awards), row, now, lib)
    ensures r == Reconciled(AsSet(awards), row, now, lib)
  {
    hide Scan;
    r := row;
    if row.status != CLOSED {
      d := if row.status == AWARDED then AlreadyAwarded else NotClosed;
    } else if Overridden(row) {
      d := HasOverride;
    } else {
      var found := FindAwardMatch(row.title, row.buyer, CloseTime(row), ix, now, lib, awards);
      if found.None? {
        var any := HasMatchCandidates(row, ix, lib, awards);
        d := if any then Ambiguous else NoMatch;
      } else {
        d := Marked(found.value);
        r := row.(status := AWARDED, isOpen := false, award := Some(found.value.award), confidence := Some(1.0),
                  awardedAt := Some(AwardDate(found.value.date, now, lib)));
      }
    }
  }

  method HasMatchCandidates(row: Tender, ix: Indexes, lib: Lib, ghost awards: seq<Award>) returns (r: bool)
    requires Indexed(ix, awards, lib) && DistinctIds(awards)
    ensures r <==> HasCandidates(AsSet(awards), row, lib)
  {
    var byCode := CollectCodeCandidates(ix, awards, row.title, lib);
    SizeOfDistinct(byCode);
    var key := (lib.norm(row.title), lib.norm(row.buyer));
    var byTitle := if UsableKey(key) then Lookup(ix.byTitle, key) else [];
    WithKeyDistinct(awards, key, lib);
    SizeOfDistinct(byTitle);
    forall a
      ensures a in AsSet(byTitle) <==> a in TitleCandidates(AsSet(awards), row.title, row.buyer, lib)
    {
      WithKeyMembers(awards, key, lib, a);
    }
    assert AsSet(byTitle) == TitleCandidates(AsSet(awards), row.title, row.buyer, lib);
    r := |byCode| > 0 || |byTitle| > 0;
  }

  /** The three tender tables against one set of indexes; every row is counted once in the totals. */
  method ReconcileAwards(tenders: TenderTable, commercial: TenderTable, arch: TenderTable,
                         awards: seq<Award>, now: int, lib: Lib) returns (totals: Summary)
    requires DistinctIds(awards)
    requires tenders != commercial && tenders != arch && commercial != arch
    modifies tenders, commercial, arch
    ensures tenders.rows == ReconciledAll(AsSet(awards), old(tenders.rows), now, lib)
    ensures commercial.rows == ReconciledAll(AsSet(awards), old(commercial.rows), now, lib)
    ensures arch.rows == ReconciledAll(AsSet(awards), old(arch.rows), now, lib)
    ensures totals == Plus(Plus(SummaryOf(AsSet(awards), old(tenders.rows), now, lib),
                                SummaryOf(AsSet(awards), old(commercial.rows), now, lib)),
                           SummaryOf(AsSet(awards), old(arch.rows), now, lib))
    ensures |old(tenders.rows)| == |tenders.rows| && |old(commercial.rows)| == |commercial.rows| &&
            |old(arch.rows)| == |arch.rows|
    ensures forall i | 0 <= i < |tenders.rows| ::
        Settles(AsSet(awards), old(tenders.rows[i]), tenders.rows[i], now, lib)
    ensures forall i | 0 <= i < |commercial.rows| ::
        Settles(AsSet(awards), old(commercial.rows[i]), commercial.rows[i], now, lib)
    ensures forall i | 0 <= i < |arch.rows| :: Settles(AsSet(awards), old(arch.rows[i]), arch.rows[i], now, lib)
    ensures Total(totals) == |tenders.rows| + |commercial.rows| + |arch.rows|
  {
    hide Settles, Reconciled, SummaryOf, Indexed, DistinctIds;
    var ix := BuildAwardIndexes(awards, lib);
    CountersSumToRows(AsSet(awards), tenders.rows, now, lib);
    CountersSumToRows(AsSet(awards), commercial.rows, now, lib);
    CountersSumToRows(AsSet(awards), arch.rows, now, lib);
    var a := tenders.Reconcile(ix, now, lib, awards);
    var b := commercial.Reconcile(ix, now, lib, awards);
    var c := arch.Reconcile(ix, now, lib, awards);
    totals := Plus(Plus(a, b), c);
  }

  // ---------------------------------------------------------------- laws

  lemma {:induction false} CountersSumToRows(awards: set<Award>, rows: seq<Tender>, now: int, lib: Lib)
    ensures Total(SummaryOf(awards, rows, now, lib)) == |rows|
  {
    if |rows| > 0 {
      hide Decide;
      CountersSumToRows(awards, rows[..|rows| - 1], now, lib);
      match Decide(awards, rows[|rows| - 1], now, lib) {
        case Marked(Match(_, signal, _)) => if signal == Code {} else {}
        case _ =>
      }
    }
  }

  predicate MarkedBy(d: Decision, code: bool) {
    d.Marked? && (d.m.signal == Code <==> code)
  }

  function RowsWhere(awards: set<Award>, rows: seq<Tender>, now: int, lib: Lib, p: Decision -> bool): set<int> {
    set i | 0 <= i < |rows| && p(Decide(awards, rows[i], now, lib))
  }

  lemma OneMoreRow(awards: set<Award>, rows: seq<Tender>, now: int, lib: Lib, p: Decision -> bool)
    requires |rows| > 0
    ensures var n := |rows| - 1;
            |RowsWhere(awards, rows, now, lib, p)| ==
              |RowsWhere(awards, rows[..n], now, lib, p)| + if p(Decide(awards, rows[n], now, lib)) then 1 else 0
  {
    hide Decide;
    var n := |rows| - 1;
    OneMoreIndex(RowsWhere(awards, rows, now, lib, p), RowsWhere(awards, rows[..n], now, lib, p), n,
                 p(Decide(awards, rows[n], now, lib)));
  }

  /** Which decision each counter counts. */
  function CountedBy(k: int): Decision -> bool {
    d => match k
      case 0 => MarkedBy(d, true)
      case 1 => MarkedBy(d, false)
      case 2 => d.HasOverride?
      case 3 => d.AlreadyAwarded?
      case 4 => d.NotClosed?
      case 5 => d.Ambiguous?
      case _ => d.NoMatch?
  }

  function Counter(s: Summary, k: int): nat {
    match k
    case 0 => s.code
    case 1 => s.titleBuyer
    case 2 => s.skippedOverride
    case 3 => s.alreadyAwarded
    case 4 => s.notClosed
    case 5 => s.ambiguous
    case _ => s.noMatch
  }

  lemma TallyCounts(s: Summary, d: Decision, k: int)
    requires 0 <= k <= 6
    ensures Counter(Tally(s, d), k) == Counter(s, k) + if CountedBy(k)(d) then 1 else 0
  {
    match d {
      case Marked(Match(_, signal, _)) => if signal == Code {} else {}
      case _ =>
    }
  }

  /** Each counter is the number of rows with its decision. */
  lemma {:induction false} CountersMean(awards: set<Award>, rows: seq<Tender>, now: int, lib: Lib, k: int)
    requires 0 <= k <= 6
    ensures Counter(SummaryOf(awards, rows, now, lib), k) == |RowsWhere(awards, rows, now, lib, CountedBy(k))|
  {
    hide Decide, Counter, CountedBy, Tally;
    if |rows| == 0 {
      NoMember(RowsWhere(awards, rows, now, lib, CountedBy(k)));
      EmptyCounter(k);
    } else {
      CountersMean(awards, rows[..|rows| - 1], now, lib, k);
      OneMoreRow(awards, rows, now, lib, CountedBy(k));
      TallyCounts(SummaryOf(awards, rows[..|rows| - 1], now, lib), Decide(awards, rows[|rows| - 1], now, lib), k);
    }
  }

  lemma EmptyCounter(k: int)
    ensures Counter(EMPTY_SUMMARY, k) == 0
  {
  }

  lemma SameAwards(a: seq<Award>, b: seq<Award>)
    requires DistinctIds(a) && multiset(a) == multiset(b)
    ensures DistinctIds(b) && AsSet(a) == AsSet(b)
  {
    assert Distinct(a);
    PermutationIsDistinct(a, b);
    forall i, j | 0 <= i < j < |b|
      ensures b[i].id != b[j].id
    {
      assert b[i] in a && b[j] in a && b[i] != b[j];
    }
    assert forall x :: x in AsSet(a) <==> x in AsSet(b);
  }

  /** The same awards in any two orders, each with indexes of its own, give the same match. */
  method FindInEitherOrder(title: string, buyer: string, closedAt: Option<int>, a: seq<Award>, b: seq<Award>, now: int,
                           lib: Lib)
    returns (r: Option<Match>, s: Option<Match>)
    requires DistinctIds(a) && multiset(a) == multiset(b)
    ensures r == s
  {
    SameAwards(a, b);
    var first := BuildAwardIndexes(a, lib);
    r := FindAwardMatch(title, buyer, closedAt, first, now, lib, a);
    var second := BuildAwardIndexes(b, lib);
    s := FindAwardMatch(title, buyer, closedAt, second, now, lib, b);
  }

  /** `a` is the only candidate, or the only one of several dated on or after the close. */
  predicate Chosen(candidates: set<Award>, closedAt: Option<int>, now: int, lib: Lib, a: Award) {
    && a in candidates
    && ((forall b | b in candidates :: b == a)
        || (closedAt.Some? && AwardDate(a.date, now, lib) >= closedAt.value &&
            forall b | b in candidates && b != a :: AwardDate(b.date, now, lib) < closedAt.value))
  }

  lemma ResolveIff(candidates: set<Award>, closedAt: Option<int>, now: int, lib: Lib, a: Award)
    ensures Resolve(candidates, closedAt, now, lib) == Some(a) <==> Chosen(candidates, closedAt, now, lib, a)
  {
    if a in candidates && forall b | b in candidates :: b == a {
      assert forall x :: x in candidates <==> x in {a};
      assert candidates == {a};
    }
    if |candidates| != 1 && closedAt.Some? {
      var after := set x | x in candidates && AwardDate(x.date, now, lib) >= closedAt.value;
      if Chosen(candidates, closedAt, now, lib, a) {
        assert forall x :: x in after <==> x in {a};
        assert after == {a};
      }
      if |after| == 1 {
        assert after == {TheOne(after)};
        assert TheOne(after) in after;
        assert forall b | b in candidates && b != TheOne(after) :: b !in after;
      }
    }
  }

  /** The awards that share a solicitation code with the tender, and those with its title and buyer. */
  predicate ByCode(awards: set<Award>, t: Tender, lib: Lib, a: Award) {
    && a in awards
    && exists code | code in lib.codes(t.title) :: code in lib.codes(a.title) || code in lib.codes(a.description)
  }

  predicate ByTitle(awards: set<Award>, t: Tender, lib: Lib, a: Award) {
    a in awards && lib.norm(a.title) == lib.norm(t.title) != "" && lib.norm(a.buyer) == lib.norm(t.buyer) != ""
  }

  lemma CandidatesAre(awards: set<Award>, t: Tender, lib: Lib, a: Award)
    ensures a in CodeCandidates(awards, t.title, lib) <==> ByCode(awards, t, lib, a)
    ensures a in TitleCandidates(awards, t.title, t.buyer, lib) <==> ByTitle(awards, t, lib, a)
  {
    var shared := CodesOf(a, lib) * lib.codes(t.title);
    if shared != {} { var code := SomeMember(shared); }
    if code :| code in CodesOf(a, lib) && code in lib.codes(t.title) { assert code in shared; }
  }

  /** The close of the tender: its own time, or the one it was announced for. */
  predicate ClosesAt(t: Tender, close: int) {
    t.closedAt == Some(close) || (t.closedAt == None && t.closingAt == Some(close))
  }

  /** The date of an award; a date that cannot be read counts as `now`. */
  predicate DatedAt(a: Award, at: int, now: int, lib: Lib) {
    match lib.date(a.date) case Some(d) => at == d case None => at == now
  }

  predicate DatedFrom(a: Award, close: int, now: int, lib: Lib) {
    match lib.date(a.date) case Some(d) => d >= close case None => now >= close
  }

  /** Of the awards with `p`, `a` is the only one, or the only one of several dated on or after the close of the
      tender. */
  ghost predicate Decisive(p: Award -> bool, t: Tender, now: int, lib: Lib, a: Award) {
    && p(a)
    && ((forall b | p(b) :: b == a) || exists close :: ClosesAt(t, close) && OnlyFrom(p, close, now, lib, a))
  }

  ghost predicate OnlyFrom(p: Award -> bool, close: int, now: int, lib: Lib, a: Award) {
    DatedFrom(a, close, now, lib) && forall b | p(b) && b != a :: !DatedFrom(b, close, now, lib)
  }

  ghost function Sharing(awards: set<Award>, t: Tender, lib: Lib): Award -> bool {
    a => ByCode(awards, t, lib, a)
  }

  ghost function Named(awards: set<Award>, t: Tender, lib: Lib): Award -> bool {
    a => ByTitle(awards, t, lib, a)
  }

  lemma ChosenIsDecisive(awards: set<Award>, t: Tender, now: int, lib: Lib, a: Award)
    ensures Chosen(CodeCandidates(awards, t.title, lib), CloseTime(t), now, lib, a) <==>
        Decisive(Sharing(awards, t, lib), t, now, lib, a)
    ensures Chosen(TitleCandidates(awards, t.title, t.buyer, lib), CloseTime(t), now, lib, a) <==>
            Decisive(Named(awards, t, lib), t, now, lib, a)
  {
    hide CodeCandidates, TitleCandidates, ByCode, ByTitle;
    forall b
      ensures b in CodeCandidates(awards, t.title, lib) <==> Sharing(awards, t, lib)(b)
      ensures b in TitleCandidates(awards, t.title, t.buyer, lib) <==> Named(awards, t, lib)(b)
    {
      CandidatesAre(awards, t, lib, b);
    }
    TimesAre(t, now, lib);
  }

  lemma TimesAre(t: Tender, now: int, lib: Lib)
    ensures forall a, close :: DatedFrom(a, close, now, lib) <==> AwardDate(a.date, now, lib) >= close
    ensures forall close :: ClosesAt(t, close) <==> CloseTime(t) == Some(close)
  {
  }

  /** Somebody set the lifecycle by hand: the override holds more than white space. */
  predicate Manual(t: Tender) {
    t.override.Some? && exists i | 0 <= i < |t.override.value| :: !IsSpace(t.override.value[i])
  }

  lemma OverriddenIs(t: Tender)
    ensures Overridden(t) <==> Manual(t)
  {
    if t.override.Some? {
      var s := t.override.value;
      var from, to := StripIs(s);
      if from < to { assert !IsSpace(s[from..to][0]) && s[from..to][0] == s[from]; }
    }
  }

  /** `a` decides a tender by a code, or by title and buyer where no award decides it by a code. */
  ghost predicate Decides(awards: set<Award>, t: Tender, now: int, lib: Lib, a: Award, signal: Signal) {
    match signal
    case Code => Decisive(Sharing(awards, t, lib), t, now, lib, a)
    case TitleBuyer =>
      && (forall b :: !Decisive(Sharing(awards, t, lib), t, now, lib, b))
      && Decisive(Named(awards, t, lib), t, now, lib, a)
  }

  predicate Open(t: Tender) {
    t.status == "closed" && !Manual(t)
  }

  /**
   * A tender is marked exactly when it is closed, not overridden, and one award is decisive: among those that share a
   * code with it, or, when none of those is, among those with its title and buyer.
   */
  lemma MarkedIff(awards: set<Award>, t: Tender, now: int, lib: Lib, m: Match)
    ensures Decide(awards, t, now, lib) == Marked(m) <==>
        Open(t) && exists a :: Decides(awards, t, now, lib, a, m.signal) && m == Match(a.id, m.signal, a.date)
  {
    hide Resolve, Chosen, Decisive, CodeCandidates, TitleCandidates, Overridden, Manual, HasCandidates;
    OverriddenIs(t);
    ResolvesAre(awards, t, now, lib);
    ScanIs(awards, t, now, lib);
  }

  lemma ResolvesAre(awards: set<Award>, t: Tender, now: int, lib: Lib)
    ensures forall a :: Resolve(CodeCandidates(awards, t.title, lib), CloseTime(t), now, lib) == Some(a) <==>
        Decisive(Sharing(awards, t, lib), t, now, lib, a)
    ensures forall a :: Resolve(TitleCandidates(awards, t.title, t.buyer, lib), CloseTime(t), now, lib) == Some(a) <==>
        Decisive(Named(awards, t, lib), t, now, lib, a)
  {
    hide Resolve, Chosen, Decisive, CodeCandidates, TitleCandidates;
    forall a
      ensures Resolve(CodeCandidates(awards, t.title, lib), CloseTime(t), now, lib) == Some(a) <==>
              Decisive(Sharing(awards, t, lib), t, now, lib, a)
      ensures Resolve(TitleCandidates(awards, t.title, t.buyer, lib), CloseTime(t), now, lib) == Some(a) <==>
              Decisive(Named(awards, t, lib), t, now, lib, a)
    {
      ResolveIff(CodeCandidates(awards, t.title, lib), CloseTime(t), now, lib, a);
      ResolveIff(TitleCandidates(awards, t.title, t.buyer, lib), CloseTime(t), now, lib, a);
      ChosenIsDecisive(awards, t, now, lib, a);
    }
  }

  /** The other decisions. A tender nothing decides is ambiguous exactly when some award is a candidate for it. */
  lemma DecisionMeans(awards: set<Award>, t: Tender, now: int, lib: Lib)
    ensures var d := Decide(awards, t, now, lib);
            var decided := exists a, signal :: Decides(awards, t, now, lib, a, signal);
            var candidates := exists a :: ByCode(awards, t, lib, a) || ByTitle(awards, t, lib, a);
            && (d.AlreadyAwarded? <==> t.status == "awarded")
            && (d.NotClosed? <==> t.status != "awarded" && t.status != "closed")
            && (d.HasOverride? <==> t.status == "closed" && Manual(t))
            && (d.Marked? <==> Open(t) && decided)
            && (d.Ambiguous? <==> Open(t) && !decided && candidates)
            && (d.NoMatch? <==> Open(t) && !decided && !candidates)
  {
    hide Scan, Decides, Overridden, Manual, ByCode, ByTitle, HasCandidates;
    OverriddenIs(t);
    DecidedIs(awards, t, now, lib);
    CandidatesExist(awards, t, lib);
  }

  lemma DecidedIs(awards: set<Award>, t: Tender, now: int, lib: Lib)
    ensures Decide(awards, t, now, lib).Marked? <==>
        Open(t) && exists a, signal :: Decides(awards, t, now, lib, a, signal)
    ensures forall a, signal :: Open(t) && Decides(awards, t, now, lib, a, signal) ==>
        Decide(awards, t, now, lib) == Marked(Match(a.id, signal, a.date))
  {
    hide Decides, Open, Decide;
    var d := Decide(awards, t, now, lib);
    forall a, signal | Open(t) && Decides(awards, t, now, lib, a, signal)
      ensures d == Marked(Match(a.id, signal, a.date))
    {
      MarkedIff(awards, t, now, lib, Match(a.id, signal, a.date));
    }
    if d.Marked? { MarkedIff(awards, t, now, lib, d.m); }
  }

  lemma CandidatesExist(awards: set<Award>, t: Tender, lib: Lib)
    ensures HasCandidates(awards, t, lib) <==> exists a :: ByCode(awards, t, lib, a) || ByTitle(awards, t, lib, a)
  {
    hide CodeCandidates, TitleCandidates, ByCode, ByTitle;
    forall a
      ensures a in CodeCandidates(awards, t.title, lib) <==> ByCode(awards, t, lib, a)
      ensures a in TitleCandidates(awards, t.title, t.buyer, lib) <==> ByTitle(awards, t, lib, a)
    {
      CandidatesAre(awards, t, lib, a);
    }
    var codes, titles := CodeCandidates(awards, t.title, lib), TitleCandidates(awards, t.title, t.buyer, lib);
    if codes != {} { var a := SomeMember(codes); }
    if titles != {} { var a := SomeMember(titles); }
  }

  // ---------------------------------------------------------------- the row

  /** The tender as `a` leaves it: awarded, no longer open, with the id and the date of the award. */
  predicate AwardedTo(t: Tender, r: Tender, a: Award, now: int, lib: Lib) {
    && r.status == "awarded" && !r.isOpen && r.award == Some(a.id) && r.confidence == Some(1.0)
    && r.awardedAt.Some? && DatedAt(a, r.awardedAt.value, now, lib)
    && r.override == t.override && r.title == t.title && r.buyer == t.buyer
    && r.closedAt == t.closedAt && r.closingAt == t.closingAt
  }

  /** `r` is what one reconciliation makes of `t`. */
  ghost predicate Settles(awards: set<Award>, t: Tender, r: Tender, now: int, lib: Lib) {
    && (forall a, signal | Open(t) && Decides(awards, t, now, lib, a, signal) :: AwardedTo(t, r, a, now, lib))
    && ((forall a, signal :: !(Open(t) && Decides(awards, t, now, lib, a, signal))) ==> r == t)
  }

  /** A row is awarded to the award that decides it, and is left alone when none does. */
  lemma ReconciledSettles(awards: set<Award>, t: Tender, now: int, lib: Lib)
    ensures Settles(awards, t, Reconciled(awards, t, now, lib), now, lib)
  {
    hide Decides, Open, Decide;
    DecidedIs(awards, t, now, lib);
  }

  lemma ScanIs(awards: set<Award>, t: Tender, now: int, lib: Lib)
    ensures var byCode := Resolve(CodeCandidates(awards, t.title, lib), CloseTime(t), now, lib);
            var byTitle := Resolve(TitleCandidates(awards, t.title, t.buyer, lib), CloseTime(t), now, lib);
            Scan(awards, t.title, t.buyer, CloseTime(t), now, lib) ==
              if byCode.Some? then Some(Match(byCode.value.id, Code, byCode.value.date))
              else if byTitle.Some? then Some(Match(byTitle.value.id, TitleBuyer, byTitle.value.date)) else None
  {
  }

  /** A second run with the same awards and the same `now` marks nothing and changes no row. */
  lemma SecondRunChangesNothing(awards: set<Award>, t: Tender, now: int, lib: Lib)
    ensures var once := Reconciled(awards, t, now, lib);
            Reconciled(awards, once, now, lib) == once && !Decide(awards, once, now, lib).Marked?
    ensures Decide(awards, t, now, lib).Marked? ==>
              Decide(awards, Reconciled(awards, t, now, lib), now, lib) == AlreadyAwarded
  {
    hide Scan;
  }
}
