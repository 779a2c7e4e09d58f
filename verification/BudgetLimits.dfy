/** For which batch limits the budget loop can leave an eligible tender untried: a condition on the table before the
    run. */
module BudgetLimits {
  import opened Outcomes
  import opened Ordered
  import opened BudgetLoop

  // ---------------------------------------------------------------- the other open rows

  /** Open rows that are no target: they have a value, or a budget of blanks. */
  function Priced(start: Tenders): set<int> {
    set id | id in Open(start) && !Target(start[id])
  }

  /** The other eligible tenders whose estimate fails. */
  function Failing(start: Tenders, estimate: Estimator, u: int): set<int> {
    set id | id in Open(start) && Target(start[id]) && id != u && estimate(id).None?
  }

  /** The other eligible tenders whose estimate succeeds. */
  function Succeeding(start: Tenders, estimate: Estimator, u: int): set<int> {
    set id | id in Open(start) && Target(start[id]) && id != u && estimate(id).Some?
  }

  lemma DisjointUnion(a: set<int>, b: set<int>)
    requires a * b == {}
    ensures |a + b| == |a| + |b|
  {
  }

  lemma NoCommon(a: set<int>, b: set<int>)
    requires forall x | x in a :: x !in b
    ensures a * b == {}
  {
    assert forall x :: x !in a * b;
  }

  lemma BlockersCounted(start: Tenders, estimate: Estimator, u: int)
    requires Eligible(start, u)
    ensures |Blockers(start, estimate) - {u}| == |Priced(start)| + |Failing(start, estimate, u)|
  {
    hide Target, NoBudget;
    NoCommon(Priced(start), Failing(start, estimate, u));
    DisjointUnion(Priced(start), Failing(start, estimate, u));
    assert forall id :: id in Blockers(start, estimate) - {u} <==> id in Priced(start) + Failing(start, estimate, u);
    assert Blockers(start, estimate) - {u} == Priced(start) + Failing(start, estimate, u);
  }

  lemma EligibleIs(start: Tenders, estimate: Estimator, u: int, id: int)
    ensures Eligible(start, id) && id != u <==>
        id in Failing(start, estimate, u) || id in Succeeding(start, estimate, u)
  {
    hide Target, NoBudget;
  }

  // ---------------------------------------------------------------- successes as a count

  function Won(ids: seq<int>, estimate: Estimator): set<int> {
    set id | id in ids && estimate(id).Some?
  }

  function Lost(ids: seq<int>, estimate: Estimator): set<int> {
    set id | id in ids && estimate(id).None?
  }

  lemma OneMore(s: set<int>, all: set<int>, x: int)
    requires x !in s && forall y :: y in all <==> y in s || y == x
    ensures |all| == |s| + 1
  {
    assert forall y :: y in all <==> y in s + {x};
    assert all == s + {x};
  }

  lemma Same(s: set<int>, all: set<int>)
    requires forall y :: y in all <==> y in s
    ensures |all| == |s|
  {
    assert forall y :: y in all <==> y in s;
    assert all == s;
  }

  /** Of distinct tenders as many succeed as there are with an estimate, and the others fail. */
  lemma {:induction false} SuccessesCount(ids: seq<int>, estimate: Estimator)
    requires Distinct(ids)
    ensures Successes(ids, estimate) == |Won(ids, estimate)| &&
        |ids| - Successes(ids, estimate) == |Lost(ids, estimate)|
  {
    if |ids| > 0 {
      var init, last := ids[..|ids| - 1], ids[|ids| - 1];
      SuccessesCount(init, estimate);
      assert ids == init + [last] && last !in init;
      if estimate(last).Some? {
        OneMore(Won(init, estimate), Won(ids, estimate), last);
        Same(Lost(init, estimate), Lost(ids, estimate));
      } else {
        OneMore(Lost(init, estimate), Lost(ids, estimate), last);
        Same(Won(init, estimate), Won(ids, estimate));
      }
    }
  }

  /** Attempts on other eligible tenders: the successes and the failures are among those that succeed and fail. */
  lemma AttemptsFit(start: Tenders, estimate: Estimator, u: int, ids: seq<int>)
    requires Distinct(ids) && u !in ids && forall id | id in ids :: Eligible(start, id)
    ensures Successes(ids, estimate) <= |Succeeding(start, estimate, u)|
    ensures |ids| - Successes(ids, estimate) <= |Failing(start, estimate, u)|
  {
    hide Eligible, Succeeding, Failing, Distinct;
    SuccessesCount(ids, estimate);
    forall id | id in ids
      ensures estimate(id).Some? ==> id in Succeeding(start, estimate, u)
      ensures estimate(id).None? ==> id in Failing(start, estimate, u)
    {
      EligibleKind(start, estimate, u, id);
    }
    Subset(Won(ids, estimate), Succeeding(start, estimate, u));
    Subset(Lost(ids, estimate), Failing(start, estimate, u));
  }

  lemma EligibleKind(start: Tenders, estimate: Estimator, u: int, id: int)
    requires Eligible(start, id) && id != u
    ensures if estimate(id).Some? then id in Succeeding(start, estimate, u) else id in Failing(start, estimate, u)
  {
  }

  // ---------------------------------------------------------------- the condition

  /** What is left of the limit when as many of the other tenders as possible have been estimated, but at least one. */
  function Rest(limit: nat, succeeding: nat): nat {
    if limit <= succeeding + 1 then 1 else limit - succeeding
  }

  /**
   * If enough estimates fail to fill what is left of the limit, all blockers together must fill an answer of that size;
   * if not, the first answer must already be full of priced rows and fewer targets than the limit.
   */
  predicate CanStarveAt(start: Tenders, estimate: Estimator, limit: nat, u: int) {
    var p, f, s := |Priced(start)|, |Failing(start, estimate, u)|, |Succeeding(start, estimate, u)|;
    var m := Rest(limit, s);
    limit > 0 && if f >= m then p + f >= 4 * m else p + (if limit - 1 < s + f then limit - 1 else s + f) >= 4 * limit
  }

  // ---------------------------------------------------------------- necessary

  lemma TurnAdds(p: Progress, q: seq<int>, estimate: Estimator, remaining: nat)
    requires forall id | id in q :: id in p.rows
    ensures var next := Turn(p, q, estimate, remaining);
            p.attempted <= next.attempted && p.estimated <= next.estimated
  {
  }

  /** Attempts are only added. */
  lemma {:induction false} LoopAdds(p: Progress, db: Database, estimate: Estimator, limit: nat, round: nat)
    requires Answers(db) && p.processed <= p.rows.Keys
    ensures var end := Loop(p, db, estimate, limit, round).0;
            p.attempted <= end.attempted && p.estimated <= end.estimated
    decreases Unseen(p)
  {
    hide Answers, Loop, Turn;
    if p.estimated >= limit {
      LoopIsDone(p, db, estimate, limit, round);
    } else {
      var remaining := limit - p.estimated;
      var q := db(p.rows, 4 * remaining, round);
      AnswerGiven(db, p.rows, 4 * remaining, round);
      LoopStep(p, db, estimate, limit, round, q);
      TurnAdds(p, q, estimate, remaining);
      var next := Turn(p, q, estimate, remaining);
      if |next.attempted| != |p.attempted| { LoopAdds(next, db, estimate, limit, round + 1); }
    }
  }

  const NOTHING_YET := (start: Tenders) => Progress(start, {}, [], 0)

  lemma FirstTurn(start: Tenders, db: Database, estimate: Estimator, limit: nat, u: int) returns (q: seq<int>)
    requires Starves(start, db, estimate, limit, u)
    ensures limit > 0 && IsAnswer(start, 4 * limit, q) && forall id | id in q :: id in start
    ensures var next := Turn(NOTHING_YET(start), q, estimate, limit); u !in next.attempted && next.estimated < limit
  {
    hide Scan, AttemptAll, Target, IsAnswer, Turn;
    q := db(start, 4 * limit, 0);
    var p := NOTHING_YET(start);
    AnswerGiven(db, start, 4 * limit, 0);
    TurnAdvances(p, q, estimate, limit);
    var next := Turn(p, q, estimate, limit);
    if |next.attempted| != |p.attempted| { LoopAdds(next, db, estimate, limit, 1); }
  }

  /** A full first answer without the tender is one of priced rows and of targets that are all attempted. */
  lemma AnswerFits(start: Tenders, q: seq<int>, targets: seq<int>)
    requires Distinct(q) && Distinct(targets) && forall id | id in q :: id in Priced(start) || id in targets
    ensures |q| <= |Priced(start)| + |targets|
  {
    var tried := set id | id in targets;
    ListIsSet(targets);
    ListFits(Priced(start) + tried, q);
    SumAtMost(Priced(start), tried);
  }

  lemma {:induction false} ListIsSet(q: seq<int>)
    requires Distinct(q)
    ensures |set id | id in q| == |q|
  {
    if |q| > 0 {
      var init, last := q[..|q| - 1], q[|q| - 1];
      ListIsSet(init);
      assert q == init + [last] && last !in init;
      OneMore((set id | id in init), (set id | id in q), last);
    } else {
      var members := set id | id in q;
      assert forall x :: x !in members;
      NoMember(members);
    }
  }

  lemma SumAtMost(a: set<int>, b: set<int>)
    ensures |a + b| <= |a| + |b|
  {
    NoCommon(a, b - a);
    DisjointUnion(a, b - a);
    assert forall x :: x in a + b <==> x in a + (b - a);
    assert a + b == a + (b - a);
    Subset(b - a, b);
  }

  lemma FirstTurnFits(start: Tenders, estimate: Estimator, limit: nat, u: int, q: seq<int>)
    requires Eligible(start, u) && limit > 0 && IsAnswer(start, 4 * limit, q) && forall id | id in q :: id in start
    requires var next := Turn(NOTHING_YET(start), q, estimate, limit); u !in next.attempted && next.estimated < limit
    ensures var p, f, s := |Priced(start)|, |Failing(start, estimate, u)|, |Succeeding(start, estimate, u)|;
            f >= Rest(limit, s) || p + (if limit - 1 < s + f then limit - 1 else s + f) >= 4 * limit
  {
    hide Target, AttemptAll, Scan, Priced, Failing, Succeeding, NoBudget;
    ScanLaws(start, q, {}, [], limit);
    var (seen, targets) := Scan(start, q, {}, [], limit);
    assert Distinct<int>([]) by { EmptyIsDistinct(); }
    assert Turn(NOTHING_YET(start), q, estimate, limit).attempted == targets by { assert [] + targets == targets; }
    forall id | id in targets
      ensures Eligible(start, id)
    {
      OpenIsRow(start, id);
    }
    AttemptsFit(start, estimate, u, targets);
    if |targets| < limit {
      NotInAnswer(start, u, q, limit, targets);
      forall id | id in q
        ensures id in Priced(start) || id in targets
      {
        PricedOrTarget(start, id);
      }
      AnswerFits(start, q, targets);
    }
  }

  lemma PricedOrTarget(start: Tenders, id: int)
    ensures id in Open(start) ==> id in Priced(start) || Target(start[id])
  {
  }

  /** An answer without an open row is full. */
  lemma NotInAnswer(start: Tenders, u: int, q: seq<int>, limit: nat, targets: seq<int>)
    requires Eligible(start, u) && IsAnswer(start, 4 * limit, q) && u !in targets
    requires forall id | id in q && id in start && Target(start[id]) :: id in targets
    ensures |q| == 4 * limit
  {
    hide Target, Open;
    OpenIsRow(start, u);
    if |q| == |Open(start)| { AllListed(Open(start), q, u); }
  }

  lemma StarvingNeeds(start: Tenders, db: Database, estimate: Estimator, limit: nat, u: int)
    requires GivesText(estimate) && Eligible(start, u) && Starves(start, db, estimate, limit, u)
    ensures CanStarveAt(start, estimate, limit, u)
  {
    hide GivesText, Eligible, Run, Turn, IsAnswer, Priced, Failing, Succeeding, Blockers;
    var q := FirstTurn(start, db, estimate, limit, u);
    FirstTurnFits(start, estimate, limit, u, q);
    StarvedByBlockers(start, db, estimate, limit, u);
    BlockersCounted(start, estimate, u);
    RunLaws(start, db, estimate, limit);
    AttemptsFit(start, estimate, u, Run(start, db, estimate, limit).0.attempted);
  }

  // ---------------------------------------------------------------- sufficient

  /** `first` as the first answer, when it may be one, and then as often as possible `q`. */
  ghost function Scripted(first: seq<int>, q: seq<int>): Database {
    (rows: Tenders, limit: nat, round: nat) =>
      if round == 0 && IsAnswer(rows, limit, first) then first else Stubborn(q)(rows, limit, round)
  }

  lemma ScriptedAnswers(first: seq<int>, q: seq<int>)
    ensures Answers(Scripted(first, q))
  {
    hide IsAnswer, Stubborn;
    StubbornAnswers(q);
    forall rows: Tenders, limit: nat, round: nat
      ensures IsAnswer(rows, limit, Scripted(first, q)(rows, limit, round))
    {
      assert IsAnswer(rows, limit, Stubborn(q)(rows, limit, round));
    }
  }

  lemma ScriptedGives(first: seq<int>, q: seq<int>, rows: Tenders, limit: nat)
    requires IsAnswer(rows, limit, q)
    ensures GivesFrom(Scripted(first, q), rows, limit, 1, q)
  {
    hide IsAnswer;
    forall k: nat | k >= 1
      ensures Gives(Scripted(first, q), rows, limit, k, q)
    {
      assert Scripted(first, q)(rows, limit, k) == Stubborn(q)(rows, limit, k);
    }
  }

  /** Attempts on eligible tenders leave the blockers as they are. */
  lemma BlockersStay(start: Tenders, attempted: seq<int>, estimate: Estimator, id: int)
    requires id in Blockers(start, estimate) && forall x | x in attempted :: Eligible(start, x)
    ensures id in AttemptAll(start, attempted, estimate) &&
        id in Blockers(AttemptAll(start, attempted, estimate), estimate)
  {
    hide Target, NoBudget;
    AttemptedRow(start, attempted, estimate, id);
  }

  lemma BlockersAnswer(start: Tenders, attempted: seq<int>, estimate: Estimator, u: int, n: nat) returns (q: seq<int>)
    requires |Blockers(start, estimate) - {u}| >= n && forall x | x in attempted :: Eligible(start, x)
    ensures var rows := AttemptAll(start, attempted, estimate);
            IsAnswer(rows, n, q) && u !in q && forall id | id in q :: id in rows && id in Blockers(rows, estimate)
  {
    hide Blockers, Open, IsAnswer, AttemptAll, Eligible, Ascending;
    var rows := AttemptAll(start, attempted, estimate);
    var s := Blockers(start, estimate) - {u};
    forall id | id in s
      ensures id in rows && id in Blockers(rows, estimate)
    {
      BlockersStay(start, attempted, estimate, id);
    }
    BlockersAreOpen(rows, estimate);
    PrefixAnswers(rows, s, n);
    q := Ascending(s)[..n];
    forall id | id in q
      ensures id in s
    {
      assert id in Ascending(s);
    }
  }

  /** A first answer that leaves `u` out and something of the limit, and enough blockers for the rest of it. */
  lemma StarvesAfter(start: Tenders, first: seq<int>, estimate: Estimator, limit: nat, u: int)
    requires limit > 0 && IsAnswer(start, 4 * limit, first) && forall id | id in first :: id in start
    requires var next := Turn(NOTHING_YET(start), first, estimate, limit);
             && next.estimated < limit && u !in next.attempted && (forall x | x in next.attempted :: Eligible(start, x))
             && |Blockers(start, estimate) - {u}| >= 4 * (limit - next.estimated)
    ensures exists db :: Starves(start, db, estimate, limit, u)
  {
    hide IsAnswer, Blockers, Eligible, Scan, Loop, Scripted, Gives;
    var p := NOTHING_YET(start);
    var next := Turn(p, first, estimate, limit);
    var q := BlockersAnswer(start, next.attempted, estimate, u, 4 * (limit - next.estimated));
    TurnRows(p, first, estimate, limit);
    var db := Scripted(first, q);
    ScriptedAnswers(first, q);
    ScriptedFirst(start, first, q, 4 * limit);
    ScriptedGives(first, q, next.rows, 4 * (limit - next.estimated));
    TurnAdvances(p, first, estimate, limit);
    LoopStarts(p, db, estimate, limit, first);
    if |next.attempted| > 0 { StubbornLoop(next, db, q, estimate, limit, 1, u); }
    assert Starves(start, db, estimate, limit, u);
  }

  lemma TurnRows(p: Progress, q: seq<int>, estimate: Estimator, limit: nat)
    requires p.attempted == [] && forall id | id in q :: id in p.rows
    ensures var next := Turn(p, q, estimate, limit); next.rows == AttemptAll(p.rows, next.attempted, estimate)
  {
    var targets := Scan(p.rows, q, p.processed, [], limit).1;
    assert p.attempted + targets == targets;
  }

  lemma ScriptedFirst(start: Tenders, first: seq<int>, q: seq<int>, n: nat)
    requires IsAnswer(start, n, first)
    ensures Scripted(first, q)(start, n, 0) == first
  {
    hide IsAnswer;
  }

  lemma LoopStarts(p: Progress, db: Database, estimate: Estimator, limit: nat, first: seq<int>)
    requires Answers(db) && p.processed <= p.rows.Keys && p.estimated == 0 < limit
    requires db(p.rows, 4 * limit, 0) == first && forall id | id in first :: id in p.rows
    ensures var next := Turn(p, first, estimate, limit);
            && next.processed <= next.rows.Keys
            && Loop(p, db, estimate, limit, 0) ==
                 if |next.attempted| == |p.attempted| then (next, first) else Loop(next, db, estimate, limit, 1)
  {
    hide Answers, Turn, Unseen;
    TurnAdvances(p, first, estimate, limit);
  }

  // ---------------------------------------------------------------- a first answer of priced rows and a few targets

  lemma {:induction false} SomeOf(s: set<int>, n: nat) returns (part: set<int>)
    requires n <= |s|
    ensures part <= s && |part| == n
    decreases n
  {
    if n == 0 {
      part := {};
    } else {
      var smaller := SomeOf(s, n - 1);
      SubsetSize(smaller, s);
      var x := SomeMember(s - smaller);
      part := smaller + {x};
      assert forall y | y in part :: y in s;
    }
  }

  lemma SubsetSize(a: set<int>, b: set<int>)
    requires a <= b && |a| < |b|
    ensures b - a != {}
  {
    if b - a == {} {
      assert forall x | x in b :: x !in b - a;
      assert b <= a;
      Subset(b, a);
    }
  }

  lemma ScanOfFew(start: Tenders, q: seq<int>, few: set<int>, limit: nat)
    requires Distinct(q) && (forall id | id in q :: id in start) && |few| < limit
    requires forall id | id in q :: Target(start[id]) <==> id in few
    requires forall id | id in few :: id in q
    ensures var targets := Scan(start, q, {}, [], limit).1;
            Distinct(targets) && |targets| == |few| && forall id :: id in targets <==> id in few
  {
    hide Target, Scan;
    ScanLaws(start, q, {}, [], limit);
    var targets := Scan(start, q, {}, [], limit).1;
    assert Distinct<int>([]) by { EmptyIsDistinct(); }
    assert forall id | id in targets :: id in few;
    ListFits(few, targets);
    var tried := set id | id in targets;
    ListIsSet(targets);
    Same(few, tried);
  }

  /** Nothing of `few` is `u`, so a full answer of priced rows and `few` leaves it out. */
  lemma StarvesByPriced(start: Tenders, estimate: Estimator, limit: nat, u: int)
    requires Eligible(start, u) && limit > 0
    requires var p, f, s := |Priced(start)|, |Failing(start, estimate, u)|, |Succeeding(start, estimate, u)|;
             p + (if limit - 1 < s + f then limit - 1 else s + f) >= 4 * limit
    ensures exists db :: Starves(start, db, estimate, limit, u)
  {
    hide Eligible, IsAnswer, Scan, AttemptAll, Ascending, Priced, Failing, Succeeding, Blockers, Starves;
    var others := Failing(start, estimate, u) + Succeeding(start, estimate, u);
    OthersCounted(start, estimate, u);
    var k := if |Priced(start)| >= 4 * limit then 0 else 4 * limit - |Priced(start)|;
    var few := SomeOf(others, k);
    var shown := SomeOf(Priced(start), 4 * limit - k);
    var first := PricedAnswer(start, estimate, limit, u, few, shown);
    ScanOfFew(start, first, few, limit);
    var targets := Scan(start, first, {}, [], limit).1;
    forall id | id in targets
      ensures Eligible(start, id) && id != u
    {
      EligibleIs(start, estimate, u, id);
    }
    AttemptsFit(start, estimate, u, targets);
    SuccessesAtMost(targets, estimate);
    BlockersCounted(start, estimate, u);
    assert Turn(NOTHING_YET(start), first, estimate, limit).attempted == targets by { assert [] + targets == targets; }
    StarvesAfter(start, first, estimate, limit, u);
  }

  lemma OthersCounted(start: Tenders, estimate: Estimator, u: int)
    ensures |Failing(start, estimate, u) + Succeeding(start, estimate, u)| ==
            |Failing(start, estimate, u)| + |Succeeding(start, estimate, u)|
  {
    hide Target, NoBudget;
    NoCommon(Failing(start, estimate, u), Succeeding(start, estimate, u));
    DisjointUnion(Failing(start, estimate, u), Succeeding(start, estimate, u));
  }

  lemma PricedAnswer(start: Tenders, estimate: Estimator, limit: nat, u: int, few: set<int>, shown: set<int>)
    returns (first: seq<int>)
    requires few <= Failing(start, estimate, u) + Succeeding(start, estimate, u) && shown <= Priced(start)
    requires |few| + |shown| == 4 * limit
    ensures IsAnswer(start, 4 * limit, first) && Distinct(first)
    ensures forall id | id in first :: id in start && (Target(start[id]) <==> id in few)
    ensures forall id | id in few :: id in first
  {
    hide IsAnswer, Ascending, Target, NoBudget;
    var s := few + shown;
    forall id | id in s
      ensures id in Open(start) && id in start && (Target(start[id]) <==> id in few)
    {
      assert id in few ==> id in Failing(start, estimate, u) || id in Succeeding(start, estimate, u);
    }
    NoCommon(few, shown);
    DisjointUnion(few, shown);
    PrefixAnswers(start, s, 4 * limit);
    first := Ascending(s);
    assert first[..4 * limit] == first;
    AscendingIsDistinct(first);
  }

  // ---------------------------------------------------------------- a first answer that begins with enough targets

  lemma {:induction false} ScanOfMany(start: Tenders, a: seq<int>, b: seq<int>, processed: set<int>, before: seq<int>,
                                      limit: nat)
    requires |before| + |a| == limit && Distinct(a) && forall id | id in a + b :: id in start
    requires forall id | id in a :: id !in processed && Target(start[id])
    ensures Scan(start, a + b, processed, before, limit).1 == before + a
    decreases |a|
  {
    hide Target;
    if |a| == 0 {
      assert before + a == before;
    } else {
      assert (a + b)[0] == a[0] && (a + b)[1..] == a[1..] + b && a == [a[0]] + a[1..];
      assert a[0] in a && a[0] in a + b;
      forall id | id in a[1..]
        ensures id in a && id != a[0]
      {
      }
      assert forall id | id in a[1..] + b :: id in a + b;
      ScanOfMany(start, a[1..], b, processed + {a[0]}, before + [a[0]], limit);
      assert before + [a[0]] + a[1..] == before + a;
    }
  }

  /** An answer that begins with the members of `x`. */
  lemma BeginsWith(start: Tenders, x: set<int>, limit: nat) returns (rest: seq<int>)
    requires x <= Open(start) && |x| <= limit
    ensures IsAnswer(start, limit, Ascending(x) + rest) && Distinct(Ascending(x))
  {
    hide Open, Ascending;
    var others := Open(start) - x;
    NoCommon(x, others);
    DisjointUnion(x, others);
    assert forall y :: y in Open(start) <==> y in x + others;
    assert Open(start) == x + others;
    var n := if |others| < limit - |x| then |others| else limit - |x|;
    rest := Ascending(others)[..n];
    AscendingSlice(Ascending(others), n);
    AscendingIsDistinct(Ascending(x));
    AscendingIsDistinct(rest);
    assert forall id | id in rest :: id in Ascending(others);
    DistinctAppend(Ascending(x), rest);
  }

  /** The other tenders to begin with: so many that succeed, and so many that fail. */
  lemma Mixture(start: Tenders, estimate: Estimator, u: int, limit: nat, m: nat) returns (x: set<int>)
    requires 0 < m <= limit && |Failing(start, estimate, u)| >= m && |Succeeding(start, estimate, u)| >= limit - m
    ensures |x| == limit && x <= Open(start) && u !in x
    ensures forall id | id in x :: id in start && Target(start[id]) && Eligible(start, id)
    ensures |set id | id in x && estimate(id).Some?| == limit - m
  {
    hide Target, NoBudget;
    var won := SomeOf(Succeeding(start, estimate, u), limit - m);
    var lost := SomeOf(Failing(start, estimate, u), m);
    x := won + lost;
    forall id | id in x
      ensures id in Open(start) && id in start && Target(start[id]) && Eligible(start, id) && id != u
      ensures estimate(id).Some? <==> id in won
    {
      assert id in won ==> id in Succeeding(start, estimate, u);
      assert id in lost ==> id in Failing(start, estimate, u);
    }
    NoCommon(won, lost);
    DisjointUnion(won, lost);
    Same(won, set id | id in x && estimate(id).Some?);
  }

  lemma StarvesByFailing(start: Tenders, estimate: Estimator, limit: nat, u: int)
    requires Eligible(start, u) && limit > 0
    requires var p, f, s := |Priced(start)|, |Failing(start, estimate, u)|, |Succeeding(start, estimate, u)|;
             f >= Rest(limit, s) && p + f >= 4 * Rest(limit, s)
    ensures exists db :: Starves(start, db, estimate, limit, u)
  {
    hide Eligible, IsAnswer, Scan, AttemptAll, Ascending, Open, Priced, Failing, Succeeding, Blockers, Starves;
    hide Target, Distinct;
    var m := Rest(limit, |Succeeding(start, estimate, u)|);
    var x := Mixture(start, estimate, u, limit, m);
    var rest := BeginsWith(start, x, 4 * limit);
    var first := Ascending(x) + rest;
    AnswerIsOpen(start, 4 * limit, first);
    assert forall id | id in Ascending(x) :: id in x;
    ScanOfMany(start, Ascending(x), rest, {}, [], limit);
    var targets := Scan(start, first, {}, [], limit).1;
    assert [] + Ascending(x) == Ascending(x);
    assert targets == Ascending(x);
    SuccessesCount(targets, estimate);
    Same((set id | id in x && estimate(id).Some?), Won(targets, estimate));
    BlockersCounted(start, estimate, u);
    assert Turn(NOTHING_YET(start), first, estimate, limit).attempted == targets by { assert [] + targets == targets; }
    StarvesAfter(start, first, estimate, limit, u);
  }

  // ---------------------------------------------------------------- the exact condition

  /** For every batch limit, exactly when some choice of answers leaves `u` untried with the limit not used up. */
  lemma StarvesAtIff(start: Tenders, estimate: Estimator, limit: nat, u: int)
    requires GivesText(estimate) && Eligible(start, u)
    ensures (exists db :: Starves(start, db, estimate, limit, u)) <==> CanStarveAt(start, estimate, limit, u)
  {
    hide GivesText, Eligible, Priced, Failing, Succeeding, Starves;
    if db :| Starves(start, db, estimate, limit, u) {
      StarvingNeeds(start, db, estimate, limit, u);
    }
    if CanStarveAt(start, estimate, limit, u) {
      if |Failing(start, estimate, u)| >= Rest(limit, |Succeeding(start, estimate, u)|) {
        StarvesByFailing(start, estimate, limit, u);
      } else {
        StarvesByPriced(start, estimate, limit, u);
      }
    }
  }
}
