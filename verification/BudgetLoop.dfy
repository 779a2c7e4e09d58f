/** The budget-estimate loop: whatever rows the database returns, in whatever order, each tender is tried at most
    once. */
module BudgetLoop {
  import opened Outcomes
  import opened Ordered
  import opened Text

  datatype Tender = Tender(value: string, budget: Option<string>, inScope: bool)

  type Tenders = map<int, Tender>

  // ---------------------------------------------------------------- empty values

  /** `re.sub(r"[^\d.]", "", value)`. */
  function DigitsAndDots(s: string): string {
    if |s| == 0 then ""
    else (if IsDigit(s[0]) || s[0] == '.' then [s[0]] else "") + DigitsAndDots(s[1..])
  }

  function Dots(s: string): nat {
    if |s| == 0 then 0 else (if s[0] == '.' then 1 else 0) + Dots(s[1..])
  }

  predicate HasDigit(s: string) {
    exists i | 0 <= i < |s| :: IsDigit(s[i])
  }

  predicate HasNonZeroDigit(s: string) {
    exists i | 0 <= i < |s| :: '1' <= s[i] <= '9'
  }

  /** Whether `float(s)` is zero, for digits and dots; None when it raises. */
  function FloatIsZero(s: string): Option<bool> {
    if Dots(s) > 1 || !HasDigit(s) then None else Some(!HasNonZeroDigit(s))
  }

  /** `_value_is_empty`; a text that is no number counts as empty. */
  predicate ValueIsEmpty(value: string) {
    || Strip(value) == ""
    || var digits := DigitsAndDots(value);
       || digits == ""
       || FloatIsZero(digits) != Some(false)
  }

  lemma {:induction false} FilterKeeps(s: string)
    ensures Dots(DigitsAndDots(s)) == Dots(s)
    ensures HasNonZeroDigit(DigitsAndDots(s)) <==> HasNonZeroDigit(s)
  {
    if |s| > 0 {
      FilterKeeps(s[1..]);
      assert s == [s[0]] + s[1..];
      var head := if IsDigit(s[0]) || s[0] == '.' then [s[0]] else "";
      NonZeroInEither(head, DigitsAndDots(s[1..]));
      NonZeroInEither([s[0]], s[1..]);
      assert HasNonZeroDigit(head) <==> HasNonZeroDigit([s[0]]) by {
        assert [s[0]][0] == s[0];
      }
      if |head| == 0 { assert head + DigitsAndDots(s[1..]) == DigitsAndDots(s[1..]); }
      else { assert (head + DigitsAndDots(s[1..]))[1..] == DigitsAndDots(s[1..]); }
    }
  }

  lemma NonZeroInEither(a: string, b: string)
    ensures HasNonZeroDigit(a + b) <==> HasNonZeroDigit(a) || HasNonZeroDigit(b)
  {
    if HasNonZeroDigit(a) {
      var i :| 0 <= i < |a| && '1' <= a[i] <= '9';
      assert (a + b)[i] == a[i];
    }
    if HasNonZeroDigit(b) {
      var i :| 0 <= i < |b| && '1' <= b[i] <= '9';
      assert (a + b)[|a| + i] == b[i];
    }
  }

  lemma {:induction false} StrippedAwayHasNoDigit(s: string)
    requires Strip(s) == ""
    ensures !HasNonZeroDigit(s)
  {
    if |s| > 0 {
      if IsSpace(s[0]) {
        StrippedAwayHasNoDigit(s[1..]);
        NonZeroInEither([s[0]], s[1..]);
        assert s == [s[0]] + s[1..];
      } else {
        FirstStays(s);
      }
    }
  }

  lemma {:induction false} FirstStays(s: string)
    requires |s| > 0 && !IsSpace(s[0])
    ensures |StripRight(s)| > 0
  {
    if IsSpace(s[|s| - 1]) { FirstStays(s[..|s| - 1]); }
  }

  predicate DotAt(s: string, i: int) {
    0 <= i < |s| && s[i] == '.'
  }

  /** Two positions hold a dot. */
  predicate TwoDots(s: string) {
    exists i, j | 0 <= i < j < |s| :: DotAt(s, i) && DotAt(s, j)
  }

  predicate HasDot(s: string) {
    exists i | 0 <= i < |s| :: DotAt(s, i)
  }

  lemma DotsOfTail(s: string)
    requires |s| > 0
    ensures HasDot(s) <==> s[0] == '.' || HasDot(s[1..])
    ensures TwoDots(s) <==> TwoDots(s[1..]) || (s[0] == '.' && HasDot(s[1..]))
  {
    var rest := s[1..];
    assert forall i | 0 < i < |s| :: DotAt(s, i) <==> DotAt(rest, i - 1);
    if s[0] == '.' { assert DotAt(s, 0); }
    if i :| 0 <= i < |rest| && DotAt(rest, i) { assert DotAt(s, i + 1); }
    if i, j :| 0 <= i < j < |rest| && DotAt(rest, i) && DotAt(rest, j) { assert DotAt(s, i + 1) && DotAt(s, j + 1); }
    if i :| 0 <= i < |s| && DotAt(s, i) { assert i > 0 ==> DotAt(rest, i - 1); }
    if i, j :| 0 <= i < j < |s| && DotAt(s, i) && DotAt(s, j) {
      assert DotAt(rest, j - 1) && (i > 0 ==> DotAt(rest, i - 1));
    }
  }

  lemma {:induction false} DotsCount(s: string)
    ensures Dots(s) > 0 <==> HasDot(s)
    ensures Dots(s) > 1 <==> TwoDots(s)
  {
    if |s| > 0 {
      DotsCount(s[1..]);
      DotsOfTail(s);
    }
  }

  /** A value counts as given exactly when it has a non-zero digit and at most one dot anywhere. */
  lemma ValueIsEmptyIff(value: string)
    ensures ValueIsEmpty(value) <==> !HasNonZeroDigit(value) || TwoDots(value)
  {
    FilterKeeps(value);
    DotsCount(value);
    if Strip(value) == "" { StrippedAwayHasNoDigit(value); }
    var digits := DigitsAndDots(value);
    if i :| 0 <= i < |digits| && '1' <= digits[i] <= '9' { assert IsDigit(digits[i]); }
  }

  // ---------------------------------------------------------------- the query

  predicate NoBudget(t: Tender) {
    t.inScope && (t.budget.None? || t.budget == Some(""))
  }

  function Open(rows: Tenders): set<int> {
    set id | id in rows && NoBudget(rows[id])
  }

  /** An answer to the query: open rows, as many as the limit allows, in any order. */
  predicate IsAnswer(rows: Tenders, limit: nat, q: seq<int>) {
    && Distinct(q) && (forall id | id in q :: id in Open(rows))
    && |q| == if |Open(rows)| < limit then |Open(rows)| else limit
  }

  /** The database's choice of rows; the round counts the queries, so equal queries may be answered differently. */
  type Database = (Tenders, nat, nat) -> seq<int>

  ghost predicate Answers(db: Database) {
    forall rows, limit, round :: IsAnswer(rows, limit, db(rows, limit, round))
  }

  /** The loop is for tenders without a usable value; a budget of blanks is no budget either. */
  predicate Target(t: Tender) {
    && ValueIsEmpty(t.value)
    && (t.budget.None? || Strip(t.budget.value) == "")
  }

  /** For a row that the query returns the loop looks at the value alone: it is tried unless its value is given. */
  lemma TargetIff(t: Tender)
    requires t.budget == None || t.budget == Some("")
    ensures Target(t) <==> !HasNonZeroDigit(t.value) || TwoDots(t.value)
  {
    ValueIsEmptyIff(t.value);
  }

  // ---------------------------------------------------------------- attempts

  /** The model's estimate of one tender, or None when the call fails or returns nothing. */
  type Estimator = int -> Option<string>

  function Attempt(rows: Tenders, id: int, estimate: Estimator): Tenders {
    if id in rows && estimate(id).Some? then rows[id := rows[id].(budget := estimate(id))] else rows
  }

  function AttemptAll(rows: Tenders, ids: seq<int>, estimate: Estimator): Tenders {
    if |ids| == 0 then rows else Attempt(AttemptAll(rows, ids[..|ids| - 1], estimate), ids[|ids| - 1], estimate)
  }

  function Successes(ids: seq<int>, estimate: Estimator): nat {
    if |ids| == 0 then 0
    else Successes(ids[..|ids| - 1], estimate) + if estimate(ids[|ids| - 1]).Some? then 1 else 0
  }

  /** Attempts change the budget of the attempted rows whose estimate succeeded, and nothing else. */
  lemma {:induction false} AttemptedRow(rows: Tenders, ids: seq<int>, estimate: Estimator, id: int)
    ensures AttemptAll(rows, ids, estimate).Keys == rows.Keys
    ensures id in rows ==> AttemptAll(rows, ids, estimate)[id] ==
                           if id in ids && estimate(id).Some? then rows[id].(budget := estimate(id)) else rows[id]
  {
    if |ids| > 0 {
      AttemptedRow(rows, ids[..|ids| - 1], estimate, id);
      assert ids == ids[..|ids| - 1] + [ids[|ids| - 1]];
    }
  }

  lemma {:induction false} AttemptAllAppend(rows: Tenders, a: seq<int>, b: seq<int>, estimate: Estimator)
    ensures AttemptAll(rows, a + b, estimate) == AttemptAll(AttemptAll(rows, a, estimate), b, estimate)
    ensures Successes(a + b, estimate) == Successes(a, estimate) + Successes(b, estimate)
  {
    if |b| == 0 {
      assert a + b == a;
    } else {
      assert (a + b)[..|a + b| - 1] == a + b[..|b| - 1];
      AttemptAllAppend(rows, a, b[..|b| - 1], estimate);
    }
  }

  // ---------------------------------------------------------------- the loop

  /** The scan of one answer: what is then marked as processed, and the targets, at most `remaining` of them. */
  function Scan(rows: Tenders, q: seq<int>, processed: set<int>, targets: seq<int>,
                remaining: nat): (set<int>, seq<int>)
    requires forall id | id in q :: id in rows
    decreases |q|
  {
    if |q| == 0 || |targets| >= remaining then (processed, targets)
    else
      var id := q[0];
      assert id in q;
      if id in processed then Scan(rows, q[1..], processed, targets, remaining)
      else Scan(rows, q[1..], processed + {id}, if Target(rows[id]) then targets + [id] else targets, remaining)
  }

  datatype Progress = Progress(rows: Tenders, processed: set<int>, attempted: seq<int>, estimated: nat)

  /** How many rows the loop has not seen yet. */
  function Unseen(p: Progress): nat {
    |p.rows.Keys - p.processed|
  }

  /** One turn on the answer `q`. */
  function Turn(p: Progress, q: seq<int>, estimate: Estimator, remaining: nat): Progress
    requires forall id | id in q :: id in p.rows
  {
    var (seen, targets) := Scan(p.rows, q, p.processed, [], remaining);
    Progress(AttemptAll(p.rows, targets, estimate), seen, p.attempted + targets,
        p.estimated + Successes(targets, estimate))
  }

  /** The turns from `p` on, and the answer after which the loop gave up, if it did. */
  ghost function Loop(p: Progress, db: Database, estimate: Estimator, limit: nat, round: nat): (Progress, seq<int>)
    requires Answers(db) && p.processed <= p.rows.Keys
    decreases Unseen(p)
  {
    if p.estimated >= limit then (p, [])
    else
      var remaining := limit - p.estimated;
      var q := db(p.rows, 4 * remaining, round);
      AnswerIsOpen(p.rows, 4 * remaining, q);
      var next := Turn(p, q, estimate, remaining);
      TurnAdvances(p, q, estimate, remaining);
      if |next.attempted| == |p.attempted| then (next, q) else Loop(next, db, estimate, limit, round + 1)
  }

  ghost function Run(start: Tenders, db: Database, estimate: Estimator, limit: nat): (Progress, seq<int>)
    requires Answers(db)
  {
    Loop(Progress(start, {}, [], 0), db, estimate, limit, 0)
  }

  lemma AnswerIsOpen(rows: Tenders, limit: nat, q: seq<int>)
    requires IsAnswer(rows, limit, q)
    ensures forall id | id in q :: id in rows && NoBudget(rows[id])
  {
  }

  /** What the scan promises, from any point of it. */
  predicate Scanned(rows: Tenders, q: seq<int>, processed: set<int>, before: seq<int>, seen: set<int>,
                    targets: seq<int>) {
    && processed <= seen && (forall id | id in seen :: id in processed || id in q)
    && before <= targets
    && (forall id | id in targets ::
        id in before || (id in q && id in rows && id !in processed && id in seen && Target(rows[id])))
    && (forall id | id in q && id in seen && id !in processed && id in rows && Target(rows[id]) :: id in targets)
  }

  lemma {:induction false} ScanLaws(rows: Tenders, q: seq<int>, processed: set<int>, before: seq<int>, remaining: nat)
    requires (forall id | id in q :: id in rows) && |before| <= remaining
    ensures var (seen, targets) := Scan(rows, q, processed, before, remaining);
            && Scanned(rows, q, processed, before, seen, targets) && |targets| <= remaining
            && (|targets| < remaining ==> forall id | id in q :: id in seen)
            && (Distinct(before) && (forall id | id in before :: id in processed) ==> Distinct(targets))
    decreases |q|
  {
    hide Target;
    if |q| > 0 && |before| < remaining {
      var id, rest := q[0], q[1..];
      assert q == [id] + rest;
      if id in processed {
        ScanLaws(rows, rest, processed, before, remaining);
      } else if Target(rows[id]) {
        ScanLaws(rows, rest, processed + {id}, before + [id], remaining);
        assert forall x :: x in before + [id] <==> x in before || x == id;
        var targets := Scan(rows, rest, processed + {id}, before + [id], remaining).1;
        assert (before + [id])[..|before|] == before && targets[..|before|] == before;
        assert targets[|before|] == id;
      } else {
        ScanLaws(rows, rest, processed + {id}, before, remaining);
      }
    }
  }

  /** A turn with targets leaves fewer rows unseen. */
  lemma TurnAdvances(p: Progress, q: seq<int>, estimate: Estimator, remaining: nat)
    requires p.processed <= p.rows.Keys && forall id | id in q :: id in p.rows
    ensures var next := Turn(p, q, estimate, remaining);
            && next.processed <= next.rows.Keys
            && (|next.attempted| != |p.attempted| ==> Unseen(next) < Unseen(p))
  {
    hide Target, AttemptAll;
    ScanLaws(p.rows, q, p.processed, [], remaining);
    var (seen, targets) := Scan(p.rows, q, p.processed, [], remaining);
    AttemptedRow(p.rows, targets, estimate, 0);
    assert forall id | id in seen :: id in p.rows.Keys;
    if |targets| > 0 {
      assert targets[0] in targets;
      Smaller(p.rows.Keys, p.processed, seen, targets[0]);
    }
  }

  class Store {
    var rows: Tenders

    constructor (rows: Tenders)
      ensures this.rows == rows
    {
      this.rows := rows;
    }

    method PickTargets(candidates: seq<int>, processed: set<int>, remaining: nat)
      returns (seen: set<int>, targets: seq<int>)
      requires remaining > 0 && forall id | id in candidates :: id in rows
      ensures (seen, targets) == Scan(rows, candidates, processed, [], remaining)
      ensures Scanned(rows, candidates, processed, [], seen, targets) && |targets| <= remaining && Distinct(targets)
      ensures |targets| < remaining ==> forall id | id in candidates :: id in seen
    {
      hide Target;
      seen, targets := processed, [];
      ScanLaws(rows, candidates, processed, [], remaining);
      for i := 0 to |candidates|
        invariant |targets| < remaining
        invariant Scan(rows, candidates[i..], seen, targets, remaining) ==
            Scan(rows, candidates, processed, [], remaining)
      {
        var id := candidates[i];
        assert candidates[i..][0] == id && candidates[i..][1..] == candidates[i + 1..];
        if id in seen { continue; }
        seen := seen + {id};
        if Target(rows[id]) {
          targets := targets + [id];
          if |targets| >= remaining { return; }
        }
      }
    }

    method AttemptTargets(targets: seq<int>, estimate: Estimator) returns (successes: nat)
      requires forall id | id in targets :: id in rows
      modifies this
      ensures rows == AttemptAll(old(rows), targets, estimate) && successes == Successes(targets, estimate)
    {
      successes := 0;
      for i := 0 to |targets|
        invariant rows == AttemptAll(old(rows), targets[..i], estimate) &&
            successes == Successes(targets[..i], estimate)
        invariant rows.Keys == old(rows).Keys
      {
        var id := targets[i];
        assert targets[..i + 1][..i] == targets[..i];
        var outcome := estimate(id);
        if outcome.Some? {
          rows := rows[id := rows[id].(budget := outcome)];
          successes := successes + 1;
        }
      }
      assert targets[..|targets|] == targets;
    }

    /**
     * `_estimate_budgets_table`: the tenders attempted, none twice, all without value and budget; the table afterwards;
     * and, when the batch limit is not used up, the answer after which the loop gave up, which held no untried target.
     */
    method EstimateBudgets(db: Database, estimate: Estimator, limit: nat)
      returns (estimated: nat, attempted: seq<int>, last: seq<int>)
      requires Answers(db)
      modifies this
      ensures var (p, q) := Run(old(rows), db, estimate, limit);
              p.rows == rows && p.attempted == attempted && p.estimated == estimated && last == q
      ensures Distinct(attempted) && forall id | id in attempted :: Eligible(old(rows), id)
      ensures rows == AttemptAll(old(rows), attempted, estimate)
      ensures estimated == Successes(attempted, estimate) <= limit
      ensures estimated < limit ==> GaveUp(rows, attempted, last, 4 * (limit - estimated))
    {
      hide *;
      ghost var start := rows;
      var processed: set<int> := {};
      var queries := 0;
      estimated, attempted, last := 0, [], [];
      NothingYet(start, db, estimate, limit);
      while estimated < limit
        invariant processed <= rows.Keys
        invariant Loop(Progress(rows, processed, attempted, estimated), db, estimate, limit, queries) ==
            Run(start, db, estimate, limit)
        invariant last == []
        decreases Unseen(Progress(rows, processed, attempted, estimated))
      {
        var remaining := limit - estimated;
        ghost var before := Progress(rows, processed, attempted, estimated);
        var candidates := db(rows, 4 * remaining, queries);
        AnswerGiven(db, rows, 4 * remaining, queries);
        var targets;
        processed, targets := PickTargets(candidates, processed, remaining);
        ScannedAreRows(before, candidates, remaining);
        var successes := AttemptTargets(targets, estimate);
        attempted, estimated := attempted + targets, estimated + successes;
        TurnIs(before, candidates, estimate, remaining);
        LoopStep(before, db, estimate, limit, queries, candidates);
        queries := queries + 1;
        if |targets| == 0 {
          last := candidates;
          break;
        }
      }
      if estimated >= limit {
        LoopIsDone(Progress(rows, processed, attempted, estimated), db, estimate, limit, queries);
      }
      RunLaws(start, db, estimate, limit);
    }
  }

  lemma NothingYet(start: Tenders, db: Database, estimate: Estimator, limit: nat)
    requires Answers(db)
    ensures Loop(Progress(start, {}, [], 0), db, estimate, limit, 0) == Run(start, db, estimate, limit)
  {
  }

  lemma AnswerIs(db: Database, rows: Tenders, limit: nat, round: nat)
    requires Answers(db)
    ensures IsAnswer(rows, limit, db(rows, limit, round))
  {
    hide IsAnswer;
  }

  lemma AnswerGiven(db: Database, rows: Tenders, limit: nat, round: nat)
    requires Answers(db)
    ensures forall id | id in db(rows, limit, round) :: id in rows
  {
    AnswerIsOpen(rows, limit, db(rows, limit, round));
  }

  lemma LoopIsDone(p: Progress, db: Database, estimate: Estimator, limit: nat, round: nat)
    requires Answers(db) && p.processed <= p.rows.Keys && p.estimated >= limit
    ensures Loop(p, db, estimate, limit, round) == (p, [])
  {
  }

  /** The loop takes one turn on the answer it gets, and goes on if that had targets. */
  lemma LoopStep(p: Progress, db: Database, estimate: Estimator, limit: nat, round: nat, q: seq<int>)
    requires Answers(db) && p.processed <= p.rows.Keys && p.estimated < limit
    requires q == db(p.rows, 4 * (limit - p.estimated), round) && forall id | id in q :: id in p.rows
    ensures var next := Turn(p, q, estimate, limit - p.estimated);
            && next.processed <= next.rows.Keys
            && (|next.attempted| != |p.attempted| ==>
                  Unseen(next) < Unseen(p))
            && Loop(p, db, estimate, limit, round) ==
                 if |next.attempted| == |p.attempted| then (next, q) else Loop(next, db, estimate, limit, round + 1)
  {
    hide Answers, Turn, Unseen;
    TurnAdvances(p, q, estimate, limit - p.estimated);
  }

  lemma TurnIs(p: Progress, q: seq<int>, estimate: Estimator, remaining: nat)
    requires forall id | id in q :: id in p.rows
    ensures var (seen, targets) := Scan(p.rows, q, p.processed, [], remaining);
            Turn(p, q, estimate, remaining) ==
              Progress(AttemptAll(p.rows, targets, estimate), seen, p.attempted + targets,
                       p.estimated + Successes(targets, estimate))
  {
  }

  lemma ScannedAreRows(p: Progress, q: seq<int>, remaining: nat)
    requires forall id | id in q :: id in p.rows
    ensures forall id | id in Scan(p.rows, q, p.processed, [], remaining).1 :: id in p.rows
  {
    hide Scan;
    ScanLaws(p.rows, q, p.processed, [], remaining);
  }

  // ---------------------------------------------------------------- what every run keeps

  /** No budget, no usable value: what the loop is for. */
  predicate Eligible(rows: Tenders, id: int) {
    id in rows && NoBudget(rows[id]) && Target(rows[id])
  }

  /** The loop stopped on an answer without an untried target. */
  predicate GaveUp(rows: Tenders, attempted: seq<int>, last: seq<int>, limit: nat) {
    IsAnswer(rows, limit, last) && forall id | id in last :: id in rows && (Target(rows[id]) ==> id in attempted)
  }

  /** Where the loop stands: what was attempted, and that every eligible row it has seen was. */
  ghost predicate Going(start: Tenders, p: Progress, estimate: Estimator) {
    && p.processed <= start.Keys && p.rows == AttemptAll(start, p.attempted, estimate)
    && p.estimated == Successes(p.attempted, estimate)
    && Distinct(p.attempted) && (forall id | id in p.attempted :: id in p.processed && Eligible(start, id))
    && (forall id | id in p.processed && Eligible(start, id) :: id in p.attempted)
  }

  /** A row seen for the first time is as it was at the start. */
  lemma NewRowIsOriginal(start: Tenders, p: Progress, estimate: Estimator, id: int)
    requires Going(start, p, estimate) && id in p.rows && id !in p.attempted
    ensures id in start && p.rows[id] == start[id]
  {
    AttemptedRow(start, p.attempted, estimate, id);
  }

  lemma GoingWith(start: Tenders, p: Progress, estimate: Estimator, processed: set<int>, targets: seq<int>)
    requires Going(start, p, estimate) && p.processed <= processed <= start.Keys && Distinct(targets)
    requires forall id | id in targets :: id in processed && id !in p.attempted && Eligible(start, id)
    requires forall id | id in processed && Eligible(start, id) :: id in p.processed || id in targets
    ensures Going(start, Progress(AttemptAll(p.rows, targets, estimate), processed, p.attempted + targets,
                                  p.estimated + Successes(targets, estimate)), estimate)
  {
    hide Eligible, AttemptAll, Distinct, Successes;
    DistinctAppend(p.attempted, targets);
    AttemptAllAppend(start, p.attempted, targets, estimate);
    assert forall id :: id in p.attempted + targets <==> id in p.attempted || id in targets;
  }

  lemma TurnKeepsGoing(start: Tenders, p: Progress, q: seq<int>, estimate: Estimator, remaining: nat)
    requires Going(start, p, estimate) && forall id | id in q :: id in p.rows && NoBudget(p.rows[id])
    ensures Going(start, Turn(p, q, estimate, remaining), estimate)
    ensures Turn(p, q, estimate, remaining).estimated <= p.estimated + remaining
  {
    hide Target, NoBudget, AttemptAll, Distinct;
    ScanLaws(p.rows, q, p.processed, [], remaining);
    var (seen, targets) := Scan(p.rows, q, p.processed, [], remaining);
    assert Distinct<int>([]) by { EmptyIsDistinct(); }
    SuccessesAtMost(targets, estimate);
    forall id | id in q && id in seen && id !in p.processed
      ensures id in start && id !in p.attempted && (id in targets <==> Eligible(start, id))
    {
      NewRowIsOriginal(start, p, estimate, id);
    }
    AttemptedRow(start, p.attempted, estimate, 0);
    assert forall id | id in seen :: id in p.processed || id in p.rows.Keys;
    GoingWith(start, p, estimate, seen, targets);
  }

  lemma EmptyIsDistinct()
    ensures Distinct<int>([])
  {
  }

  lemma {:induction false} SuccessesAtMost(ids: seq<int>, estimate: Estimator)
    ensures Successes(ids, estimate) <= |ids|
  {
    if |ids| > 0 { SuccessesAtMost(ids[..|ids| - 1], estimate); }
  }

  /** A turn without targets is one on which the loop gives up. */
  lemma Stalled(start: Tenders, p: Progress, q: seq<int>, estimate: Estimator, remaining: nat)
    requires Going(start, p, estimate) && remaining > 0 && IsAnswer(p.rows, 4 * remaining, q)
    requires forall id | id in q :: id in p.rows && NoBudget(p.rows[id])
    requires |Turn(p, q, estimate, remaining).attempted| == |p.attempted|
    ensures var next := Turn(p, q, estimate, remaining);
            next.rows == p.rows && next.attempted == p.attempted && next.estimated == p.estimated
    ensures GaveUp(p.rows, p.attempted, q, 4 * remaining)
  {
    hide Target, NoBudget, Distinct, IsAnswer;
    ScanLaws(p.rows, q, p.processed, [], remaining);
    forall id | id in q && Target(p.rows[id])
      ensures id in p.attempted
    {
      if id !in p.attempted { NewRowIsOriginal(start, p, estimate, id); }
    }
  }

  lemma {:induction false} LoopLaws(start: Tenders, p: Progress, db: Database, estimate: Estimator, limit: nat,
                                    round: nat)
    requires Answers(db) && p.processed <= p.rows.Keys && Going(start, p, estimate) && p.estimated <= limit
    ensures var (end, last) := Loop(p, db, estimate, limit, round);
            && Going(start, end, estimate) && end.estimated <= limit
            && (end.estimated < limit ==> GaveUp(end.rows, end.attempted, last, 4 * (limit - end.estimated)))
    decreases Unseen(p)
  {
    hide Going, GaveUp, IsAnswer, Turn, NoBudget, Answers, Loop;
    if p.estimated >= limit {
      LoopIsDone(p, db, estimate, limit, round);
    } else {
      var remaining := limit - p.estimated;
      var q := db(p.rows, 4 * remaining, round);
      AnswerIs(db, p.rows, 4 * remaining, round);
      AnswerIsOpen(p.rows, 4 * remaining, q);
      LoopStep(p, db, estimate, limit, round, q);
      TurnKeepsGoing(start, p, q, estimate, remaining);
      var next := Turn(p, q, estimate, remaining);
      if |next.attempted| == |p.attempted| {
        Stalled(start, p, q, estimate, remaining);
      } else {
        LoopLaws(start, next, db, estimate, limit, round + 1);
      }
    }
  }

  /** For every database: each tender is attempted at most once, only eligible ones, and the limit is kept. */
  lemma RunLaws(start: Tenders, db: Database, estimate: Estimator, limit: nat)
    requires Answers(db)
    ensures var (end, last) := Run(start, db, estimate, limit);
            && Distinct(end.attempted) && (forall id | id in end.attempted :: Eligible(start, id))
            && end.rows == AttemptAll(start, end.attempted, estimate)
            && end.estimated == Successes(end.attempted, estimate) <= limit
            && (end.estimated < limit ==> GaveUp(end.rows, end.attempted, last, 4 * (limit - end.estimated)))
  {
    hide Eligible, GaveUp, Loop;
    LoopLaws(start, Progress(start, {}, [], 0), db, estimate, limit, 0);
  }

  // ---------------------------------------------------------------- when an eligible tender is left untried

  /** Open targets the loop has not tried. */
  function Untried(rows: Tenders, attempted: seq<int>): set<int> {
    set id | id in Open(rows) && Target(rows[id]) && id !in attempted
  }

  /** The first open rows by id: one possible answer. */
  function FirstOpen(rows: Tenders, limit: nat): seq<int> {
    var ids := Ascending(Open(rows));
    ids[..if |ids| < limit then |ids| else limit]
  }

  lemma AscendingIsDistinct(q: seq<int>)
    requires StrictlyAscending(q)
    ensures Distinct(q)
  {
  }

  lemma PrefixAnswers(rows: Tenders, s: set<int>, limit: nat)
    requires s <= Open(rows) && (|s| >= limit || s == Open(rows))
    ensures var n := if |s| < limit then |s| else limit; IsAnswer(rows, limit, Ascending(s)[..n])
  {
    hide Open, Ascending, StrictlyAscending, Distinct;
    var n := if |s| < limit then |s| else limit;
    AscendingSlice(Ascending(s), n);
    AscendingIsDistinct(Ascending(s)[..n]);
    Subset(s, Open(rows));
    assert forall id | id in Ascending(s)[..n] :: id in Ascending(s);
  }

  /** While targets are untried, some answer can end the loop exactly when the other open rows can fill it. */
  lemma CanGiveUpIff(rows: Tenders, attempted: seq<int>, limit: nat)
    requires Untried(rows, attempted) != {}
    ensures (exists q :: GaveUp(rows, attempted, q, limit)) <==> |Open(rows) - Untried(rows, attempted)| >= limit
  {
    hide Target, Open;
    var others := Open(rows) - Untried(rows, attempted);
    if q :| GaveUp(rows, attempted, q, limit) {
      GaveUpFills(rows, attempted, q, limit);
    }
    if |others| >= limit {
      PrefixAnswers(rows, others, limit);
      var q := Ascending(others)[..limit];
      forall id | id in q
        ensures id in rows && (Target(rows[id]) ==> id in attempted)
      {
        assert id in Ascending(others);
        OpenIsRow(rows, id);
      }
      assert GaveUp(rows, attempted, q, limit);
    }
  }

  lemma OpenIsRow(rows: Tenders, id: int)
    ensures id in Open(rows) <==> id in rows && NoBudget(rows[id])
  {
  }

  lemma GaveUpFills(rows: Tenders, attempted: seq<int>, q: seq<int>, limit: nat)
    requires GaveUp(rows, attempted, q, limit) && Untried(rows, attempted) != {}
    ensures |q| == limit && |Open(rows) - Untried(rows, attempted)| >= limit
    ensures forall id | id in q :: id in Open(rows) && id !in Untried(rows, attempted)
  {
    hide Target, Open;
    var u := SomeMember(Untried(rows, attempted));
    if |q| == |Open(rows)| { AllListed(Open(rows), q, u); }
    ListFits(Open(rows) - Untried(rows, attempted), q);
  }

  /** A set is at least as large as any list of distinct members. */
  lemma {:induction false} ListFits(s: set<int>, q: seq<int>)
    requires Distinct(q) && forall x | x in q :: x in s
    ensures |q| <= |s|
    decreases |q|
  {
    if |q| > 0 {
      var rest := q[1..];
      assert q == [q[0]] + rest;
      assert forall x | x in rest :: x in s - {q[0]};
      ListFits(s - {q[0]}, rest);
    }
  }

  lemma Smaller(all: set<int>, before: set<int>, after: set<int>, x: int)
    requires before <= after && x in all && x in after && x !in before
    ensures |all - after| < |all - before|
  {
    assert all - after <= all - before - {x};
    Subset(all - after, all - before - {x});
  }

  lemma {:induction false} Subset(a: set<int>, b: set<int>)
    requires a <= b
    ensures |a| <= |b|
    decreases |a|
  {
    if a != {} {
      var x := SomeMember(a);
      Subset(a - {x}, b - {x});
    }
  }

  lemma DistinctAppend(a: seq<int>, b: seq<int>)
    requires Distinct(a) && Distinct(b) && forall x | x in b :: x !in a
    ensures Distinct(a + b)
  {
    forall i, j | 0 <= i < j < |a + b|
      ensures (a + b)[i] != (a + b)[j]
    {
      if i < |a| <= j { assert b[j - |a|] in b; }
    }
  }

  /** A list of as many distinct members as the set has holds them all. */
  lemma {:induction false} AllListed(s: set<int>, q: seq<int>, x: int)
    requires Distinct(q) && |q| == |s| && (forall y | y in q :: y in s) && x in s
    ensures x in q
    decreases |q|
  {
    if |q| == 0 {
      assert false;
    } else if q[0] != x {
      var rest := q[1..];
      assert q == [q[0]] + rest;
      assert forall y | y in rest :: y in s - {q[0]};
      AllListed(s - {q[0]}, rest, x);
    }
  }

  /** Every estimate the model gives is a text. */
  ghost predicate GivesText(estimate: Estimator) {
    forall id :: estimate(id) != Some("")
  }

  /** Open rows that no attempt closes: priced ones, and those whose estimate fails. */
  function Blockers(start: Tenders, estimate: Estimator): set<int> {
    set id | id in Open(start) && (!Target(start[id]) || estimate(id).None?)
  }

  /** The run stops with the batch limit not used up and the eligible `u` never attempted. */
  ghost predicate Starves(start: Tenders, db: Database, estimate: Estimator, limit: nat, u: int) {
    Answers(db) && var p := Run(start, db, estimate, limit).0; p.estimated < limit && u !in p.attempted
  }

  /** An open row that is not an untried target is a blocker. */
  lemma LeftoverBlocks(start: Tenders, attempted: seq<int>, estimate: Estimator, id: int)
    requires GivesText(estimate) && forall x | x in attempted :: Eligible(start, x)
    requires var rows := AttemptAll(start, attempted, estimate); id in Open(rows) && id !in Untried(rows, attempted)
    ensures id in Blockers(start, estimate)
  {
    hide Target;
    AttemptedRow(start, attempted, estimate, id);
    if id in attempted { assert Eligible(start, id) && estimate(id) != Some(""); }
  }

  /** A run that leaves `u` untried is stopped by four other blockers for each estimate the limit still allows. */
  lemma StarvedByBlockers(start: Tenders, db: Database, estimate: Estimator, limit: nat, u: int)
    requires GivesText(estimate) && Eligible(start, u) && Starves(start, db, estimate, limit, u)
    ensures |Blockers(start, estimate) - {u}| >= 4 * (limit - Run(start, db, estimate, limit).0.estimated) >= 4
  {
    hide Target, Open, Run, GaveUp, GivesText, Blockers, Untried, AttemptAll;
    RunLaws(start, db, estimate, limit);
    var (p, last) := Run(start, db, estimate, limit);
    StillUntried(start, p.attempted, estimate, u);
    GaveUpFills(p.rows, p.attempted, last, 4 * (limit - p.estimated));
    forall id | id in last
      ensures id in Blockers(start, estimate) - {u}
    {
      LeftoverBlocks(start, p.attempted, estimate, id);
    }
    GaveUpIsDistinct(p.rows, p.attempted, last, 4 * (limit - p.estimated));
    ListFits(Blockers(start, estimate) - {u}, last);
  }

  lemma GaveUpIsDistinct(rows: Tenders, attempted: seq<int>, q: seq<int>, limit: nat)
    requires GaveUp(rows, attempted, q, limit)
    ensures Distinct(q)
  {
  }

  lemma StillUntried(start: Tenders, attempted: seq<int>, estimate: Estimator, u: int)
    requires Eligible(start, u) && u !in attempted
    ensures u in Untried(AttemptAll(start, attempted, estimate), attempted)
  {
    AttemptedRow(start, attempted, estimate, u);
  }

  /** A database that gives the answer `q` whenever it may. */
  ghost function Stubborn(q: seq<int>): Database {
    (rows: Tenders, limit: nat, round: nat) => if IsAnswer(rows, limit, q) then q else FirstOpen(rows, limit)
  }

  lemma StubbornAnswers(q: seq<int>)
    ensures Answers(Stubborn(q))
  {
    forall rows: Tenders, limit: nat, round: nat
      ensures IsAnswer(rows, limit, Stubborn(q)(rows, limit, round))
    {
      PrefixAnswers(rows, Open(rows), limit);
    }
  }

  lemma {:induction false} AllFail(rows: Tenders, ids: seq<int>, estimate: Estimator)
    requires forall id | id in ids :: estimate(id).None?
    ensures AttemptAll(rows, ids, estimate) == rows && Successes(ids, estimate) == 0
  {
    if |ids| > 0 {
      assert ids == ids[..|ids| - 1] + [ids[|ids| - 1]];
      AllFail(rows, ids[..|ids| - 1], estimate);
    }
  }

  lemma StubbornTurn(p: Progress, q: seq<int>, estimate: Estimator, remaining: nat, u: int)
    requires u !in p.attempted && u !in q
    requires forall id | id in q :: id in p.rows && id in Blockers(p.rows, estimate)
    ensures var next := Turn(p, q, estimate, remaining);
            next.rows == p.rows && next.estimated == p.estimated && u !in next.attempted
  {
    hide Target, NoBudget, Open;
    ScanLaws(p.rows, q, p.processed, [], remaining);
    AllFail(p.rows, Scan(p.rows, q, p.processed, [], remaining).1, estimate);
  }

  predicate Gives(db: Database, rows: Tenders, limit: nat, round: nat, q: seq<int>) {
    db(rows, limit, round) == q
  }

  ghost predicate GivesFrom(db: Database, rows: Tenders, limit: nat, round: nat, q: seq<int>) {
    forall k: nat | k >= round :: Gives(db, rows, limit, k, q)
  }

  lemma StubbornGives(q: seq<int>, rows: Tenders, limit: nat)
    requires IsAnswer(rows, limit, q)
    ensures GivesFrom(Stubborn(q), rows, limit, 0, q)
  {
    hide IsAnswer;
  }

  /** While only blockers are shown, nothing more is estimated and nothing else attempted. */
  lemma {:induction false} StubbornLoop(p: Progress, db: Database, q: seq<int>, estimate: Estimator, limit: nat,
                                        round: nat, u: int)
    requires Answers(db) && p.processed <= p.rows.Keys && p.estimated < limit && u !in p.attempted && u !in q
    requires GivesFrom(db, p.rows, 4 * (limit - p.estimated), round, q)
    requires forall id | id in q :: id in p.rows && id in Blockers(p.rows, estimate)
    ensures var end := Loop(p, db, estimate, limit, round).0; end.estimated == p.estimated && u !in end.attempted
    decreases Unseen(p)
  {
    hide Target, NoBudget, IsAnswer, Open, Turn, Blockers, Answers;
    assert Gives(db, p.rows, 4 * (limit - p.estimated), round, q);
    TurnAdvances(p, q, estimate, limit - p.estimated);
    StubbornTurn(p, q, estimate, limit - p.estimated, u);
    var next := Turn(p, q, estimate, limit - p.estimated);
    if |next.attempted| != |p.attempted| { StubbornLoop(next, db, q, estimate, limit, round + 1, u); }
  }

  /**
   * Exactly when some batch limit and some choice of answers leave the eligible `u` untried with the limit not used up:
   * when four open rows other than `u` are priced or have an estimate that fails.
   */
  lemma StarvesIff(start: Tenders, estimate: Estimator, u: int)
    requires GivesText(estimate) && Eligible(start, u)
    ensures (exists db, limit :: Starves(start, db, estimate, limit, u)) <==> |Blockers(start, estimate) - {u}| >= 4
  {
    hide Blockers, Eligible, GivesText;
    if db, limit :| Starves(start, db, estimate, limit, u) {
      StarvedByBlockers(start, db, estimate, limit, u);
    }
    if |Blockers(start, estimate) - {u}| >= 4 {
      CanStarve(start, estimate, u);
      var q := Ascending(Blockers(start, estimate) - {u})[..4];
      assert Starves(start, Stubborn(q), estimate, 1, u);
    }
  }

  lemma BlockersAreOpen(start: Tenders, estimate: Estimator)
    ensures Blockers(start, estimate) <= Open(start)
  {
  }

  lemma BlockersAreRows(start: Tenders, estimate: Estimator)
    ensures forall id | id in Blockers(start, estimate) :: id in start
  {
  }

  /** The run of the database that keeps answering with four blockers, under a batch limit of one. */
  lemma CanStarve(start: Tenders, estimate: Estimator, u: int)
    requires |Blockers(start, estimate) - {u}| >= 4
    ensures Starves(start, Stubborn(Ascending(Blockers(start, estimate) - {u})[..4]), estimate, 1, u)
  {
    hide Blockers, Open, IsAnswer, Loop, Stubborn, Gives, Ascending;
    var s := Blockers(start, estimate) - {u};
    var q := Ascending(s)[..4];
    BlockersAreOpen(start, estimate);
    PrefixAnswers(start, s, 4);
    StubbornAnswers(q);
    forall id | id in q
      ensures id in s
    {
      assert id in Ascending(s);
    }
    BlockersAreRows(start, estimate);
    StubbornGives(q, start, 4);
    StubbornLoop(Progress(start, {}, [], 0), Stubborn(q), q, estimate, 1, 0, u);
  }

  /** Four priced tenders starve a fifth without value, whatever the model would estimate. */
  lemma PricedTendersStarve(estimate: Estimator)
    requires GivesText(estimate)
    ensures var priced, unpriced := Tender("5", None, true), Tender("", None, true);
            exists db, limit ::
              Starves(map[1 := priced, 2 := priced, 3 := priced, 4 := priced, 5 := unpriced], db, estimate, limit, 5)
  {
    hide Starves;
    var priced, unpriced := Tender("5", None, true), Tender("", None, true);
    var rows := map[1 := priced, 2 := priced, 3 := priced, 4 := priced, 5 := unpriced];
    assert "5"[0] == '5';
    ValueIsEmptyIff("5");
    assert !Target(priced) && Eligible(rows, 5);
    assert {1, 2, 3, 4} <= Blockers(rows, estimate) - {5};
    Subset({1, 2, 3, 4}, Blockers(rows, estimate) - {5});
    StarvesIff(rows, estimate, 5);
  }
}
