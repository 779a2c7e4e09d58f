/** Fastest-growing companies: events grouped into two windows, growth scores and their bands, and the footprint. */
module Growth {
  import opened Outcomes
  import opened Ordered
  import opened Canonical

  datatype Kind = Permit | Award

  datatype Event = Event(kind: Kind, id: int, raw: int, date: int, value: real)

  datatype Period = Period(today: int, lookback: int)

  datatype Window = Window(current: seq<Event>, previous: seq<Event>)

  type Mapping = map<int, Option<int>>

  type Groups = map<int, Window>

  /** Where one event goes. */
  datatype Place = Now(cid: int) | Before(cid: int) | Outside(cid: int) | Unresolved

  function Resolve(mapping: Mapping, raw: int): Option<int> {
    if raw in mapping then mapping[raw] else None
  }

  function PlaceOf(e: Event, mapping: Mapping, p: Period): Place {
    var currentStart := p.today - p.lookback;
    match Resolve(mapping, e.raw)
    case None => Unresolved
    case Some(cid) =>
      if currentStart <= e.date <= p.today then Now(cid)
      else if currentStart - p.lookback <= e.date < currentStart then Before(cid)
      else Outside(cid)
  }

  function WindowOf(g: Groups, cid: int): Window {
    if cid in g then g[cid] else Window([], [])
  }

  function Put(g: Groups, place: Place, e: Event): Groups {
    match place
    case Now(cid) => g[cid := WindowOf(g, cid).(current := WindowOf(g, cid).current + [e])]
    case Before(cid) => g[cid := WindowOf(g, cid).(previous := WindowOf(g, cid).previous + [e])]
    case _ => g
  }

  function Grouped(events: seq<Event>, mapping: Mapping, p: Period): Groups {
    if |events| == 0 then map[]
    else
      var e := events[|events| - 1];
      Put(Grouped(events[..|events| - 1], mapping, p), PlaceOf(e, mapping, p), e)
  }

  /** The events of one place, in order. */
  function Pick(events: seq<Event>, mapping: Mapping, p: Period, place: Place): seq<Event> {
    if |events| == 0 then []
    else
      var e := events[|events| - 1];
      var rest := Pick(events[..|events| - 1], mapping, p, place);
      if PlaceOf(e, mapping, p) == place then rest + [e] else rest
  }

  /** Resolved events in neither window. */
  function OutsideCount(events: seq<Event>, mapping: Mapping, p: Period): nat {
    if |events| == 0 then 0
    else
      var e := events[|events| - 1];
      OutsideCount(events[..|events| - 1], mapping, p) + if PlaceOf(e, mapping, p).Outside? then 1 else 0
  }

  method GroupEvents(events: seq<Event>, mapping: Mapping, p: Period) returns (groups: Groups, unresolved: nat)
    ensures groups == Grouped(events, mapping, p) && unresolved == |Pick(events, mapping, p, Unresolved)|
  {
    groups, unresolved := map[], 0;
    for i := 0 to |events|
      invariant groups == Grouped(events[..i], mapping, p)
      invariant unresolved == |Pick(events[..i], mapping, p, Unresolved)|
    {
      assert events[..i + 1][..i] == events[..i];
      var place := PlaceOf(events[i], mapping, p);
      if place.Unresolved? {
        unresolved := unresolved + 1;
      } else {
        groups := Put(groups, place, events[i]);
      }
    }
    assert events[..|events|] == events;
  }

  /** A company's windows hold exactly its events of each window; a company without any has no group. */
  lemma {:induction false} WindowsHold(events: seq<Event>, mapping: Mapping, p: Period, cid: int)
    ensures var g := Grouped(events, mapping, p);
            && WindowOf(g, cid) == Window(Pick(events, mapping, p, Now(cid)), Pick(events, mapping, p, Before(cid)))
            && (cid in g <==> WindowOf(g, cid) != Window([], []))
  {
    if |events| > 0 { WindowsHold(events[..|events| - 1], mapping, p, cid); }
  }

  function Size(g: Groups, cid: int): nat {
    |WindowOf(g, cid).current| + |WindowOf(g, cid).previous|
  }

  function Sizes(g: Groups): int -> nat {
    cid => Size(g, cid)
  }

  lemma OneMoreEvent(g: Groups, cid: int, w: Window)
    requires |w.current| + |w.previous| == Size(g, cid) + 1
    ensures SumOver(Sizes(g[cid := w]), g[cid := w].Keys) == SumOver(Sizes(g), g.Keys) + 1
  {
    SumOneMore(Sizes(g), Sizes(g[cid := w]), g.Keys, cid);
    assert g[cid := w].Keys == g.Keys + {cid};
  }

  /** Every event is unresolved, out of both windows, or in exactly one window of one group. */
  lemma {:induction false} EventsConserved(events: seq<Event>, mapping: Mapping, p: Period)
    ensures var g := Grouped(events, mapping, p);
            |events| == |Pick(events, mapping, p, Unresolved)| + OutsideCount(events, mapping, p) +
                SumOver(Sizes(g), g.Keys)
  {
    if |events| > 0 {
      var init, e := events[..|events| - 1], events[|events| - 1];
      EventsConserved(init, mapping, p);
      var g := Grouped(init, mapping, p);
      match PlaceOf(e, mapping, p)
      case Now(cid) => OneMoreEvent(g, cid, WindowOf(g, cid).(current := WindowOf(g, cid).current + [e]));
      case Before(cid) => OneMoreEvent(g, cid, WindowOf(g, cid).(previous := WindowOf(g, cid).previous + [e]));
      case _ =>
    }
  }

  // ---------------------------------------------------------------- candidates

  /** `round(x, 4)`, `round(x, 2)` and `math.log1p`. */
  datatype Lib = Lib(round4: real -> real, round2: real -> real, log1p: real -> real)

  /** `math.log1p`: zero at zero and increasing on its domain, which starts above minus one. */
  ghost predicate Log1pLike(log1p: real -> real) {
    log1p(0.0) == 0.0 && forall x, y | -1.0 < x < y :: log1p(x) < log1p(y)
  }

  datatype Row = Row(company: int, current: nat, previous: nat, relative: real, recency: real, valueDelta: real)

  datatype Failure = EmptyWindow | DivisionByZero

  function Max(a: int, b: int): int {
    if a < b then b else a
  }

  function RMax(a: real, b: real): real {
    if a < b then b else a
  }

  function Delta(row: Row): int {
    row.current - row.previous
  }

  function Latest(events: seq<Event>): int
    requires |events| > 0
  {
    if |events| == 1 then events[0].date else Max(events[0].date, Latest(events[1..]))
  }

  function Value(events: seq<Event>): real {
    if |events| == 0 then 0.0 else events[0].value + Value(events[1..])
  }

  function RowOf(cid: int, w: Window, p: Period, lib: Lib): Row
    requires |w.current| > 0
  {
    var delta := |w.current| - |w.previous|;
    Row(cid, |w.current|, |w.previous|,
        lib.round4(delta as real / Max(|w.previous|, 1) as real),
        RMax(0.0, 1.0 - (p.today - Latest(w.current)) as real / Max(1, p.lookback) as real),
        RMax(0.0, Value(w.current) - Value(w.previous)))
  }

  /** The latest of an empty window is an error, which only a minimum activity below one can reach. */
  function Candidates(g: Groups, ids: seq<int>, known: set<int>, minimum: int, p: Period,
                      lib: Lib): Result<seq<Row>, Failure> {
    if |ids| == 0 then Ok([])
    else match Candidates(g, ids[..|ids| - 1], known, minimum, p, lib)
      case Err(f) => Err(f)
      case Ok(rows) =>
        var cid := ids[|ids| - 1];
        var w := WindowOf(g, cid);
        if |w.current| < minimum || cid !in known then Ok(rows)
        else if |w.current| == 0 then Err(EmptyWindow)
        else Ok(rows + [RowOf(cid, w, p, lib)])
  }

  // ---------------------------------------------------------------- scores

  datatype Score = Score(volume: real, growth: real, recency: real, economy: real)

  function Sum(s: Score): real {
    s.volume + s.growth + s.recency + s.economy
  }

  function MaxDelta(rows: seq<Row>): int
    requires |rows| > 0
  {
    var d := Max(0, Delta(rows[0]));
    if |rows| == 1 then d else Max(d, MaxDelta(rows[1..]))
  }

  function MaxValue(rows: seq<Row>): real
    requires |rows| > 0
  {
    if |rows| == 1 then rows[0].valueDelta else RMax(rows[0].valueDelta, MaxValue(rows[1..]))
  }

  function ScoreRow(row: Row, maxDelta: int, maxValue: real, lib: Lib): Score
    requires maxDelta > 0 && (maxValue > 0.0 ==> lib.log1p(maxValue) != 0.0)
  {
    var capped := if RMax(row.relative, 0.0) < 3.0 then RMax(row.relative, 0.0) else 3.0;
    Score(45.0 * Max(0, Delta(row)) as real / maxDelta as real,
          25.0 * capped / 3.0,
          20.0 * row.recency,
          10.0 * if maxValue > 0.0 then lib.log1p(row.valueDelta) / lib.log1p(maxValue) else 0.0)
  }

  /** The scoring pass: dividing by the largest increase raises when no candidate increased. */
  method ScoreCandidates(rows: seq<Row>, lib: Lib) returns (r: Result<seq<Score>, Failure>)
    requires forall x | x > 0.0 :: lib.log1p(x) > 0.0
    ensures r.Err? <==> |rows| > 0 && forall i | 0 <= i < |rows| :: Delta(rows[i]) <= 0
    ensures r.Err? ==> r.error == DivisionByZero
    ensures r.Ok? ==> |r.value| == |rows| &&
                      forall i | 0 <= i < |rows| ::
                          MaxDelta(rows) > 0 && (MaxValue(rows) > 0.0 ==> lib.log1p(MaxValue(rows)) != 0.0) &&
                                                    r.value[i] == ScoreRow(rows[i], MaxDelta(rows), MaxValue(rows), lib)
  {
    if |rows| == 0 { return Ok([]); }
    var maxDelta, maxValue := MaxDelta(rows), MaxValue(rows);
    MaxDeltaIs(rows);
    var scores: seq<Score> := [];
    for i := 0 to |rows|
      invariant |scores| == i && (i > 0 ==> maxDelta > 0)
      invariant forall j | 0 <= j < i :: scores[j] == ScoreRow(rows[j], maxDelta, maxValue, lib)
    {
      if maxDelta == 0 { return Err(DivisionByZero); }
      scores := scores + [ScoreRow(rows[i], maxDelta, maxValue, lib)];
    }
    r := Ok(scores);
  }

  lemma {:induction false} MaxDeltaIs(rows: seq<Row>)
    requires |rows| > 0
    ensures MaxDelta(rows) >= 0 && forall i | 0 <= i < |rows| :: Delta(rows[i]) <= MaxDelta(rows)
    ensures MaxDelta(rows) > 0 ==> exists i :: 0 <= i < |rows| && Delta(rows[i]) == MaxDelta(rows)
  {
    if |rows| > 1 {
      MaxDeltaIs(rows[1..]);
      assert rows == [rows[0]] + rows[1..];
      if MaxDelta(rows[1..]) > 0 {
        var i :| 0 <= i < |rows[1..]| && Delta(rows[1..][i]) == MaxDelta(rows[1..]);
        assert Delta(rows[i + 1]) == MaxDelta(rows[1..]);
      }
    }
  }

  lemma {:induction false} MaxValueIs(rows: seq<Row>)
    requires |rows| > 0
    ensures forall i | 0 <= i < |rows| :: rows[i].valueDelta <= MaxValue(rows)
    ensures exists i :: 0 <= i < |rows| && rows[i].valueDelta == MaxValue(rows)
  {
    if |rows| == 1 {
      assert rows[0].valueDelta == MaxValue(rows);
    } else {
      MaxValueIs(rows[1..]);
      assert rows == [rows[0]] + rows[1..];
      var i :| 0 <= i < |rows[1..]| && rows[1..][i].valueDelta == MaxValue(rows[1..]);
      assert rows[i + 1].valueDelta == MaxValue(rows[1..]);
      assert rows[0].valueDelta == MaxValue(rows) || rows[i + 1].valueDelta == MaxValue(rows);
    }
  }

  // ---------------------------------------------------------------- bands

  predicate Bounded(row: Row) {
    0.0 <= row.recency <= 1.0 && row.valueDelta >= 0.0
  }

  predicate InBand(s: Score) {
    && 0.0 <= s.volume <= 45.0 && 0.0 <= s.growth <= 25.0 && 0.0 <= s.recency <= 20.0 && 0.0 <= s.economy <= 10.0
    && 0.0 <= Sum(s) <= 100.0
  }

  lemma QuotientInUnit(a: real, b: real)
    requires 0.0 <= a <= b && b > 0.0
    ensures 0.0 <= a / b <= 1.0 && (a == b ==> a / b == 1.0)
  {
  }

  lemma QuotientAtMost45(a: real, b: real)
    requires 0.0 <= a <= 45.0 * b && b > 0.0
    ensures 0.0 <= a / b <= 45.0 && (a == 45.0 * b ==> a / b == 45.0)
  {
  }

  lemma VolumeShare(d: int, maxDelta: int)
    requires 0 <= d <= maxDelta && maxDelta > 0
    ensures 0.0 <= 45.0 * d as real / maxDelta as real <= 45.0
    ensures d == maxDelta ==> 45.0 * d as real / maxDelta as real == 45.0
  {
    assert 45.0 * d as real <= 45.0 * maxDelta as real;
    QuotientAtMost45(45.0 * d as real, maxDelta as real);
  }

  /** Each component of a scored candidate stays in its band; the largest increases score 45 and 10. */
  lemma ScoreBands(rows: seq<Row>, i: nat, lib: Lib)
    requires i < |rows| && Log1pLike(lib.log1p) && MaxDelta(rows) > 0 && forall j | 0 <= j < |rows| :: Bounded(rows[j])
    ensures var s := ScoreRow(rows[i], MaxDelta(rows), MaxValue(rows), lib);
            && InBand(s)
            && (Delta(rows[i]) == MaxDelta(rows) ==> s.volume == 45.0)
            && (rows[i].valueDelta == MaxValue(rows) > 0.0 ==> s.economy == 10.0)
  {
    MaxDeltaIs(rows);
    MaxValueIs(rows);
    VolumeShare(Max(0, Delta(rows[i])), MaxDelta(rows));
    if MaxValue(rows) > 0.0 {
      var v, top := rows[i].valueDelta, MaxValue(rows);
      assert v <= top && lib.log1p(0.0) < lib.log1p(top);
      assert 0.0 < v ==> lib.log1p(0.0) < lib.log1p(v);
      assert v < top ==> lib.log1p(v) < lib.log1p(top);
      QuotientInUnit(lib.log1p(rows[i].valueDelta), lib.log1p(MaxValue(rows)));
    }
  }

  lemma {:induction false} LatestIsOne(events: seq<Event>)
    requires |events| > 0
    ensures exists e :: e in events && e.date == Latest(events)
  {
    if |events| == 1 {
      assert events[0] in events;
    } else {
      LatestIsOne(events[1..]);
      var e :| e in events[1..] && e.date == Latest(events[1..]);
      assert e in events && events[0] in events;
    }
  }

  lemma {:induction false} PickedBelong(events: seq<Event>, mapping: Mapping, p: Period, place: Place, e: Event)
    ensures e in Pick(events, mapping, p, place) <==> e in events && PlaceOf(e, mapping, p) == place
  {
    if |events| > 0 {
      PickedBelong(events[..|events| - 1], mapping, p, place, e);
      assert events == events[..|events| - 1] + [events[|events| - 1]];
    }
  }

  /** A candidate's own numbers are bounded because its current events lie in the current window. */
  lemma CandidateIsBounded(events: seq<Event>, mapping: Mapping, p: Period, cid: int, lib: Lib)
    requires |WindowOf(Grouped(events, mapping, p), cid).current| > 0
    ensures Bounded(RowOf(cid, WindowOf(Grouped(events, mapping, p), cid), p, lib))
  {
    WindowsHold(events, mapping, p, cid);
    var current := Pick(events, mapping, p, Now(cid));
    LatestIsOne(current);
    var e :| e in current && e.date == Latest(current);
    PickedBelong(events, mapping, p, Now(cid), e);
    QuotientNonNegative((p.today - e.date) as real, Max(1, p.lookback) as real);
  }

  lemma QuotientNonNegative(a: real, b: real)
    requires a >= 0.0 && b > 0.0
    ensures a / b >= 0.0
  {
  }

  lemma {:induction false} CandidatesAreRows(g: Groups, ids: seq<int>, known: set<int>, minimum: int, p: Period,
                                             lib: Lib, i: nat)
    requires Candidates(g, ids, known, minimum, p, lib).Ok? && i < |Candidates(g, ids, known, minimum, p, lib).value|
    ensures var row := Candidates(g, ids, known, minimum, p, lib).value[i];
            && row.company in ids && |WindowOf(g, row.company).current| > 0
            && row == RowOf(row.company, WindowOf(g, row.company), p, lib)
  {
    if |ids| > 0 {
      var init := ids[..|ids| - 1];
      assert ids == init + [ids[|ids| - 1]];
      if i < |Candidates(g, init, known, minimum, p, lib).value| {
        CandidatesAreRows(g, init, known, minimum, p, lib, i);
      }
    }
  }

  /** A known company with enough current events. */
  predicate Qualifies(g: Groups, ids: seq<int>, known: set<int>, minimum: int, cid: int) {
    cid in ids && cid in known && |WindowOf(g, cid).current| >= minimum
  }

  /** With a minimum activity of at least one, listing never fails and lists exactly the rows of the companies that
      qualify. */
  lemma {:induction false} CandidatesIff(g: Groups, ids: seq<int>, known: set<int>, minimum: int, p: Period, lib: Lib,
                                         x: Row)
    requires minimum > 0
    ensures var rows := Candidates(g, ids, known, minimum, p, lib);
            rows.Ok? && (x in rows.value <==>
                         Qualifies(g, ids, known, minimum, x.company) &&
                             x == RowOf(x.company, WindowOf(g, x.company), p, lib))
  {
    hide RowOf;
    if |ids| > 0 {
      var init, last := ids[..|ids| - 1], ids[|ids| - 1];
      assert ids == init + [last];
      CandidatesIff(g, init, known, minimum, p, lib, x);
      if |WindowOf(g, last).current| >= minimum { RowIsOf(last, WindowOf(g, last), p, lib); }
    }
  }

  lemma RowIsOf(cid: int, w: Window, p: Period, lib: Lib)
    requires |w.current| > 0
    ensures var row := RowOf(cid, w, p, lib); row.company == cid && Delta(row) == |w.current| - |w.previous|
  {
  }

  /** The scoring of a run divides by zero exactly when a company qualifies and none that does has grown. */
  lemma RunRaisesIff(g: Groups, ids: seq<int>, known: set<int>, minimum: int, p: Period, lib: Lib)
    requires minimum > 0
    ensures Candidates(g, ids, known, minimum, p, lib).Ok?
    ensures var rows := Candidates(g, ids, known, minimum, p, lib).value;
            (|rows| > 0 && forall i | 0 <= i < |rows| :: Delta(rows[i]) <= 0) <==>
            && (exists cid :: Qualifies(g, ids, known, minimum, cid))
            && (forall cid | Qualifies(g, ids, known, minimum, cid) ::
                |WindowOf(g, cid).current| <= |WindowOf(g, cid).previous|)
  {
    hide Candidates, RowOf, Delta, WindowOf;
    CandidatesIff(g, ids, known, minimum, p, lib, Row(0, 0, 0, 0.0, 0.0, 0.0));
    var rows := Candidates(g, ids, known, minimum, p, lib).value;
    forall cid | Qualifies(g, ids, known, minimum, cid)
      ensures exists i :: 0 <= i < |rows| && Delta(rows[i]) == |WindowOf(g, cid).current| - |WindowOf(g, cid).previous|
    {
      var row := RowOf(cid, WindowOf(g, cid), p, lib);
      RowIsOf(cid, WindowOf(g, cid), p, lib);
      CandidatesIff(g, ids, known, minimum, p, lib, row);
    }
    forall i | 0 <= i < |rows|
      ensures Qualifies(g, ids, known, minimum, rows[i].company)
      ensures Delta(rows[i]) == |WindowOf(g, rows[i].company).current| - |WindowOf(g, rows[i].company).previous|
    {
      CandidatesIff(g, ids, known, minimum, p, lib, rows[i]);
      RowIsOf(rows[i].company, WindowOf(g, rows[i].company), p, lib);
    }
    if |rows| > 0 { assert Qualifies(g, ids, known, minimum, rows[0].company); }
    if forall i | 0 <= i < |rows| :: Delta(rows[i]) <= 0 {
      forall cid | Qualifies(g, ids, known, minimum, cid)
        ensures |WindowOf(g, cid).current| <= |WindowOf(g, cid).previous|
      {
        var i :| 0 <= i < |rows| && Delta(rows[i]) == |WindowOf(g, cid).current| - |WindowOf(g, cid).previous|;
      }
    }
  }

  lemma GroupedSnoc(init: seq<Event>, e: Event, mapping: Mapping, p: Period)
    ensures Grouped(init + [e], mapping, p) == Put(Grouped(init, mapping, p), PlaceOf(e, mapping, p), e)
  {
    assert (init + [e])[..|init|] == init;
  }

  /** One company with two permits in each window. */
  const STEADY_EVENTS := [
    Event(Permit, 1, 1, 10, 0.0), Event(Permit, 2, 1, 10, 0.0), Event(Permit, 3, 1, 4, 0.0),
        Event(Permit, 4, 1, 4, 0.0)]

  /** It is reached: a single company that qualifies and has not grown. */
  lemma SteadyCompanyRaises(lib: Lib)
    ensures var g := Grouped(STEADY_EVENTS, map[1 := Some(1)], Period(10, 5));
            var rows := Candidates(g, [1], {1}, 2, Period(10, 5), lib);
            rows.Ok? && |rows.value| > 0 && forall i | 0 <= i < |rows.value| :: Delta(rows.value[i]) <= 0
  {
    var m, p, e := map[1 := Some(1)], Period(10, 5), STEADY_EVENTS;
    GroupedSnoc([], e[0], m, p);
    GroupedSnoc([e[0]], e[1], m, p);
    GroupedSnoc([e[0], e[1]], e[2], m, p);
    GroupedSnoc([e[0], e[1], e[2]], e[3], m, p);
    assert [] + [e[0]] == [e[0]] && [e[0]] + [e[1]] == [e[0], e[1]] && [e[0], e[1]] + [e[2]] == [e[0], e[1], e[2]];
    assert e == [e[0], e[1], e[2]] + [e[3]];
    assert Qualifies(Grouped(e, m, p), [1], {1}, 2, 1);
    RunRaisesIff(Grouped(e, m, p), [1], {1}, 2, p, lib);
  }

  /** End to end: every score of every run lies in its bands. */
  lemma ScoresOfRunInBand(events: seq<Event>, mapping: Mapping, p: Period, ids: seq<int>, known: set<int>, minimum: int,
                          lib: Lib, i: nat)
    requires Log1pLike(lib.log1p)
    requires var rows := Candidates(Grouped(events, mapping, p), ids, known, minimum, p, lib);
             rows.Ok? && i < |rows.value| && MaxDelta(rows.value) > 0
    ensures var rows := Candidates(Grouped(events, mapping, p), ids, known, minimum, p, lib).value;
            InBand(ScoreRow(rows[i], MaxDelta(rows), MaxValue(rows), lib))
  {
    hide Candidates, RowOf, InBand, ScoreRow, Bounded, Grouped, Log1pLike;
    var g := Grouped(events, mapping, p);
    var rows := Candidates(g, ids, known, minimum, p, lib).value;
    forall j | 0 <= j < |rows|
      ensures Bounded(rows[j])
    {
      CandidatesAreRows(g, ids, known, minimum, p, lib, j);
      CandidateIsBounded(events, mapping, p, rows[j].company, lib);
    }
    ScoreBands(rows, i, lib);
  }

  // ---------------------------------------------------------------- ranking

  /** A candidate with its rounded growth score. */
  datatype Ranked = Ranked(score: real, row: Row)

  /** The sort key: score, increase and activity downwards, then the company id. */
  predicate Ahead(a: Ranked, b: Ranked) {
    if a.score != b.score then a.score > b.score
    else if Delta(a.row) != Delta(b.row) then Delta(a.row) > Delta(b.row)
    else if a.row.current != b.row.current then a.row.current > b.row.current
    else a.row.company < b.row.company
  }

  predicate Scorable(rows: seq<Row>, lib: Lib) {
    |rows| > 0 ==> MaxDelta(rows) > 0 && (MaxValue(rows) > 0.0 ==> lib.log1p(MaxValue(rows)) != 0.0)
  }

  function RankedRow(rows: seq<Row>, i: nat, lib: Lib): Ranked
    requires i < |rows| && Scorable(rows, lib)
  {
    Ranked(lib.round2(Sum(ScoreRow(rows[i], MaxDelta(rows), MaxValue(rows), lib))), rows[i])
  }

  function RankedRows(rows: seq<Row>, lib: Lib): seq<Ranked>
    requires Scorable(rows, lib)
  {
    seq(|rows|, i requires 0 <= i < |rows| => RankedRow(rows, i, lib))
  }

  /** What `candidates.sort` may leave of the scored candidates. */
  ghost predicate IsListing(q: seq<Ranked>, rows: seq<Row>, lib: Lib)
    requires Scorable(rows, lib)
  {
    multiset(q) == multiset(RankedRows(rows, lib)) && NoneAhead(Ahead, q)
  }

  predicate DistinctCompanies(rows: seq<Row>) {
    forall i, j | 0 <= i < j < |rows| :: rows[i].company != rows[j].company
  }

  lemma {:induction false} CandidatesDistinct(g: Groups, ids: seq<int>, known: set<int>, minimum: int, p: Period,
                                              lib: Lib)
    requires minimum > 0 && Distinct(ids) && Candidates(g, ids, known, minimum, p, lib).Ok?
    ensures DistinctCompanies(Candidates(g, ids, known, minimum, p, lib).value)
  {
    hide RowOf;
    if |ids| > 0 {
      var init, last := ids[..|ids| - 1], ids[|ids| - 1];
      CandidatesDistinct(g, init, known, minimum, p, lib);
      if |WindowOf(g, last).current| >= minimum { RowIsOf(last, WindowOf(g, last), p, lib); }
      var before := Candidates(g, init, known, minimum, p, lib).value;
      forall i | 0 <= i < |before|
        ensures before[i].company != last
      {
        CandidatesIff(g, init, known, minimum, p, lib, before[i]);
      }
    }
  }

  /** The score of a company does not depend on the order of the candidates. */
  lemma MaximaOfSameRows(rows: seq<Row>, others: seq<Row>)
    requires |rows| > 0 && |others| > 0 && forall x :: x in rows <==> x in others
    ensures MaxDelta(rows) == MaxDelta(others) && MaxValue(rows) == MaxValue(others)
  {
    MaxDeltaOver(rows, others);
    MaxDeltaOver(others, rows);
  }

  lemma MaxDeltaOver(rows: seq<Row>, others: seq<Row>)
    requires |rows| > 0 && |others| > 0 && forall x | x in rows :: x in others
    ensures MaxDelta(rows) <= MaxDelta(others) && MaxValue(rows) <= MaxValue(others)
  {
    MaxDeltaIs(rows);
    MaxDeltaIs(others);
    MaxValueIs(rows);
    MaxValueIs(others);
    var i :| 0 <= i < |rows| && rows[i].valueDelta == MaxValue(rows);
    assert rows[i] in others;
    if MaxDelta(rows) > 0 {
      var j :| 0 <= j < |rows| && Delta(rows[j]) == MaxDelta(rows);
      assert rows[j] in others;
    }
  }

  lemma RankedRowsIn(rows: seq<Row>, others: seq<Row>, lib: Lib, x: Ranked)
    requires Scorable(rows, lib) && Scorable(others, lib) && forall y :: y in rows <==> y in others
    requires x in RankedRows(rows, lib)
    ensures x in RankedRows(others, lib)
  {
    hide Scorable, MaxDelta, MaxValue, ScoreRow, Sum;
    var i :| 0 <= i < |rows| && RankedRow(rows, i, lib) == x;
    assert rows[i] in others;
    var j :| 0 <= j < |others| && others[j] == rows[i];
    MaximaOfSameRows(rows, others);
    assert RankedRows(others, lib)[j] == x;
  }

  lemma RankedRowsDistinct(rows: seq<Row>, lib: Lib)
    requires Scorable(rows, lib) && DistinctCompanies(rows)
    ensures Distinct(RankedRows(rows, lib)) && Decides(Ahead, RankedRows(rows, lib))
  {
    hide Scorable, MaxDelta, MaxValue, ScoreRow, Sum;
    var q := RankedRows(rows, lib);
    assert forall i | 0 <= i < |q| :: q[i].row == rows[i];
  }

  /** Sorting gives one listing, whatever the order of the groups: no tie is left to the order they come in. */
  lemma RankingIsDetermined(g: Groups, ids: seq<int>, others: seq<int>, known: set<int>, minimum: int, p: Period,
                            lib: Lib, q: seq<Ranked>, r: seq<Ranked>)
    requires minimum > 0 && Distinct(ids) && multiset(ids) == multiset(others)
    requires var rows := Candidates(g, ids, known, minimum, p, lib);
             rows.Ok? && Scorable(rows.value, lib) && IsListing(q, rows.value, lib)
    requires var rows := Candidates(g, others, known, minimum, p, lib);
             rows.Ok? && Scorable(rows.value, lib) && IsListing(r, rows.value, lib)
    ensures q == r
  {
    hide Candidates, RowOf, Scorable, RankedRows, Ahead, NoneAhead;
    PermutationIsDistinct(ids, others);
    var rows, mirror := Candidates(g, ids, known, minimum, p, lib).value,
        Candidates(g, others, known, minimum, p, lib).value;
    forall x
      ensures x in rows <==> x in mirror
    {
      CandidatesIff(g, ids, known, minimum, p, lib, x);
      CandidatesIff(g, others, known, minimum, p, lib, x);
    }
    CandidatesDistinct(g, ids, known, minimum, p, lib);
    CandidatesDistinct(g, others, known, minimum, p, lib);
    RankedRowsDistinct(rows, lib);
    RankedRowsDistinct(mirror, lib);
    PermutationIsDistinct(RankedRows(rows, lib), q);
    PermutationIsDistinct(RankedRows(mirror, lib), r);
    forall x
      ensures x in q <==> x in r
    {
      if x in q { RankedRowsIn(rows, mirror, lib, x); }
      if x in r { RankedRowsIn(mirror, rows, lib, x); }
    }
    DecidesAlike(Ahead, RankedRows(rows, lib), q);
    SortIsDetermined(Ahead, q, r);
  }

  // ---------------------------------------------------------------- footprint

  /** The events `geographic_footprint` selects for a company. */
  function Selected(events: seq<Event>, mapping: Mapping, company: int, cutoff: int): seq<Event> {
    if |events| == 0 then []
    else
      var e := events[|events| - 1];
      var rest := Selected(events[..|events| - 1], mapping, company, cutoff);
      var canonical := if company in mapping then mapping[company] else Some(company);
      if Resolve(mapping, e.raw) == canonical && e.date >= cutoff then rest + [e] else rest
  }

  lemma {:induction false} SelectedIff(events: seq<Event>, mapping: Mapping, company: int, cutoff: int, e: Event)
    ensures e in Selected(events, mapping, company, cutoff) <==>
            e in events && e.date >= cutoff &&
            Resolve(mapping, e.raw) == if company in mapping then mapping[company] else Some(company)
  {
    if |events| > 0 {
      SelectedIff(events[..|events| - 1], mapping, company, cutoff, e);
      assert events == events[..|events| - 1] + [events[|events| - 1]];
    }
  }

  lemma CycleHasLink(next: Successor, x: int)
    requires Cycles(next, x)
    ensures next(x).Some?
  {
    if next(x).None? {
      assert At(next, x, 0) == Some(x);
      CyclesMeansNoEnd(next, x, x);
      assert false;
    }
  }

  /**
   * The footprint holds the company's own events when its chain ends at a company. When the chain ends at a missing
   * company, the footprint is every unresolved event; when it cycles, nothing.
   */
  lemma FootprintOf(d: Directory, raw: set<int>, events: seq<Event>, mapping: Mapping, company: int, cutoff: int,
                    e: Event)
    requires company in raw && e.raw in raw && e in events && e.date >= cutoff
    requires MapsTo(d, raw, mapping, company) && MapsTo(d, raw, mapping, e.raw)
    ensures var next := Links(d, raw);
            e in Selected(events, mapping, company, cutoff) <==>
            || (exists y :: Ends(next, company, y) && Ends(next, e.raw, y) && y in d.companies)
            || ((exists y :: Ends(next, company, y) && y !in d.companies) && Resolve(mapping, e.raw).None?)
  {
    hide Links;
    var next := Links(d, raw);
    SelectedIff(events, mapping, company, cutoff, e);
    if e.raw in mapping {
      var z :| Ends(next, e.raw, z) && BindsTo(d, mapping[e.raw], z);
      forall y | Ends(next, e.raw, y)
        ensures y == z
      {
        EndIsUnique(next, e.raw, y, z);
      }
    }
    forall y | Cycles(next, e.raw)
      ensures !Ends(next, e.raw, y)
    {
      CyclesMeansNoEnd(next, e.raw, y);
    }
    if company in mapping {
      var z :| Ends(next, company, z) && BindsTo(d, mapping[company], z);
      forall y | Ends(next, company, y)
        ensures y == z
      {
        EndIsUnique(next, company, y, z);
      }
    } else {
      forall y
        ensures !Ends(next, company, y)
      {
        CyclesMeansNoEnd(next, company, y);
      }
      CycleHasLink(next, company);
    }
  }
}
