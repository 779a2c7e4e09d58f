/** What the windows, the rows and the scores of the growth ranking are, cell by cell. */
module GrowthScores {
  import opened Outcomes
  import opened Ordered
  import opened Growth

  // ---------------------------------------------------------------- windows

  predicate BelongsTo(mapping: Mapping, e: Event, cid: int) {
    e.raw in mapping && mapping[e.raw] == Some(cid)
  }

  /** The lookback ends today, both days included. */
  predicate IsCurrent(p: Period, date: int) {
    p.today - p.lookback <= date && date <= p.today
  }

  /** The lookback before it, which ends on the day before the current one begins. */
  predicate IsPrevious(p: Period, date: int) {
    p.today - 2 * p.lookback <= date && date < p.today - p.lookback
  }

  lemma PlaceIs(e: Event, mapping: Mapping, p: Period, cid: int)
    ensures PlaceOf(e, mapping, p) == Now(cid) <==> BelongsTo(mapping, e, cid) && IsCurrent(p, e.date)
    ensures PlaceOf(e, mapping, p) == Before(cid) <==> BelongsTo(mapping, e, cid) && IsPrevious(p, e.date)
  {
  }

  lemma {:induction false} PickCounts(events: seq<Event>, mapping: Mapping, p: Period, place: Place, e: Event)
    ensures multiset(Pick(events, mapping, p, place))[e] ==
            if PlaceOf(e, mapping, p) == place then multiset(events)[e] else 0
  {
    hide PlaceOf;
    if |events| > 0 {
      var init, last := events[..|events| - 1], events[|events| - 1];
      PickCounts(init, mapping, p, place, e);
      assert events == init + [last];
    }
  }

  /** A window of a company holds each of its events of the period as often as it was collected, and no other. */
  lemma WindowCounts(events: seq<Event>, mapping: Mapping, p: Period, cid: int, e: Event)
    ensures var w := WindowOf(Grouped(events, mapping, p), cid);
            && multiset(w.current)[e] ==
               (if BelongsTo(mapping, e, cid) && IsCurrent(p, e.date) then multiset(events)[e] else 0)
            && multiset(w.previous)[e] ==
               (if BelongsTo(mapping, e, cid) && IsPrevious(p, e.date) then multiset(events)[e] else 0)
  {
    hide PlaceOf, BelongsTo, IsCurrent, IsPrevious, Grouped, Pick;
    WindowsHold(events, mapping, p, cid);
    PlaceIs(e, mapping, p, cid);
    PickCounts(events, mapping, p, Now(cid), e);
    PickCounts(events, mapping, p, Before(cid), e);
  }

  /** The events that count as unresolved are those whose company has no canonical company. */
  lemma UnresolvedCounts(events: seq<Event>, mapping: Mapping, p: Period, e: Event)
    ensures multiset(Pick(events, mapping, p, Unresolved))[e] ==
            if e.raw in mapping && mapping[e.raw].Some? then 0 else multiset(events)[e]
  {
    hide Pick;
    PickCounts(events, mapping, p, Unresolved, e);
  }

  // ---------------------------------------------------------------- rows

  predicate LatestDate(events: seq<Event>, date: int) {
    (exists i | 0 <= i < |events| :: events[i].date == date) && forall i | 0 <= i < |events| :: events[i].date <= date
  }

  lemma {:induction false} LatestIs(events: seq<Event>)
    requires |events| > 0
    ensures LatestDate(events, Latest(events))
  {
    if |events| == 1 {
      assert events[0].date == Latest(events);
    } else {
      LatestIs(events[1..]);
      assert forall i | 0 < i < |events| :: events[i] == events[1..][i - 1];
      var i :| 0 <= i < |events[1..]| && events[1..][i].date == Latest(events[1..]);
      assert events[i + 1].date == Latest(events[1..]) && events[0].date <= Latest(events);
    }
  }

  /** The value of several events together is the sum of theirs. */
  lemma {:induction false} ValueAdds(a: seq<Event>, b: seq<Event>)
    ensures Value(a + b) == Value(a) + Value(b)
    ensures |a| == 1 ==> Value(a) == a[0].value
  {
    if |a| == 0 {
      assert a + b == b;
    } else {
      ValueAdds(a[1..], b);
      assert (a + b)[0] == a[0] && (a + b)[1..] == a[1..] + b;
    }
  }

  /** Increase over the previous count, or over one when there was none, rounded. */
  predicate RelativeIs(row: Row, lib: Lib) {
    && (row.previous == 0 ==> row.relative == lib.round4(row.current as real))
    && (row.previous > 0 ==>
          row.relative == lib.round4((row.current - row.previous) as real / row.previous as real))
  }

  /** The share of the lookback that had not passed at the latest event; all of it without a lookback. */
  predicate RecencyIs(row: Row, latest: int, p: Period) {
    && (p.lookback <= 0 ==> row.recency == 1.0)
    && (p.lookback > 0 ==> row.recency * p.lookback as real == (p.lookback - (p.today - latest)) as real)
  }

  predicate ValueDeltaIs(row: Row, current: real, previous: real) {
    (previous < current ==> row.valueDelta == current - previous) && (current <= previous ==> row.valueDelta == 0.0)
  }

  /** The row of a company with current events, cell by cell. */
  lemma CandidateIs(events: seq<Event>, mapping: Mapping, p: Period, cid: int, lib: Lib, latest: int)
    requires var w := WindowOf(Grouped(events, mapping, p), cid); |w.current| > 0 && LatestDate(w.current, latest)
    ensures var w := WindowOf(Grouped(events, mapping, p), cid);
            var row := RowOf(cid, w, p, lib);
            && row.company == cid && row.current == |w.current| && row.previous == |w.previous|
            && RelativeIs(row, lib) && RecencyIs(row, latest, p)
            && ValueDeltaIs(row, Value(w.current), Value(w.previous))
  {
    hide Grouped, Value, Latest;
    var w := WindowOf(Grouped(events, mapping, p), cid);
    LatestIs(w.current);
    var i :| 0 <= i < |w.current| && w.current[i].date == latest;
    WindowCounts(events, mapping, p, cid, w.current[i]);
    assert w.current[i] in multiset(w.current);
    assert IsCurrent(p, latest);
    RecencyShare(p.today - latest, p.lookback);
  }

  lemma RecencyShare(age: int, lookback: int)
    requires 0 <= age <= lookback
    ensures lookback > 0 ==>
              RMax(0.0, 1.0 - age as real / Max(1, lookback) as real) * lookback as real == (lookback - age) as real
    ensures lookback == 0 ==> RMax(0.0, 1.0 - age as real / Max(1, lookback) as real) == 1.0
  {
    if lookback > 0 { ShareTimes(age as real, lookback as real); }
  }

  lemma ShareTimes(a: real, b: real)
    requires 0.0 <= a <= b && b > 0.0
    ensures (1.0 - a / b) * b == b - a && 1.0 - a / b >= 0.0
  {
  }

  // ---------------------------------------------------------------- scores

  /** Volume: 45 for the largest increase of the run, and in proportion. */
  predicate VolumeIs(s: Score, increase: int, largest: int) {
    if increase <= 0 then s.volume == 0.0 else s.volume * largest as real == 45.0 * increase as real
  }

  /** Growth: 25 from a relative increase of three, none without an increase, and in proportion between. */
  predicate GrowthIs(s: Score, relative: real) {
    && (relative >= 3.0 ==> s.growth == 25.0)
    && (relative <= 0.0 ==> s.growth == 0.0)
    && (0.0 < relative < 3.0 ==> 3.0 * s.growth == 25.0 * relative)
  }

  predicate EconomyIs(s: Score, delta: real, largest: real, lib: Lib) {
    && (largest <= 0.0 ==> s.economy == 0.0)
    && (largest > 0.0 ==> s.economy * lib.log1p(largest) == 10.0 * lib.log1p(delta))
  }

  predicate LargestIncrease(rows: seq<Row>, increase: int) {
    && (exists i | 0 <= i < |rows| :: rows[i].current - rows[i].previous == increase)
    && forall i | 0 <= i < |rows| :: rows[i].current - rows[i].previous <= increase
  }

  predicate LargestValue(rows: seq<Row>, value: real) {
    (exists i | 0 <= i < |rows| :: rows[i].valueDelta == value) && forall i | 0 <= i < |rows| ::
        rows[i].valueDelta <= value
  }

  lemma LargestAre(rows: seq<Row>, increase: int, value: real)
    requires |rows| > 0 && LargestIncrease(rows, increase) && increase > 0 && LargestValue(rows, value)
    ensures MaxDelta(rows) == increase && MaxValue(rows) == value
  {
    MaxDeltaIs(rows);
    MaxValueIs(rows);
    var j :| 0 <= j < |rows| && rows[j].current - rows[j].previous == increase;
    assert Delta(rows[j]) == increase;
  }

  lemma PartsAre(row: Row, increase: int, value: real, lib: Lib)
    requires increase > 0 && (value > 0.0 ==> lib.log1p(value) != 0.0)
    ensures var s := ScoreRow(row, increase, value, lib);
            && VolumeIs(s, row.current - row.previous, increase) && GrowthIs(s, row.relative)
            && s.recency == 20.0 * row.recency && EconomyIs(s, row.valueDelta, value, lib)
  {
    var s := ScoreRow(row, increase, value, lib);
    Proportion(45.0 * Max(0, Delta(row)) as real, increase as real);
    if value > 0.0 { Share(lib.log1p(row.valueDelta), lib.log1p(value)); }
    Thirds(25.0 * row.relative);
  }

  lemma Proportion(a: real, b: real)
    requires b > 0.0
    ensures a / b * b == a && (a == 0.0 ==> a / b == 0.0)
  {
  }

  lemma Share(a: real, b: real)
    requires b != 0.0
    ensures 10.0 * (a / b) * b == 10.0 * a
  {
    assert a / b * b == a;
  }

  lemma Thirds(a: real)
    ensures 3.0 * (a / 3.0) == a
  {
  }

  /** The four parts of a score against the largest increases of the run, and the total that is rounded and shown. */
  lemma ScoreIs(rows: seq<Row>, i: nat, lib: Lib, increase: int, value: real)
    requires i < |rows| && LargestIncrease(rows, increase) && increase > 0 && LargestValue(rows, value)
    requires value > 0.0 ==> lib.log1p(value) != 0.0
    ensures Scorable(rows, lib)
    ensures var s := ScoreRow(rows[i], increase, value, lib);
            && RankedRow(rows, i, lib) == Ranked(lib.round2(s.volume + s.growth + s.recency + s.economy), rows[i])
            && VolumeIs(s, rows[i].current - rows[i].previous, increase) && GrowthIs(s, rows[i].relative)
            && s.recency == 20.0 * rows[i].recency && EconomyIs(s, rows[i].valueDelta, value, lib)
  {
    hide ScoreRow, VolumeIs, GrowthIs, EconomyIs, MaxDelta, MaxValue, LargestIncrease, LargestValue;
    LargestAre(rows, increase, value);
    PartsAre(rows[i], increase, value, lib);
  }

  // ---------------------------------------------------------------- the order

  /** In a listing the score falls, then the increase, then the activity, and then the company id rises. */
  lemma ListingDescends(q: seq<Ranked>, i: nat, j: nat)
    requires NoneAhead(Ahead, q) && i < j < |q|
    ensures var a, b := q[i], q[j];
            var grown, other := a.row.current - a.row.previous, b.row.current - b.row.previous;
            && a.score >= b.score
            && (a.score == b.score ==> grown >= other)
            && (a.score == b.score && grown == other ==> a.row.current >= b.row.current)
            && (a.score == b.score && grown == other && a.row.current == b.row.current ==>
                  a.row.company <= b.row.company)
  {
    assert !Ahead(q[j], q[i]);
  }
}
