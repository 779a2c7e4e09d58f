/** What a history of import cycles says about every row, and what one upsert says about its time stamps. */
module TenderPresenceLaws {
  import opened Outcomes
  import opened Ordered
  import opened TenderPresence

  // ---------------------------------------------------------------- histories of one source

  datatype Event = Skipped | Ran(cycle: Cycle)

  predicate BatchesDistinct(rows: seq<Row>, size: nat)
    requires size > 0
    decreases |rows|
  {
    if |rows| == 0 then true
    else
      var m := if |rows| < size then |rows| else size;
      DistinctUrls(rows[..m]) && BatchesDistinct(rows[m..], size)
  }

  function State(h: seq<Event>, s: Schema, size: nat, parse: Value -> Option<int>): Table
    requires size > 0
    decreases |h|
  {
    if |h| == 0 then map[]
    else
      var before := State(h[..|h| - 1], s, size, parse);
      match h[|h| - 1]
      case Skipped => before
      case Ran(c) => Import(before, s, size, c, parse).t
  }

  /** No batch of the history hits a row twice. */
  predicate Accepted(h: seq<Event>, size: nat)
    requires size > 0
  {
    forall i | 0 <= i < |h| && h[i].Ran? :: BatchesDistinct(h[i].cycle.rows, size)
  }

  predicate Lists(e: Event, u: Url) {
    e.Ran? && u in Urls(e.cycle.rows)
  }

  /** The number of cycles, neither skipped nor empty, since the last one that listed `u`. */
  function MissedSince(h: seq<Event>, u: Url): nat
    decreases |h|
  {
    if |h| == 0 then 0
    else
      var e, before := h[|h| - 1], h[..|h| - 1];
      if e.Skipped? || |e.cycle.rows| == 0 then MissedSince(before, u)
      else if Lists(e, u) then 0
      else MissedSince(before, u) + 1
  }

  predicate Seen(h: seq<Event>, u: Url) {
    exists i | 0 <= i < |h| :: Lists(h[i], u)
  }

  /** The time at which the first cycle that lists `u` began. */
  function FirstListed(h: seq<Event>, u: Url): int
    requires Seen(h, u)
    decreases |h|
  {
    if Lists(h[0], u) then h[0].cycle.seenAt else FirstListed(h[1..], u)
  }

  // ---------------------------------------------------------------- one upsert

  /** What an upsert does to `u`, which its payload lists or not. */
  predicate Merged(t: Table, t': Table, u: Url, listed: bool, seenAt: int) {
    && (u in t' <==> u in t || listed)
    && (u in t ==> if listed then SameHistory(t[u], t'[u]) else t'[u] == t[u])
    && (u in t' && u !in t ==>
        t'[u].firstSeen == seenAt && t'[u].missing == 0 && t'[u].kept == NEW_KEPT && t'[u].closingAt == None)
  }

  /** Everything an import of the same URL leaves alone. */
  predicate SameHistory(a: Tender, b: Tender) {
    b.firstSeen == a.firstSeen && b.missing == a.missing && b.kept == a.kept && b.closingAt == a.closingAt
  }

  lemma UrlsSplit(rows: seq<Row>, m: nat)
    requires m <= |rows|
    ensures Urls(rows) == Urls(rows[..m]) + Urls(rows[m..])
  {
    forall u
      ensures u in Urls(rows) <==> u in Urls(rows[..m]) + Urls(rows[m..])
    {
      if u in Urls(rows) {
        var i :| 0 <= i < |rows| && rows[i].url == u;
        if i < m { assert rows[..m][i].url == u; } else { assert rows[m..][i - m].url == u; }
      }
      if u in Urls(rows[..m]) {
        var i :| 0 <= i < m && rows[..m][i].url == u;
        assert rows[i].url == u;
      }
      if u in Urls(rows[m..]) {
        var i :| 0 <= i < |rows[m..]| && rows[m..][i].url == u;
        assert rows[m + i].url == u;
      }
    }
  }

  lemma {:induction false} UpsertRowsMerges(t: Table, s: Schema, rows: seq<Row>, seenAt: int, now: int, u: Url)
    ensures Merged(t, UpsertRows(t, s, rows, seenAt, now), u, u in Urls(rows), seenAt)
    decreases |rows|
  {
    if |rows| > 0 {
      UpsertRowsMerges(UpsertOne(t, s, rows[0], seenAt, now), s, rows[1..], seenAt, now, u);
      UrlsSplit(rows, 1);
      assert u in Urls(rows[..1]) <==> u == rows[0].url;
    }
  }

  lemma {:induction false} UpsertFromMerges(t: Table, s: Schema, rows: seq<Row>, size: nat, seenAt: int,
                                            clock: nat -> int, k: nat, n: nat, u: Url)
    requires size > 0 && BatchesDistinct(rows, size)
    ensures UpsertFrom(t, s, rows, size, seenAt, clock, k, n).result == Ok(n + |rows|)
    ensures Merged(t, UpsertFrom(t, s, rows, size, seenAt, clock, k, n).t, u, u in Urls(rows), seenAt)
    decreases |rows|
  {
    if |rows| > 0 {
      var m := if |rows| < size then |rows| else size;
      var t1 := UpsertRows(t, s, rows[..m], seenAt, clock(k));
      UpsertRowsMerges(t, s, rows[..m], seenAt, clock(k), u);
      UpsertFromMerges(t1, s, rows[m..], size, seenAt, clock, k + 1, n + m, u);
      UrlsSplit(rows, m);
    }
  }

  /** A batch that hits a row twice ends the call, and the table is the one the batches before it give. */
  lemma {:induction false} UpsertFromStops(t: Table, s: Schema, rows: seq<Row>, size: nat, seenAt: int,
                                           clock: nat -> int, k: nat, n: nat) returns (m: nat)
    requires size > 0 && !BatchesDistinct(rows, size)
    ensures m < |rows| && BatchesDistinct(rows[..m], size)
    ensures !DistinctUrls(if |rows| < m + size then rows[m..] else rows[m..m + size])
    ensures UpsertFrom(t, s, rows, size, seenAt, clock, k, n) ==
            Upserted(UpsertFrom(t, s, rows[..m], size, seenAt, clock, k, n).t, Err(()))
    decreases |rows|
  {
    hide DistinctUrls, UpsertRows;
    var first := if |rows| < size then |rows| else size;
    if !DistinctUrls(rows[..first]) {
      m := 0;
      assert |rows| < size ==> rows[0..] == rows[..first];
    } else {
      var rest := UpsertFromStops(UpsertRows(t, s, rows[..first], seenAt, clock(k)), s, rows[first..], size, seenAt,
                                  clock, k + 1, n + first);
      m := first + rest;
      var before, after := rows[..m], rows[first..];
      assert before[..first] == rows[..first] && before[first..] == after[..rest];
      assert after[rest..] == rows[m..] && (m + size <= |rows| ==> after[rest..rest + size] == rows[m..m + size]);
    }
  }

  lemma ImportCounts(t: Table, s: Schema, size: nat, c: Cycle, parse: Value -> Option<int>, u: Url)
    requires size > 0 && BatchesDistinct(c.rows, size)
    ensures var t' := Import(t, s, size, c, parse).t;
            && Import(t, s, size, c, parse).result == Ok(|c.rows|)
            && (u in t' <==> u in t || u in Urls(c.rows))
            && (u in t' ==>
                  && t'[u].missing == (if u in Urls(c.rows) then 0 else if |c.rows| == 0 then t[u].missing
                      else t[u].missing + 1)
                  && t'[u].firstSeen == (if u in t then t[u].firstSeen else c.seenAt)
                  && t'[u].kept == (if u in t then t[u].kept else NEW_KEPT))
  {
    hide UpsertFrom, BatchesDistinct;
    if |c.rows| == 0 {
      NoMember(Urls(c.rows));
    } else {
      UpsertFromMerges(t, s, c.rows, size, c.seenAt, c.clock, 0, 0, u);
      assert c.rows[0].url in Urls(c.rows);
    }
  }

  lemma SeenStep(h: seq<Event>, u: Url)
    requires |h| > 0
    ensures Seen(h, u) <==> Seen(h[..|h| - 1], u) || Lists(h[|h| - 1], u)
  {
    var before := h[..|h| - 1];
    if Seen(h, u) && !Lists(h[|h| - 1], u) {
      var i :| 0 <= i < |h| && Lists(h[i], u);
      assert Lists(before[i], u);
    }
    if Seen(before, u) {
      var i :| 0 <= i < |before| && Lists(before[i], u);
      assert Lists(h[i], u);
    }
  }

  lemma {:induction false} FirstListedStep(h: seq<Event>, u: Url)
    requires |h| > 0 && Seen(h, u)
    ensures FirstListed(h, u) == if Seen(h[..|h| - 1], u) then FirstListed(h[..|h| - 1], u) else h[|h| - 1].cycle.seenAt
    decreases |h|
  {
    var before := h[..|h| - 1];
    SeenStep(h, u);
    if |h| > 1 {
      assert before[0] == h[0];
      if !Lists(h[0], u) {
        SeenTail(h, u);
        if Seen(before, u) { SeenTail(before, u); }
        assert h[1..][..|h| - 2] == before[1..];
        SeenTailBack(before, u);
        FirstListedStep(h[1..], u);
      } else {
        assert Lists(before[0], u);
      }
    } else {
      assert !Seen(before, u);
    }
  }

  lemma SeenTail(h: seq<Event>, u: Url)
    requires Seen(h, u) && !Lists(h[0], u)
    ensures Seen(h[1..], u)
  {
    var i :| 0 <= i < |h| && Lists(h[i], u);
    assert Lists(h[1..][i - 1], u);
  }

  lemma SeenTailBack(h: seq<Event>, u: Url)
    requires |h| > 0
    ensures Seen(h[1..], u) ==> Seen(h, u)
  {
    if Seen(h[1..], u) {
      var i :| 0 <= i < |h| - 1 && Lists(h[1..][i], u);
      assert Lists(h[i + 1], u);
    }
  }

  /** Over any history, the table holds exactly the URLs ever listed; the counter of each is the number of
      cycles that missed it since it was last listed, and its first-seen time is that of its first listing. */
  lemma {:induction false} HistoryCounts(h: seq<Event>, s: Schema, size: nat, parse: Value -> Option<int>, u: Url)
    requires size > 0 && Accepted(h, size)
    ensures u in State(h, s, size, parse) <==> Seen(h, u)
    ensures Seen(h, u) ==> State(h, s, size, parse)[u].missing == MissedSince(h, u)
    ensures Seen(h, u) ==> State(h, s, size, parse)[u].firstSeen == FirstListed(h, u)
    decreases |h|
  {
    if |h| > 0 {
      var before, e := h[..|h| - 1], h[|h| - 1];
      HistoryCounts(before, s, size, parse, u);
      SeenStep(h, u);
      if Seen(h, u) { FirstListedStep(h, u); }
      if e.Ran? {
        ImportCounts(State(before, s, size, parse), s, size, e.cycle, parse, u);
      }
    }
  }

  // ---------------------------------------------------------------- time stamps

  /** The stamps of every row are in order and none lies in the future. */
  predicate Timely(t: Table, now: int) {
    forall u | u in t :: t[u].firstSeen <= t[u].updatedAt <= t[u].lastSeen <= now
  }

  /** The Python clock is read first and the database clock never runs backwards between the two times. */
  ghost predicate Runs(c: Cycle, from: int, to: int) {
    && from <= c.seenAt
    && (forall k: nat :: c.seenAt <= c.clock(k) <= to)
    && (forall j: nat, k: nat :: j <= k ==> c.clock(j) <= c.clock(k))
  }

  lemma {:induction false} UpsertRowsTimely(t: Table, s: Schema, rows: seq<Row>, seenAt: int, now: int)
    requires Timely(t, now) && seenAt <= now
    ensures Timely(UpsertRows(t, s, rows, seenAt, now), now)
    decreases |rows|
  {
    if |rows| > 0 {
      UpsertRowsTimely(UpsertOne(t, s, rows[0], seenAt, now), s, rows[1..], seenAt, now);
    }
  }

  lemma {:induction false} UpsertFromTimely(t: Table, s: Schema, rows: seq<Row>, size: nat, c: Cycle, k: nat, n: nat,
                                            from: int, to: int)
    requires size > 0 && Runs(c, from, to)
    requires Timely(t, c.clock(k))
    ensures Timely(UpsertFrom(t, s, rows, size, c.seenAt, c.clock, k, n).t, to)
    decreases |rows|
  {
    assert c.seenAt <= c.clock(k) <= to;
    if |rows| > 0 {
      var m := if |rows| < size then |rows| else size;
      UpsertRowsTimely(t, s, rows[..m], c.seenAt, c.clock(k));
      assert c.clock(k) <= c.clock(k + 1);
      UpsertFromTimely(UpsertRows(t, s, rows[..m], c.seenAt, c.clock(k)), s, rows[m..], size, c, k + 1, n + m, from,
          to);
    }
  }

  /** A cycle, accepted or not, keeps first-seen before updated before last-seen. */
  lemma ImportTimely(t: Table, s: Schema, size: nat, c: Cycle, parse: Value -> Option<int>, from: int, to: int)
    requires size > 0 && Runs(c, from, to) && Timely(t, from)
    ensures Timely(Import(t, s, size, c, parse).t, to)
  {
    hide UpsertFrom;
    assert c.seenAt <= c.clock(0) <= to;
    if |c.rows| > 0 { UpsertFromTimely(t, s, c.rows, size, c, 0, 0, from, to); }
  }

  /** Cycle `i` runs between `marks[i]` and `marks[i + 1]`, and the marks follow each other. */
  ghost predicate Paced(h: seq<Event>, marks: seq<int>) {
    && |marks| == |h| + 1
    && (forall i | 0 <= i < |h| :: marks[i] <= marks[i + 1])
    && (forall i | 0 <= i < |h| && h[i].Ran? :: Runs(h[i].cycle, marks[i], marks[i + 1]))
  }

  /** Over any history, on every row, first-seen is never after updated, nor updated after last-seen. */
  lemma {:induction false} HistoryTimely(h: seq<Event>, s: Schema, size: nat, parse: Value -> Option<int>,
                                         marks: seq<int>)
    requires size > 0 && Paced(h, marks)
    ensures Timely(State(h, s, size, parse), marks[|h|])
    decreases |h|
  {
    hide Runs, Import;
    if |h| > 0 {
      var before, e := h[..|h| - 1], h[|h| - 1];
      HistoryTimely(before, s, size, parse, marks[..|h|]);
      assert marks[|h| - 1] <= marks[|h|];
      if e.Ran? { ImportTimely(State(before, s, size, parse), s, size, e.cycle, parse, marks[|h| - 1], marks[|h|]); }
    }
  }

  lemma {:induction false} UntouchedByOthers(t: Table, s: Schema, rows: seq<Row>, seenAt: int, now: int, u: Url)
    requires u !in Urls(rows)
    ensures u in UpsertRows(t, s, rows, seenAt, now) <==> u in t
    ensures u in t ==> UpsertRows(t, s, rows, seenAt, now)[u] == t[u]
    decreases |rows|
  {
    if |rows| > 0 {
      assert rows[0].url in Urls(rows);
      UrlsSplit(rows, 1);
      UntouchedByOthers(UpsertOne(t, s, rows[0], seenAt, now), s, rows[1..], seenAt, now, u);
    }
  }

  // ---------------------------------------------------------------- the cells

  /** What a payload row brings for column `c`: its own value, else the default of the column, else NULL. */
  predicate Arrives(s: Schema, r: Row, c: string, v: Value) {
    && (c in r.cols ==> v == r.cols[c])
    && (c !in r.cols && c in s.defaults ==> v == s.defaults[c])
    && (c !in r.cols && c !in s.defaults ==> v == None)
  }

  /** The columns an import writes, and nothing else, hold what `r` brings. */
  predicate HoldsRow(s: Schema, cols: map<string, Value>, r: Row) {
    && cols.Keys == s.columns
    && forall c | c in s.columns :: Arrives(s, r, c, cols[c])
  }

  lemma ExcludedHolds(s: Schema, r: Row, cols: map<string, Value>)
    ensures cols == Excluded(s, r) <==> HoldsRow(s, cols, r)
  {
    if HoldsRow(s, cols, r) {
      assert forall c :: c in cols <==> c in Excluded(s, r);
      assert forall c | c in cols :: cols[c] == Excluded(s, r)[c];
    }
  }

  /** No content column of the table holds another value than before; a column that was missing held NULL. */
  predicate SameContent(s: Schema, before: map<string, Value>, after: map<string, Value>) {
    forall c | c in s.content && c in s.columns && c in after ::
        (c in before ==> after[c] == before[c]) && (c !in before ==> after[c] == None)
  }

  lemma ContentIs(s: Schema, before: map<string, Value>, after: map<string, Value>)
    requires after.Keys == s.columns
    ensures ContentChanged(s, before, after) <==> !SameContent(s, before, after)
  {
    if ContentChanged(s, before, after) {
      var i :| 0 <= i < |s.content| && s.content[i] in s.columns &&
        Cell(before, s.content[i]) != Cell(after, s.content[i]);
      assert s.content[i] in after;
    }
    if !SameContent(s, before, after) {
      var c :| c in s.content && c in s.columns && c in after &&
        !((c in before ==> after[c] == before[c]) && (c !in before ==> after[c] == None));
      var i :| 0 <= i < |s.content| && s.content[i] == c;
      assert Cell(before, s.content[i]) != Cell(after, s.content[i]);
    }
  }

  /** How an upsert at `now` leaves a row it found: `updated_at` moves exactly when a content column differs. */
  predicate RefreshedBy(s: Schema, before: Tender, after: Tender, r: Row, now: int) {
    && HoldsRow(s, after.cols, r) && after.lastSeen == now && SameHistory(before, after)
    && after.updatedAt == if SameContent(s, before.cols, after.cols) then before.updatedAt else now
  }

  predicate CreatedBy(s: Schema, after: Tender, r: Row, seenAt: int) {
    && HoldsRow(s, after.cols, r) && after.kept == Kept(None, "", "active", None) && after.closingAt == None
    && after.firstSeen == after.lastSeen == after.updatedAt == seenAt && after.missing == 0
  }

  lemma OneRowWritten(t: Table, s: Schema, r: Row, seenAt: int, now: int)
    ensures var t' := UpsertOne(t, s, r, seenAt, now);
            && r.url in t'
            && if r.url in t then RefreshedBy(s, t[r.url], t'[r.url], r, now) else CreatedBy(s, t'[r.url], r, seenAt)
  {
    hide HoldsRow, ContentChanged, SameContent;
    ExcludedHolds(s, r, Excluded(s, r));
    if r.url in t { ContentIs(s, t[r.url].cols, Excluded(s, r)); }
  }

  /**
   * In one statement a stored row listed once is refreshed from its own payload row: every column holds what that row
   * brings, `last_seen_at` becomes now, and `updated_at` becomes now if and only if a content column differs. A URL not
   * stored yet gets a row with the same columns.
   */
  lemma {:induction false} StatementRefreshes(t: Table, s: Schema, rows: seq<Row>, seenAt: int, now: int, i: nat)
    requires i < |rows| && DistinctUrls(rows)
    ensures var u, t' := rows[i].url, UpsertRows(t, s, rows, seenAt, now);
            && u in t'
            && if u in t then RefreshedBy(s, t[u], t'[u], rows[i], now) else CreatedBy(s, t'[u], rows[i], seenAt)
    decreases |rows|
  {
    hide UpsertOne, RefreshedBy, CreatedBy;
    var t1 := UpsertOne(t, s, rows[0], seenAt, now);
    if i == 0 {
      forall u | u in Urls(rows[1..])
        ensures u != rows[0].url
      {
        var j :| 0 <= j < |rows[1..]| && rows[1..][j].url == u;
        assert rows[j + 1].url == u;
      }
      OneRowWritten(t, s, rows[0], seenAt, now);
      UntouchedByOthers(t1, s, rows[1..], seenAt, now, rows[0].url);
    } else {
      assert rows[0].url != rows[i].url;
      assert rows[1..][i - 1] == rows[i];
      assert DistinctUrls(rows[1..]);
      StatementRefreshes(t1, s, rows[1..], seenAt, now, i - 1);
      OtherRow(t, s, rows[0], seenAt, now, rows[i].url);
    }
  }

  lemma OtherRow(t: Table, s: Schema, r: Row, seenAt: int, now: int, u: Url)
    requires u != r.url
    ensures var t' := UpsertOne(t, s, r, seenAt, now); (u in t' <==> u in t) && (u in t ==> t'[u] == t[u])
  {
  }

  // ---------------------------------------------------------------- the closing time

  /** After an accepted cycle: a row the cycle listed, or any row when it listed none, closes when its deadline column
      says so, and keeps its closing time when that column says nothing; every other row keeps it too. */
  lemma ImportCloses(t: Table, s: Schema, size: nat, c: Cycle, parse: Value -> Option<int>, u: Url)
    requires size > 0 && BatchesDistinct(c.rows, size) && u in Import(t, s, size, c, parse).t
    ensures var row := Import(t, s, size, c, parse).t[u];
            var before := if u in t then t[u].closingAt else None;
            var parsed := parse(if s.deadline in row.cols then row.cols[s.deadline] else None);
            row.closingAt ==
              if (|c.rows| == 0 || u in Urls(c.rows)) && parsed.Some? then parsed else before
  {
    hide UpsertFrom, BatchesDistinct;
    if |c.rows| == 0 {
      NoMember(Urls(c.rows));
    } else {
      UpsertFromMerges(t, s, c.rows, size, c.seenAt, c.clock, 0, 0, u);
      assert c.rows[0].url in Urls(c.rows);
    }
  }
}
