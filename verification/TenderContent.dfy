/** When `updated_at` moves, over whole cycles and histories: only where the content differs from the listing before. */
module TenderContent {
  import opened Outcomes
  import opened TenderPresence
  import opened TenderPresenceLaws

  /** One listing of a URL: its payload row, the time its cycle began, and the database time of its statement. */
  datatype Listing = Listing(row: Row, seenAt: int, now: int)

  function ListingAt(r: Row, seenAt: int, now: int, u: Url): seq<Listing> {
    if r.url == u then [Listing(r, seenAt, now)] else []
  }

  function ListingsIn(rows: seq<Row>, seenAt: int, now: int, u: Url): seq<Listing>
    decreases |rows|
  {
    if |rows| == 0 then [] else ListingAt(rows[0], seenAt, now, u) + ListingsIn(rows[1..], seenAt, now, u)
  }

  function ListingsFrom(rows: seq<Row>, size: nat, c: Cycle, k: nat, u: Url): seq<Listing>
    requires size > 0
    decreases |rows|
  {
    if |rows| == 0 then []
    else
      var m := if |rows| < size then |rows| else size;
      ListingsIn(rows[..m], c.seenAt, c.clock(k), u) + ListingsFrom(rows[m..], size, c, k + 1, u)
  }

  /** The listings of `u` in a history, oldest first. */
  function Listings(h: seq<Event>, size: nat, u: Url): seq<Listing>
    requires size > 0
    decreases |h|
  {
    if |h| == 0 then []
    else
      var e := h[|h| - 1];
      Listings(h[..|h| - 1], size, u) + if e.Skipped? then [] else ListingsFrom(e.cycle.rows, size, e.cycle, 0, u)
  }

  /** The two payload rows bring different values for a content column of the table. */
  ghost predicate Differ(s: Schema, a: Row, b: Row) {
    exists c, v, w :: c in s.content && c in s.columns && Arrives(s, a, c, v) && Arrives(s, b, c, w) && v != w
  }

  /** Listing `k` has other content than the one before. */
  ghost predicate Changed(s: Schema, ls: seq<Listing>, k: nat) {
    0 < k < |ls| && Differ(s, ls[k - 1].row, ls[k].row)
  }

  lemma DifferIs(s: Schema, a: Row, b: Row, before: map<string, Value>, after: map<string, Value>)
    requires HoldsRow(s, before, a) && HoldsRow(s, after, b)
    ensures Differ(s, a, b) <==> !SameContent(s, before, after)
  {
  }

  /** The first listing, or the last one that changed the content. */
  ghost predicate LastChange(s: Schema, ls: seq<Listing>, k: nat) {
    k < |ls| && (k > 0 ==> Changed(s, ls, k)) && forall j | k < j < |ls| :: !Changed(s, ls, j)
  }

  function StampOf(ls: seq<Listing>, k: nat): int
    requires k < |ls|
  {
    if k == 0 then ls[0].seenAt else ls[k].now
  }

  /** A row holds the columns of its latest listing, `last_seen_at` is the time of that listing, and `updated_at` is the
      time of its last change. */
  ghost predicate Tracks(s: Schema, t: Table, u: Url, ls: seq<Listing>) {
    && (u in t <==> |ls| > 0)
    && (|ls| > 0 ==>
          && HoldsRow(s, t[u].cols, ls[|ls| - 1].row) && t[u].lastSeen == StampOf(ls, |ls| - 1)
          && exists k: nat :: LastChange(s, ls, k) && t[u].updatedAt == StampOf(ls, k))
  }

  lemma ChangedInPrefix(s: Schema, ls: seq<Listing>, l: Listing, k: nat)
    requires k < |ls|
    ensures Changed(s, ls + [l], k) <==> Changed(s, ls, k)
    ensures StampOf(ls + [l], k) == StampOf(ls, k)
  {
  }

  lemma LastChangeStays(s: Schema, ls: seq<Listing>, l: Listing, k: nat)
    requires LastChange(s, ls, k) && !Changed(s, ls + [l], |ls|)
    ensures LastChange(s, ls + [l], k)
  {
    hide Changed;
    forall j: nat | j < |ls|
      ensures Changed(s, ls + [l], j) <==> Changed(s, ls, j)
    {
      ChangedInPrefix(s, ls, l, j);
    }
  }

  lemma UpsertOneTracks(s: Schema, t: Table, r: Row, seenAt: int, now: int, ls: seq<Listing>)
    requires Tracks(s, t, r.url, ls)
    ensures Tracks(s, UpsertOne(t, s, r, seenAt, now), r.url, ls + [Listing(r, seenAt, now)])
  {
    hide UpsertOne, SameContent, HoldsRow, Differ;
    var l := Listing(r, seenAt, now);
    var more := ls + [l];
    var t1 := UpsertOne(t, s, r, seenAt, now);
    OneRowWritten(t, s, r, seenAt, now);
    if |ls| == 0 {
      assert LastChange(s, more, 0) && t1[r.url].updatedAt == StampOf(more, 0);
    } else {
      assert more[|ls| - 1] == ls[|ls| - 1] && more[|ls|] == l;
      DifferIs(s, ls[|ls| - 1].row, r, t[r.url].cols, t1[r.url].cols);
      if Changed(s, more, |ls|) {
        assert LastChange(s, more, |ls|) && t1[r.url].updatedAt == StampOf(more, |ls|);
      } else {
        var k: nat :| LastChange(s, ls, k) && t[r.url].updatedAt == StampOf(ls, k);
        LastChangeStays(s, ls, l, k);
        ChangedInPrefix(s, ls, l, k);
        assert t1[r.url].updatedAt == StampOf(more, k);
      }
    }
  }

  lemma RowTracks(s: Schema, t: Table, r: Row, seenAt: int, now: int, u: Url, ls: seq<Listing>)
    requires Tracks(s, t, u, ls)
    ensures Tracks(s, UpsertOne(t, s, r, seenAt, now), u, ls + ListingAt(r, seenAt, now, u))
  {
    hide HoldsRow, Excluded, ContentChanged, LastChange;
    if r.url == u {
      UpsertOneTracks(s, t, r, seenAt, now, ls);
    } else {
      assert ls + [] == ls;
    }
  }

  lemma {:induction false} UpsertRowsTracks(s: Schema, t: Table, rows: seq<Row>, seenAt: int, now: int, u: Url,
                                            ls: seq<Listing>)
    requires Tracks(s, t, u, ls)
    ensures Tracks(s, UpsertRows(t, s, rows, seenAt, now), u, ls + ListingsIn(rows, seenAt, now, u))
    decreases |rows|
  {
    hide Tracks, UpsertOne, ListingAt;
    if |rows| == 0 {
      assert ls + ListingsIn(rows, seenAt, now, u) == ls;
    } else {
      var here, rest := ListingAt(rows[0], seenAt, now, u), ListingsIn(rows[1..], seenAt, now, u);
      RowTracks(s, t, rows[0], seenAt, now, u, ls);
      UpsertRowsTracks(s, UpsertOne(t, s, rows[0], seenAt, now), rows[1..], seenAt, now, u, ls + here);
      assert ls + here + rest == ls + (here + rest);
    }
  }

  lemma {:induction false} UpsertFromTracks(s: Schema, t: Table, rows: seq<Row>, size: nat, c: Cycle, k: nat, n: nat,
                                            u: Url, ls: seq<Listing>)
    requires size > 0 && BatchesDistinct(rows, size) && Tracks(s, t, u, ls)
    ensures Tracks(s, UpsertFrom(t, s, rows, size, c.seenAt, c.clock, k, n).t, u,
        ls + ListingsFrom(rows, size, c, k, u))
    decreases |rows|
  {
    hide Tracks, DistinctUrls, UpsertRows, ListingsIn;
    if |rows| == 0 {
      assert ls + ListingsFrom(rows, size, c, k, u) == ls;
    } else {
      var m := if |rows| < size then |rows| else size;
      var here := ListingsIn(rows[..m], c.seenAt, c.clock(k), u);
      var rest := ListingsFrom(rows[m..], size, c, k + 1, u);
      UpsertRowsTracks(s, t, rows[..m], c.seenAt, c.clock(k), u, ls);
      UpsertFromTracks(s, UpsertRows(t, s, rows[..m], c.seenAt, c.clock(k)), rows[m..], size, c, k + 1, n + m, u,
          ls + here);
      assert ls + here + rest == ls + (here + rest);
    }
  }

  /** One cycle: the counter and the closing times leave content and `updated_at` alone. */
  lemma ImportTracks(s: Schema, t: Table, size: nat, c: Cycle, parse: Value -> Option<int>, u: Url, ls: seq<Listing>)
    requires size > 0 && BatchesDistinct(c.rows, size) && Tracks(s, t, u, ls)
    ensures Tracks(s, Import(t, s, size, c, parse).t, u, ls + ListingsFrom(c.rows, size, c, 0, u))
  {
    hide UpsertFrom, ListingsFrom, LastChange, BatchesDistinct;
    if |c.rows| == 0 {
      NoListings(c, size, u);
      assert ls + [] == ls;
    } else {
      UpsertFromTracks(s, t, c.rows, size, c, 0, 0, u, ls);
    }
  }

  lemma NoListings(c: Cycle, size: nat, u: Url)
    requires size > 0 && |c.rows| == 0
    ensures ListingsFrom(c.rows, size, c, 0, u) == []
  {
  }

  /**
   * Over any history a stored row holds the content of its latest listing, and `updated_at` is the time of the last
   * listing whose content differed from the one before, or of its insertion when none did.
   */
  lemma {:induction false} HistoryTracks(h: seq<Event>, s: Schema, size: nat, parse: Value -> Option<int>, u: Url)
    requires size > 0 && Accepted(h, size)
    ensures Tracks(s, State(h, s, size, parse), u, Listings(h, size, u))
    decreases |h|
  {
    hide Tracks, Import, BatchesDistinct;
    if |h| == 0 {
      NothingTracked(s, u);
    } else {
      var before, e := h[..|h| - 1], h[|h| - 1];
      HistoryTracks(before, s, size, parse, u);
      var ls := Listings(before, size, u);
      if e.Ran? {
        ImportTracks(s, State(before, s, size, parse), size, e.cycle, parse, u, ls);
      } else {
        assert ls + [] == ls;
      }
    }
  }

  lemma NothingTracked(s: Schema, u: Url)
    ensures Tracks(s, map[], u, [])
  {
  }
}
