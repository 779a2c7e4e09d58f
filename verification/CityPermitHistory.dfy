/** Whole calls and whole histories of the multi-city import, and what the table holds after them. */
module CityPermitHistory {
  import opened Outcomes
  import opened Ordered
  import opened CityPermits
  import opened CityPermitLaws

  // ---------------------------------------------------------------- batches

  predicate DistinctKeys(rows: seq<Row>) {
    forall i, j | 0 <= i < j < |rows| :: KeyOf(rows[i]) != KeyOf(rows[j])
  }

  predicate BlankRows(rows: seq<Row>, source: string) {
    forall i | 0 <= i < |rows| :: Blank(rows[i]) && Safe(rows[i], source)
  }

  predicate KeyedRows(rows: seq<Row>, source: string) {
    forall i | 0 <= i < |rows| :: !Blank(rows[i]) && rows[i].source == source
  }

  predicate AnyWithKey(rows: seq<Row>, k: Key) {
    exists i | 0 <= i < |rows| :: KeyOf(rows[i]) == k
  }

  /** The stored row `x` gives way to some row of the batch. */
  predicate GivesWayToAny(x: Row, rows: seq<Row>) {
    exists i | 0 <= i < |rows| :: GivesWay(x, rows[i])
  }

  predicate FreeAll(t: Table, rows: seq<Row>) {
    forall i | 0 <= i < |rows| :: Free(t, rows[i])
  }

  predicate UnheldAll(t: Table, rows: seq<Row>) {
    forall i | 0 <= i < |rows| :: Unheld(t, rows[i])
  }

  lemma SplitHead(rows: seq<Row>, x: Row)
    requires |rows| > 0
    ensures x in rows <==> x == rows[0] || x in rows[1..]
    ensures GivesWayToAny(x, rows) <==> GivesWay(x, rows[0]) || GivesWayToAny(x, rows[1..])
  {
    assert rows == [rows[0]] + rows[1..];
    if GivesWayToAny(x, rows) && !GivesWay(x, rows[0]) {
      var i :| 0 <= i < |rows| && GivesWay(x, rows[i]);
      assert GivesWay(x, rows[1..][i - 1]);
    }
    if GivesWayToAny(x, rows[1..]) {
      var i :| 0 <= i < |rows[1..]| && GivesWay(x, rows[1..][i]);
      assert GivesWay(x, rows[i + 1]);
    }
  }

  // ---------------------------------------------------------------- in-batch dedupe keeps the last row of a key

  /** `x` is the last row of the batch with its key. */
  predicate LastOfKey(rows: seq<Row>, x: Row) {
    exists i | 0 <= i < |rows| :: rows[i] == x && !AnyWithKey(rows[i + 1..], KeyOf(x))
  }

  lemma PutMembers(rows: seq<Row>, r: Row, x: Row)
    requires DistinctKeys(rows)
    ensures DistinctKeys(Put(rows, r))
    ensures x in Put(rows, r) <==> x == r || (x in rows && KeyOf(x) != KeyOf(r))
  {
    var i := Position(rows, KeyOf(r));
    if i < |rows| {
      assert rows[i := r][i] == r;
      if x in rows && KeyOf(x) != KeyOf(r) {
        var j :| 0 <= j < |rows| && rows[j] == x;
        assert rows[i := r][j] == x;
      }
    } else {
      assert (rows + [r])[|rows|] == r;
    }
  }

  lemma LastOfKeyHead(rows: seq<Row>, x: Row)
    requires |rows| > 0
    ensures LastOfKey(rows, x) <==> LastOfKey(rows[1..], x) || (x == rows[0] && !AnyWithKey(rows[1..], KeyOf(x)))
  {
    if LastOfKey(rows, x) {
      var i :| 0 <= i < |rows| && rows[i] == x && !AnyWithKey(rows[i + 1..], KeyOf(x));
      if i > 0 { assert rows[1..][i - 1] == x && rows[1..][i - 1 + 1..] == rows[i + 1..]; }
    }
    if LastOfKey(rows[1..], x) {
      var i :| 0 <= i < |rows[1..]| && rows[1..][i] == x && !AnyWithKey(rows[1..][i + 1..], KeyOf(x));
      assert rows[i + 1] == x && rows[i + 1 + 1..] == rows[1..][i + 1..];
    }
  }

  lemma AnyWithKeyHead(rows: seq<Row>, k: Key)
    requires |rows| > 0
    ensures AnyWithKey(rows, k) <==> KeyOf(rows[0]) == k || AnyWithKey(rows[1..], k)
  {
    if AnyWithKey(rows, k) && KeyOf(rows[0]) != k {
      var i :| 0 <= i < |rows| && KeyOf(rows[i]) == k;
      assert KeyOf(rows[1..][i - 1]) == k;
    }
    if AnyWithKey(rows[1..], k) {
      var i :| 0 <= i < |rows[1..]| && KeyOf(rows[1..][i]) == k;
      assert KeyOf(rows[i + 1]) == k;
    }
  }

  lemma {:induction false} DedupeMembers(rows: seq<Row>, keyed: seq<Row>, blank: seq<Row>, x: Row)
    requires DistinctKeys(keyed) && DistinctKeys(blank)
    requires forall i | 0 <= i < |keyed| :: !Blank(keyed[i])
    requires forall i | 0 <= i < |blank| :: Blank(blank[i]) && Usable(PrintOf(blank[i], blank[i].source))
    ensures var (k, b) := DedupeFrom(rows, keyed, blank);
            && DistinctKeys(k) && DistinctKeys(b)
            && (x in k <==> (!Blank(x) && LastOfKey(rows, x)) || (x in keyed && !AnyWithKey(rows, KeyOf(x))))
            && (x in b <==> (Blank(x) && Usable(PrintOf(x, x.source)) && LastOfKey(rows, x)) ||
                            (x in blank && !AnyWithKey(rows, KeyOf(x))))
    decreases |rows|
  {
    if |rows| > 0 {
      var r := rows[0];
      LastOfKeyHead(rows, x);
      AnyWithKeyHead(rows, KeyOf(x));
      if !Blank(r) {
        PutMembers(keyed, r, x);
        DedupeMembers(rows[1..], Put(keyed, r), blank, x);
      } else if Usable(PrintOf(r, r.source)) {
        PutMembers(blank, r, x);
        DedupeMembers(rows[1..], keyed, Put(blank, r), x);
      } else {
        DedupeMembers(rows[1..], keyed, blank, x);
      }
    }
  }

  /** The dict-building loop keeps, of the rows with one key, exactly the last; blank rows need usable text. */
  lemma DedupeKeepsLastOfEachKey(rows: seq<Row>, x: Row)
    ensures var (k, b) := DedupeFrom(rows, [], []);
            && DistinctKeys(k) && DistinctKeys(b)
            && (x in k <==> !Blank(x) && LastOfKey(rows, x))
            && (x in b <==> Blank(x) && Usable(PrintOf(x, x.source)) && LastOfKey(rows, x))
  {
    DedupeMembers(rows, [], [], x);
  }

  // ---------------------------------------------------------------- the three stages

  /** The rows with a key are the same. */
  predicate SameKeyed(t: Table, t': Table) {
    && (forall id | id in t.rows && !Blank(t.rows[id].cols) :: id in t'.rows && t'.rows[id] == t.rows[id])
    && (forall id | id in t'.rows && !Blank(t'.rows[id].cols) :: id in t.rows && t'.rows[id] == t.rows[id])
  }

  lemma {:induction false} BlankStageKeeps(t: Table, rows: seq<Row>, source: string, n: nat)
    returns (t': Table, n': nat)
    requires Inv(t) && BlankRows(rows, source)
    ensures BlankStage(t, rows, source, n) == Done(t', n')
    ensures Inv(t') && Evolves(t, t') && SameKeyed(t, t')
    decreases |rows|
  {
    t', n' := t, n;
    if |rows| > 0 {
      UpsertBlankKeeps(t, rows[0], source);
      var (t1, ok) := UpsertBlank(t, rows[0], source).value;
      t', n' := BlankStageKeeps(t1, rows[1..], source, n + if ok then 1 else 0);
      EvolvesTransitive(t, t1, t');
    }
  }

  lemma {:induction false} BlankStageHas(t: Table, rows: seq<Row>, source: string, n: nat, x: Row)
    requires Inv(t) && BlankRows(rows, source) && DistinctKeys(rows)
    ensures BlankStage(t, rows, source, n).Done?
    ensures Has(BlankStage(t, rows, source, n).t, x) <==>
              (x in rows && !KeyedPrint(t, StoredPrint(x))) || (Has(t, x) && !GivesWayToAny(x, rows))
    decreases |rows|
  {
    hide Inv, Evolves, UpsertBlank, Supersedes, KeyedPrint, Has;
    if |rows| > 0 {
      var r := rows[0];
      UpsertBlankKeeps(t, r, source);
      var (t1, ok) := UpsertBlank(t, r, source).value;
      BlankStageHas(t1, rows[1..], source, n + if ok then 1 else 0, x);
      SplitHead(rows, x);
      KeyedPrintSame(t, t1, r, StoredPrint(x));
      if ok {
        SupersedesHas(t, t1, r, x);
      } else if Has(t, x) && GivesWay(x, r) {
        BlankBesideKeyed(t, x);
      }
      if x == r { LaterBlanksDiffer(rows, source); }
    }
  }

  lemma KeyedPrintSame(t: Table, t1: Table, r: Row, f: Fingerprint)
    requires Blank(r) && (t1 == t || Supersedes(t, t1, r))
    ensures KeyedPrint(t1, f) <==> KeyedPrint(t, f)
  {
  }

  lemma BlankBesideKeyed(t: Table, x: Row)
    requires Inv(t) && Has(t, x) && Blank(x)
    ensures !KeyedPrint(t, StoredPrint(x))
  {
    var i :| i in t.rows && t.rows[i].cols == x;
    assert forall j | j in t.rows && j != i :: !Clash(t.rows[i], t.rows[j]);
  }

  lemma LaterBlanksDiffer(rows: seq<Row>, source: string)
    requires BlankRows(rows, source) && DistinctKeys(rows) && |rows| > 0
    ensures !GivesWayToAny(rows[0], rows[1..]) && rows[0] !in rows[1..]
  {
    forall i | 0 <= i < |rows[1..]|
      ensures !GivesWay(rows[0], rows[1..][i]) && rows[1..][i] != rows[0]
    {
      assert KeyOf(rows[0]) != KeyOf(rows[i + 1]);
    }
  }

  lemma SupersedesKeepsFree(t: Table, t': Table, r: Row, q: Row)
    requires Supersedes(t, t', r) && !Blank(r) && Free(t, q)
    ensures Free(t', q)
  {
  }

  lemma SupersedesKeepsUnheld(t: Table, t': Table, r: Row, q: Row)
    requires Supersedes(t, t', r) && !Blank(r) && !Blank(q) && KeyOf(q) != KeyOf(r) && Unheld(t, q)
    ensures Unheld(t', q)
  {
    forall id
      ensures id !in IdsByKey(t', q.source, q.externalId)
    {
      assert id !in IdsByKey(t, q.source, q.externalId);
    }
    NoMember(IdsByKey(t', q.source, q.externalId));
  }

  /** Promotion splits the keyed rows into those that took over a blank row and those left for the batches. */
  datatype Split = Split(t: Table, done: seq<Row>, left: seq<Row>)

  function Promoting(t: Table, rows: seq<Row>, source: string): Split
    decreases |rows|
  {
    if |rows| == 0 || Promote(t, rows[0], source).None? then Split(t, [], rows)
    else
      var (t1, ok) := Promote(t, rows[0], source).value;
      var tail := Promoting(t1, rows[1..], source);
      if ok then tail.(done := [rows[0]] + tail.done) else tail.(left := [rows[0]] + tail.left)
  }

  lemma {:induction false} PromotingKeeps(t: Table, rows: seq<Row>, source: string)
    requires Inv(t) && KeyedRows(rows, source)
    ensures Inv(Promoting(t, rows, source).t) && Evolves(t, Promoting(t, rows, source).t)
    decreases |rows|
  {
    if |rows| > 0 {
      PromoteKeeps(t, rows[0], source);
      var t1 := Promote(t, rows[0], source).value.0;
      PromotingKeeps(t1, rows[1..], source);
      EvolvesTransitive(t, t1, Promoting(t, rows, source).t);
    }
  }

  predicate StageIsPromoting(t: Table, rows: seq<Row>, source: string, n: nat, rest: seq<Row>) {
    var p := Promoting(t, rows, source);
    PromoteStage(t, rows, source, n, rest) == Promoted(p.t, n + |p.done|, rest + p.left)
  }

  lemma {:induction false} PromoteStageSplits(t: Table, rows: seq<Row>, source: string, n: nat, rest: seq<Row>)
    requires Inv(t) && KeyedRows(rows, source)
    ensures StageIsPromoting(t, rows, source, n, rest)
    decreases |rows|
  {
    hide Promote, Evolves, Supersedes, Free;
    if |rows| == 0 {
      assert rest + Promoting(t, rows, source).left == rest;
    } else {
      PromoteKeeps(t, rows[0], source);
      var t1 := Promote(t, rows[0], source).value.0;
      if Promote(t, rows[0], source).value.1 {
        PromoteStageSplits(t1, rows[1..], source, n + 1, rest);
      } else {
        PromoteStageSplits(t1, rows[1..], source, n, rest + [rows[0]]);
        var left := Promoting(t1, rows[1..], source).left;
        assert rest + [rows[0]] + left == rest + ([rows[0]] + left);
      }
    }
  }

  lemma {:induction false} PromotingMembers(t: Table, rows: seq<Row>, source: string, x: Row)
    requires Inv(t) && KeyedRows(rows, source)
    ensures var p := Promoting(t, rows, source); x in rows <==> x in p.done || x in p.left
    decreases |rows|
  {
    if |rows| > 0 {
      PromoteKeeps(t, rows[0], source);
      SplitHead(rows, x);
      PromotingMembers(Promote(t, rows[0], source).value.0, rows[1..], source, x);
    }
  }

  lemma PromotingKeyed(t: Table, rows: seq<Row>, source: string)
    requires Inv(t) && KeyedRows(rows, source)
    ensures KeyedRows(Promoting(t, rows, source).done, source) && KeyedRows(Promoting(t, rows, source).left, source)
  {
    var p := Promoting(t, rows, source);
    forall i | 0 <= i < |p.done|
      ensures p.done[i] in rows
    {
      PromotingMembers(t, rows, source, p.done[i]);
    }
    forall i | 0 <= i < |p.left|
      ensures p.left[i] in rows
    {
      PromotingMembers(t, rows, source, p.left[i]);
    }
  }

  lemma {:induction false} PromotingKeys(t: Table, rows: seq<Row>, source: string)
    requires Inv(t) && KeyedRows(rows, source) && DistinctKeys(rows)
    ensures var p := Promoting(t, rows, source);
            && DistinctKeys(p.left)
            && (forall k :: AnyWithKey(p.done, k) || AnyWithKey(p.left, k) ==> AnyWithKey(rows, k))
            && (forall i | 0 <= i < |p.left| :: !AnyWithKey(p.done, KeyOf(p.left[i])))
    decreases |rows|
  {
    hide Inv, Promote;
    var p := Promoting(t, rows, source);
    if |rows| > 0 {
      var r := rows[0];
      PromoteKeeps(t, r, source);
      var (t1, ok) := Promote(t, r, source).value;
      var tail := Promoting(t1, rows[1..], source);
      PromotingKeys(t1, rows[1..], source);
      assert !AnyWithKey(rows[1..], KeyOf(r));
      assert !AnyWithKey(tail.left, KeyOf(r)) && !AnyWithKey(tail.done, KeyOf(r));
      forall k
        ensures AnyWithKey(p.done, k) || AnyWithKey(p.left, k) ==> AnyWithKey(rows, k)
        ensures ok ==> (AnyWithKey(p.done, k) <==> k == KeyOf(r) || AnyWithKey(tail.done, k))
      {
        AnyWithKeyHead(rows, k);
        if ok { AnyWithKeyHead(p.done, k); } else { AnyWithKeyHead(p.left, k); }
      }
    }
  }

  lemma {:induction false} PromotingFree(t: Table, rows: seq<Row>, source: string, q: Row)
    requires Inv(t) && KeyedRows(rows, source)
    ensures Free(t, q) ==> Free(Promoting(t, rows, source).t, q)
    ensures FreeAll(Promoting(t, rows, source).t, Promoting(t, rows, source).left)
    decreases |rows|
  {
    hide Inv, Evolves, Promote, Supersedes, Free;
    if |rows| > 0 {
      var r := rows[0];
      PromoteKeeps(t, r, source);
      var (t1, ok) := Promote(t, r, source).value;
      if ok && Free(t, q) { SupersedesKeepsFree(t, t1, r, q); }
      PromotingFree(t1, rows[1..], source, q);
      PromotingFree(t1, rows[1..], source, r);
    }
  }

  lemma {:induction false} PromotingUnheld(t: Table, rows: seq<Row>, source: string, q: Row)
    requires Inv(t) && KeyedRows(rows, source) && !Blank(q) && Unheld(t, q)
    requires !AnyWithKey(Promoting(t, rows, source).done, KeyOf(q))
    ensures Unheld(Promoting(t, rows, source).t, q)
    decreases |rows|
  {
    if |rows| > 0 {
      var r := rows[0];
      PromoteKeeps(t, r, source);
      var (t1, ok) := Promote(t, r, source).value;
      if ok {
        AnyWithKeyHead(Promoting(t, rows, source).done, KeyOf(q));
        SupersedesKeepsUnheld(t, t1, r, q);
      }
      PromotingUnheld(t1, rows[1..], source, q);
    }
  }

  /** `x` is one of the promoted rows, or it was there and neither a promoted key nor a promoted print. */
  lemma {:induction false} PromotingHas(t: Table, rows: seq<Row>, source: string, x: Row)
    requires Inv(t) && KeyedRows(rows, source) && DistinctKeys(rows)
    ensures var p := Promoting(t, rows, source);
            Has(p.t, x) <==>
              (x in p.done || (Has(t, x) && if Blank(x) then !GivesWayToAny(x, rows) else !GivesWayToAny(x, p.done)))
    decreases |rows|
  {
    if |rows| > 0 {
      var p := Promoting(t, rows, source);
      var r := rows[0];
      PromoteKeeps(t, r, source);
      var (t1, ok) := Promote(t, r, source).value;
      PromotingHas(t1, rows[1..], source, x);
      SplitHead(rows, x);
      if ok {
        SplitHead(p.done, x);
        SupersedesHas(t, t1, r, x);
        if x == r { PromotedOnce(t1, rows, source); }
      }
    }
  }

  lemma PromotedOnce(t1: Table, rows: seq<Row>, source: string)
    requires Inv(t1) && |rows| > 0 && KeyedRows(rows, source) && DistinctKeys(rows)
    ensures !GivesWayToAny(rows[0], Promoting(t1, rows[1..], source).done)
  {
    PromotingKeys(t1, rows[1..], source);
    var done := Promoting(t1, rows[1..], source).done;
    assert !AnyWithKey(rows[1..], KeyOf(rows[0]));
    assert !AnyWithKey(done, KeyOf(rows[0]));
  }

  /** The batched statement over rows with distinct keys that no blank row stands in the way of. */
  lemma {:induction false} KeyedBatchKeeps(t: Table, rows: seq<Row>, source: string, refresh: bool)
    requires Inv(t) && KeyedRows(rows, source) && DistinctKeys(rows) && FreeAll(t, rows)
    requires refresh ==> UnheldAll(t, rows)
    ensures KeyedBatch(t, rows, refresh).Some?
    ensures var t' := KeyedBatch(t, rows, refresh).value; Inv(t') && Evolves(t, t')
    decreases |rows|
  {
    if |rows| > 0 {
      UpsertKeyedKeeps(t, rows[0], refresh);
      var t1 := UpsertKeyed(t, rows[0], refresh).value;
      BatchTail(t, t1, rows, refresh);
      KeyedBatchKeeps(t1, rows[1..], source, refresh);
      EvolvesTransitive(t, t1, KeyedBatch(t, rows, refresh).value);
    }
  }

  lemma BatchTail(t: Table, t1: Table, rows: seq<Row>, refresh: bool)
    requires |rows| > 0 && DistinctKeys(rows) && FreeAll(t, rows) && (refresh ==> UnheldAll(t, rows))
    requires forall i | 0 <= i < |rows| :: !Blank(rows[i])
    requires Supersedes(t, t1, rows[0])
    ensures DistinctKeys(rows[1..]) && FreeAll(t1, rows[1..]) && (refresh ==> UnheldAll(t1, rows[1..]))
  {
    forall i | 0 <= i < |rows[1..]|
      ensures Free(t1, rows[1..][i]) && (refresh ==> Unheld(t1, rows[1..][i]))
    {
      SupersedesKeepsFree(t, t1, rows[0], rows[i + 1]);
      if refresh { SupersedesKeepsUnheld(t, t1, rows[0], rows[i + 1]); }
    }
  }

  lemma {:induction false} KeyedBatchHas(t: Table, rows: seq<Row>, source: string, refresh: bool, x: Row)
    requires Inv(t) && KeyedRows(rows, source) && DistinctKeys(rows) && FreeAll(t, rows)
    requires refresh ==> UnheldAll(t, rows)
    ensures KeyedBatch(t, rows, refresh).Some?
    ensures Has(KeyedBatch(t, rows, refresh).value, x) <==> x in rows || (Has(t, x) && !GivesWayToAny(x, rows))
    decreases |rows|
  {
    hide Inv, Evolves, UpsertKeyed, Supersedes, Has, Free, Unheld;
    if |rows| > 0 {
      var r := rows[0];
      UpsertKeyedKeeps(t, r, refresh);
      var t1 := UpsertKeyed(t, r, refresh).value;
      BatchTail(t, t1, rows, refresh);
      KeyedBatchHas(t1, rows[1..], source, refresh, x);
      SplitHead(rows, x);
      SupersedesHas(t, t1, r, x);
      if x == r { assert forall i | 0 <= i < |rows[1..]| :: KeyOf(rows[1..][i]) != KeyOf(r); }
    }
  }

  /** Cutting the rows into statements of at most BATCH_SIZE makes no difference when none of them raises. */
  lemma {:induction false} BatchAppend(t: Table, a: seq<Row>, b: seq<Row>, refresh: bool)
    ensures KeyedBatch(t, a + b, refresh) ==
              match KeyedBatch(t, a, refresh) case None => None case Some(t') => KeyedBatch(t', b, refresh)
    decreases |a|
  {
    if |a| == 0 {
      assert a + b == b;
    } else {
      assert (a + b)[0] == a[0] && (a + b)[1..] == a[1..] + b;
      if UpsertKeyed(t, a[0], refresh).Some? {
        BatchAppend(UpsertKeyed(t, a[0], refresh).value, a[1..], b, refresh);
      }
    }
  }

  lemma {:induction false} StatementsAreOneBatch(t: Table, rows: seq<Row>, refresh: bool, n: nat)
    requires KeyedBatch(t, rows, refresh).Some?
    ensures KeyedStage(t, rows, refresh, n) == Done(KeyedBatch(t, rows, refresh).value, n + |rows|)
    decreases |rows|
  {
    if |rows| > 0 {
      var m := if |rows| < BATCH_SIZE then |rows| else BATCH_SIZE;
      assert rows == rows[..m] + rows[m..];
      BatchAppend(t, rows[..m], rows[m..], refresh);
      StatementsAreOneBatch(KeyedBatch(t, rows[..m], refresh).value, rows[m..], refresh, n + m);
    }
  }

  // ---------------------------------------------------------------- a whole call

  /** The rows the table holds afterwards, read off the rows before and the deduplicated batch. */
  predicate HeldAfter(t: Table, keyed: seq<Row>, blank: seq<Row>, x: Row) {
    || x in keyed
    || (!Blank(x) && Has(t, x) && !GivesWayToAny(x, keyed))
    || (Blank(x) && !GivesWayToAny(x, keyed) &&
        ((x in blank && !KeyedPrint(t, StoredPrint(x))) || (Has(t, x) && !GivesWayToAny(x, blank))))
  }

  predicate Batch(t: Table, keyed: seq<Row>, blank: seq<Row>, source: string, refresh: bool) {
    && KeyedRows(keyed, source) && DistinctKeys(keyed)
    && BlankRows(blank, source) && DistinctKeys(blank)
    && (refresh ==> UnheldAll(t, keyed))
  }

  lemma SameKeyedKeepsUnheld(t: Table, t': Table, rows: seq<Row>, source: string)
    requires SameKeyed(t, t') && KeyedRows(rows, source) && UnheldAll(t, rows)
    ensures UnheldAll(t', rows)
  {
    forall i | 0 <= i < |rows|
      ensures Unheld(t', rows[i])
    {
      forall id
        ensures id !in IdsByKey(t', rows[i].source, rows[i].externalId)
      {
        assert id !in IdsByKey(t, rows[i].source, rows[i].externalId);
      }
      NoMember(IdsByKey(t', rows[i].source, rows[i].externalId));
    }
  }

  /** After promotion the remaining rows are ready for the batched statement. */
  lemma PromotedBatchReady(t: Table, rows: seq<Row>, source: string, refresh: bool)
    requires Inv(t) && KeyedRows(rows, source) && DistinctKeys(rows) && (refresh ==> UnheldAll(t, rows))
    ensures var p := Promoting(t, rows, source);
            && Inv(p.t) && Evolves(t, p.t)
            && KeyedRows(p.left, source) && DistinctKeys(p.left) && FreeAll(p.t, p.left)
            && (refresh ==> UnheldAll(p.t, p.left))
  {
    var p := Promoting(t, rows, source);
    PromotingKeeps(t, rows, source);
    PromotingKeyed(t, rows, source);
    PromotingKeys(t, rows, source);
    if |rows| > 0 { PromotingFree(t, rows, source, rows[0]); }
    if refresh {
      forall i | 0 <= i < |p.left|
        ensures Unheld(p.t, p.left[i])
      {
        PromotingMembers(t, rows, source, p.left[i]);
        PromotingUnheld(t, rows, source, p.left[i]);
      }
    }
  }

  /** The keyed stages end in the batched statement over the rows that promotion left. */
  lemma KeyedStagesRun(t: Table, keyed: seq<Row>, source: string, refresh: bool, n: nat)
    requires Inv(t) && KeyedRows(keyed, source)
    requires KeyedBatch(Promoting(t, keyed, source).t, Promoting(t, keyed, source).left, refresh).Some?
    ensures var p := Promoting(t, keyed, source);
            KeyedStages(t, keyed, source, refresh, n) ==
              Done(KeyedBatch(p.t, p.left, refresh).value, n + |p.done| + |p.left|)
  {
    hide Inv, KeyedRows, Promote, UpsertKeyed;
    var p := Promoting(t, keyed, source);
    PromoteStageSplits(t, keyed, source, n, []);
    assert PromoteStage(t, keyed, source, n, []) == Promoted(p.t, n + |p.done|, p.left) by {
      assert [] + p.left == p.left;
    }
    StatementsAreOneBatch(p.t, p.left, refresh, n + |p.done|);
  }

  lemma KeyedStagesKeep(t: Table, keyed: seq<Row>, source: string, refresh: bool, n: nat)
    requires Inv(t) && KeyedRows(keyed, source) && DistinctKeys(keyed) && (refresh ==> UnheldAll(t, keyed))
    ensures KeyedStages(t, keyed, source, refresh, n).Done?
    ensures var t' := KeyedStages(t, keyed, source, refresh, n).t; Inv(t') && Evolves(t, t')
  {
    var p := Promoting(t, keyed, source);
    PromotedBatchReady(t, keyed, source, refresh);
    KeyedBatchKeeps(p.t, p.left, source, refresh);
    KeyedStagesRun(t, keyed, source, refresh, n);
    EvolvesTransitive(t, p.t, KeyedBatch(p.t, p.left, refresh).value);
  }

  lemma KeyedStagesHold(t: Table, keyed: seq<Row>, source: string, refresh: bool, n: nat, x: Row)
    requires Inv(t) && KeyedRows(keyed, source) && DistinctKeys(keyed) && (refresh ==> UnheldAll(t, keyed))
    ensures KeyedStages(t, keyed, source, refresh, n).Done?
    ensures Has(KeyedStages(t, keyed, source, refresh, n).t, x) <==>
              x in keyed || (Has(t, x) && !GivesWayToAny(x, keyed))
  {
    var p := Promoting(t, keyed, source);
    PromotedBatchReady(t, keyed, source, refresh);
    KeyedBatchHas(p.t, p.left, source, refresh, x);
    KeyedStagesRun(t, keyed, source, refresh, n);
    PromotingHas(t, keyed, source, x);
    PromotingMembers(t, keyed, source, x);
    GivesWaySplits(t, keyed, source, x);
    if x in p.done { DoneStays(t, keyed, source, x); }
  }

  lemma DoneStays(t: Table, keyed: seq<Row>, source: string, x: Row)
    requires Inv(t) && KeyedRows(keyed, source) && DistinctKeys(keyed) && x in Promoting(t, keyed, source).done
    ensures !GivesWayToAny(x, Promoting(t, keyed, source).left)
  {
    var p := Promoting(t, keyed, source);
    PromotingKeys(t, keyed, source);
    PromotingKeyed(t, keyed, source);
    var j :| 0 <= j < |p.done| && p.done[j] == x;
    forall i | 0 <= i < |p.left|
      ensures !GivesWay(x, p.left[i])
    {
      assert !AnyWithKey(p.done, KeyOf(p.left[i]));
    }
  }

  lemma StagesKeep(t: Table, keyed: seq<Row>, blank: seq<Row>, source: string, refresh: bool)
    requires Inv(t) && Batch(t, keyed, blank, source, refresh)
    ensures Stages(t, keyed, blank, source, refresh).Done?
    ensures var t' := Stages(t, keyed, blank, source, refresh).t; Inv(t') && Evolves(t, t')
  {
    var t1, n1 := BlankStageKeeps(t, blank, source, 0);
    if refresh { SameKeyedKeepsUnheld(t, t1, keyed, source); }
    KeyedStagesKeep(t1, keyed, source, refresh, n1);
    EvolvesTransitive(t, t1, Stages(t, keyed, blank, source, refresh).t);
  }

  /** The three stages store exactly what the declarative reading of the batch says. */
  lemma StagesHold(t: Table, keyed: seq<Row>, blank: seq<Row>, source: string, refresh: bool, x: Row)
    requires Inv(t) && Batch(t, keyed, blank, source, refresh)
    ensures Stages(t, keyed, blank, source, refresh).Done?
    ensures Has(Stages(t, keyed, blank, source, refresh).t, x) <==> HeldAfter(t, keyed, blank, x)
  {
    var t1, n1 := BlankStageKeeps(t, blank, source, 0);
    BlankStageHas(t, blank, source, 0, x);
    if refresh { SameKeyedKeepsUnheld(t, t1, keyed, source); }
    KeyedStagesHold(t1, keyed, source, refresh, n1, x);
    if !Blank(x) { KeyedIgnoresBlank(blank, x); }
  }

  lemma GivesWaySplits(t: Table, keyed: seq<Row>, source: string, x: Row)
    requires Inv(t) && KeyedRows(keyed, source)
    ensures var p := Promoting(t, keyed, source);
            GivesWayToAny(x, keyed) <==> GivesWayToAny(x, p.done) || GivesWayToAny(x, p.left)
  {
    var p := Promoting(t, keyed, source);
    if GivesWayToAny(x, keyed) {
      var i :| 0 <= i < |keyed| && GivesWay(x, keyed[i]);
      PromotingMembers(t, keyed, source, keyed[i]);
      assert keyed[i] in p.done || keyed[i] in p.left;
    }
    if GivesWayToAny(x, p.done) {
      var i :| 0 <= i < |p.done| && GivesWay(x, p.done[i]);
      PromotingMembers(t, keyed, source, p.done[i]);
      assert p.done[i] in keyed;
    }
    if GivesWayToAny(x, p.left) {
      var i :| 0 <= i < |p.left| && GivesWay(x, p.left[i]);
      PromotingMembers(t, keyed, source, p.left[i]);
      assert p.left[i] in keyed;
    }
  }

  lemma KeyedIgnoresBlank(blank: seq<Row>, x: Row)
    requires !Blank(x) && forall i | 0 <= i < |blank| :: Blank(blank[i])
    ensures !GivesWayToAny(x, blank) && x !in blank
  {
  }

  /** A batch that may be imported for `source` at any time: after clamping, every row is tagged with the source,
      and the text that identifies a row without external id has nothing to strip. */
  predicate SafeBatch(rows: seq<Row>, source: string) {
    forall i | 0 <= i < |rows| :: SafeRow(Clamp(rows[i]), source)
  }

  predicate SafeRow(r: Row, source: string) {
    r.source == source && (Blank(r) && Usable(PrintOf(r, source)) ==> StoredPrint(r) == PrintOf(r, source))
  }

  lemma AttachSameKeys(rows: seq<Row>, resolve: Row -> Option<int>)
    ensures |Attach(rows, resolve)| == |rows|
    ensures forall i | 0 <= i < |rows| ::
              var a := Attach(rows, resolve)[i];
              KeyOf(a) == KeyOf(rows[i]) && Blank(a) == Blank(rows[i]) && a.source == rows[i].source &&
              StoredPrint(a) == StoredPrint(rows[i])
    ensures DistinctKeys(rows) ==> DistinctKeys(Attach(rows, resolve))
  {
  }

  lemma DedupedIsBatch(rows: seq<Row>, source: string, resolve: Row -> Option<int>)
    requires SafeBatch(rows, source)
    ensures var (keyed, blank) := DedupeFrom(ClampAll(rows), [], []);
            && KeyedRows(Attach(keyed, resolve), source) && DistinctKeys(Attach(keyed, resolve))
            && BlankRows(Attach(blank, resolve), source) && DistinctKeys(Attach(blank, resolve))
  {
    var (keyed, blank) := DedupeFrom(ClampAll(rows), [], []);
    forall i | 0 <= i < |keyed|
      ensures !Blank(keyed[i]) && keyed[i].source == source
    {
      DedupeKeepsLastOfEachKey(ClampAll(rows), keyed[i]);
      assert keyed[i] in keyed;
    }
    forall i | 0 <= i < |blank|
      ensures Blank(blank[i]) && Safe(blank[i], source)
    {
      DedupeKeepsLastOfEachKey(ClampAll(rows), blank[i]);
      assert blank[i] in blank;
    }
    if |rows| > 0 { DedupeKeepsLastOfEachKey(ClampAll(rows), rows[0]); }
    AttachSameKeys(keyed, resolve);
    AttachSameKeys(blank, resolve);
  }

  lemma DeleteSourceKeeps(t: Table, source: string, rows: seq<Row>)
    requires Inv(t) && KeyedRows(rows, source)
    ensures Inv(DeleteSource(t, source)) && UnheldAll(DeleteSource(t, source), rows)
  {
    var d := DeleteSource(t, source);
    forall i | 0 <= i < |rows|
      ensures Unheld(d, rows[i])
    {
      assert forall id :: id !in IdsByKey(d, rows[i].source, rows[i].externalId);
      NoMember(IdsByKey(d, rows[i].source, rows[i].externalId));
    }
  }

  /** A safe call never raises and keeps uniqueness; without full refresh it also keeps every identity. */
  lemma ImportKeeps(t: Table, rows: seq<Row>, source: string, refresh: bool, resolve: Row -> Option<int>)
    requires Inv(t) && SafeBatch(rows, source)
    ensures Import(t, rows, source, refresh, resolve).Done?
    ensures var t' := Import(t, rows, source, refresh, resolve).t; Inv(t') && (!refresh ==> Evolves(t, t'))
  {
    hide Stages;
    DedupedIsBatch(rows, source, resolve);
    var (keyed, blank) := DedupeFrom(ClampAll(rows), [], []);
    var k, b := Attach(keyed, resolve), Attach(blank, resolve);
    DeleteSourceKeeps(t, source, k);
    StagesKeep(if refresh then DeleteSource(t, source) else t, k, b, source, refresh);
  }

  /** What a safe incremental call leaves in the table, as a statement about the deduplicated batch alone. */
  lemma ImportHolds(t: Table, rows: seq<Row>, source: string, resolve: Row -> Option<int>, x: Row)
    requires Inv(t) && SafeBatch(rows, source)
    ensures Import(t, rows, source, false, resolve).Done?
    ensures var (keyed, blank) := DedupeFrom(ClampAll(rows), [], []);
            Has(Import(t, rows, source, false, resolve).t, x) <==>
              HeldAfter(t, Attach(keyed, resolve), Attach(blank, resolve), x)
  {
    hide Stages;
    DedupedIsBatch(rows, source, resolve);
    var (keyed, blank) := DedupeFrom(ClampAll(rows), [], []);
    StagesHold(t, Attach(keyed, resolve), Attach(blank, resolve), source, false, x);
  }

  // ---------------------------------------------------------------- histories

  datatype Call = Call(rows: seq<Row>, source: string, refresh: bool, resolve: Row -> Option<int>)

  function After(o: Outcome): Table {
    match o case Done(t, _) => t case Raised(t) => t
  }

  function History(t: Table, calls: seq<Call>): Table
    decreases |calls|
  {
    if |calls| == 0 then t
    else
      var c := calls[0];
      History(After(Import(t, c.rows, c.source, c.refresh, c.resolve)), calls[1..])
  }

  predicate SafeCalls(calls: seq<Call>) {
    forall i | 0 <= i < |calls| :: SafeBatch(calls[i].rows, calls[i].source)
  }

  predicate Incremental(calls: seq<Call>) {
    forall i | 0 <= i < |calls| :: !calls[i].refresh
  }

  /** Over any history of safe calls, for any mix of sources and refreshes, uniqueness holds; over a history
      without full refresh nothing loses its identity. */
  lemma {:induction false} HistoryKeeps(t: Table, calls: seq<Call>)
    requires Inv(t) && SafeCalls(calls)
    ensures Inv(History(t, calls))
    ensures Incremental(calls) ==> Evolves(t, History(t, calls))
    decreases |calls|
  {
    hide Import;
    if |calls| > 0 {
      var c := calls[0];
      ImportKeeps(t, c.rows, c.source, c.refresh, c.resolve);
      var t1 := After(Import(t, c.rows, c.source, c.refresh, c.resolve));
      HistoryKeeps(t1, calls[1..]);
      if Incremental(calls) { EvolvesTransitive(t, t1, History(t, calls)); }
    }
  }

  /** The invariant in the importer's own words, for the table after any safe history from an empty one. */
  lemma HistoryFromEmpty(calls: seq<Call>, i: int, j: int)
    requires SafeCalls(calls)
    requires var t := History(EMPTY, calls); i in t.rows && j in t.rows && i != j
    ensures var p, q := History(EMPTY, calls).rows[i].cols, History(EMPTY, calls).rows[j].cols;
            && (p.externalId != "" && p.externalId == q.externalId ==> p.source != q.source)
            && (StoredPrint(p) == StoredPrint(q) ==> !Blank(p) && !Blank(q))
  {
    HistoryKeeps(EMPTY, calls);
    var t := History(EMPTY, calls);
    assert !Clash(t.rows[i], t.rows[j]);
  }
}
