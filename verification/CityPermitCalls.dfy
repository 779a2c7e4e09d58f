/** Whole calls of the multi-city import: full refreshes, what is counted, the stored columns, and the unique
    indexes. */
module CityPermitCalls {
  import opened Outcomes
  import opened Ordered
  import opened Text
  import opened CityPermits
  import opened CityPermitLaws
  import opened CityPermitHistory
  import opened CityPermitReimport

  // ---------------------------------------------------------------- dedupe

  /** Two rows of a batch stand for one permit: one (source, external id), or without one, one source, address, value
      and applicant up to white space at the ends. */
  predicate Alike(a: Row, b: Row) {
    && a.source == b.source && (a.externalId == "" <==> b.externalId == "")
    && (a.externalId != "" ==> a.externalId == b.externalId)
    && (a.externalId == "" ==>
          && Strip(a.address) == Strip(b.address) && Strip(a.value) == Strip(b.value)
          && Strip(a.applicant) == Strip(b.applicant))
  }

  predicate LastAlike(rows: seq<Row>, x: Row) {
    exists i | 0 <= i < |rows| :: rows[i] == x && forall j | i < j < |rows| :: !Alike(rows[j], x)
  }

  lemma AlikeIs(a: Row, b: Row)
    ensures Alike(a, b) <==> KeyOf(a) == KeyOf(b)
  {
    hide Strip;
  }

  lemma LastAlikeIs(rows: seq<Row>, x: Row)
    ensures LastAlike(rows, x) <==> LastOfKey(rows, x)
  {
    hide Alike, KeyOf;
    if LastAlike(rows, x) {
      var i :| 0 <= i < |rows| && rows[i] == x && forall j | i < j < |rows| :: !Alike(rows[j], x);
      LaterIs(rows, i, x);
    }
    if LastOfKey(rows, x) {
      var i :| 0 <= i < |rows| && rows[i] == x && !AnyWithKey(rows[i + 1..], KeyOf(x));
      LaterIs(rows, i, x);
    }
  }

  lemma LaterIs(rows: seq<Row>, i: nat, x: Row)
    requires i < |rows|
    ensures AnyWithKey(rows[i + 1..], KeyOf(x)) <==> exists j | i < j < |rows| :: Alike(rows[j], x)
  {
    hide Alike, KeyOf;
    var later := rows[i + 1..];
    forall j | i < j < |rows|
      ensures Alike(rows[j], x) <==> KeyOf(later[j - i - 1]) == KeyOf(x)
    {
      AlikeIs(rows[j], x);
    }
    if k :| 0 <= k < |later| && KeyOf(later[k]) == KeyOf(x) { assert Alike(rows[i + 1 + k], x); }
  }

  /** What dedupe keeps: the last of every set of rows that are alike, without those that have neither an external id
      nor both an address and a value. */
  lemma DedupeKeepsLast(rows: seq<Row>, x: Row)
    ensures var (keyed, blank) := DedupeFrom(rows, [], []);
            && (x in keyed <==> x.externalId != "" && LastAlike(rows, x))
            && (x in blank <==>
                  x.externalId == "" && Strip(x.address) != "" && Strip(x.value) != "" && LastAlike(rows, x))
  {
    hide Strip, LastAlike, LastOfKey, DedupeFrom;
    DedupeKeepsLastOfEachKey(rows, x);
    LastAlikeIs(rows, x);
  }

  // ---------------------------------------------------------------- full refreshes

  /** The deduplicated batch with its companies. */
  function KeyedOf(rows: seq<Row>, resolve: Row -> Option<int>): seq<Row> {
    Attach(DedupeFrom(ClampAll(rows), [], []).0, resolve)
  }

  function BlankOf(rows: seq<Row>, resolve: Row -> Option<int>): seq<Row> {
    Attach(DedupeFrom(ClampAll(rows), [], []).1, resolve)
  }

  lemma DeleteSourceHas(t: Table, source: string, x: Row)
    ensures Has(DeleteSource(t, source), x) <==> Has(t, x) && x.source != source
  {
    var d := DeleteSource(t, source);
    if id :| id in t.rows && t.rows[id].cols == x && x.source != source { assert id in d.rows && d.rows[id].cols == x; }
    if id :| id in d.rows && d.rows[id].cols == x { assert id in t.rows && t.rows[id].cols == x; }
  }

  lemma NoPrintOfSource(t: Table, source: string, f: Fingerprint)
    requires f.source == source
    ensures !KeyedPrint(DeleteSource(t, source), f)
  {
  }

  /** A row of another source gives way to nothing in the batch. */
  lemma OthersGiveWayToNone(x: Row, rows: seq<Row>, source: string)
    requires x.source != source && forall i | 0 <= i < |rows| :: rows[i].source == source
    ensures !GivesWayToAny(x, rows)
  {
  }

  lemma BatchSources(rows: seq<Row>, source: string, resolve: Row -> Option<int>)
    requires SafeBatch(rows, source)
    ensures KeyedRows(KeyedOf(rows, resolve), source) && DistinctKeys(KeyedOf(rows, resolve))
    ensures BlankRows(BlankOf(rows, resolve), source) && DistinctKeys(BlankOf(rows, resolve))
    ensures |KeyedOf(rows, resolve)| + |BlankOf(rows, resolve)| > 0 <==>
              DedupeFrom(ClampAll(rows), [], []) != ([], [])
  {
    DedupedIsBatch(rows, source, resolve);
  }

  /**
   * A safe full refresh with something to import leaves its keyed rows, its blank rows that give way to none of them,
   * and of the rows before exactly those of other sources.
   */
  lemma RefreshHolds(t: Table, rows: seq<Row>, source: string, resolve: Row -> Option<int>, x: Row)
    requires Inv(t) && SafeBatch(rows, source) && |KeyedOf(rows, resolve)| + |BlankOf(rows, resolve)| > 0
    ensures Import(t, rows, source, true, resolve).Done?
    ensures Has(Import(t, rows, source, true, resolve).t, x) <==>
              || x in KeyedOf(rows, resolve)
              || (x in BlankOf(rows, resolve) && !GivesWayToAny(x, KeyedOf(rows, resolve)))
              || (Has(t, x) && x.source != source)
  {
    hide Stages, DeleteSource, Inv;
    var k, b := KeyedOf(rows, resolve), BlankOf(rows, resolve);
    BatchSources(rows, source, resolve);
    DeleteSourceKeeps(t, source, k);
    var d := DeleteSource(t, source);
    StagesHold(d, k, b, source, true, x);
    DeleteSourceHas(t, source, x);
    if x.source == source {
      NoPrintOfSource(t, source, StoredPrint(x));
    } else {
      OthersGiveWayToNone(x, k, source);
      OthersGiveWayToNone(x, b, source);
    }
  }

  /** And these rows of other sources are untouched, id, official id and lifecycle included. */
  lemma RefreshKeepsOthers(t: Table, rows: seq<Row>, source: string, resolve: Row -> Option<int>, id: int)
    requires Inv(t) && SafeBatch(rows, source) && id in t.rows && t.rows[id].cols.source != source
    ensures Import(t, rows, source, true, resolve).Done?
    ensures var t' := Import(t, rows, source, true, resolve).t; id in t'.rows && t'.rows[id] == t.rows[id]
  {
    hide Stages, Inv;
    var k, b := KeyedOf(rows, resolve), BlankOf(rows, resolve);
    BatchSources(rows, source, resolve);
    DeleteSourceKeeps(t, source, k);
    OthersGiveWayToNone(t.rows[id].cols, k, source);
    OthersGiveWayToNone(t.rows[id].cols, b, source);
    NoneIsSettled(t.rows[id].cols, k);
    NoneIsSettled(t.rows[id].cols, b);
    StagesStay(DeleteSource(t, source), k, b, source, true, id);
  }

  lemma NoneIsSettled(x: Row, rows: seq<Row>)
    requires !GivesWayToAny(x, rows)
    ensures Settled(x, rows)
  {
  }

  /** A batch with nothing to import deletes nothing. */
  lemma EmptyBatchKeepsAll(t: Table, rows: seq<Row>, source: string, refresh: bool, resolve: Row -> Option<int>)
    requires |KeyedOf(rows, resolve)| + |BlankOf(rows, resolve)| == 0
    ensures Import(t, rows, source, refresh, resolve) == Done(t, 0)
  {
  }

  // ---------------------------------------------------------------- what is counted

  /** The blank rows whose fingerprint is not keyed. */
  function Stored(t: Table, rows: seq<Row>): set<Row> {
    set r | r in rows && !KeyedPrint(t, StoredPrint(r))
  }

  lemma StoredHead(t: Table, rows: seq<Row>)
    requires |rows| > 0 && rows[0] !in rows[1..]
    ensures |Stored(t, rows)| == |Stored(t, rows[1..])| + if KeyedPrint(t, StoredPrint(rows[0])) then 0 else 1
  {
    var all, rest := Stored(t, rows), Stored(t, rows[1..]);
    assert rows == [rows[0]] + rows[1..];
    if KeyedPrint(t, StoredPrint(rows[0])) {
      assert forall r :: r in all <==> r in rest;
      assert all == rest;
    } else {
      assert forall r :: r in all <==> r in rest + {rows[0]};
      assert all == rest + {rows[0]};
    }
  }

  lemma SameStored(t: Table, t1: Table, rows: seq<Row>)
    requires forall r | r in rows :: KeyedPrint(t1, StoredPrint(r)) <==> KeyedPrint(t, StoredPrint(r))
    ensures Stored(t1, rows) == Stored(t, rows)
  {
  }

  lemma {:induction false} BlankStageCounts(t: Table, rows: seq<Row>, source: string, n: nat)
    requires Inv(t) && BlankRows(rows, source) && DistinctKeys(rows)
    ensures BlankStage(t, rows, source, n).Done?
    ensures BlankStage(t, rows, source, n).imported == n + |Stored(t, rows)|
    decreases |rows|
  {
    hide Inv, Evolves, UpsertBlank, Supersedes, KeyedPrint, Stored;
    if |rows| == 0 {
      NothingStored(t, rows);
    } else {
      UpsertBlankKeeps(t, rows[0], source);
      var (t1, ok) := UpsertBlank(t, rows[0], source).value;
      forall r | r in rows[1..]
        ensures KeyedPrint(t1, StoredPrint(r)) <==> KeyedPrint(t, StoredPrint(r))
      {
        KeyedPrintSame(t, t1, rows[0], StoredPrint(r));
      }
      SameStored(t, t1, rows[1..]);
      LaterBlanksDiffer(rows, source);
      StoredHead(t, rows);
      BlankStageCounts(t1, rows[1..], source, n + if ok then 1 else 0);
    }
  }

  lemma NothingStored(t: Table, rows: seq<Row>)
    requires |rows| == 0
    ensures |Stored(t, rows)| == 0
  {
    var stored := Stored(t, rows);
    assert forall r :: r !in stored;
    NoMember(stored);
  }

  lemma {:induction false} PromotingCounts(t: Table, rows: seq<Row>, source: string)
    requires Inv(t) && KeyedRows(rows, source)
    ensures |Promoting(t, rows, source).done| + |Promoting(t, rows, source).left| == |rows|
    decreases |rows|
  {
    hide Inv, Evolves, Promote, Supersedes, Free;
    if |rows| > 0 {
      PromoteKeeps(t, rows[0], source);
      PromotingCounts(Promote(t, rows[0], source).value.0, rows[1..], source);
    }
  }

  lemma StagesCount(t: Table, keyed: seq<Row>, blank: seq<Row>, source: string, refresh: bool)
    requires Inv(t) && Batch(t, keyed, blank, source, refresh)
    ensures Stages(t, keyed, blank, source, refresh).Done?
    ensures Stages(t, keyed, blank, source, refresh).imported == |keyed| + |Stored(t, blank)|
  {
    hide Inv, Evolves, Stored;
    var t1, n := BlankStageKeeps(t, blank, source, 0);
    BlankStageCounts(t, blank, source, 0);
    if refresh { SameKeyedKeepsUnheld(t, t1, keyed, source); }
    PromotedBatchReady(t1, keyed, source, refresh);
    var p := Promoting(t1, keyed, source);
    KeyedBatchKeeps(p.t, p.left, source, refresh);
    KeyedStagesRun(t1, keyed, source, refresh, n);
    PromotingCounts(t1, keyed, source);
  }

  /** A safe call counts every keyed row once, and of the blank rows those whose fingerprint no remaining keyed row
      has. */
  lemma ImportCounts(t: Table, rows: seq<Row>, source: string, refresh: bool, resolve: Row -> Option<int>)
    requires Inv(t) && SafeBatch(rows, source)
    ensures Import(t, rows, source, refresh, resolve).Done?
    ensures var blank := BlankOf(rows, resolve);
            Import(t, rows, source, refresh, resolve).imported ==
              |KeyedOf(rows, resolve)| + if refresh then |blank| else |Stored(t, blank)|
  {
    hide Stages, Inv, Stored, DeleteSource;
    var k, b := KeyedOf(rows, resolve), BlankOf(rows, resolve);
    BatchSources(rows, source, resolve);
    if |k| + |b| == 0 {
      EmptyBatchKeepsAll(t, rows, source, refresh, resolve);
      NothingStored(t, b);
    } else if refresh {
      DeleteSourceKeeps(t, source, k);
      StagesCount(DeleteSource(t, source), k, b, source, true);
      AllStored(DeleteSource(t, source), b, source, t);
    } else {
      StagesCount(t, k, b, source, false);
    }
  }

  lemma {:induction false} AllStored(d: Table, rows: seq<Row>, source: string, t: Table)
    requires d == DeleteSource(t, source) && BlankRows(rows, source) && DistinctKeys(rows)
    ensures |Stored(d, rows)| == |rows|
    decreases |rows|
  {
    hide Stored, KeyedPrint, DeleteSource;
    if |rows| == 0 {
      NothingStored(d, rows);
    } else {
      NoPrintOfSource(t, source, StoredPrint(rows[0]));
      LaterBlanksDiffer(rows, source);
      StoredHead(d, rows);
      AllStored(d, rows[1..], source, t);
    }
  }

  // ---------------------------------------------------------------- the stored columns

  /** `given` as a column of that width takes it. */
  predicate Cut(stored: string, given: string, width: nat) {
    stored <= given && |stored| == if |given| <= width then |given| else width
  }

  /** `x` holds the columns of the scraped row `r`, and the company that was resolved for it, if one was. */
  predicate Holds(x: Row, r: Row, resolve: Row -> Option<int>) {
    && Cut(x.source, r.source, 50) && Cut(x.externalId, r.externalId, 100) && Cut(x.address, r.address, 300)
    && Cut(x.value, r.value, 50) && Cut(x.applicant, r.applicant, 300)
    && Cut(x.details.permitType, r.details.permitType, 100) && Cut(x.details.architect, r.details.architect, 300)
    && Cut(x.details.issueDate, r.details.issueDate, 20)
    && Cut(x.details.applicationDate, r.details.applicationDate, 20)
    && x.details.description == r.details.description && Cut(x.details.contractor, r.details.contractor, 300)
    && Cut(x.details.localArea, r.details.localArea, 100) && Cut(x.details.city, r.details.city, 100)
    && var found := resolve(x.(company := r.company));
       x.company == if found.Some? then found else r.company
  }

  /** The row that `r` becomes on its way to the table. */
  function Ready(r: Row, resolve: Row -> Option<int>): Row {
    Attach([Clamp(r)], resolve)[0]
  }

  lemma ReadyHolds(r: Row, resolve: Row -> Option<int>)
    ensures Holds(Ready(r, resolve), r, resolve)
  {
    var q := Clamp(r);
    var x := Ready(r, resolve);
    assert x.(company := r.company) == q;
  }

  /** The batch consists of the ready form of the rows that are the last of their key. */
  lemma AttachedFrom(rows: seq<Row>, resolve: Row -> Option<int>, x: Row, part: seq<Row>)
    requires x in Attach(part, resolve) && forall q | q in part :: q in ClampAll(rows)
    ensures exists i :: 0 <= i < |rows| && x == Ready(rows[i], resolve)
  {
    var k :| 0 <= k < |part| && Attach(part, resolve)[k] == x;
    assert part[k] in ClampAll(rows);
    var i :| 0 <= i < |rows| && ClampAll(rows)[i] == part[k];
    assert x == Ready(rows[i], resolve);
  }

  lemma LastIsMember(rows: seq<Row>, x: Row)
    requires LastOfKey(rows, x)
    ensures x in rows
  {
  }

  /** After a safe call every row of its source that was not there before holds the columns of a row of the batch. */
  lemma NewRowsAreScraped(t: Table, rows: seq<Row>, source: string, refresh: bool, resolve: Row -> Option<int>, x: Row)
    requires Inv(t) && SafeBatch(rows, source) && !Has(t, x)
    ensures Import(t, rows, source, refresh, resolve).Done?
    ensures Has(Import(t, rows, source, refresh, resolve).t, x) ==>
              exists i :: 0 <= i < |rows| && Holds(x, rows[i], resolve)
  {
    hide Import, Inv, SafeBatch, Has, Holds;
    ImportKeeps(t, rows, source, refresh, resolve);
    if Has(Import(t, rows, source, refresh, resolve).t, x) {
      FromBatch(t, rows, source, refresh, resolve, x);
      PartsAreClamped(rows);
      if x in KeyedOf(rows, resolve) {
        AttachedFrom(rows, resolve, x, DedupeFrom(ClampAll(rows), [], []).0);
      } else {
        AttachedFrom(rows, resolve, x, DedupeFrom(ClampAll(rows), [], []).1);
      }
      var i :| 0 <= i < |rows| && x == Ready(rows[i], resolve);
      ReadyHolds(rows[i], resolve);
    }
  }

  lemma PartsAreClamped(rows: seq<Row>)
    ensures var (k, b) := DedupeFrom(ClampAll(rows), [], []);
            forall q | q in k || q in b :: q in ClampAll(rows)
  {
    hide LastOfKey, DedupeFrom;
    var (k, b) := DedupeFrom(ClampAll(rows), [], []);
    forall q | q in k || q in b
      ensures q in ClampAll(rows)
    {
      DedupeKeepsLastOfEachKey(ClampAll(rows), q);
      LastIsMember(ClampAll(rows), q);
    }
  }

  lemma FromBatch(t: Table, rows: seq<Row>, source: string, refresh: bool, resolve: Row -> Option<int>, x: Row)
    requires Inv(t) && SafeBatch(rows, source) && !Has(t, x)
    requires Import(t, rows, source, refresh, resolve).Done? && Has(Import(t, rows, source, refresh, resolve).t, x)
    ensures x in KeyedOf(rows, resolve) || x in BlankOf(rows, resolve)
  {
    hide Stages, Inv, SafeBatch, Has;
    if |KeyedOf(rows, resolve)| + |BlankOf(rows, resolve)| == 0 {
      EmptyBatchKeepsAll(t, rows, source, refresh, resolve);
    } else if refresh {
      RefreshHolds(t, rows, source, resolve, x);
    } else {
      ImportHolds(t, rows, source, resolve, x);
    }
  }

  // ---------------------------------------------------------------- the unique indexes, for any rows at all

  /** The two partial unique indexes: (source, external_id) and (source, official id), blanks apart. */
  predicate Indexed(rows: map<int, Permit>) {
    forall i, j | i in rows && j in rows && i != j && rows[i].cols.source == rows[j].cols.source ::
      && (!Blank(rows[i].cols) ==> rows[i].cols.externalId != rows[j].cols.externalId)
      && (Present(rows[i].officialId) ==> rows[i].officialId != rows[j].officialId)
  }

  predicate IndexInv(t: Table) {
    Indexed(t.rows) && forall id | id in t.rows :: id < t.nextId
  }

  /** A write raises exactly when it would break an index. */
  lemma RaisesIff(t: Table, id: int, p: Permit)
    requires IndexInv(t)
    ensures Store(t, id, p).None? <==> !Indexed(t.rows[id := p])
  {
    var rows := t.rows[id := p];
    if !Rejected(t, id, p) {
      forall i, j | i in rows && j in rows && i != j && rows[i].cols.source == rows[j].cols.source
        ensures !Blank(rows[i].cols) ==> rows[i].cols.externalId != rows[j].cols.externalId
        ensures Present(rows[i].officialId) ==> rows[i].officialId != rows[j].officialId
      {
      }
    } else {
      var j :| j in t.rows && j != id && t.rows[j].cols.source == p.cols.source &&
               ((p.cols.externalId != "" && t.rows[j].cols.externalId == p.cols.externalId) ||
                (p.officialId.Some? && p.officialId.value != "" && t.rows[j].officialId == p.officialId));
      assert id in rows && rows[id] == p && j in rows && rows[j] == t.rows[j];
    }
  }

  lemma StoreIndexed(t: Table, id: int, p: Permit)
    requires IndexInv(t) && id < t.nextId
    ensures Store(t, id, p).Some? ==> IndexInv(Store(t, id, p).value)
  {
    hide Rejected, Indexed;
    RaisesIff(t, id, p);
  }

  lemma InsertIndexed(t: Table, r: Row)
    requires IndexInv(t)
    ensures Insert(t, r).Some? ==> IndexInv(Insert(t, r).value)
  {
    hide Rejected, Indexed;
    RaisesIff(t, t.nextId, Permit(r, None, NEW_LIFECYCLE));
  }

  lemma DeleteIndexed(t: Table, ids: set<int>)
    requires IndexInv(t)
    ensures IndexInv(t.(rows := t.rows - ids))
  {
  }

  lemma UpsertBlankIndexed(t: Table, r: Row, source: string)
    requires IndexInv(t)
    ensures UpsertBlank(t, r, source).Some? ==> IndexInv(UpsertBlank(t, r, source).value.0)
  {
    hide Indexed, Store, Rejected;
    var found := IdsBy(t, PrintOf(r, source), true);
    InsertIndexed(t, r);
    if found != {} { StoreIndexed(t, Least(found), t.rows[Least(found)].(cols := r)); }
  }

  lemma PromoteIndexed(t: Table, r: Row, source: string)
    requires IndexInv(t)
    ensures Promote(t, r, source).Some? ==> IndexInv(Promote(t, r, source).value.0)
  {
    hide Indexed, Store, Rejected;
    var found, keyed := IdsBy(t, PrintOf(r, source), true), IdsByKey(t, source, r.externalId);
    if found != {} {
      StoreIndexed(t, Least(found), t.rows[Least(found)].(cols := r));
      if keyed != {} {
        StoreIndexed(t, Least(keyed), t.rows[Least(keyed)].(cols := r));
        var t' := Update(t, Least(keyed), r);
        if t'.Some? { DeleteIndexed(t'.value, {Least(found)}); }
      }
    }
  }

  lemma UpsertKeyedIndexed(t: Table, r: Row, refresh: bool)
    requires IndexInv(t)
    ensures UpsertKeyed(t, r, refresh).Some? ==> IndexInv(UpsertKeyed(t, r, refresh).value)
  {
    hide Indexed, Store, Rejected;
    var held := IdsByKey(t, r.source, r.externalId);
    InsertIndexed(t, r);
    if held != {} { StoreIndexed(t, Least(held), t.rows[Least(held)].(cols := r)); }
  }

  lemma {:induction false} BlankStageIndexed(t: Table, rows: seq<Row>, source: string, n: nat)
    requires IndexInv(t)
    ensures IndexInv(After(BlankStage(t, rows, source, n)))
    decreases |rows|
  {
    hide IndexInv, UpsertBlank;
    if |rows| > 0 {
      UpsertBlankIndexed(t, rows[0], source);
      if UpsertBlank(t, rows[0], source).Some? {
        var (t1, ok) := UpsertBlank(t, rows[0], source).value;
        BlankStageIndexed(t1, rows[1..], source, n + if ok then 1 else 0);
      }
    }
  }

  function PromotionTable(p: Promotion): Table {
    match p case Promoted(t, _, _) => t case Failed(t) => t
  }

  lemma {:induction false} PromoteStageIndexed(t: Table, rows: seq<Row>, source: string, n: nat, rest: seq<Row>)
    requires IndexInv(t)
    ensures IndexInv(PromotionTable(PromoteStage(t, rows, source, n, rest)))
    decreases |rows|
  {
    hide IndexInv, Promote;
    if |rows| > 0 {
      PromoteIndexed(t, rows[0], source);
      match Promote(t, rows[0], source)
      case None =>
      case Some((t1, true)) => PromoteStageIndexed(t1, rows[1..], source, n + 1, rest);
      case Some((t1, false)) => PromoteStageIndexed(t1, rows[1..], source, n, rest + [rows[0]]);
    }
  }

  lemma {:induction false} KeyedBatchIndexed(t: Table, rows: seq<Row>, refresh: bool)
    requires IndexInv(t)
    ensures KeyedBatch(t, rows, refresh).Some? ==> IndexInv(KeyedBatch(t, rows, refresh).value)
    decreases |rows|
  {
    hide IndexInv, UpsertKeyed;
    if |rows| > 0 {
      UpsertKeyedIndexed(t, rows[0], refresh);
      var t1 := UpsertKeyed(t, rows[0], refresh);
      if t1.Some? { KeyedBatchIndexed(t1.value, rows[1..], refresh); }
    }
  }

  lemma {:induction false} KeyedStageIndexed(t: Table, rows: seq<Row>, refresh: bool, n: nat)
    requires IndexInv(t)
    ensures IndexInv(After(KeyedStage(t, rows, refresh, n)))
    decreases |rows|
  {
    hide IndexInv, KeyedBatch;
    if |rows| > 0 {
      var m := if |rows| < BATCH_SIZE then |rows| else BATCH_SIZE;
      KeyedBatchIndexed(t, rows[..m], refresh);
      var t1 := KeyedBatch(t, rows[..m], refresh);
      if t1.Some? { KeyedStageIndexed(t1.value, rows[m..], refresh, n + m); }
    }
  }

  lemma StagesIndexed(t: Table, keyed: seq<Row>, blank: seq<Row>, source: string, refresh: bool)
    requires IndexInv(t)
    ensures IndexInv(After(Stages(t, keyed, blank, source, refresh)))
  {
    hide IndexInv, BlankStage, PromoteStage, KeyedStage;
    BlankStageIndexed(t, blank, source, 0);
    match BlankStage(t, blank, source, 0)
    case Raised(_) =>
    case Done(t1, n) =>
      PromoteStageIndexed(t1, keyed, source, n, []);
      match PromoteStage(t1, keyed, source, n, [])
      case Failed(_) =>
      case Promoted(t2, m, rest) => KeyedStageIndexed(t2, rest, refresh, m);
  }

  lemma DeleteSourceIndexed(t: Table, source: string)
    requires IndexInv(t)
    ensures IndexInv(DeleteSource(t, source))
  {
  }

  /** Over any calls with any rows, raised ones included, both indexes hold. */
  lemma {:induction false} HistoryIndexed(t: Table, calls: seq<Call>)
    requires IndexInv(t)
    ensures IndexInv(History(t, calls))
    decreases |calls|
  {
    hide IndexInv, Stages, DeleteSource;
    if |calls| > 0 {
      var c := calls[0];
      var start := if c.refresh then DeleteSource(t, c.source) else t;
      DeleteSourceIndexed(t, c.source);
      StagesIndexed(start, KeyedOf(c.rows, c.resolve), BlankOf(c.rows, c.resolve), c.source, c.refresh);
      HistoryIndexed(After(Import(t, c.rows, c.source, c.refresh, c.resolve)), calls[1..]);
    }
  }
}
