/** Importing the same batch again: when it changes nothing, and why blank rows must come without padding. */
module CityPermitReimport {
  import opened Outcomes
  import opened Ordered
  import opened Text
  import opened CityPermits
  import opened CityPermitLaws
  import opened CityPermitHistory

  // ---------------------------------------------------------------- padded or untagged blank rows

  predicate OneBlankPerStoredPrint(t: Table) {
    forall i, j | i in t.rows && j in t.rows && i != j ::
      Blank(t.rows[i].cols) && Blank(t.rows[j].cols) ==> StoredPrint(t.rows[i].cols) != StoredPrint(t.rows[j].cols)
  }

  /** A row without external id may be imported twice without being stored twice exactly when it is tagged with
      the source of the call and its identifying text has nothing to strip. */
  lemma BlankRowImportedTwice(r: Row, source: string, resolve: Row -> Option<int>)
    requires Blank(Clamp(r)) && Usable(PrintOf(Clamp(r), Clamp(r).source))
    ensures var c := Call([r], source, false, resolve);
            OneBlankPerStoredPrint(History(EMPTY, [c, c])) <==> SafeRow(Clamp(r), source)
  {
    var c := Call([r], source, false, resolve);
    var calls := [c, c];
    if SafeRow(Clamp(r), source) {
      HistoryKeeps(EMPTY, calls);
    } else {
      var a := Attach([Clamp(r)], resolve)[0];
      var t1 := Table(map[1 := Permit(a, None, NEW_LIFECYCLE)], 2);
      var t2 := Table(t1.rows[2 := Permit(a, None, NEW_LIFECYCLE)], 3);
      SingleBlankImport(EMPTY, r, source, resolve, t1);
      SingleBlankImport(t1, r, source, resolve, t2);
      assert calls[1..] == [c] && [c][1..] == [];
      assert History(EMPTY, calls) == History(t1, [c]) == History(t2, []) == t2;
      assert 1 in t2.rows && 2 in t2.rows && t2.rows[1].cols == a && t2.rows[2].cols == a;
    }
  }

  /** A mistagged or padded row never finds an earlier copy of itself. */
  lemma SingleBlankImport(t: Table, r: Row, source: string, resolve: Row -> Option<int>, t': Table)
    requires Blank(Clamp(r)) && Usable(PrintOf(Clamp(r), Clamp(r).source)) && !SafeRow(Clamp(r), source)
    requires var a := Attach([Clamp(r)], resolve)[0];
             && (forall id | id in t.rows :: t.rows[id] == Permit(a, None, NEW_LIFECYCLE) && id < t.nextId)
             && t' == Table(t.rows[t.nextId := Permit(a, None, NEW_LIFECYCLE)], t.nextId + 1)
    ensures Import(t, [r], source, false, resolve) == Done(t', 1)
  {
    var q := Clamp(r);
    assert ClampAll([r]) == [q];
    assert DedupeFrom([q], [], []) == ([], [q]) by {
      assert Put([], q) == [q] && [q][1..] == [];
      assert DedupeFrom([], [], [q]) == ([], [q]);
    }
    var a := Attach([q], resolve)[0];
    var f := PrintOf(a, source);
    assert Attach([q], resolve) == [a] && Attach([], resolve) == [];
    assert StoredPrint(a) != f;
    assert forall id :: id !in IdsBy(t, f, true) && id !in IdsBy(t, f, false);
    NoMember(IdsBy(t, f, true));
    NoMember(IdsBy(t, f, false));
    assert UpsertBlank(t, a, source) == Some((t', true));
    assert BlankStage(t', [a][1..], source, 1) == Done(t', 1);
    assert BlankStage(t, [a], source, 0) == Done(t', 1);
  }

  // ---------------------------------------------------------------- rows that are stored already

  lemma UpsertBlankSame(t: Table, r: Row, source: string)
    requires Inv(t) && Blank(r) && Safe(r, source) && Has(t, r)
    ensures UpsertBlank(t, r, source) == Some((t, true))
  {
    var f := PrintOf(r, source);
    var id :| id in t.rows && t.rows[id].cols == r;
    assert id in IdsBy(t, f, true);
    OneBlankPerPrint(t, f, id);
    UpsertBlankKeeps(t, r, source);
    assert Least(IdsBy(t, f, true)) == id;
    assert t.rows[id := t.rows[id].(cols := r)] == t.rows;
  }

  lemma {:induction false} BlankStageSame(t: Table, rows: seq<Row>, source: string, n: nat)
    requires Inv(t) && BlankRows(rows, source)
    requires forall i | 0 <= i < |rows| :: KeyedPrint(t, StoredPrint(rows[i])) || Has(t, rows[i])
    ensures BlankStage(t, rows, source, n).Done? && BlankStage(t, rows, source, n).t == t
    decreases |rows|
  {
    hide UpsertBlank, Inv, Has, KeyedPrint, StoredPrint, PrintOf, Evolves;
    if |rows| > 0 {
      UpsertBlankKeeps(t, rows[0], source);
      if Has(t, rows[0]) { UpsertBlankSame(t, rows[0], source); }
      var (t1, ok) := UpsertBlank(t, rows[0], source).value;
      assert t1 == t;
      BlankStageSame(t, rows[1..], source, n + if ok then 1 else 0);
    }
  }

  /** The text of every keyed row is stored as it is looked up. */
  predicate Unpadded(rows: seq<Row>) {
    forall i | 0 <= i < |rows| :: StoredPrint(rows[i]) == PrintOf(rows[i], rows[i].source)
  }

  lemma PromoteSame(t: Table, r: Row, source: string)
    requires Inv(t) && !Blank(r) && r.source == source && Has(t, r) && StoredPrint(r) == PrintOf(r, source)
    ensures Promote(t, r, source) == Some((t, false))
  {
    var f := PrintOf(r, source);
    var k :| k in t.rows && t.rows[k].cols == r;
    forall id
      ensures id !in IdsBy(t, f, true)
    {
      if id in t.rows && id != k { assert !Clash(t.rows[k], t.rows[id]); }
    }
    NoMember(IdsBy(t, f, true));
  }

  lemma UpsertKeyedSame(t: Table, r: Row)
    requires Inv(t) && !Blank(r) && Has(t, r)
    ensures UpsertKeyed(t, r, false) == Some(t)
  {
    var k :| k in t.rows && t.rows[k].cols == r;
    var held := IdsByKey(t, r.source, r.externalId);
    assert k in held;
    OnePerKey(t, r.source, r.externalId, k);
    assert Least(held) == k;
    assert forall j | j in t.rows && j != k :: !Clash(t.rows[k], t.rows[j]);
    assert t.rows[k := t.rows[k].(cols := r)] == t.rows;
  }

  lemma {:induction false} KeyedSame(t: Table, rows: seq<Row>, source: string)
    requires Inv(t) && KeyedRows(rows, source) && Unpadded(rows)
    requires forall i | 0 <= i < |rows| :: Has(t, rows[i])
    ensures Promoting(t, rows, source) == Split(t, [], rows)
    ensures KeyedBatch(t, rows, false) == Some(t)
    decreases |rows|
  {
    hide Promote, UpsertKeyed, Inv;
    if |rows| > 0 {
      PromoteSame(t, rows[0], source);
      UpsertKeyedSame(t, rows[0]);
      KeyedSame(t, rows[1..], source);
    }
  }

  // ---------------------------------------------------------------- when the second import changes nothing

  /** After the keyed rows are written some keyed row has print `f`: an incoming one, or a stored one whose key
      the batch does not carry. */
  predicate StaysKeyed(t: Table, keyed: seq<Row>, f: Fingerprint) {
    || (exists i | 0 <= i < |keyed| :: StoredPrint(keyed[i]) == f)
    || (exists id | id in t.rows ::
          !Blank(t.rows[id].cols) && StoredPrint(t.rows[id].cols) == f && !GivesWayToAny(t.rows[id].cols, keyed))
  }

  /** The batch moves the fingerprint of a keyed row away from a blank row it skips because of that row, and no keyed
      row of the batch would take the blank row over. */
  predicate Orphans(t: Table, keyed: seq<Row>, blank: seq<Row>) {
    exists i | 0 <= i < |blank| :: Orphaned(t, keyed, blank[i])
  }

  predicate Orphaned(t: Table, keyed: seq<Row>, b: Row) {
    KeyedPrint(t, StoredPrint(b)) && !StaysKeyed(t, keyed, StoredPrint(b)) && !GivesWayToAny(b, keyed)
  }

  lemma KeyedPrintAfter(t: Table, keyed: seq<Row>, blank: seq<Row>, source: string, f: Fingerprint)
    requires Inv(t) && Batch(t, keyed, blank, source, false)
    ensures Stages(t, keyed, blank, source, false).Done?
    ensures KeyedPrint(Stages(t, keyed, blank, source, false).t, f) <==> StaysKeyed(t, keyed, f)
  {
    hide Stages, Inv;
    StagesKeep(t, keyed, blank, source, false);
    var t1 := Stages(t, keyed, blank, source, false).t;
    if KeyedPrint(t1, f) {
      var id :| id in t1.rows && !Blank(t1.rows[id].cols) && StoredPrint(t1.rows[id].cols) == f;
      StagesHold(t, keyed, blank, source, false, t1.rows[id].cols);
      assert Has(t1, t1.rows[id].cols);
    }
    if i :| 0 <= i < |keyed| && StoredPrint(keyed[i]) == f {
      StagesHold(t, keyed, blank, source, false, keyed[i]);
    } else if StaysKeyed(t, keyed, f) {
      var id :| id in t.rows && !Blank(t.rows[id].cols) && StoredPrint(t.rows[id].cols) == f &&
                !GivesWayToAny(t.rows[id].cols, keyed);
      StagesHold(t, keyed, blank, source, false, t.rows[id].cols);
      assert Has(t, t.rows[id].cols);
    }
  }

  /** With unpadded keyed rows not even the id counter moves. */
  lemma ReimportChangesNothing(t: Table, keyed: seq<Row>, blank: seq<Row>, source: string)
    requires Inv(t) && Batch(t, keyed, blank, source, false) && Unpadded(keyed) && !Orphans(t, keyed, blank)
    ensures Stages(t, keyed, blank, source, false).Done?
    ensures var t1 := Stages(t, keyed, blank, source, false).t;
            Stages(t1, keyed, blank, source, false).Done? && Stages(t1, keyed, blank, source, false).t == t1
  {
    StagesKeep(t, keyed, blank, source, false);
    var t1 := Stages(t, keyed, blank, source, false).t;
    forall i | 0 <= i < |blank|
      ensures KeyedPrint(t1, StoredPrint(blank[i])) || Has(t1, blank[i])
    {
      BlankRowIsSettled(t, keyed, blank, source, i);
    }
    BlankStageSame(t1, blank, source, 0);
    forall i | 0 <= i < |keyed|
      ensures Has(t1, keyed[i])
    {
      StagesHold(t, keyed, blank, source, false, keyed[i]);
    }
    KeyedSame(t1, keyed, source);
    KeyedStagesRun(t1, keyed, source, false, BlankStage(t1, blank, source, 0).imported);
  }

  lemma BlankRowIsSettled(t: Table, keyed: seq<Row>, blank: seq<Row>, source: string, i: nat)
    requires Inv(t) && Batch(t, keyed, blank, source, false) && Unpadded(keyed) && !Orphans(t, keyed, blank)
    requires i < |blank|
    ensures Stages(t, keyed, blank, source, false).Done?
    ensures var t1 := Stages(t, keyed, blank, source, false).t;
            KeyedPrint(t1, StoredPrint(blank[i])) || Has(t1, blank[i])
  {
    hide Stages, Inv;
    var f := StoredPrint(blank[i]);
    KeyedPrintAfter(t, keyed, blank, source, f);
    if !StaysKeyed(t, keyed, f) {
      assert forall j | 0 <= j < |keyed| :: GivesWay(blank[i], keyed[j]) ==> StoredPrint(keyed[j]) == f;
      assert !GivesWayToAny(blank[i], keyed);
      assert !Orphaned(t, keyed, blank[i]);
      StagesHold(t, keyed, blank, source, false, blank[i]);
    }
  }

  predicate NoPrint(t: Table, f: Fingerprint) {
    forall id | id in t.rows :: StoredPrint(t.rows[id].cols) != f
  }

  // ---------------------------------------------------------------- rows the second import finds in place

  /** The batch row that would replace `x`, if there is one, is `x` itself. */
  predicate Settled(x: Row, rows: seq<Row>) {
    forall i | 0 <= i < |rows| && GivesWay(x, rows[i]) :: rows[i] == x
  }

  predicate Stays(t: Table, t': Table, id: int) {
    id in t.rows && id in t'.rows && t'.rows[id] == t.rows[id]
  }

  lemma SettledTail(x: Row, rows: seq<Row>)
    requires |rows| > 0 && Settled(x, rows)
    ensures (GivesWay(x, rows[0]) ==> rows[0] == x) && Settled(x, rows[1..])
  {
    assert forall i | 0 <= i < |rows[1..]| :: rows[1..][i] == rows[i + 1];
  }

  lemma UpsertBlankStays(t: Table, r: Row, source: string, id: int)
    requires Inv(t) && Blank(r) && Safe(r, source) && id in t.rows
    requires GivesWay(t.rows[id].cols, r) ==> r == t.rows[id].cols
    ensures UpsertBlank(t, r, source).Some? && Stays(t, UpsertBlank(t, r, source).value.0, id)
  {
    if r == t.rows[id].cols {
      UpsertBlankSame(t, r, source);
    } else {
      UpsertBlankKeeps(t, r, source);
    }
  }

  lemma {:induction false} BlankStageStays(t: Table, rows: seq<Row>, source: string, n: nat, id: int)
    requires Inv(t) && BlankRows(rows, source) && id in t.rows && Settled(t.rows[id].cols, rows)
    ensures BlankStage(t, rows, source, n).Done? && Stays(t, BlankStage(t, rows, source, n).t, id)
    decreases |rows|
  {
    if |rows| > 0 {
      hide Settled, GivesWay, Evolves;
      SettledTail(t.rows[id].cols, rows);
      UpsertBlankKeeps(t, rows[0], source);
      UpsertBlankStays(t, rows[0], source, id);
      var (t1, ok) := UpsertBlank(t, rows[0], source).value;
      BlankStageStays(t1, rows[1..], source, n + if ok then 1 else 0, id);
    }
  }

  lemma PromoteStays(t: Table, r: Row, source: string, id: int)
    requires Inv(t) && !Blank(r) && r.source == source && id in t.rows
    requires GivesWay(t.rows[id].cols, r) ==> r == t.rows[id].cols
    ensures Promote(t, r, source).Some? && Stays(t, Promote(t, r, source).value.0, id)
  {
    PromoteKeeps(t, r, source);
    if r == t.rows[id].cols && Usable(PrintOf(r, source)) && IdsBy(t, PrintOf(r, source), true) != {} {
      var b := Least(IdsBy(t, PrintOf(r, source), true));
      assert b in IdsBy(t, PrintOf(r, source), true) && b != id;
      assert id in IdsByKey(t, source, r.externalId);
      OnePerKey(t, source, r.externalId, id);
    }
  }

  lemma {:induction false} PromotingStays(t: Table, rows: seq<Row>, source: string, id: int)
    requires Inv(t) && KeyedRows(rows, source) && id in t.rows && Settled(t.rows[id].cols, rows)
    ensures Stays(t, Promoting(t, rows, source).t, id)
    decreases |rows|
  {
    hide Settled, GivesWay, Evolves, Inv, Promote, Supersedes, Free;
    if |rows| > 0 {
      SettledTail(t.rows[id].cols, rows);
      PromoteKeeps(t, rows[0], source);
      PromoteStays(t, rows[0], source, id);
      PromotingStays(Promote(t, rows[0], source).value.0, rows[1..], source, id);
    }
  }

  lemma UpsertKeyedStays(t: Table, r: Row, refresh: bool, id: int)
    requires Inv(t) && !Blank(r) && Free(t, r) && (refresh ==> Unheld(t, r)) && id in t.rows
    requires GivesWay(t.rows[id].cols, r) ==> r == t.rows[id].cols
    ensures UpsertKeyed(t, r, refresh).Some? && Stays(t, UpsertKeyed(t, r, refresh).value, id)
  {
    UpsertKeyedKeeps(t, r, refresh);
    if r == t.rows[id].cols {
      assert id in IdsByKey(t, r.source, r.externalId);
      UpsertKeyedSame(t, r);
    }
  }

  lemma {:induction false} KeyedBatchStays(t: Table, rows: seq<Row>, source: string, refresh: bool, id: int)
    requires Inv(t) && KeyedRows(rows, source) && DistinctKeys(rows) && FreeAll(t, rows)
    requires (refresh ==> UnheldAll(t, rows)) && id in t.rows && Settled(t.rows[id].cols, rows)
    ensures KeyedBatch(t, rows, refresh).Some? && Stays(t, KeyedBatch(t, rows, refresh).value, id)
    decreases |rows|
  {
    hide Settled, Evolves, Inv, Free, Unheld, Supersedes, GivesWay;
    if |rows| > 0 {
      var r := rows[0];
      SettledTail(t.rows[id].cols, rows);
      UpsertKeyedKeeps(t, r, refresh);
      UpsertKeyedStays(t, r, refresh, id);
      var t1 := UpsertKeyed(t, r, refresh).value;
      BatchTail(t, t1, rows, refresh);
      KeyedBatchStays(t1, rows[1..], source, refresh, id);
    }
  }

  lemma SettledLeft(t: Table, keyed: seq<Row>, source: string, x: Row)
    requires Inv(t) && KeyedRows(keyed, source) && Settled(x, keyed)
    ensures Settled(x, Promoting(t, keyed, source).left)
  {
    var left := Promoting(t, keyed, source).left;
    forall i | 0 <= i < |left| && GivesWay(x, left[i])
      ensures left[i] == x
    {
      PromotingMembers(t, keyed, source, left[i]);
      assert left[i] in keyed;
    }
  }

  /** A row that only its own copy in the batch would replace is the same row afterwards. */
  lemma StagesStay(t: Table, keyed: seq<Row>, blank: seq<Row>, source: string, refresh: bool, id: int)
    requires Inv(t) && Batch(t, keyed, blank, source, refresh) && id in t.rows
    requires Settled(t.rows[id].cols, keyed) && Settled(t.rows[id].cols, blank)
    ensures Stages(t, keyed, blank, source, refresh).Done?
    ensures Stays(t, Stages(t, keyed, blank, source, refresh).t, id)
  {
    hide Settled, Evolves, Inv;
    var t1, n := BlankStageKeeps(t, blank, source, 0);
    BlankStageStays(t, blank, source, 0, id);
    if refresh { SameKeyedKeepsUnheld(t, t1, keyed, source); }
    PromotingStays(t1, keyed, source, id);
    PromotedBatchReady(t1, keyed, source, refresh);
    SettledLeft(t1, keyed, source, t.rows[id].cols);
    var p := Promoting(t1, keyed, source);
    KeyedBatchStays(p.t, p.left, source, refresh, id);
    KeyedStagesRun(t1, keyed, source, refresh, n);
  }

  /** Every row an import leaves is settled for the same import. */
  lemma HeldIsSettled(t: Table, keyed: seq<Row>, blank: seq<Row>, source: string, x: Row)
    requires Batch(t, keyed, blank, source, false) && HeldAfter(t, keyed, blank, x)
    ensures Settled(x, keyed) && Settled(x, blank)
  {
    if x in keyed {
      var j :| 0 <= j < |keyed| && keyed[j] == x;
      assert forall i | 0 <= i < |keyed| && i != j :: KeyOf(keyed[i]) != KeyOf(x);
    } else if Blank(x) && x in blank {
      var j :| 0 <= j < |blank| && blank[j] == x;
      assert forall i | 0 <= i < |blank| && i != j :: KeyOf(blank[i]) != KeyOf(x);
    }
  }

  /** A batch that orphans nothing has nothing to add the second time. */
  lemma NothingToAdd(t: Table, keyed: seq<Row>, blank: seq<Row>, source: string, x: Row)
    requires Inv(t) && Batch(t, keyed, blank, source, false) && !Orphans(t, keyed, blank)
    ensures Stages(t, keyed, blank, source, false).Done?
    ensures var t1 := Stages(t, keyed, blank, source, false).t; HeldAfter(t1, keyed, blank, x) ==> Has(t1, x)
  {
    hide Stages, Inv, StaysKeyed;
    StagesHold(t, keyed, blank, source, false, x);
    KeyedPrintAfter(t, keyed, blank, source, StoredPrint(x));
    if x in blank {
      var i :| 0 <= i < |blank| && blank[i] == x;
      assert !Orphaned(t, keyed, blank[i]);
    }
  }

  lemma TwinsAreOne(t: Table, i: int, j: int)
    requires Inv(t) && i in t.rows && j in t.rows && t.rows[i].cols == t.rows[j].cols
    ensures i == j
  {
    assert i != j ==> !Clash(t.rows[i], t.rows[j]);
  }

  lemma SameRows(t: Table, t': Table)
    requires forall id | id in t.rows :: Stays(t, t', id)
    requires forall id | id in t'.rows :: id in t.rows
    ensures t'.rows == t.rows
  {
    forall id
      ensures id in t'.rows.Keys <==> id in t.rows.Keys
      ensures id in t.rows && id in t'.rows ==> t'.rows[id] == t.rows[id]
    {
      assert id in t.rows ==> Stays(t, t', id);
    }
    assert t'.rows.Keys == t.rows.Keys && t'.rows == t.rows;
  }

  lemma ReimportKeepsRows(t: Table, keyed: seq<Row>, blank: seq<Row>, source: string)
    requires Inv(t) && Batch(t, keyed, blank, source, false) && !Orphans(t, keyed, blank)
    ensures Stages(t, keyed, blank, source, false).Done?
    ensures var t1 := Stages(t, keyed, blank, source, false).t;
            Stages(t1, keyed, blank, source, false).Done? && Stages(t1, keyed, blank, source, false).t.rows == t1.rows
  {
    hide Stages, Inv, Orphans, HeldAfter;
    StagesKeep(t, keyed, blank, source, false);
    var t1 := Stages(t, keyed, blank, source, false).t;
    StagesKeep(t1, keyed, blank, source, false);
    var t2 := Stages(t1, keyed, blank, source, false).t;
    forall id | id in t1.rows
      ensures Stays(t1, t2, id)
    {
      assert Has(t1, t1.rows[id].cols);
      StagesHold(t, keyed, blank, source, false, t1.rows[id].cols);
      HeldIsSettled(t, keyed, blank, source, t1.rows[id].cols);
      StagesStay(t1, keyed, blank, source, false, id);
    }
    forall id | id in t2.rows
      ensures id in t1.rows
    {
      var x := t2.rows[id].cols;
      assert Has(t2, x);
      StagesHold(t1, keyed, blank, source, false, x);
      NothingToAdd(t, keyed, blank, source, x);
      var j :| j in t1.rows && t1.rows[j].cols == x;
      assert Stays(t1, t2, j);
      TwinsAreOne(t2, id, j);
    }
    SameRows(t1, t2);
  }

  lemma ReimportStoresOrphan(t: Table, keyed: seq<Row>, blank: seq<Row>, source: string)
    requires Inv(t) && Batch(t, keyed, blank, source, false) && Orphans(t, keyed, blank)
    ensures Stages(t, keyed, blank, source, false).Done?
    ensures var t1 := Stages(t, keyed, blank, source, false).t;
            Stages(t1, keyed, blank, source, false).Done? && Stages(t1, keyed, blank, source, false).t.rows != t1.rows
  {
    hide Stages, Inv, StaysKeyed;
    var i :| 0 <= i < |blank| && Orphaned(t, keyed, blank[i]);
    var b := blank[i];
    OrphanIsGone(t, keyed, blank, source, StoredPrint(b));
    StagesKeep(t, keyed, blank, source, false);
    var t1 := Stages(t, keyed, blank, source, false).t;
    assert !Has(t1, b) && !KeyedPrint(t1, StoredPrint(b));
    StagesHold(t1, keyed, blank, source, false, b);
    assert b in blank;
    assert Has(Stages(t1, keyed, blank, source, false).t, b);
  }

  /** Importing a safe batch a second time leaves every row as it is if and only if the batch orphans no blank row. */
  lemma ReimportIsIdempotentIff(t: Table, rows: seq<Row>, source: string, resolve: Row -> Option<int>)
    requires Inv(t) && SafeBatch(rows, source)
    ensures var once := Import(t, rows, source, false, resolve);
            && once.Done?
            && var again := Import(once.t, rows, source, false, resolve);
            && again.Done?
            && var (keyed, blank) := DedupeFrom(ClampAll(rows), [], []);
            (again.t.rows == once.t.rows <==> !Orphans(t, Attach(keyed, resolve), Attach(blank, resolve)))
  {
    hide Stages, Inv, Orphaned;
    DedupedIsBatch(rows, source, resolve);
    var (keyed, blank) := DedupeFrom(ClampAll(rows), [], []);
    var k, b := Attach(keyed, resolve), Attach(blank, resolve);
    if |keyed| > 0 || |blank| > 0 {
      if Orphans(t, k, b) { ReimportStoresOrphan(t, k, b, source); } else { ReimportKeepsRows(t, k, b, source); }
    }
  }

  lemma OrphanIsGone(t: Table, keyed: seq<Row>, blank: seq<Row>, source: string, f: Fingerprint)
    requires Inv(t) && Batch(t, keyed, blank, source, false)
    requires KeyedPrint(t, f) && !StaysKeyed(t, keyed, f)
    ensures Stages(t, keyed, blank, source, false).Done?
    ensures NoPrint(Stages(t, keyed, blank, source, false).t, f)
  {
    hide Stages, Inv;
    KeyedPrintAfter(t, keyed, blank, source, f);
    var t1 := Stages(t, keyed, blank, source, false).t;
    forall id | id in t1.rows
      ensures StoredPrint(t1.rows[id].cols) != f
    {
      var x := t1.rows[id].cols;
      assert Has(t1, x);
      StagesHold(t, keyed, blank, source, false, x);
      if Blank(x) && Has(t, x) { BlankBesideKeyed(t, x); }
      assert StoredPrint(x) == f ==> !Blank(x) ==> KeyedPrint(t1, f);
    }
  }

  /** A keyed row moves away from a blank row with its old print, and the batch still carries that blank row. */
  lemma OrphanedCopy(first: Row, moved: Row, copy: Row, t: Table)
    requires first.source == "vancouver" && first.externalId != "" && StoredPrint(first) == PrintOf(first, first.source)
    requires Usable(StoredPrint(first)) && StoredPrint(moved) == PrintOf(moved, moved.source)
    requires moved.source == first.source && moved.externalId == first.externalId &&
        StoredPrint(moved) != StoredPrint(first)
    requires copy == first.(externalId := "") && t == Table(map[1 := Permit(first, None, NEW_LIFECYCLE)], 2)
    ensures Inv(t) && Batch(t, [moved], [copy], "vancouver", false) && Unpadded([moved]) && Orphans(t, [moved], [copy])
  {
    assert GivesWay(first, [moved][0]);
    assert 1 in t.rows && t.rows[1].cols == first && StoredPrint(first) == StoredPrint([copy][0]);
    assert KeyedPrint(t, StoredPrint([copy][0]));
    assert !StaysKeyed(t, [moved], StoredPrint([copy][0]));
  }

  const NO_COMPANY: Row -> Option<int> := _ => None

  lemma NothingAttached(r: Row)
    ensures Attach([r], NO_COMPANY) == [r]
  {
    assert Attach([r], NO_COMPANY)[0] == r;
  }

  /** A keyed and a blank row, none of whose columns is too long, go through clamping and deduplication unchanged. */
  lemma PairIsBatch(keyed: Row, blank: Row)
    requires !Blank(keyed) && Clamp(keyed) == keyed && Blank(blank) && Clamp(blank) == blank &&
        Usable(PrintOf(blank, blank.source))
    ensures DedupeFrom(ClampAll([keyed, blank]), [], []) == ([keyed], [blank])
    ensures Attach([keyed], NO_COMPANY) == [keyed] && Attach([blank], NO_COMPANY) == [blank]
  {
    hide Clamp, PrintOf;
    NothingAttached(keyed);
    NothingAttached(blank);
    assert ClampAll([keyed, blank]) == [keyed, blank];
    assert [keyed, blank][1..] == [blank] && [blank][1..] == [];
    assert Put([], keyed) == [keyed] && Put([], blank) == [blank];
    assert DedupeFrom([], [keyed], [blank]) == ([keyed], [blank]);
    assert DedupeFrom([blank], [keyed], []) == ([keyed], [blank]);
  }

  /** A second import that changes the rows again. */
  predicate ChangesAgain(t: Table, rows: seq<Row>, source: string) {
    var once := Import(t, rows, source, false, NO_COMPANY);
    && once.Done?
    && var again := Import(once.t, rows, source, false, NO_COMPANY);
       again.Done? && again.t.rows != once.t.rows
  }

  /** It happens: a permit whose address is corrected while an old blank copy of it is still being scraped. */
  lemma ReimportCanDuplicate()
    ensures exists t, rows :: Inv(t) && SafeBatch(rows, "vancouver") && ChangesAgain(t, rows, "vancouver")
  {
    hide Inv, Batch, Unpadded, Orphans, Import;
    var d := Details("", "", "", "", "", "", "", "Vancouver");
    var first := Row("vancouver", "BP-1", "1 Main St", "5000", "ACME", d, None);
    var moved := first.(address := "2 Main St");
    var copy := first.(externalId := "");
    var t := Table(map[1 := Permit(first, None, NEW_LIFECYCLE)], 2);
    StripFixedIffStripped("1 Main St");
    StripFixedIffStripped("2 Main St");
    StripFixedIffStripped("5000");
    StripFixedIffStripped("ACME");
    assert "1 Main St"[0] != "2 Main St"[0];
    OrphanedCopy(first, moved, copy, t);
    PairIsBatch(moved, copy);
    assert SafeBatch([moved, copy], "vancouver");
    ReimportIsIdempotentIff(t, [moved, copy], "vancouver", NO_COMPANY);
    assert ChangesAgain(t, [moved, copy], "vancouver");
  }
}
