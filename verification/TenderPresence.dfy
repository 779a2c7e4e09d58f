/**
 Tender import cycles: a presence-aware upsert in batches, then the missing-from-source counter, then
 `closing_at` from the deadline text. One table per source; rows are identified by their URL.
 */
module TenderPresence {
  import opened Outcomes
  import opened Ordered

  type Url = string

  /** A text column; None is NULL. `IS DISTINCT FROM` is inequality on these values. */
  type Value = Option<string>

  /** Columns no import writes on conflict: AI results and the lifecycle. */
  datatype Kept = Kept(aiScore: Option<int>, aiSummary: string, status: string, override: Option<string>)

  const NEW_KEPT := Kept(None, "", "active", None)

  datatype Tender = Tender(
    cols: map<string, Value>,
    kept: Kept,
    closingAt: Option<int>,
    firstSeen: int,
    lastSeen: int,
    updatedAt: int,
    missing: nat)

  type Table = map<Url, Tender>

  datatype Row = Row(url: Url, cols: map<string, Value>)

  /** What distinguishes the three tender models: the columns an import writes, those whose change counts as a
      content change, the column defaults, and the deadline column. */
  datatype Schema = Schema(columns: set<string>, content: seq<string>, defaults: map<string, Value>, deadline: string)

  // ---------------------------------------------------------------- the upsert

  /** `EXCLUDED`: a column the payload lacks takes its default. */
  function Excluded(s: Schema, r: Row): map<string, Value> {
    map c | c in s.columns ::
      if c in r.cols then r.cols[c] else if c in s.defaults then s.defaults[c] else None
  }

  function Cell(cols: map<string, Value>, c: string): Value {
    if c in cols then cols[c] else None
  }

  /** The OR over the content columns that the table has. */
  predicate ContentChanged(s: Schema, before: map<string, Value>, after: map<string, Value>) {
    exists i | 0 <= i < |s.content| ::
        s.content[i] in s.columns && Cell(before, s.content[i]) != Cell(after, s.content[i])
  }

  function Stamped(s: Schema, r: Row, seenAt: int): Tender {
    Tender(Excluded(s, r), NEW_KEPT, None, seenAt, seenAt, seenAt, 0)
  }

  function Refreshed(s: Schema, stored: Tender, r: Row, now: int): Tender {
    var cols := Excluded(s, r);
    stored.(cols := cols,
          lastSeen := now,
          updatedAt := if ContentChanged(s, stored.cols, cols) then now else stored.updatedAt)
  }

  function UpsertOne(t: Table, s: Schema, r: Row, seenAt: int, now: int): Table {
    t[r.url := if r.url in t then Refreshed(s, t[r.url], r, now) else Stamped(s, r, seenAt)]
  }

  function UpsertRows(t: Table, s: Schema, rows: seq<Row>, seenAt: int, now: int): Table
    decreases |rows|
  {
    if |rows| == 0 then t else UpsertRows(UpsertOne(t, s, rows[0], seenAt, now), s, rows[1..], seenAt, now)
  }

  predicate DistinctUrls(rows: seq<Row>) {
    forall i, j | 0 <= i < j < |rows| :: rows[i].url != rows[j].url
  }

  /** A statement that hits one row twice raises; the batches before it are committed. */
  datatype Upserted = Upserted(t: Table, result: Result<nat, ()>)

  /** `clock(k)` is the database time of batch k. */
  function UpsertFrom(t: Table, s: Schema, rows: seq<Row>, size: nat, seenAt: int, clock: nat -> int, k: nat,
                      n: nat): Upserted
    requires size > 0
    decreases |rows|
  {
    if |rows| == 0 then Upserted(t, Ok(n))
    else
      var m := if |rows| < size then |rows| else size;
      if !DistinctUrls(rows[..m]) then Upserted(t, Err(()))
      else UpsertFrom(UpsertRows(t, s, rows[..m], seenAt, clock(k)), s, rows[m..], size, seenAt, clock, k + 1, n + m)
  }

  // ---------------------------------------------------------------- the counter and the deadline

  function Urls(rows: seq<Row>): set<Url> {
    set i | 0 <= i < |rows| :: rows[i].url
  }

  function CountMissing(t: Table, urls: set<Url>): Table {
    if urls == {} then t
    else map u | u in t :: t[u].(missing := if u in urls then 0 else t[u].missing + 1)
  }

  /** `parse` stands for `parse_closing_at`; an unparseable deadline leaves the row alone. */
  function Closed(s: Schema, t: Tender, parse: Value -> Option<int>): Tender {
    var parsed := parse(Cell(t.cols, s.deadline));
    if parsed.Some? then t.(closingAt := parsed) else t
  }

  /** An empty `urls` is no filter at all. */
  function SyncClosing(t: Table, s: Schema, urls: set<Url>, parse: Value -> Option<int>): Table {
    map u | u in t :: if urls == {} || u in urls then Closed(s, t[u], parse) else t[u]
  }

  // ---------------------------------------------------------------- one import of one source

  /** A scrape: rows without a URL are already filtered out. */
  datatype Cycle = Cycle(rows: seq<Row>, seenAt: int, clock: nat -> int)

  function Import(t: Table, s: Schema, size: nat, c: Cycle, parse: Value -> Option<int>): Upserted
    requires size > 0
  {
    var up := if |c.rows| == 0 then Upserted(t, Ok(0)) else UpsertFrom(t, s, c.rows, size, c.seenAt, c.clock, 0, 0);
    if up.result.Err? then up
    else up.(t := SyncClosing(CountMissing(up.t, Urls(c.rows)), s, Urls(c.rows), parse))
  }

  /** A skipped source is not imported at all, and counts zero. */
  function Imported(t: Table, s: Schema, size: nat, skipped: bool, c: Cycle, parse: Value -> Option<int>): Upserted
    requires size > 0
  {
    if skipped then Upserted(t, Ok(0)) else Import(t, s, size, c, parse)
  }

  class Store {
    const schema: Schema
    const size: nat
    var rows: Table

    constructor (schema: Schema, size: nat)
      ensures this.schema == schema && this.size == size && rows == map[]
    {
      this.schema, this.size, rows := schema, size, map[];
    }

    method UpsertWithPresence(payload: seq<Row>, seenAt: int, clock: nat -> int) returns (r: Result<nat, ()>)
      requires size > 0
      modifies this
      ensures payload == [] ==> r == Ok(0) && rows == old(rows)
      ensures payload != [] ==>
                Upserted(rows, r) == UpsertFrom(old(rows), schema, payload, size, seenAt, clock, 0, 0)
    {
      hide UpsertRows;
      var start, batch: nat, imported: nat := 0, 0, 0;
      while start < |payload|
        invariant 0 <= start <= |payload|
        invariant |payload| == 0 ==> rows == old(rows) && imported == 0
        invariant UpsertFrom(rows, schema, payload[start..], size, seenAt, clock, batch, imported) ==
                  UpsertFrom(old(rows), schema, payload, size, seenAt, clock, 0, 0)
      {
        var stop := if |payload| - start < size then |payload| else start + size;
        var rest := payload[start..];
        assert rest[..stop - start] == payload[start..stop] && rest[stop - start..] == payload[stop..];
        if !DistinctUrls(payload[start..stop]) {
          return Err(());
        }
        rows := UpsertRows(rows, schema, payload[start..stop], seenAt, clock(batch));
        imported, batch, start := imported + (stop - start), batch + 1, stop;
      }
      return Ok(imported);
    }

    method SyncMissingFromSourceCounts(urls: set<Url>) returns (reset: nat, incremented: nat)
      modifies this
      ensures rows == CountMissing(old(rows), urls)
      ensures urls == {} ==> reset == 0 && incremented == 0
      ensures urls != {} ==> reset == |set u | u in old(rows) && u in urls|
      ensures urls != {} ==> reset + incremented == |old(rows)|
    {
      if urls == {} {
        return 0, 0;
      }
      reset, incremented := CountPresent(rows, urls);
      rows := map u | u in rows :: if u in urls then rows[u].(missing := 0) else rows[u];
      rows := map u | u in rows :: if u !in urls then rows[u].(missing := rows[u].missing + 1) else rows[u];
      assert forall u | u in rows :: rows[u] == CountMissing(old(rows), urls)[u];
    }

    static method CountPresent(t: Table, urls: set<Url>) returns (present: nat, absent: nat)
      ensures present == |set u | u in t && u in urls|
      ensures present + absent == |t|
    {
      var inside := set u | u in t && u in urls;
      var outside := set u | u in t && u !in urls;
      assert t.Keys == inside + outside;
      assert |t| == |t.Keys|;
      return |inside|, |outside|;
    }

    method SyncClosingAt(urls: set<Url>, parse: Value -> Option<int>)
      modifies this
      ensures rows == SyncClosing(old(rows), schema, urls, parse)
    {
      ghost var goal := SyncClosing(rows, schema, urls, parse);
      var todo := if urls == {} then rows.Keys else rows.Keys * urls;
      while todo != {}
        invariant todo <= rows.Keys == goal.Keys
        invariant forall u | u in todo :: goal[u] == Closed(schema, rows[u], parse)
        invariant forall u | u in rows && u !in todo :: rows[u] == goal[u]
        decreases |todo|
      {
        hide Closed;
        ghost var some := SomeMember(todo);
        var u :| u in todo;
        var row := CloseOne(rows[u], parse);
        rows := rows[u := row];
        todo := todo - {u};
      }
      assert forall u | u in rows :: rows[u] == goal[u];
    }

    method CloseOne(row: Tender, parse: Value -> Option<int>) returns (r: Tender)
      ensures r == Closed(schema, row, parse)
    {
      r := row;
      var parsed := parse(Cell(row.cols, schema.deadline));
      if parsed.Some? && row.closingAt != parsed {
        r := row.(closingAt := parsed);
      }
    }

    method ImportCycle(c: Cycle, parse: Value -> Option<int>) returns (r: Result<nat, ()>)
      requires size > 0
      modifies this
      ensures Upserted(rows, r) == Import(old(rows), schema, size, c, parse)
    {
      r := UpsertWithPresence(c.rows, c.seenAt, c.clock);
      if r.Err? {
        return;
      }
      var _, _ := SyncMissingFromSourceCounts(Urls(c.rows));
      SyncClosingAt(Urls(c.rows), parse);
    }
  }

  /** The tender part of `import_all_csvs`. */
  class Importer {
    const tenders: Store
    const archTenders: Store
    const commercialTenders: Store

    constructor (tenders: Store, archTenders: Store, commercialTenders: Store)
      ensures this.tenders == tenders && this.archTenders == archTenders
      ensures this.commercialTenders == commercialTenders
    {
      this.tenders, this.archTenders, this.commercialTenders := tenders, archTenders, commercialTenders;
    }

    method ImportOne(store: Store, skipped: bool, c: Cycle, parse: Value -> Option<int>) returns (r: Result<nat, ()>)
      requires store.size > 0
      modifies store
      ensures Upserted(store.rows, r) == Imported(old(store.rows), store.schema, store.size, skipped, c, parse)
    {
      if skipped {
        return Ok(0);
      }
      r := store.ImportCycle(c, parse);
    }

    /**
     * The sources in order, each as its own import leaves it. An error in one of them ends the call: the sources before
     * it are imported and counted, those after it are as they were.
     */
    method ImportAll(skip: set<string>, a: Cycle, b: Cycle, c: Cycle, parse: Value -> Option<int>)
      returns (counts: map<string, nat>, failed: bool)
      requires tenders != archTenders && tenders != commercialTenders && archTenders != commercialTenders
      requires tenders.size > 0 && archTenders.size > 0 && commercialTenders.size > 0
      modifies tenders, archTenders, commercialTenders
      ensures var x := Imported(old(tenders.rows), tenders.schema, tenders.size, "tenders" in skip, a, parse);
              var y := Imported(old(archTenders.rows), archTenders.schema, archTenders.size, "arch_tenders" in skip, b,
                  parse);
              var z := Imported(old(commercialTenders.rows), commercialTenders.schema, commercialTenders.size,
                                "commercial_tenders" in skip, c, parse);
              && tenders.rows == x.t
              && archTenders.rows == (if x.result.Err? then old(archTenders.rows) else y.t)
              && commercialTenders.rows == (if x.result.Err? || y.result.Err? then old(commercialTenders.rows) else z.t)
              && (failed <==> x.result.Err? || y.result.Err? || z.result.Err?)
              && counts == if x.result.Err? then map[]
                           else if y.result.Err? then map["tenders" := x.result.value]
                           else if z.result.Err? then map["tenders" := x.result.value, "arch_tenders" := y.result.value]
                           else map["tenders" := x.result.value, "arch_tenders" := y.result.value,
                                    "commercial_tenders" := z.result.value]
      ensures "tenders" in skip ==> tenders.rows == old(tenders.rows) && "tenders" in counts && counts["tenders"] == 0
      ensures "arch_tenders" in skip ==> archTenders.rows == old(archTenders.rows)
      ensures "commercial_tenders" in skip ==> commercialTenders.rows == old(commercialTenders.rows)
      ensures !failed ==> forall k | k in skip && k in counts :: counts[k] == 0
      ensures !failed && "tenders" !in skip ==>
                tenders.rows == Import(old(tenders.rows), tenders.schema, tenders.size, a, parse).t
      ensures !failed && "arch_tenders" !in skip ==>
                archTenders.rows == Import(old(archTenders.rows), archTenders.schema, archTenders.size, b, parse).t
      ensures !failed && "commercial_tenders" !in skip ==>
                commercialTenders.rows ==
                  Import(old(commercialTenders.rows), commercialTenders.schema, commercialTenders.size, c, parse).t
    {
      hide Import;
      counts, failed := map[], true;
      var r := ImportOne(tenders, "tenders" in skip, a, parse);
      if r.Err? { return; }
      counts := counts["tenders" := r.value];
      r := ImportOne(archTenders, "arch_tenders" in skip, b, parse);
      if r.Err? { return; }
      counts := counts["arch_tenders" := r.value];
      r := ImportOne(commercialTenders, "commercial_tenders" in skip, c, parse);
      if r.Err? { return; }
      counts := counts["commercial_tenders" := r.value];
      failed := false;
    }
  }
}
