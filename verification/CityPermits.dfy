/**
 The multi-city permit import: rows with an external id are keyed by (source, external id), rows without one
 by a fingerprint of their text, and a blank row is promoted when a keyed row with its fingerprint arrives.
 `LIMIT 1` without `ORDER BY` is modelled as the least id.
 */
module CityPermits {
  import opened Outcomes
  import opened Ordered
  import opened Text

  // ---------------------------------------------------------------- rows

  datatype Details = Details(
    permitType: string,
    architect: string,
    issueDate: string,
    applicationDate: string,
    description: string,
    contractor: string,
    localArea: string,
    city: string)

  /** A scraped row: every column the importer may write. A key the row dict lacks reads as "". */
  datatype Row = Row(
    source: string,
    externalId: string,
    address: string,
    value: string,
    applicant: string,
    details: Details,
    company: Option<int>)

  /** Columns the importer never writes: the lifecycle resolver owns them. */
  datatype Lifecycle = Lifecycle(
    status: string,
    override: Option<string>,
    changedAt: Option<int>,
    active: bool,
    sourceStatusRaw: string)

  const NEW_LIFECYCLE := Lifecycle("active", None, None, true, "")

  datatype Permit = Permit(cols: Row, officialId: Option<string>, lifecycle: Lifecycle)

  datatype Fingerprint = Fingerprint(source: string, address: string, value: string, applicant: string)

  datatype Table = Table(rows: map<int, Permit>, nextId: int)

  const EMPTY := Table(map[], 1)

  const BATCH_SIZE: nat := 500

  function ClampDetails(d: Details): Details {
    Details(Truncate(d.permitType, 100), Truncate(d.architect, 300), Truncate(d.issueDate, 20),
            Truncate(d.applicationDate, 20), d.description, Truncate(d.contractor, 300),
            Truncate(d.localArea, 100), Truncate(d.city, 100))
  }

  function Clamp(r: Row): Row {
    Row(Truncate(r.source, 50), Truncate(r.externalId, 100), Truncate(r.address, 300), Truncate(r.value, 50),
        Truncate(r.applicant, 300), ClampDetails(r.details), r.company)
  }

  /** The fingerprint the importer looks up: the text is stripped. */
  function PrintOf(r: Row, source: string): Fingerprint {
    Fingerprint(source, Strip(r.address), Strip(r.value), Strip(r.applicant))
  }

  /** The fingerprint of the stored columns: the text is stored as it came. */
  function StoredPrint(r: Row): Fingerprint {
    Fingerprint(r.source, r.address, r.value, r.applicant)
  }

  predicate Blank(r: Row) {
    r.externalId == ""
  }

  /** The fingerprint has enough text to identify a permit. */
  predicate Usable(f: Fingerprint) {
    f.address != "" && f.value != ""
  }

  // ---------------------------------------------------------------- in-batch dedupe

  datatype Key = ById(source: string, externalId: string) | ByPrint(fingerprint: Fingerprint)

  function KeyOf(r: Row): Key {
    if Blank(r) then ByPrint(PrintOf(r, r.source)) else ById(r.source, r.externalId)
  }

  function Position(rows: seq<Row>, k: Key): (i: nat)
    ensures i <= |rows|
    ensures i < |rows| ==> KeyOf(rows[i]) == k
    ensures forall j | 0 <= j < i :: KeyOf(rows[j]) != k
  {
    if |rows| == 0 || KeyOf(rows[0]) == k then 0 else 1 + Position(rows[1..], k)
  }

  /** `d[key] = row`: a later row replaces an earlier one and keeps its place. */
  function Put(rows: seq<Row>, r: Row): seq<Row> {
    var i := Position(rows, KeyOf(r));
    if i < |rows| then rows[i := r] else rows + [r]
  }

  function DedupeFrom(rows: seq<Row>, keyed: seq<Row>, blank: seq<Row>): (seq<Row>, seq<Row>)
    decreases |rows|
  {
    if |rows| == 0 then (keyed, blank)
    else
      var r := rows[0];
      if !Blank(r) then DedupeFrom(rows[1..], Put(keyed, r), blank)
      else if !Usable(PrintOf(r, r.source)) then DedupeFrom(rows[1..], keyed, blank)
      else DedupeFrom(rows[1..], keyed, Put(blank, r))
  }

  // ---------------------------------------------------------------- lookups and writes

  function IdsBy(t: Table, f: Fingerprint, blank: bool): set<int> {
    set id | id in t.rows && StoredPrint(t.rows[id].cols) == f && Blank(t.rows[id].cols) == blank
  }

  function IdsByKey(t: Table, source: string, externalId: string): set<int> {
    set id | id in t.rows && t.rows[id].cols.source == source && t.rows[id].cols.externalId == externalId
  }

  /** A unique index on permits rejects `p` as the row `id`. */
  predicate Rejected(t: Table, id: int, p: Permit) {
    exists j | j in t.rows && j != id && t.rows[j].cols.source == p.cols.source ::
      || (p.cols.externalId != "" && t.rows[j].cols.externalId == p.cols.externalId)
      || (p.officialId.Some? && p.officialId.value != "" && t.rows[j].officialId == p.officialId)
  }

  function Store(t: Table, id: int, p: Permit): Option<Table> {
    if Rejected(t, id, p) then None else Some(t.(rows := t.rows[id := p]))
  }

  function Update(t: Table, id: int, r: Row): Option<Table>
    requires id in t.rows
  {
    Store(t, id, t.rows[id].(cols := r))
  }

  function Insert(t: Table, r: Row): Option<Table> {
    match Store(t, t.nextId, Permit(r, None, NEW_LIFECYCLE))
    case None => None
    case Some(t') => Some(t'.(nextId := t.nextId + 1))
  }

  function Delete(t: Table, id: int): Table {
    t.(rows := t.rows - {id})
  }

  // ---------------------------------------------------------------- one row

  /** `_upsert_blank_fingerprint_permit`; None when a unique index raises. */
  function UpsertBlank(t: Table, r: Row, source: string): Option<(Table, bool)> {
    var f := PrintOf(r, source);
    if !Blank(r) || IdsBy(t, f, false) != {} then Some((t, false))
    else
      var written := if IdsBy(t, f, true) != {} then Update(t, Least(IdsBy(t, f, true)), r) else Insert(t, r);
      match written
      case None => None
      case Some(t') => Some((t', true))
  }

  /** `_promote_blank_permit_if_exists`. */
  function Promote(t: Table, r: Row, source: string): Option<(Table, bool)> {
    var f := PrintOf(r, source);
    if Blank(r) || !Usable(f) || IdsBy(t, f, true) == {} then Some((t, false))
    else
      var blankId := Least(IdsBy(t, f, true));
      var keyed := IdsByKey(t, source, r.externalId);
      if keyed != {} then
        match Update(t, Least(keyed), r)
        case None => None
        case Some(t') => Some((Delete(t', blankId), true))
      else
        match Update(t, blankId, r)
        case None => None
        case Some(t') => Some((t', true))
  }

  /** One row of the batched statement: plain INSERT, or ON CONFLICT (source, external_id) DO UPDATE. */
  function UpsertKeyed(t: Table, r: Row, refresh: bool): Option<Table> {
    var held := IdsByKey(t, r.source, r.externalId);
    if refresh || held == {} then Insert(t, r) else Update(t, Least(held), r)
  }

  // ---------------------------------------------------------------- a whole call

  /** `Raised` holds what the commits before the failing statement left behind. */
  datatype Outcome = Done(t: Table, imported: nat) | Raised(committed: Table)

  datatype Promotion = Promoted(t: Table, imported: nat, rest: seq<Row>) | Failed(committed: Table)

  function BlankStage(t: Table, rows: seq<Row>, source: string, imported: nat): Outcome
    decreases |rows|
  {
    if |rows| == 0 then Done(t, imported)
    else match UpsertBlank(t, rows[0], source)
      case None => Raised(t)
      case Some((t', ok)) => BlankStage(t', rows[1..], source, imported + if ok then 1 else 0)
  }

  function PromoteStage(t: Table, rows: seq<Row>, source: string, imported: nat, rest: seq<Row>): Promotion
    decreases |rows|
  {
    if |rows| == 0 then Promoted(t, imported, rest)
    else match Promote(t, rows[0], source)
      case None => Failed(t)
      case Some((t', true)) => PromoteStage(t', rows[1..], source, imported + 1, rest)
      case Some((t', false)) => PromoteStage(t', rows[1..], source, imported, rest + [rows[0]])
  }

  /** One multi-row statement: all of its rows or none of them. */
  function KeyedBatch(t: Table, rows: seq<Row>, refresh: bool): Option<Table>
    decreases |rows|
  {
    if |rows| == 0 then Some(t)
    else match UpsertKeyed(t, rows[0], refresh)
      case None => None
      case Some(t') => KeyedBatch(t', rows[1..], refresh)
  }

  function KeyedStage(t: Table, rows: seq<Row>, refresh: bool, imported: nat): Outcome
    decreases |rows|
  {
    if |rows| == 0 then Done(t, imported)
    else
      var m := if |rows| < BATCH_SIZE then |rows| else BATCH_SIZE;
      match KeyedBatch(t, rows[..m], refresh)
      case None => Raised(t)
      case Some(t') => KeyedStage(t', rows[m..], refresh, imported + m)
  }

  function ClampAll(rows: seq<Row>): seq<Row> {
    seq(|rows|, i requires 0 <= i < |rows| => Clamp(rows[i]))
  }

  /** `resolve` stands for the company resolver: it may attach a company to a row. */
  function Attach(rows: seq<Row>, resolve: Row -> Option<int>): seq<Row> {
    seq(|rows|, i requires 0 <= i < |rows| =>
      if resolve(rows[i]).Some? then rows[i].(company := resolve(rows[i])) else rows[i])
  }

  function DeleteSource(t: Table, source: string): Table {
    t.(rows := map id | id in t.rows && t.rows[id].cols.source != source :: t.rows[id])
  }

  function KeyedStages(t: Table, keyed: seq<Row>, source: string, refresh: bool, imported: nat): Outcome {
    match PromoteStage(t, keyed, source, imported, [])
    case Failed(c) => Raised(c)
    case Promoted(t', imported', rest) => KeyedStage(t', rest, refresh, imported')
  }

  function Stages(t: Table, keyed: seq<Row>, blank: seq<Row>, source: string, refresh: bool): Outcome {
    match BlankStage(t, blank, source, 0)
    case Raised(c) => Raised(c)
    case Done(t', imported) => KeyedStages(t', keyed, source, refresh, imported)
  }

  function Import(t: Table, rows: seq<Row>, source: string, refresh: bool, resolve: Row -> Option<int>): Outcome {
    var (keyed, blank) := DedupeFrom(ClampAll(rows), [], []);
    if |keyed| == 0 && |blank| == 0 then Done(t, 0)
    else Stages(if refresh then DeleteSource(t, source) else t,
                Attach(keyed, resolve), Attach(blank, resolve), source, refresh)
  }

  /** The session of `upsert_city_permits`. */
  class PermitStore {
    var table: Table

    constructor ()
      ensures table == EMPTY
    {
      table := EMPTY;
    }

    method UpsertBlanks(blank: seq<Row>, source: string) returns (r: Result<nat, ()>)
      modifies this
      ensures match BlankStage(old(table), blank, source, 0)
        case Done(t, n) => table == t && r == Ok(n)
        case Raised(t) => table == t && r == Err(())
    {
      var imported: nat := 0;
      for i := 0 to |blank|
        invariant BlankStage(table, blank[i..], source, imported) == BlankStage(old(table), blank, source, 0)
      {
        assert blank[i..][1..] == blank[i + 1..];
        match UpsertBlank(table, blank[i], source) {
          case None => return Err(());
          case Some((t', ok)) =>
            table := t';
            imported := imported + if ok then 1 else 0;
        }
      }
      return Ok(imported);
    }

    method PromoteAll(keyed: seq<Row>, source: string, n: nat) returns (r: Result<(nat, seq<Row>), ()>)
      modifies this
      ensures match PromoteStage(old(table), keyed, source, n, [])
        case Promoted(t, n', rest) => table == t && r == Ok((n', rest))
        case Failed(t) => table == t && r == Err(())
    {
      var imported: nat, rest := n, [];
      for i := 0 to |keyed|
        invariant PromoteStage(table, keyed[i..], source, imported, rest) ==
                  PromoteStage(old(table), keyed, source, n, [])
      {
        assert keyed[i..][1..] == keyed[i + 1..];
        match Promote(table, keyed[i], source) {
          case None => return Err(());
          case Some((t', ok)) =>
            table := t';
            if ok { imported := imported + 1; } else { rest := rest + [keyed[i]]; }
        }
      }
      return Ok((imported, rest));
    }

    method UpsertBatches(rows: seq<Row>, refresh: bool, n: nat) returns (r: Result<nat, ()>)
      modifies this
      ensures match KeyedStage(old(table), rows, refresh, n)
        case Done(t, n') => table == t && r == Ok(n')
        case Raised(t) => table == t && r == Err(())
    {
      hide KeyedBatch;
      var start, imported: nat := 0, n;
      while start < |rows|
        invariant 0 <= start <= |rows|
        invariant KeyedStage(table, rows[start..], refresh, imported) == KeyedStage(old(table), rows, refresh, n)
      {
        var stop := if |rows| - start < BATCH_SIZE then |rows| else start + BATCH_SIZE;
        assert rows[start..][..stop - start] == rows[start..stop];
        assert rows[start..][stop - start..] == rows[stop..];
        match KeyedBatch(table, rows[start..stop], refresh) {
          case None => return Err(());
          case Some(t') =>
            table := t';
            imported := imported + (stop - start);
        }
        start := stop;
      }
      return Ok(imported);
    }

    method UpsertCityPermits(rows: seq<Row>, source: string, refresh: bool, resolve: Row -> Option<int>)
      returns (r: Result<nat, ()>)
      modifies this
      ensures match Import(old(table), rows, source, refresh, resolve)
        case Done(t, n) => table == t && r == Ok(n)
        case Raised(t) => table == t && r == Err(())
    {
      var keyed, blank := DedupePermitRows(ClampAll(rows));
      if |keyed| == 0 && |blank| == 0 {
        return Ok(0);
      }
      if refresh {
        table := DeleteSource(table, source);
      }
      keyed, blank := Attach(keyed, resolve), Attach(blank, resolve);
      var upserted := UpsertBlanks(blank, source);
      if upserted.Err? {
        return upserted;
      }
      var promoted := PromoteAll(keyed, source, upserted.value);
      if promoted.Err? {
        return Err(());
      }
      r := UpsertBatches(promoted.value.1, refresh, promoted.value.0);
    }
  }

  method DedupePermitRows(rows: seq<Row>) returns (keyed: seq<Row>, blank: seq<Row>)
    ensures (keyed, blank) == DedupeFrom(rows, [], [])
  {
    keyed, blank := [], [];
    for i := 0 to |rows|
      invariant DedupeFrom(rows[i..], keyed, blank) == DedupeFrom(rows, [], [])
    {
      assert rows[i..][1..] == rows[i + 1..];
      var r := rows[i];
      if !Blank(r) {
        keyed := Put(keyed, r);
      } else if Usable(PrintOf(r, r.source)) {
        blank := Put(blank, r);
      }
    }
  }
}
