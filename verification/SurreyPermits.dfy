/**
 The identity-aware Surrey import: a row is matched by its official number, then by the legacy key of a row
 that has no official number yet, and otherwise inserted. The session is never committed here.
 */
module SurreyPermits {
  import opened Outcomes
  import opened Ordered
  import opened Text

  const LEGACY_LENGTH: nat := 16
  const SURREY := "surrey"

  /** The columns an import always rewrites. */
  datatype Fields = Fields(
    address: string,
    permitType: string,
    projectValue: string,
    architect: string,
    issueDate: string,
    applicationDate: string,
    description: string,
    contractor: string,
    localArea: string)

  /** A scraped row; a missing or null entry reads as "". */
  datatype RawRow = RawRow(externalId: string, applicant: string, city: string, fields: Fields)

  /** Company, lifecycle and scoring columns, which this importer has no statement for. */
  datatype Untouched = Untouched(company: Option<int>, lifecycle: string, active: bool)

  const FRESH := Untouched(None, "active", true)

  datatype Permit = Permit(
    source: string,
    city: string,
    externalId: string,
    officialId: Option<string>,
    applicant: string,
    fields: Fields,
    untouched: Untouched)

  datatype Table = Table(rows: map<int, Permit>, nextId: int)

  datatype ImportError = MissingNumber | AmbiguousLegacyKey | NotExactlyOneRow | UniqueViolation | ValueTooLong

  datatype Kind = Updated | Inserted

  // ---------------------------------------------------------------- the official number

  predicate IsLetter(c: char) { 'a' <= c <= 'z' || 'A' <= c <= 'Z' }

  predicate DigitsAt(s: string, from: nat, to: nat) {
    from <= to <= |s| && forall i | from <= i < to :: IsDigit(s[i])
  }

  /** DD-DDDDDD-DDD-DD */
  predicate LegacyFormat(s: string) {
    && |s| == LEGACY_LENGTH
    && DigitsAt(s, 0, 2) && s[2] == '-' && DigitsAt(s, 3, 9) && s[9] == '-'
    && DigitsAt(s, 10, 13) && s[13] == '-' && DigitsAt(s, 14, 16)
  }

  /** The legacy format, one separator, and LL, LD or LDLL. */
  predicate CurrentFormat(s: string) {
    && |s| > LEGACY_LENGTH + 1
    && LegacyFormat(s[..LEGACY_LENGTH])
    && !IsDigit(s[16]) && !IsLetter(s[16]) && s[16] != '-'
    && var suffix := s[17..];
       || (|suffix| == 2 && IsLetter(suffix[0]) && (IsLetter(suffix[1]) || IsDigit(suffix[1])))
       || (|suffix| == 4 && IsLetter(suffix[0]) && IsDigit(suffix[1]) && IsLetter(suffix[2]) && IsLetter(suffix[3]))
  }

  function LegacyKey(number: string): (k: Option<string>)
    ensures k.Some? ==> |k.value| == LEGACY_LENGTH && k.value < Clean(number)
    ensures k.Some? <==> CurrentFormat(Clean(number))
  {
    var value := Clean(number);
    if !CurrentFormat(value) then None
    else if !LegacyFormat(value[..LEGACY_LENGTH]) then None
    else Some(value[..LEGACY_LENGTH])
  }

  function OfficialNumber(row: RawRow): string {
    Truncate(Clean(row.externalId), 100)
  }

  function Values(row: RawRow): Fields {
    var f := row.fields;
    Fields(Truncate(Clean(f.address), 300), Truncate(Clean(f.permitType), 100), Truncate(Clean(f.projectValue), 50),
           Truncate(Clean(f.architect), 300), Truncate(Clean(f.issueDate), 20), Truncate(Clean(f.applicationDate), 20),
           Clean(f.description), Truncate(Clean(f.contractor), 300), Truncate(Clean(f.localArea), 100))
  }

  function CityOf(row: RawRow): string {
    if Clean(row.city) != "" then Clean(row.city) else "Surrey"
  }

  // ---------------------------------------------------------------- lookups

  predicate Bridged(p: Permit) {
    p.officialId.Some? && p.officialId.value != ""
  }

  function ByOfficial(t: Table, number: string): set<int> {
    set id | id in t.rows && t.rows[id].source == SURREY && t.rows[id].officialId == Some(number)
  }

  function Unbridged(t: Table, key: string): set<int> {
    set id | id in t.rows && t.rows[id].source == SURREY && t.rows[id].externalId == key && !Bridged(t.rows[id])
  }

  /** One of the two unique indexes rejects `p` as row `id`. */
  predicate Rejected(t: Table, id: int, p: Permit) {
    exists j | j in t.rows && j != id && t.rows[j].source == p.source ::
      || (p.externalId != "" && t.rows[j].externalId == p.externalId)
      || (Bridged(p) && t.rows[j].officialId == p.officialId)
  }

  // ---------------------------------------------------------------- one row

  function Revised(p: Permit, row: RawRow, official: Option<string>): Permit {
    p.(fields := Values(row),
       applicant := if Clean(row.applicant) != "" then Clean(row.applicant) else p.applicant,
       officialId := if official.Some? then official else p.officialId)
  }

  /** `UPDATE ... WHERE id = permit_id AND source = 'surrey'`, which must affect one row. */
  function ApplyUpdate(t: Table, id: int, row: RawRow, official: Option<string>): Result<Table, ImportError> {
    if id !in t.rows || t.rows[id].source != SURREY then Err(NotExactlyOneRow)
    else if |Clean(row.applicant)| > 300 then Err(ValueTooLong)
    else
      var p := Revised(t.rows[id], row, official);
      if Rejected(t, id, p) then Err(UniqueViolation) else Ok(t.(rows := t.rows[id := p]))
  }

  function NewPermit(row: RawRow): Permit {
    Permit(SURREY, CityOf(row), OfficialNumber(row), Some(OfficialNumber(row)), Clean(row.applicant), Values(row),
        FRESH)
  }

  function InsertNew(t: Table, row: RawRow): Result<Table, ImportError> {
    var p := NewPermit(row);
    if |p.applicant| > 300 || |p.city| > 100 then Err(ValueTooLong)
    else if Rejected(t, t.nextId, p) then Err(UniqueViolation)
    else Ok(Table(t.rows[t.nextId := p], t.nextId + 1))
  }

  function Legacy(t: Table, row: RawRow): set<int> {
    var key := LegacyKey(OfficialNumber(row));
    if key.Some? then Unbridged(t, key.value) else {}
  }

  function UpsertOne(t: Table, row: RawRow): (Kind, Result<Table, ImportError>) {
    var number := OfficialNumber(row);
    if number == "" then (Updated, Err(MissingNumber))
    else if ByOfficial(t, number) != {} then (Updated, ApplyUpdate(t, Least(ByOfficial(t, number)), row, None))
    else
      var matches := Legacy(t, row);
      if |matches| > 1 then (Updated, Err(AmbiguousLegacyKey))
      else if matches != {} then (Updated, ApplyUpdate(t, Least(matches), row, Some(number)))
      else (Inserted, InsertNew(t, row))
  }

  // ---------------------------------------------------------------- a batch

  datatype Counts = Counts(updated: nat, inserted: nat)

  function Add(c: Counts, kind: Kind): Counts {
    if kind == Updated then c.(updated := c.updated + 1) else c.(inserted := c.inserted + 1)
  }

  /** What the session holds when the call returns or raises: on an error, the rows written before it. */
  datatype Progress = Progress(t: Table, result: Result<Counts, ImportError>)

  function ImportFrom(t: Table, rows: seq<RawRow>, c: Counts): Progress
    decreases |rows|
  {
    if |rows| == 0 then Progress(t, Ok(c))
    else
      var (kind, r) := UpsertOne(t, rows[0]);
      match r
      case Err(e) => Progress(t, Err(e))
      case Ok(t') => ImportFrom(t', rows[1..], Add(c, kind))
  }

  function Import(t: Table, rows: seq<RawRow>): Progress {
    ImportFrom(t, rows, Counts(0, 0))
  }

  /** A caller-owned transaction over the permits table. */
  class Session {
    var committed: Table
    var working: Table

    constructor (t: Table)
      ensures committed == t && working == t
    {
      committed, working := t, t;
    }

    method Commit()
      modifies this`committed
      ensures committed == working
    {
      committed := working;
    }

    method Rollback()
      modifies this`working
      ensures working == committed
    {
      working := committed;
    }

    method Upsert(row: RawRow) returns (kind: Kind, r: Result<(), ImportError>)
      modifies this`working
      ensures kind == UpsertOne(old(working), row).0
      ensures match UpsertOne(old(working), row).1
        case Ok(t) => r == Ok(()) && working == t
        case Err(e) => r == Err(e) && working == old(working)
    {
      var outcome := UpsertOne(working, row);
      kind := outcome.0;
      match outcome.1 {
        case Err(e) => r := Err(e);
        case Ok(t) =>
          working := t;
          r := Ok(());
      }
    }

    /** Nothing becomes durable here, whatever happens: `committed` is not even in the frame. */
    method UpsertAll(rows: seq<RawRow>) returns (r: Result<Counts, ImportError>)
      modifies this`working
      ensures Progress(working, r) == Import(old(working), rows)
    {
      var counts := Counts(0, 0);
      for i := 0 to |rows|
        invariant ImportFrom(working, rows[i..], counts) == Import(old(working), rows)
      {
        assert rows[i..][0] == rows[i] && rows[i..][1..] == rows[i + 1..];
        var kind, one := Upsert(rows[i]);
        if one.Err? {
          return Err(one.error);
        }
        counts := Add(counts, kind);
      }
      return Ok(counts);
    }
  }
}
