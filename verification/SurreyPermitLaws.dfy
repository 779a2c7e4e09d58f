/** What every run of Surrey imports keeps, when it raises, and what importing again does. */
module SurreyPermitLaws {
  import opened Outcomes
  import opened Ordered
  import opened Text
  import opened SurreyNumbers
  import opened SurreyPermits

  // ---------------------------------------------------------------- invariant and identity

  predicate Clash(p: Permit, q: Permit) {
    && p.source == q.source
    && ((p.externalId != "" && p.externalId == q.externalId) || (Bridged(p) && p.officialId == q.officialId))
  }

  /** Both partial unique indexes hold, and ids come from the sequence. */
  predicate Inv(t: Table) {
    && (forall id | id in t.rows :: id < t.nextId)
    && forall i, j | i in t.rows && j in t.rows && i != j :: !Clash(t.rows[i], t.rows[j])
  }

  /** What no import may take from a row: its external id, its official number once set, its applicant once
      known, and the columns of other writers. */
  predicate SameIdentity(p: Permit, q: Permit) {
    && q.source == p.source && q.city == p.city && q.externalId == p.externalId && q.untouched == p.untouched
    && (Bridged(p) ==> q.officialId == p.officialId)
    && (p.applicant != "" ==> q.applicant != "")
  }

  predicate Evolves(t: Table, t': Table) {
    && t.nextId <= t'.nextId
    && (forall id | id in t.rows :: id in t'.rows && SameIdentity(t.rows[id], t'.rows[id]))
    && (forall id | id in t'.rows && id !in t.rows :: t.nextId <= id)
  }

  lemma EvolvesTransitive(t: Table, t': Table, t'': Table)
    requires Inv(t) && Evolves(t, t') && Evolves(t', t'')
    ensures Evolves(t, t'')
  {
  }

  lemma OneUnbridged(t: Table, row: RawRow)
    requires Inv(t)
    ensures |Legacy(t, row)| <= 1
  {
    var m := Legacy(t, row);
    if m != {} {
      var id := SomeMember(m);
      assert forall j :: j in m <==> j in {id};
      assert m == {id};
    }
  }

  /** The row the import was about, as it stands afterwards. */
  predicate Settled(t: Table, row: RawRow) {
    exists id | id in t.rows :: SettledAt(t, id, row)
  }

  predicate SettledAt(t: Table, id: int, row: RawRow)
    requires id in t.rows
  {
    var p := t.rows[id];
    && p.source == SURREY && p.officialId == Some(OfficialNumber(row)) && FieldsStored(p.fields, row.fields)
    && (Clean(row.applicant) != "" ==> p.applicant == Clean(row.applicant))
  }

  predicate Short(row: RawRow, inserted: bool) {
    |Clean(row.applicant)| <= 300 && (inserted ==> |Clean(row.city)| <= 100)
  }

  /** A Surrey row has this number as its external id. */
  predicate NumberTaken(t: Table, number: string) {
    exists id | id in t.rows :: t.rows[id].source == SURREY && t.rows[id].externalId == number
  }

  // ---------------------------------------------------------------- which row a scraped row is about

  predicate HasNumber(p: Permit, number: string) {
    p.source == SURREY && p.officialId == Some(number)
  }

  /** Not bridged to any number yet, and known by the first sixteen characters of this one. */
  predicate HasPrefix(p: Permit, number: string) {
    && p.source == SURREY && (p.officialId == None || p.officialId == Some(""))
    && CurrentFormat(number) && p.externalId == number[..LEGACY_LENGTH]
  }

  predicate Numbered(t: Table, row: RawRow) {
    exists id | id in t.rows :: HasNumber(t.rows[id], OfficialNumber(row))
  }

  /** The row with the official number or, when no row has it, one that has its prefix. */
  predicate About(t: Table, row: RawRow, id: int) {
    && id in t.rows
    && (HasNumber(t.rows[id], OfficialNumber(row)) ||
        (!Numbered(t, row) && HasPrefix(t.rows[id], OfficialNumber(row))))
  }

  predicate Matches(t: Table, row: RawRow) {
    exists id | id in t.rows :: About(t, row, id)
  }

  lemma LookupsAre(t: Table, row: RawRow, id: int)
    ensures id in ByOfficial(t, OfficialNumber(row)) <==> id in t.rows && HasNumber(t.rows[id], OfficialNumber(row))
    ensures id in Legacy(t, row) <==> id in t.rows && HasPrefix(t.rows[id], OfficialNumber(row))
  {
    hide OfficialNumber, LegacyKey, CurrentFormat;
    KeyIs(row);
  }

  /** The two lookups find exactly the rows that the scraped row can be about. */
  lemma AboutIs(t: Table, row: RawRow)
    ensures var found := if ByOfficial(t, OfficialNumber(row)) != {} then ByOfficial(t, OfficialNumber(row))
                         else Legacy(t, row);
        (forall id :: id in found <==> About(t, row, id)) && (Matches(t, row) <==> found != {})
    ensures Numbered(t, row) <==> ByOfficial(t, OfficialNumber(row)) != {}
  {
    hide OfficialNumber, Legacy, HasPrefix, ByOfficial;
    var byNumber := ByOfficial(t, OfficialNumber(row));
    forall id
      ensures id in byNumber <==> id in t.rows && HasNumber(t.rows[id], OfficialNumber(row))
      ensures id in Legacy(t, row) <==> id in t.rows && HasPrefix(t.rows[id], OfficialNumber(row))
    {
      LookupsAre(t, row, id);
    }
    if byNumber != {} { var id := SomeMember(byNumber); }
    var found := if byNumber != {} then byNumber else Legacy(t, row);
    assert forall id :: id in found <==> About(t, row, id);
    if found != {} { var id := SomeMember(found); }
  }

  // ---------------------------------------------------------------- one row

  /** Row `id` after its update: number, fields and a known applicant from the scraped row, the rest as it was. */
  predicate UpdatedTo(p: Permit, q: Permit, row: RawRow) {
    && q.source == p.source && q.city == p.city && q.externalId == p.externalId && q.untouched == p.untouched
    && q.officialId == Some(OfficialNumber(row)) && FieldsStored(q.fields, row.fields)
    && q.applicant == if Clean(row.applicant) != "" then Clean(row.applicant) else p.applicant
  }

  /** A new row: known by its whole number, and untouched by every other writer. */
  predicate NewFrom(q: Permit, row: RawRow) {
    && q.source == "surrey" && q.externalId == OfficialNumber(row) && q.officialId == Some(OfficialNumber(row))
    && q.city == (if Clean(row.city) == "" then "Surrey" else Clean(row.city))
    && q.applicant == Clean(row.applicant) && FieldsStored(q.fields, row.fields)
    && q.untouched == Untouched(None, "active", true)
  }

  /** The tables differ in row `id` alone. */
  predicate OnlyAt(t: Table, t': Table, id: int) {
    && (forall j | j in t.rows && j != id :: j in t'.rows && t'.rows[j] == t.rows[j])
    && forall j | j in t'.rows && j != id :: j in t.rows
  }

  predicate UpdatedAt(t: Table, t': Table, row: RawRow, id: int) {
    && id in t.rows && id in t'.rows && OnlyAt(t, t', id) && t'.nextId == t.nextId
    && UpdatedTo(t.rows[id], t'.rows[id], row)
  }

  predicate Added(t: Table, t': Table, row: RawRow) {
    && t.nextId !in t.rows && t.nextId in t'.rows && OnlyAt(t, t', t.nextId) && t'.nextId == t.nextId + 1
    && NewFrom(t'.rows[t.nextId], row)
  }

  lemma UpdateKeeps(t: Table, id: int, row: RawRow, official: Option<string>)
    requires Inv(t) && id in t.rows && t.rows[id].source == SURREY
    requires official.Some? ==> !Bridged(t.rows[id]) && ByOfficial(t, official.value) == {}
    requires official.None? ==> t.rows[id].officialId == Some(OfficialNumber(row)) && OfficialNumber(row) != ""
    requires official.Some? ==> official.value == OfficialNumber(row)
    ensures ApplyUpdate(t, id, row, official).Ok? <==> Short(row, false)
    ensures !Short(row, false) ==> ApplyUpdate(t, id, row, official) == Err(ValueTooLong)
    ensures match ApplyUpdate(t, id, row, official)
      case Err(_) => true
      case Ok(t') => Inv(t') && Evolves(t, t') && UpdatedAt(t, t', row, id)
  {
    hide OfficialNumber, Values, Clean, FieldsStored;
    var p := Revised(t.rows[id], row, official);
    ValuesAreStored(row, Values(row));
    forall j | j in t.rows && j != id
      ensures !Clash(p, t.rows[j]) && !Clash(t.rows[j], p)
    {
      assert !Clash(t.rows[id], t.rows[j]) && !Clash(t.rows[j], t.rows[id]);
      if official.Some? { assert j !in ByOfficial(t, official.value); }
    }
  }

  lemma InsertKeeps(t: Table, row: RawRow)
    requires Inv(t) && OfficialNumber(row) != "" && ByOfficial(t, OfficialNumber(row)) == {}
    ensures InsertNew(t, row).Ok? <==> Short(row, true) && !NumberTaken(t, OfficialNumber(row))
    ensures InsertNew(t, row).Err? ==>
              InsertNew(t, row).error == if Short(row, true) then UniqueViolation else ValueTooLong
    ensures match InsertNew(t, row)
      case Err(_) => true
      case Ok(t') => Inv(t') && Evolves(t, t') && Added(t, t', row)
  {
    hide OfficialNumber, Values, Clean, FieldsStored;
    var number := OfficialNumber(row);
    ValuesAreStored(row, Values(row));
    if !NumberTaken(t, number) {
      forall j | j in t.rows
        ensures !Clash(NewPermit(row), t.rows[j]) && !Clash(t.rows[j], NewPermit(row))
      {
        assert j !in ByOfficial(t, number);
      }
    }
  }

  /** Exactly when importing one row raises, and with what. The ambiguity error and the row-count error cannot
      occur: the unique indexes exclude them. */
  function Failure(t: Table, row: RawRow): Option<ImportError> {
    if OfficialNumber(row) == "" then Some(MissingNumber)
    else if !Short(row, !Matches(t, row)) then Some(ValueTooLong)
    else if !Matches(t, row) && NumberTaken(t, OfficialNumber(row)) then Some(UniqueViolation)
    else None
  }

  /** The tables differ in one row at most, and that row stands as the import wants it. */
  predicate OnlyOneRow(t: Table, t': Table, row: RawRow) {
    exists id | id in t'.rows :: OnlyAt(t, t', id) && SettledAt(t', id, row)
  }

  /** The row the scraped row is about is the one that is updated. */
  predicate Updates(t: Table, t': Table, row: RawRow) {
    exists id | id in t.rows :: About(t, row, id) && UpdatedAt(t, t', row, id)
  }

  /**
   * One row: the error is the one `Failure` names; otherwise the row with the number is updated, or else the legacy row
   * with its prefix, and where the table has neither, a new row is added.
   */
  lemma UpsertOneKeeps(t: Table, row: RawRow)
    requires Inv(t)
    ensures var (kind, r) := UpsertOne(t, row);
            match r
            case Err(e) => Failure(t, row) == Some(e)
            case Ok(t') =>
              && Failure(t, row) == None
              && Inv(t') && Evolves(t, t') && Settled(t', row) && OnlyOneRow(t, t', row)
              && (kind == Updated <==> Matches(t, row))
              && (if Matches(t, row) then Updates(t, t', row) else Added(t, t', row))
              && |t'.rows| == |t.rows| + if kind == Inserted then 1 else 0
  {
    hide OfficialNumber, ByOfficial, Legacy, Inv, Evolves, UpdatedAt, Added, About, ApplyUpdate, InsertNew, Clean,
      Numbered;
    var number := OfficialNumber(row);
    if number != "" {
      OneUnbridged(t, row);
      AboutIs(t, row);
      var r := UpsertOne(t, row).1;
      var found := if ByOfficial(t, number) != {} then ByOfficial(t, number) else Legacy(t, row);
      if found != {} {
        var id := Least(found);
        FoundRow(t, row, id);
        UpdateKeeps(t, id, row, if ByOfficial(t, number) != {} then None else Some(number));
        if r.Ok? { OneRowSettled(t, r.value, id, row); }
      } else {
        InsertKeeps(t, row);
        if r.Ok? { OneRowAdded(t, r.value, row); }
      }
    }
  }

  lemma FoundRow(t: Table, row: RawRow, id: int)
    ensures id in ByOfficial(t, OfficialNumber(row)) ==>
        id in t.rows && t.rows[id].source == SURREY && t.rows[id].officialId == Some(OfficialNumber(row))
    ensures id in Legacy(t, row) ==> id in t.rows && t.rows[id].source == SURREY && !Bridged(t.rows[id])
  {
    hide OfficialNumber;
  }

  lemma OneRowSettled(t: Table, t': Table, id: int, row: RawRow)
    requires UpdatedAt(t, t', row, id) && About(t, row, id)
    ensures OnlyOneRow(t, t', row) && Settled(t', row) && Updates(t, t', row) && |t'.rows| == |t.rows|
  {
    hide OfficialNumber, Clean, FieldsStored, CurrentFormat;
    assert SettledAt(t', id, row);
    assert forall j :: j in t'.rows <==> j in t.rows;
    assert t'.rows.Keys == t.rows.Keys;
    assert |t.rows| == |t.rows.Keys| && |t'.rows| == |t'.rows.Keys|;
  }

  lemma OneRowAdded(t: Table, t': Table, row: RawRow)
    requires Added(t, t', row)
    ensures OnlyOneRow(t, t', row) && Settled(t', row) && |t'.rows| == |t.rows| + 1
  {
    hide OfficialNumber, Clean, FieldsStored;
    assert SettledAt(t', t.nextId, row);
    assert forall j :: j in t'.rows <==> j in t.rows || j == t.nextId;
    assert t'.rows.Keys == t.rows.Keys + {t.nextId};
    assert |t.rows| == |t.rows.Keys| && |t'.rows| == |t'.rows.Keys|;
  }

  /** On any table, indexed or not, two legacy rows with the prefix of an unknown number are refused. */
  lemma AmbiguousIff(t: Table, row: RawRow)
    ensures UpsertOne(t, row).1 == Err(AmbiguousLegacyKey) <==>
        && OfficialNumber(row) != "" && !Numbered(t, row)
        && exists i, j | i in t.rows && j in t.rows :: i != j && About(t, row, i) && About(t, row, j)
  {
    hide OfficialNumber, ByOfficial, Legacy, HasNumber, HasPrefix, Numbered, Rejected, Revised, NewPermit;
    AboutIs(t, row);
    var found := Legacy(t, row);
    if found != {} {
      var i := SomeMember(found);
      var others := found - {i};
      assert |found| == |others| + 1;
      if others != {} {
        var j := SomeMember(others);
        assert Numbered(t, row) || (About(t, row, i) && About(t, row, j));
      } else {
        assert forall j | j in found :: j !in others ==> j == i;
      }
    }
  }

  // ---------------------------------------------------------------- whole batches and runs

  predicate Ran(t: Table, rows: seq<RawRow>) {
    Import(t, rows).result.Ok?
  }

  /** A batch, whether it returns or raises, keeps the invariant and every identity; the table grows by exactly
      the number of inserts counted, and every row is counted once. */
  lemma {:induction false} ImportFromKeeps(t: Table, rows: seq<RawRow>, c: Counts)
    requires Inv(t)
    ensures var p := ImportFrom(t, rows, c);
            && Inv(p.t) && Evolves(t, p.t)
            && (p.result.Ok? ==>
                  && |p.t.rows| == |t.rows| + p.result.value.inserted - c.inserted
                  && p.result.value.updated + p.result.value.inserted == c.updated + c.inserted + |rows|)
            && (p.result.Err? ==> p.result.error !in {AmbiguousLegacyKey, NotExactlyOneRow})
    decreases |rows|
  {
    hide UpsertOne, Inv, Settled, OnlyOneRow, Updates, Added, OfficialNumber, Short;
    if |rows| > 0 {
      UpsertOneKeeps(t, rows[0]);
      var (kind, r) := UpsertOne(t, rows[0]);
      if r.Ok? {
        ImportFromKeeps(r.value, rows[1..], Add(c, kind));
        EvolvesTransitive(t, r.value, ImportFrom(t, rows, c).t);
      }
    }
  }

  /** A run: each batch is committed when it returns and rolled back when it raises. */
  function Run(t: Table, batches: seq<seq<RawRow>>): Table
    decreases |batches|
  {
    if |batches| == 0 then t
    else Run(if Ran(t, batches[0]) then Import(t, batches[0]).t else t, batches[1..])
  }

  lemma {:induction false} RunKeeps(t: Table, batches: seq<seq<RawRow>>)
    requires Inv(t)
    ensures Inv(Run(t, batches)) && Evolves(t, Run(t, batches))
    decreases |batches|
  {
    if |batches| > 0 {
      ImportFromKeeps(t, batches[0], Counts(0, 0));
      var t1 := if Ran(t, batches[0]) then Import(t, batches[0]).t else t;
      RunKeeps(t1, batches[1..]);
      EvolvesTransitive(t, t1, Run(t, batches));
    }
  }

  // ---------------------------------------------------------------- importing the same batch again

  lemma SettledStays(t: Table, t': Table, row: RawRow, other: RawRow)
    requires Inv(t) && Settled(t, row) && OfficialNumber(row) != ""
    requires Evolves(t, t') && OnlyOneRow(t, t', other) && OfficialNumber(row) != OfficialNumber(other)
    ensures Settled(t', row)
  {
    var id :| id in t.rows && SettledAt(t, id, row);
    assert t'.rows[id] == t.rows[id];
    assert SettledAt(t', id, row);
  }

  /** A settled row is found by its official number and rewritten with what it already holds. */
  lemma UpsertSettled(t: Table, row: RawRow)
    requires Inv(t) && Settled(t, row) && OfficialNumber(row) != "" && Short(row, false)
    ensures UpsertOne(t, row) == (Updated, Ok(t))
  {
    hide OfficialNumber, Clean, Values, FieldsStored;
    var number := OfficialNumber(row);
    var id :| id in t.rows && SettledAt(t, id, row);
    assert id in ByOfficial(t, number);
    var found := Least(ByOfficial(t, number));
    assert forall j | j in t.rows && j != id :: !Clash(t.rows[id], t.rows[j]);
    assert found == id;
    UpdateKeeps(t, id, row, None);
    ValuesAreStored(row, t.rows[id].fields);
    assert Revised(t.rows[id], row, None) == t.rows[id];
    assert t.rows[id := Revised(t.rows[id], row, None)] == t.rows;
  }

  predicate DistinctNumbers(rows: seq<RawRow>) {
    forall i, j | 0 <= i < j < |rows| :: OfficialNumber(rows[i]) != OfficialNumber(rows[j])
  }

  /** The table holds a row bridged to the number of every row of the batch. */
  predicate AllBridged(t: Table, rows: seq<RawRow>) {
    forall i | 0 <= i < |rows| :: BridgedTo(t, rows[i])
  }

  predicate BridgedTo(t: Table, row: RawRow) {
    OfficialNumber(row) != "" && Numbered(t, row)
  }

  lemma BridgedStays(t: Table, t': Table, row: RawRow)
    requires BridgedTo(t, row) && Evolves(t, t')
    ensures BridgedTo(t', row)
  {
    hide OfficialNumber;
    var id :| id in t.rows && HasNumber(t.rows[id], OfficialNumber(row));
    assert HasNumber(t'.rows[id], OfficialNumber(row));
  }

  lemma UpsertBridges(t: Table, row: RawRow)
    requires Inv(t) && UpsertOne(t, row).1.Ok?
    ensures Inv(UpsertOne(t, row).1.value) && BridgedTo(UpsertOne(t, row).1.value, row) && Short(row, false)
  {
    hide UpsertOne, Inv, Evolves;
    UpsertOneKeeps(t, row);
    var t1 := UpsertOne(t, row).1.value;
    var id :| id in t1.rows && SettledAt(t1, id, row);
    assert HasNumber(t1.rows[id], OfficialNumber(row));
  }

  lemma {:induction false} ImportBridgesAll(t: Table, rows: seq<RawRow>, c: Counts)
    requires Inv(t) && ImportFrom(t, rows, c).result.Ok?
    ensures AllBridged(ImportFrom(t, rows, c).t, rows)
    ensures forall i | 0 <= i < |rows| :: Short(rows[i], false)
    decreases |rows|
  {
    hide UpsertOne, Inv, BridgedTo, Short, Evolves;
    if |rows| > 0 {
      UpsertBridges(t, rows[0]);
      var (kind, r) := UpsertOne(t, rows[0]);
      var t1 := r.value;
      ImportBridgesAll(t1, rows[1..], Add(c, kind));
      ImportFromKeeps(t1, rows[1..], Add(c, kind));
      BridgedStays(t1, ImportFrom(t, rows, c).t, rows[0]);
      assert forall i | 0 < i < |rows| :: rows[i] == rows[1..][i - 1];
    }
  }

  lemma BridgedRowUpdates(t: Table, row: RawRow)
    requires Inv(t) && BridgedTo(t, row) && Short(row, false)
    ensures var (kind, r) := UpsertOne(t, row); kind == Updated && r.Ok? && Inv(r.value) && Evolves(t, r.value)
  {
    hide UpsertOne, Settled, OnlyOneRow, OfficialNumber, Legacy, Inv, Evolves, HasNumber, HasPrefix, Clean;
    UpsertOneKeeps(t, row);
    var id :| id in t.rows && HasNumber(t.rows[id], OfficialNumber(row));
    assert About(t, row, id);
  }

  lemma {:induction false} BridgedBatchInsertsNothing(t: Table, rows: seq<RawRow>, c: Counts)
    requires Inv(t) && AllBridged(t, rows) && forall i | 0 <= i < |rows| :: Short(rows[i], false)
    ensures ImportFrom(t, rows, c).result == Ok(Counts(c.updated + |rows|, c.inserted))
    decreases |rows|
  {
    hide UpsertOne, Inv, Evolves, BridgedTo, Short;
    if |rows| > 0 {
      BridgedRowUpdates(t, rows[0]);
      var t1 := UpsertOne(t, rows[0]).1.value;
      forall i | 0 <= i < |rows[1..]|
        ensures BridgedTo(t1, rows[1..][i])
      {
        assert BridgedTo(t, rows[i + 1]);
        BridgedStays(t, t1, rows[i + 1]);
      }
      BridgedBatchInsertsNothing(t1, rows[1..], c.(updated := c.updated + 1));
    }
  }

  /** Importing a batch that went through a second time inserts nothing. */
  lemma ReimportInsertsNothing(t: Table, rows: seq<RawRow>)
    requires Inv(t) && Ran(t, rows)
    ensures Import(Import(t, rows).t, rows).result == Ok(Counts(|rows|, 0))
  {
    ImportFromKeeps(t, rows, Counts(0, 0));
    ImportBridgesAll(t, rows, Counts(0, 0));
    BridgedBatchInsertsNothing(Import(t, rows).t, rows, Counts(0, 0));
  }

  predicate AllSettled(t: Table, rows: seq<RawRow>) {
    forall i | 0 <= i < |rows| :: Settled(t, rows[i]) && OfficialNumber(rows[i]) != "" && Short(rows[i], false)
  }

  lemma {:induction false} OthersKeepSettled(t: Table, rows: seq<RawRow>, c: Counts, row: RawRow)
    requires Inv(t) && ImportFrom(t, rows, c).result.Ok? && Settled(t, row) && OfficialNumber(row) != ""
    requires forall i | 0 <= i < |rows| :: OfficialNumber(rows[i]) != OfficialNumber(row)
    ensures Settled(ImportFrom(t, rows, c).t, row)
    decreases |rows|
  {
    hide UpsertOne, Inv, Evolves, Settled, OnlyOneRow, Updates, Added, OfficialNumber, Short;
    if |rows| > 0 {
      UpsertOneKeeps(t, rows[0]);
      var (kind, r) := UpsertOne(t, rows[0]);
      SettledStays(t, r.value, row, rows[0]);
      OthersKeepSettled(r.value, rows[1..], Add(c, kind), row);
    }
  }

  lemma {:induction false} ImportSettlesAll(t: Table, rows: seq<RawRow>, c: Counts)
    requires Inv(t) && DistinctNumbers(rows) && ImportFrom(t, rows, c).result.Ok?
    ensures AllSettled(ImportFrom(t, rows, c).t, rows)
    decreases |rows|
  {
    hide UpsertOne, Inv, Evolves, Settled, OnlyOneRow, Updates, Added, OfficialNumber;
    if |rows| > 0 {
      UpsertOneKeeps(t, rows[0]);
      var (kind, r) := UpsertOne(t, rows[0]);
      ImportSettlesAll(r.value, rows[1..], Add(c, kind));
      OthersKeepSettled(r.value, rows[1..], Add(c, kind), rows[0]);
      var t' := ImportFrom(t, rows, c).t;
      forall i | 0 <= i < |rows|
        ensures Settled(t', rows[i]) && OfficialNumber(rows[i]) != "" && Short(rows[i], false)
      {
        if i > 0 { assert rows[i] == rows[1..][i - 1]; }
      }
    }
  }

  lemma {:induction false} SettledBatchChangesNothing(t: Table, rows: seq<RawRow>, c: Counts)
    requires Inv(t) && AllSettled(t, rows)
    ensures ImportFrom(t, rows, c).t == t
    decreases |rows|
  {
    hide UpsertOne, Settled, Inv, OfficialNumber;
    if |rows| > 0 {
      UpsertSettled(t, rows[0]);
      SettledBatchChangesNothing(t, rows[1..], c.(updated := c.updated + 1));
    }
  }

  /** With distinct official numbers the second import leaves the whole table as the first one left it. */
  lemma ReimportChangesNothing(t: Table, rows: seq<RawRow>)
    requires Inv(t) && Ran(t, rows) && DistinctNumbers(rows)
    ensures Import(Import(t, rows).t, rows).t == Import(t, rows).t
  {
    ImportFromKeeps(t, rows, Counts(0, 0));
    ImportSettlesAll(t, rows, Counts(0, 0));
    SettledBatchChangesNothing(Import(t, rows).t, rows, Counts(0, 0));
  }
}
