/** What every history of multi-city imports keeps. */
module CityPermitLaws {
  import opened Outcomes
  import opened Ordered
  import opened CityPermits

  // ---------------------------------------------------------------- the invariant

  predicate Present(o: Option<string>) {
    o.Some? && o.value != ""
  }

  /** Two rows that may not both be in the table: same key, same official id, or one fingerprint of which at
      least one of the two has no key. */
  predicate Clash(p: Permit, q: Permit) {
    && p.cols.source == q.cols.source
    && (|| (!Blank(p.cols) && p.cols.externalId == q.cols.externalId)
        || (Present(p.officialId) && p.officialId == q.officialId)
        || ((Blank(p.cols) || Blank(q.cols)) && StoredPrint(p.cols) == StoredPrint(q.cols)))
  }

  /** A blank row whose stored fingerprint is the one the importer looks up. */
  predicate Clean(r: Row) {
    Blank(r) ==> Usable(StoredPrint(r)) && StoredPrint(r) == PrintOf(r, r.source)
  }

  predicate Inv(t: Table) {
    && (forall id | id in t.rows :: id < t.nextId && Clean(t.rows[id].cols))
    && forall i, j | i in t.rows && j in t.rows && i != j :: !Clash(t.rows[i], t.rows[j])
  }

  /** A row that any batch for `source` may carry: tagged with the source, and without padding if it has no key. */
  predicate Safe(r: Row, source: string) {
    r.source == source && Clean(r)
  }

  /** Identity over time: ids are never reused, a row keeps its source, its official id and its lifecycle for as
      long as it survives, a keyed row survives with its key, and new rows start without official id. */
  predicate Evolves(t: Table, t': Table) {
    && t.nextId <= t'.nextId
    && (forall id | id in t.rows :: !Blank(t.rows[id].cols) ==> id in t'.rows)
    && (forall id | id in t'.rows ::
          if id in t.rows then SameIdentity(t.rows[id], t'.rows[id]) else t.nextId <= id && Newborn(t'.rows[id]))
  }

  predicate SameIdentity(p: Permit, q: Permit) {
    && p.officialId == q.officialId && p.lifecycle == q.lifecycle && p.cols.source == q.cols.source
    && (!Blank(p.cols) ==> p.cols.externalId == q.cols.externalId)
  }

  predicate Newborn(p: Permit) {
    p.officialId == None && p.lifecycle == NEW_LIFECYCLE
  }

  lemma EvolvesTransitive(t: Table, t': Table, t'': Table)
    requires Inv(t) && Evolves(t, t') && Evolves(t', t'')
    ensures Evolves(t, t'')
  {
  }

  // ---------------------------------------------------------------- single rows

  lemma StoreKeeps(t: Table, id: int, p: Permit, nextId: int)
    requires Inv(t) && Clean(p.cols) && t.nextId <= nextId && id < nextId
    requires forall j | j in t.rows && j != id :: !Clash(p, t.rows[j])
    ensures !Rejected(t, id, p) && Inv(Table(t.rows[id := p], nextId))
  {
  }

  lemma DeleteKeeps(t: Table, id: int)
    requires Inv(t)
    ensures Inv(Delete(t, id))
  {
  }

  /** Under the invariant `LIMIT 1` has nothing to choose from. */
  lemma OneBlankPerPrint(t: Table, f: Fingerprint, id: int)
    requires Inv(t) && id in IdsBy(t, f, true)
    ensures IdsBy(t, f, true) == {id} && IdsBy(t, f, false) == {}
  {
    assert forall j :: j in IdsBy(t, f, true) <==> j in {id};
    assert forall j | j in t.rows :: StoredPrint(t.rows[j].cols) == f ==> j == id || !Clash(t.rows[id], t.rows[j]);
    assert forall j :: j !in IdsBy(t, f, false);
  }

  lemma OnePerKey(t: Table, source: string, externalId: string, id: int)
    requires Inv(t) && externalId != "" && id in IdsByKey(t, source, externalId)
    ensures IdsByKey(t, source, externalId) == {id}
  {
    assert forall j :: j in IdsByKey(t, source, externalId) <==> j in {id};
  }

  predicate Has(t: Table, r: Row) {
    exists id | id in t.rows :: t.rows[id].cols == r
  }

  predicate KeyedPrint(t: Table, f: Fingerprint) {
    exists id | id in t.rows :: !Blank(t.rows[id].cols) && StoredPrint(t.rows[id].cols) == f
  }

  /** The stored row `x` gives way to the incoming `r`: it is keyed and has the key of `r`, or it is blank and
      has the fingerprint of `r`. */
  predicate GivesWay(x: Row, r: Row) {
    if Blank(x) then StoredPrint(x) == PrintOf(r, r.source) else KeyOf(x) == KeyOf(r)
  }

  /** `r` is stored in place of the rows that give way to it, and no other row changes. */
  predicate Supersedes(t: Table, t': Table, r: Row) {
    && Has(t', r)
    && (forall id | id in t.rows :: GivesWay(t.rows[id].cols, r) || (id in t'.rows && t'.rows[id] == t.rows[id]))
    && (forall id | id in t'.rows ::
          t'.rows[id].cols == r || (id in t.rows && t'.rows[id] == t.rows[id] && !GivesWay(t.rows[id].cols, r)))
  }

  lemma SupersedesHas(t: Table, t': Table, r: Row, x: Row)
    requires Supersedes(t, t', r)
    ensures Has(t', x) <==> x == r || (Has(t, x) && !GivesWay(x, r))
  {
  }

  lemma KeyedPrintIsIdsBy(t: Table, f: Fingerprint)
    ensures KeyedPrint(t, f) <==> IdsBy(t, f, false) != {}
  {
    if IdsBy(t, f, false) != {} { var id := SomeMember(IdsBy(t, f, false)); }
    if KeyedPrint(t, f) {
      var id :| id in t.rows && !Blank(t.rows[id].cols) && StoredPrint(t.rows[id].cols) == f;
      assert id in IdsBy(t, f, false);
    }
  }

  /** A blank row is stored in place of its predecessor, unless a keyed row has its fingerprint already. */
  lemma UpsertBlankKeeps(t: Table, r: Row, source: string)
    requires Inv(t) && Blank(r) && Safe(r, source)
    ensures UpsertBlank(t, r, source).Some?
    ensures var (t', ok) := UpsertBlank(t, r, source).value;
            && Inv(t') && Evolves(t, t')
            && (ok <==> !KeyedPrint(t, StoredPrint(r)))
            && (if ok then Supersedes(t, t', r) else t' == t)
  {
    var f := PrintOf(r, source);
    KeyedPrintIsIdsBy(t, f);
    if IdsBy(t, f, false) == {} {
      if IdsBy(t, f, true) != {} {
        UpdateBlank(t, r, f, Least(IdsBy(t, f, true)));
      } else {
        InsertBlank(t, r, f);
      }
    }
  }

  lemma UpdateBlank(t: Table, r: Row, f: Fingerprint, id: int)
    requires Inv(t) && Blank(r) && Clean(r) && StoredPrint(r) == f && id in IdsBy(t, f, true)
    ensures Update(t, id, r).Some?
    ensures var t' := Update(t, id, r).value; Inv(t') && Evolves(t, t') && Supersedes(t, t', r)
  {
    OneBlankPerPrint(t, f, id);
    NoClashByPrint(t, id, t.rows[id].(cols := r), f);
    StoreKeeps(t, id, t.rows[id].(cols := r), t.nextId);
    assert Update(t, id, r).value.rows[id].cols == r;
    assert forall j | j in t.rows && j != id :: j !in IdsBy(t, f, true);
  }

  lemma InsertBlank(t: Table, r: Row, f: Fingerprint)
    requires Inv(t) && Blank(r) && Clean(r) && StoredPrint(r) == f
    requires IdsBy(t, f, true) == {} && IdsBy(t, f, false) == {}
    ensures Insert(t, r).Some?
    ensures var t' := Insert(t, r).value; Inv(t') && Evolves(t, t') && Supersedes(t, t', r)
  {
    NoClashByPrint(t, t.nextId, Permit(r, None, NEW_LIFECYCLE), f);
    StoreKeeps(t, t.nextId, Permit(r, None, NEW_LIFECYCLE), t.nextId + 1);
    assert Insert(t, r).value.rows[t.nextId].cols == r;
    assert forall j | j in t.rows :: j !in IdsBy(t, f, true);
  }

  /** A blank row may stand at `id` when nobody else has its fingerprint. */
  lemma NoClashByPrint(t: Table, id: int, p: Permit, f: Fingerprint)
    requires Inv(t) && Blank(p.cols) && StoredPrint(p.cols) == f
    requires IdsBy(t, f, false) == {} && IdsBy(t, f, true) <= {id}
    requires if id in t.rows then SameIdentity(t.rows[id], p) else p.officialId == None
    ensures forall j | j in t.rows && j != id :: !Clash(p, t.rows[j])
  {
    forall j | j in t.rows && j != id
      ensures !Clash(p, t.rows[j])
    {
      assert j !in IdsBy(t, f, false) && j !in IdsBy(t, f, true);
      if id in t.rows { assert !Clash(t.rows[id], t.rows[j]); }
    }
  }

  /** No blank row gives way to `r`. */
  predicate Free(t: Table, r: Row) {
    forall id | id in t.rows && Blank(t.rows[id].cols) :: !GivesWay(t.rows[id].cols, r)
  }

  predicate Unheld(t: Table, r: Row) {
    IdsByKey(t, r.source, r.externalId) == {}
  }

  /** A blank row with the stored text of `r` is one that gives way to `r`: stored blank text is never padded. */
  lemma BlankTwinGivesWay(x: Row, r: Row)
    requires Blank(x) && Clean(x) && StoredPrint(x) == StoredPrint(r)
    ensures GivesWay(x, r)
  {
  }

  lemma PromoteKeeps(t: Table, r: Row, source: string)
    requires Inv(t) && !Blank(r) && r.source == source
    ensures Promote(t, r, source).Some?
    ensures var (t', ok) := Promote(t, r, source).value;
            && Inv(t') && Evolves(t, t')
            && (if ok then Supersedes(t, t', r) else t' == t && Free(t, r))
  {
    var f := PrintOf(r, source);
    if !Usable(f) || IdsBy(t, f, true) == {} {
      forall id | id in t.rows && Blank(t.rows[id].cols)
        ensures !GivesWay(t.rows[id].cols, r)
      {
        assert id !in IdsBy(t, f, true) || !Usable(f);
      }
    } else {
      var b := Least(IdsBy(t, f, true));
      OneBlankPerPrint(t, f, b);
      var keyed := IdsByKey(t, source, r.externalId);
      if keyed != {} {
        PromoteOntoKeyed(t, r, b, Least(keyed));
      } else {
        PromoteBlank(t, r, b);
      }
    }
  }

  lemma PromoteOntoKeyed(t: Table, r: Row, b: int, k: int)
    requires Inv(t) && !Blank(r) && k in IdsByKey(t, r.source, r.externalId)
    requires IdsBy(t, PrintOf(r, r.source), true) == {b}
    ensures Update(t, k, r).Some?
    ensures var t' := Delete(Update(t, k, r).value, b); Inv(t') && Evolves(t, t') && Supersedes(t, t', r)
  {
    hide Inv, Clash, Evolves, GivesWay, Rejected, IdsBy, IdsByKey, SameIdentity, Newborn;
    BothGiveWay(t, r, b, k);
    var p := t.rows[k].(cols := r);
    forall j | j in t.rows && j != k && j != b
      ensures !Clash(p, t.rows[j]) && !GivesWay(t.rows[j].cols, r)
    {
      OthersStand(t, r, b, k, j);
    }
    PromotedFits(t, r, k);
    var d := Delete(t, b);
    DeleteKeeps(t, b);
    StoreKeeps(d, k, p, t.nextId);
    var t' := Delete(Update(t, k, r).value, b);
    assert t'.rows == d.rows[k := p] by {
      assert forall id | id in t'.rows :: t'.rows[id] == d.rows[k := p][id];
    }
    assert t' == Table(d.rows[k := p], t.nextId) && t'.rows[k].cols == r;
    OnlyKeyedAndBlank(t, t', r, b, k);
  }

  lemma OthersStand(t: Table, r: Row, b: int, k: int, j: int)
    requires Inv(t) && !Blank(r) && k in IdsByKey(t, r.source, r.externalId)
    requires IdsBy(t, PrintOf(r, r.source), true) == {b} && j in t.rows && j != k && j != b
    ensures !Clash(t.rows[k].(cols := r), t.rows[j]) && !GivesWay(t.rows[j].cols, r)
  {
    OnePerKey(t, r.source, r.externalId, k);
    assert !Clash(t.rows[k], t.rows[j]);
    assert j !in IdsBy(t, PrintOf(r, r.source), true);
    assert j !in IdsByKey(t, r.source, r.externalId);
  }

  lemma PromotedFits(t: Table, r: Row, k: int)
    requires Inv(t) && !Blank(r) && k in IdsByKey(t, r.source, r.externalId)
    ensures !Rejected(t, k, t.rows[k].(cols := r)) && k < t.nextId
  {
    assert forall j | j in t.rows && j != k :: !Clash(t.rows[k], t.rows[j]);
  }

  lemma BothGiveWay(t: Table, r: Row, b: int, k: int)
    requires !Blank(r) && k in IdsByKey(t, r.source, r.externalId) && IdsBy(t, PrintOf(r, r.source), true) == {b}
    ensures b in t.rows && k in t.rows && b != k && GivesWay(t.rows[b].cols, r) && GivesWay(t.rows[k].cols, r)
    ensures Blank(t.rows[b].cols) && !Blank(t.rows[k].cols) && t.rows[k].cols.source == r.source
    ensures t.rows[k].cols.externalId == r.externalId && Clean(r)
  {
    assert b in IdsBy(t, PrintOf(r, r.source), true);
  }

  lemma OnlyKeyedAndBlank(t: Table, t': Table, r: Row, b: int, k: int)
    requires b in t.rows && k in t.rows && b != k && Blank(t.rows[b].cols) && !Blank(t.rows[k].cols)
    requires t.rows[k].cols.source == r.source && t.rows[k].cols.externalId == r.externalId
    requires t' == Table((t.rows - {b})[k := t.rows[k].(cols := r)], t.nextId)
    ensures Evolves(t, t')
  {
  }

  lemma PromoteBlank(t: Table, r: Row, b: int)
    requires Inv(t) && !Blank(r) && IdsByKey(t, r.source, r.externalId) == {}
    requires IdsBy(t, PrintOf(r, r.source), true) == {b}
    ensures Update(t, b, r).Some?
    ensures var t' := Update(t, b, r).value; Inv(t') && Evolves(t, t') && Supersedes(t, t', r)
  {
    assert b in IdsBy(t, PrintOf(r, r.source), true);
    var p := t.rows[b].(cols := r);
    forall j | j in t.rows && j != b
      ensures !Clash(p, t.rows[j]) && !GivesWay(t.rows[j].cols, r)
    {
      assert !Clash(t.rows[b], t.rows[j]);
      assert j !in IdsBy(t, PrintOf(r, r.source), true) && j !in IdsByKey(t, r.source, r.externalId);
    }
    StoreKeeps(t, b, p, t.nextId);
    assert Update(t, b, r).value.rows[b].cols == r;
  }

  lemma UpsertKeyedKeeps(t: Table, r: Row, refresh: bool)
    requires Inv(t) && !Blank(r) && Free(t, r) && (refresh ==> Unheld(t, r))
    ensures UpsertKeyed(t, r, refresh).Some?
    ensures var t' := UpsertKeyed(t, r, refresh).value;
            Inv(t') && Evolves(t, t') && Supersedes(t, t', r)
  {
    var held := IdsByKey(t, r.source, r.externalId);
    if held == {} {
      var p := Permit(r, None, NEW_LIFECYCLE);
      forall j | j in t.rows
        ensures !Clash(p, t.rows[j]) && !GivesWay(t.rows[j].cols, r)
      {
        assert j !in held;
        if Blank(t.rows[j].cols) && StoredPrint(t.rows[j].cols) == StoredPrint(r) {
          BlankTwinGivesWay(t.rows[j].cols, r);
        }
      }
      StoreKeeps(t, t.nextId, p, t.nextId + 1);
      assert UpsertKeyed(t, r, refresh).value.rows[t.nextId].cols == r;
    } else {
      UpdateKeyed(t, r, Least(held));
    }
  }

  lemma UpdateKeyed(t: Table, r: Row, k: int)
    requires Inv(t) && !Blank(r) && Free(t, r) && k in IdsByKey(t, r.source, r.externalId)
    ensures Update(t, k, r).Some?
    ensures var t' := Update(t, k, r).value; Inv(t') && Evolves(t, t') && Supersedes(t, t', r)
  {
    var p := t.rows[k].(cols := r);
    OnePerKey(t, r.source, r.externalId, k);
    forall j | j in t.rows && j != k
      ensures !Clash(p, t.rows[j]) && !GivesWay(t.rows[j].cols, r)
    {
      assert !Clash(t.rows[k], t.rows[j]) && j !in IdsByKey(t, r.source, r.externalId);
      if Blank(t.rows[j].cols) && StoredPrint(t.rows[j].cols) == StoredPrint(r) {
        BlankTwinGivesWay(t.rows[j].cols, r);
      }
    }
    StoreKeeps(t, k, p, t.nextId);
    assert Update(t, k, r).value.rows[k].cols == r;
  }
}
