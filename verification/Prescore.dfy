/** Bulk pre-scoring of the construction companies that have no match rows, batch after batch. */
module Prescore {
  import opened Outcomes
  import opened Ordered
  import opened ScorePairs

  const KIND := "construction"
  const MARKER := Candidate("federal", 0)

  /** One run: the fixed company table, the rule scan cut to the pair limit, the scorers and the clock. */
  datatype Env = Env(companies: set<int>, scan: int -> seq<Candidate>, score: int -> Scorer, now: int, maxAge: int)

  predicate HasMatches(m: Matches, c: int) {
    exists k | k in m :: k.kind == KIND && k.company == c
  }

  function Pending(m: Matches, env: Env): set<int> {
    set c | c in env.companies && !HasMatches(m, c)
  }

  function CallFor(env: Env, c: int): Call {
    Call(KIND, c, env.score(c), true, None, env.now)
  }

  function MarkerRow(now: int): MatchRow {
    MatchRow(0, "bulk_prescore:no_matches_persisted", "{\"marker\": true}", now)
  }

  /** `_ensure_prescore_marker`. */
  function WithMarker(m: Matches, c: int, now: int): Matches {
    if HasMatches(m, c) then m else m[RowKey(KIND, c, MARKER) := MarkerRow(now)]
  }

  function Warmed(m: Matches, c: int, env: Env): Matches {
    ScoreAll(m, env.scan(c), CallFor(env, c), LoadFresh(m, KIND, c, env.now - env.maxAge)).matches
  }

  function PrescoreOne(m: Matches, c: int, env: Env): Matches {
    if c !in env.companies then m
    else WithMarker(if |env.scan(c)| == 0 then m else Warmed(m, c, env), c, env.now)
  }

  function PrescoreAll(m: Matches, q: seq<int>, env: Env): Matches {
    if |q| == 0 then m else PrescoreOne(PrescoreAll(m, q[..|q| - 1], env), q[|q| - 1], env)
  }

  // ---------------------------------------------------------------- what one company leaves

  /** Only the company's own rows change. */
  lemma PrescoreTouchesOne(m: Matches, c: int, env: Env, k: MatchKey)
    requires k.kind != KIND || k.company != c
    ensures k in PrescoreOne(m, c, env) <==> k in m
    ensures k in m ==> PrescoreOne(m, c, env)[k] == m[k]
  {
    hide ScoreAll, LoadFresh, HasMatches;
    OthersUntouched(m, env.scan(c), CallFor(env, c), LoadFresh(m, KIND, c, env.now - env.maxAge), k);
  }

  lemma MatchesOfAnother(m: Matches, c: int, env: Env, d: int)
    requires d != c
    ensures HasMatches(PrescoreOne(m, c, env), d) <==> HasMatches(m, d)
  {
    hide PrescoreOne;
    var m1 := PrescoreOne(m, c, env);
    if HasMatches(m, d) {
      var k :| k in m && k.kind == KIND && k.company == d;
      PrescoreTouchesOne(m, c, env, k);
    }
    if HasMatches(m1, d) {
      var k :| k in m1 && k.kind == KIND && k.company == d;
      PrescoreTouchesOne(m, c, env, k);
    }
  }

  /** A processed company is no longer pending, whether or not any pair could be scored. */
  lemma NoLongerPending(m: Matches, c: int, env: Env)
    requires c in env.companies
    ensures HasMatches(PrescoreOne(m, c, env), c)
  {
    hide Warmed;
    var m0 := if |env.scan(c)| == 0 then m else Warmed(m, c, env);
    if !HasMatches(m0, c) {
      var k := RowKey(KIND, c, MARKER);
      assert k in PrescoreOne(m, c, env) && k.kind == KIND && k.company == c;
    }
  }

  lemma PendingFalls(m: Matches, c: int, env: Env)
    requires c in env.companies
    ensures Pending(PrescoreOne(m, c, env), env) == Pending(m, env) - {c}
  {
    hide PrescoreOne, HasMatches;
    NoLongerPending(m, c, env);
    forall d | d in env.companies && d != c
      ensures HasMatches(PrescoreOne(m, c, env), d) <==> HasMatches(m, d)
    {
      MatchesOfAnother(m, c, env, d);
    }
    assert forall d :: d in Pending(PrescoreOne(m, c, env), env) <==> d in Pending(m, env) - {c};
  }

  function Members(q: seq<int>): set<int> {
    set c | c in q
  }

  lemma MembersOfSnoc(init: seq<int>, last: int)
    ensures Members(init + [last]) == Members(init) + {last}
  {
    forall c
      ensures c in Members(init + [last]) <==> c in Members(init) + {last}
    {
    }
  }

  lemma {:induction false} PendingAfter(m: Matches, q: seq<int>, env: Env)
    requires forall c | c in q :: c in env.companies
    ensures Pending(PrescoreAll(m, q, env), env) == Pending(m, env) - Members(q)
  {
    hide Pending, PrescoreOne;
    if |q| == 0 {
      NoMember(Members(q));
    } else {
      var init, last := q[..|q| - 1], q[|q| - 1];
      assert q == init + [last];
      PendingAfter(m, init, env);
      PendingFalls(PrescoreAll(m, init, env), last, env);
      MembersOfSnoc(init, last);
    }
  }

  // ---------------------------------------------------------------- the whole table afterwards

  /** Scoring a company that has no rows stores exactly the rows of the candidates that can be scored. */
  lemma {:induction false} StoredIff(m: Matches, cs: seq<Candidate>, call: Call, d: Candidate)
    requires call.persist && call.cap.None? && RowKey(call.kind, call.company, d) !in m
    ensures var r := ScoreAll(m, cs, call, map[]).matches;
            var k := RowKey(call.kind, call.company, d);
            && (k in r <==> d in cs && call.score(d).Some?)
            && (k in r ==> IsRowOf(r[k], call.score(d).value, call.now))
  {
    if |cs| > 0 {
      assert cs == cs[..|cs| - 1] + [cs[|cs| - 1]];
      StoredIff(m, cs[..|cs| - 1], call, d);
    }
  }

  lemma NothingCached(m: Matches, c: int, cutoff: int)
    requires !HasMatches(m, c)
    ensures LoadFresh(m, KIND, c, cutoff) == map[]
  {
    hide LoadFresh;
    assert forall d :: d !in LoadFresh(m, KIND, c, cutoff);
  }

  predicate NoneScored(c: int, env: Env) {
    forall d | d in env.scan(c) :: env.score(c)(d).None?
  }

  /** The row that says a company was looked at and nothing could be scored. */
  predicate IsMarkerRow(row: MatchRow, now: int) {
    && row.score == 0 && row.createdAt == now && row.breakdown == "{\"marker\": true}"
    && row.reasoning == "bulk_prescore:no_matches_persisted"
  }

  /** The row a prescored company ends with for one tender: its score, or the marker when no pair could be scored. */
  predicate RowOfPrescored(m: Matches, c: int, env: Env, d: Candidate) {
    var k := MatchKey("construction", c, d.source, d.tender);
    if d in env.scan(c) && env.score(c)(d).Some? then k in m && IsRowOf(m[k], env.score(c)(d).value, env.now)
    else if d == Candidate("federal", 0) && NoneScored(c, env) then k in m && IsMarkerRow(m[k], env.now)
    else k !in m
  }

  lemma WarmedHasMatchesIff(m: Matches, c: int, env: Env)
    requires c in env.companies && !HasMatches(m, c)
    ensures HasMatches(Warmed(m, c, env), c) <==> !NoneScored(c, env)
  {
    hide ScoreAll, LoadFresh;
    NothingCached(m, c, env.now - env.maxAge);
    var m1 := Warmed(m, c, env);
    if HasMatches(m1, c) {
      var k :| k in m1 && k.kind == KIND && k.company == c;
      assert k == RowKey(KIND, c, Candidate(k.source, k.tender));
      StoredIff(m, env.scan(c), CallFor(env, c), Candidate(k.source, k.tender));
    }
    if !NoneScored(c, env) {
      var d :| d in env.scan(c) && env.score(c)(d).Some?;
      StoredIff(m, env.scan(c), CallFor(env, c), d);
      assert RowKey(KIND, c, d) in m1;
    }
  }

  lemma PrescoreOneRow(m: Matches, c: int, env: Env, d: Candidate)
    requires c in env.companies && !HasMatches(m, c)
    ensures RowOfPrescored(PrescoreOne(m, c, env), c, env, d)
  {
    hide LoadFresh, HasMatches;
    NoRowFor(m, c, d);
    NothingCached(m, c, env.now - env.maxAge);
    StoredIff(m, env.scan(c), CallFor(env, c), d);
    WarmedHasMatchesIff(m, c, env);
  }

  lemma NoRowFor(m: Matches, c: int, d: Candidate)
    requires !HasMatches(m, c)
    ensures RowKey(KIND, c, d) !in m
  {
  }

  /** Every company of a run ends with the rows that prescoring it alone gives, in whatever order the run went. */
  lemma {:induction false} RunRow(m: Matches, q: seq<int>, env: Env, c: int, d: Candidate)
    requires Distinct(q) && c in q && forall x | x in q :: x in Pending(m, env)
    ensures RowOfPrescored(PrescoreAll(m, q, env), c, env, d)
  {
    hide PrescoreOne, HasMatches;
    var init, last := q[..|q| - 1], q[|q| - 1];
    assert q == init + [last];
    assert forall x | x in init :: x in q;
    if c == last {
      assert c !in init;
      PendingAfter(m, init, env);
      assert c in Pending(PrescoreAll(m, init, env), env);
      PrescoreOneRow(PrescoreAll(m, init, env), c, env, d);
    } else {
      RunRow(m, init, env, c, d);
      PrescoreTouchesOne(PrescoreAll(m, init, env), last, env, RowKey(KIND, c, d));
    }
  }

  /** And no other row changes. */
  lemma {:induction false} RunTouchesOnly(m: Matches, q: seq<int>, env: Env, k: MatchKey)
    requires k.kind != KIND || k.company !in q
    ensures k in PrescoreAll(m, q, env) <==> k in m
    ensures k in m ==> PrescoreAll(m, q, env)[k] == m[k]
  {
    hide PrescoreOne;
    if |q| > 0 {
      var init, last := q[..|q| - 1], q[|q| - 1];
      assert q == init + [last];
      RunTouchesOnly(m, init, env, k);
      PrescoreTouchesOne(PrescoreAll(m, init, env), last, env, k);
    }
  }

  // ---------------------------------------------------------------- the batch loop

  datatype Tally = Tally(processed: nat, scored: nat, skipped: nat, sent: nat)

  datatype Totals = Totals(pendingBefore: nat, pendingAfter: nat, batches: nat, tally: Tally)

  /** `_merge_company_stats` for a company with `n` candidates. */
  function Tallied(t: Tally, n: nat): Tally {
    Tally(t.processed + 1, t.scored + (if n > 0 then 1 else 0), t.skipped + (if n > 0 then 0 else 1), t.sent + n)
  }

  function TallyOf(q: seq<int>, env: Env): Tally {
    if |q| == 0 then Tally(0, 0, 0, 0) else Tallied(TallyOf(q[..|q| - 1], env), |env.scan(q[|q| - 1])|)
  }

  function WithCandidates(q: seq<int>, env: Env): set<int> {
    set i | 0 <= i < |q| && |env.scan(q[i])| > 0
  }

  /** Companies with rule candidates count as scored, all others as skipped. */
  lemma {:induction false} TallyMeans(q: seq<int>, env: Env)
    ensures var t := TallyOf(q, env);
            t.processed == |q| && t.scored == |WithCandidates(q, env)| && t.scored + t.skipped == |q|
  {
    if |q| == 0 {
      NoMember(WithCandidates(q, env));
    } else {
      var init, n := q[..|q| - 1], |q| - 1;
      TallyMeans(init, env);
      OneMoreIndex(WithCandidates(q, env), WithCandidates(init, env), n, |env.scan(q[n])| > 0);
    }
  }

  function AtLeastOne(n: int): nat {
    if n > 1 then n else 1
  }

  function Min(a: nat, b: nat): nat {
    if a < b then a else b
  }

  /** Companies a run reaches: all of them, unless the batch cap stops it. */
  function Reach(pending: nat, batchSize: int, maxBatches: Option<int>): nat {
    if maxBatches.None? then pending
    else if maxBatches.value <= 0 then 0
    else Covered(pending, maxBatches.value, AtLeastOne(batchSize))
  }

  /**
   * How far a run comes: through everything pending, or as many batches as the cap allows, a cap of zero or less being
   * none; a batch has one company at least, and all batches but the last are full.
   */
  predicate Extent(pending: nat, batchSize: int, maxBatches: Option<int>, n: nat, batches: nat) {
    var size := if batchSize < 1 then 1 else batchSize;
    && n <= pending && n <= batches * size && (batches > 0 ==> (batches - 1) * size < n)
    && (n < pending ==>
          && maxBatches.Some? && n == batches * size
          && batches == if maxBatches.value < 0 then 0 else maxBatches.value)
  }

  lemma MoreBatches(a: nat, b: nat, size: nat)
    requires a <= b
    ensures a * size <= b * size
  {
  }

  lemma SameBatches(batches: nat, cap: nat, size: nat, n: nat)
    requires n == cap * size && n <= batches * size && (batches > 0 ==> (batches - 1) * size < n) && size > 0
    ensures batches == cap
  {
    assert cap > 0 ==> (cap - 1) * size + size == cap * size;
    if batches < cap {
      MoreBatches(batches, cap - 1, size);
    } else if cap < batches {
      MoreBatches(cap, batches - 1, size);
    }
  }

  lemma ExtentIs(pending: nat, batchSize: int, maxBatches: Option<int>, n: nat, batches: nat)
    requires n == Reach(pending, batchSize, maxBatches) && BatchCount(batches, AtLeastOne(batchSize), n)
    ensures Extent(pending, batchSize, maxBatches, n, batches)
  {
    var size := AtLeastOne(batchSize);
    assert size == if batchSize < 1 then 1 else batchSize;
    if n < pending {
      SameBatches(batches, if maxBatches.value < 0 then 0 else maxBatches.value, size, n);
    }
  }

  /** `batches` is `n / size`, rounded up. */
  predicate BatchCount(batches: nat, size: nat, n: nat) {
    n <= batches * size && (batches > 0 ==> (batches - 1) * size < n)
  }

  function Covered(pending: nat, batches: nat, size: nat): nat {
    Min(pending, batches * size)
  }

  lemma CoveredStep(pending: nat, batches: nat, size: nat)
    ensures var n := Covered(pending, batches, size);
            Covered(pending, batches + 1, size) == n + Min(size, pending - n)
    ensures var n := Covered(pending, batches, size);
            n < pending && size > 0 ==> BatchCount(batches + 1, size, Covered(pending, batches + 1, size))
  {
    assert (batches + 1) * size == batches * size + size;
  }

  /** What is pending after the first `n` of the list are done is the rest of the list. */
  lemma PendingSuffix(m: Matches, env: Env, n: nat)
    requires n <= |Pending(m, env)|
    ensures Ascending(Pending(PrescoreAll(m, Ascending(Pending(m, env))[..n], env), env)) ==
        Ascending(Pending(m, env))[n..]
  {
    hide Pending, PrescoreAll;
    var q := Ascending(Pending(m, env));
    forall c | c in q[..n]
      ensures c in env.companies
    {
      assert c in q;
      IsCompany(m, env, c);
    }
    PendingAfter(m, q[..n], env);
    SuffixMembers(q, n);
    AscendingUnique(Ascending(Pending(PrescoreAll(m, q[..n], env), env)), q[n..]);
  }

  lemma IsCompany(m: Matches, env: Env, c: int)
    requires c in Pending(m, env)
    ensures c in env.companies
  {
  }

  lemma SuffixMembers(q: seq<int>, n: nat)
    requires StrictlyAscending(q) && n <= |q|
    ensures StrictlyAscending(q[n..]) && Distinct(q)
    ensures forall x :: x in q[n..] <==> x in q && x !in q[..n]
  {
    assert q == q[..n] + q[n..];
    forall x | x in q[n..]
      ensures x !in q[..n]
    {
      NotBefore(q, n, x);
    }
  }

  lemma NotBefore(q: seq<int>, n: nat, x: int)
    requires StrictlyAscending(q) && n <= |q| && x in q[n..]
    ensures x !in q[..n]
  {
    var j :| 0 <= j < |q| - n && q[n..][j] == x;
    assert forall i | 0 <= i < n :: q[..n][i] < q[n + j];
  }

  lemma BatchOf(m: Matches, env: Env, n: nat, k: nat)
    requires n + k <= |Pending(m, env)|
    ensures var q := Ascending(Pending(m, env));
            && q[..n] + q[n..][..k] == q[..n + k]
            && forall c | c in q[n..][..k] :: c in env.companies
  {
    hide Pending;
    var q := Ascending(Pending(m, env));
    assert q[..n] + q[n..][..k] == q[..n + k];
    forall c | c in q[n..][..k]
      ensures c in env.companies
    {
      assert c in q;
      IsCompany(m, env, c);
    }
  }

  lemma CapNotReached(pending: nat, batches: nat, size: nat, maxBatches: Option<int>)
    requires pending == Covered(pending, batches, size)
    requires maxBatches.Some? ==> batches < maxBatches.value
    ensures maxBatches.Some? ==> Covered(pending, maxBatches.value, size) == pending
  {
    if maxBatches.Some? { assert batches * size <= maxBatches.value * size; }
  }

  /** Where a run stands between two batches. */
  ghost predicate Standing(m: Matches, env: Env, start: Matches, processed: seq<int>, totals: Totals, size: nat) {
    var todo := Ascending(Pending(start, env));
    && |processed| <= |todo| && processed == todo[..|processed|]
    && m == PrescoreAll(start, processed, env)
    && totals.pendingBefore == |todo| && totals.pendingAfter == |todo| - |processed|
    && totals.tally == TallyOf(processed, env)
    && |processed| == Covered(|todo|, totals.batches, size)
    && BatchCount(totals.batches, size, |processed|)
  }

  /** What a run that reached `n` companies has done. */
  ghost predicate Finished(m: Matches, env: Env, start: Matches, processed: seq<int>, totals: Totals, n: nat) {
    var todo := Ascending(Pending(start, env));
    && n <= |todo| && processed == todo[..n]
    && m == PrescoreAll(start, processed, env)
    && totals.pendingBefore == |todo|
    && totals.pendingAfter == |Pending(m, env)| == |todo| - n
    && totals.tally == TallyOf(processed, env)
  }

  lemma StandingAtStart(m: Matches, env: Env, size: nat)
    ensures Standing(m, env, m, [], Totals(|Pending(m, env)|, |Pending(m, env)|, 0, Tally(0, 0, 0, 0)), size)
  {
    hide Pending, Ascending;
    assert Ascending(Pending(m, env))[..0] == [];
    assert Covered(|Pending(m, env)|, 0, size) == 0 && BatchCount(0, size, 0);
    hide Covered, BatchCount;
  }

  lemma StandingCovers(m: Matches, env: Env, start: Matches, processed: seq<int>, totals: Totals, size: nat)
    requires Standing(m, env, start, processed, totals, size)
    ensures |processed| == Covered(|Pending(start, env)|, totals.batches, size) <= |Pending(start, env)|
    ensures BatchCount(totals.batches, size, |processed|)
  {
    hide Pending;
  }

  lemma StandingHas(m: Matches, env: Env, start: Matches, processed: seq<int>, totals: Totals, size: nat)
    requires Standing(m, env, start, processed, totals, size)
    ensures |processed| <= |Pending(start, env)| && processed == Ascending(Pending(start, env))[..|processed|]
    ensures m == PrescoreAll(start, processed, env) && totals.tally == TallyOf(processed, env)
    ensures Ascending(Pending(m, env)) == Ascending(Pending(start, env))[|processed|..]
  {
    hide Pending, PrescoreAll, Ascending, Covered;
    PendingSuffix(start, env, |processed|);
  }

  /** One more batch, of `k` companies, leaves a run standing. */
  lemma StandingStep(m: Matches, env: Env, start: Matches, done: seq<int>, before: Totals, size: nat,
                     k: nat, next: seq<int>, m1: Matches, totals: Totals)
    requires Standing(m, env, start, done, before, size)
    requires 0 < k == Min(size, |Pending(start, env)| - |done|) && next == Ascending(Pending(start, env))[..|done| + k]
    requires m1 == PrescoreAll(start, next, env)
    requires totals == Totals(before.pendingBefore, |Pending(m1, env)|, before.batches + 1, TallyOf(next, env))
    ensures Standing(m1, env, start, next, totals, size)
  {
    hide Pending, PrescoreAll, Ascending, Covered, TallyOf, BatchCount;
    CoveredStep(|Pending(start, env)|, before.batches, size);
    PendingSuffix(start, env, |next|);
  }

  lemma StandingFinishes(m: Matches, env: Env, start: Matches, processed: seq<int>, totals: Totals, size: nat)
    requires Standing(m, env, start, processed, totals, size)
    ensures Finished(m, env, start, processed, totals, |processed|)
  {
    hide Pending, PrescoreAll, Ascending, Covered;
    PendingSuffix(start, env, |processed|);
  }

  /** An uncapped run ends with nothing pending, having taken every pending company once, in ascending order. */
  lemma UncappedRun(m: Matches, env: Env, start: Matches, processed: seq<int>, totals: Totals, batchSize: int)
    requires Finished(m, env, start, processed, totals, Reach(|Pending(start, env)|, batchSize, None))
    ensures processed == Ascending(Pending(start, env)) && Pending(m, env) == {}
    ensures m == PrescoreAll(start, Ascending(Pending(start, env)), env)
    ensures forall c, d | c in Pending(start, env) :: RowOfPrescored(m, c, env, d)
    ensures forall k | k in start :: k in m && m[k] == start[k]
  {
    hide Pending, PrescoreAll, RowOfPrescored, HasMatches;
    var todo := Ascending(Pending(start, env));
    assert todo[..|todo|] == todo;
    forall c, d | c in Pending(start, env)
      ensures RowOfPrescored(m, c, env, d)
    {
      SuffixMembers(todo, 0);
      RunRow(start, todo, env, c, d);
    }
    forall k | k in start
      ensures k in m && m[k] == start[k]
    {
      if k.kind == KIND && k.company in todo { PendingHasNone(start, env, k); }
      RunTouchesOnly(start, todo, env, k);
    }
  }

  lemma PendingHasNone(m: Matches, env: Env, k: MatchKey)
    requires k in m && k.kind == KIND
    ensures k.company !in Pending(m, env)
  {
  }

  class Runner {
    var matches: Matches
    const env: Env

    constructor (matches: Matches, env: Env)
      ensures this.matches == matches && this.env == env
    {
      this.matches := matches;
      this.env := env;
    }

    method PrescoreCompany(c: int) returns (sent: nat)
      requires c in env.companies
      modifies this
      ensures matches == PrescoreOne(old(matches), c, env) && sent == |env.scan(c)|
    {
      var cs := env.scan(c);
      sent := |cs|;
      if sent > 0 {
        matches := Warmed(matches, c, env);
      }
      matches := WithMarker(matches, c, env.now);
    }

    method RunBatch(ghost start: Matches, done: seq<int>, ids: seq<int>, before: Totals)
      returns (processed: seq<int>, totals: Totals)
      requires matches == PrescoreAll(start, done, env) && before.tally == TallyOf(done, env)
      requires forall c | c in ids :: c in env.companies
      modifies this
      ensures processed == done + ids && matches == PrescoreAll(start, processed, env)
      ensures totals == before.(tally := TallyOf(processed, env))
    {
      hide PrescoreOne;
      processed, totals := done, before;
      for i := 0 to |ids|
        invariant processed == done + ids[..i] && matches == PrescoreAll(start, processed, env)
        invariant totals == before.(tally := TallyOf(processed, env))
      {
        var sent := PrescoreCompany(ids[i]);
        totals := totals.(tally := Tallied(totals.tally, sent));
        ghost var was := processed;
        processed := processed + [ids[i]];
        assert processed[..|processed| - 1] == was;
        assert ids[..i + 1] == ids[..i] + [ids[i]];
      }
      assert ids[..|ids|] == ids;
    }

    /** One turn of the loop; `more` is false when nothing was pending. */
    method NextBatch(ghost start: Matches, done: seq<int>, before: Totals, size: nat)
      returns (more: bool, processed: seq<int>, totals: Totals)
      requires size > 0 && Standing(matches, env, start, done, before, size)
      modifies this
      ensures Standing(matches, env, start, processed, totals, size)
      ensures more ==> |processed| > |done| && totals.batches == before.batches + 1
      ensures !more ==> processed == done && totals == before && |done| == |Ascending(Pending(start, env))|
    {
      hide Pending, PrescoreAll, PrescoreOne, TallyOf, Ascending, Covered, Standing;
      StandingHas(matches, env, start, done, before, size);
      var pending := Ascending(Pending(matches, env));
      var ids := pending[..Min(size, |pending|)];
      processed, totals := done, before;
      more := |ids| > 0;
      if more {
        BatchOf(start, env, |done|, |ids|);
        ghost var m := matches;
        processed, totals := RunBatch(start, processed, ids, totals.(batches := totals.batches + 1));
        totals := totals.(pendingAfter := |Pending(matches, env)|);
        StandingStep(m, env, start, done, before, size, |ids|, processed, matches, totals);
      }
    }

    /**
     * `run_bulk_prescore`: the companies processed, in order, and the totals. The result does not mention the batch
     * size unless the number of batches is capped.
     */
    method RunBulkPrescore(batchSize: int, maxBatches: Option<int>) returns (processed: seq<int>, totals: Totals)
      modifies this
      ensures Finished(matches, env, old(matches), processed, totals,
          Reach(|Pending(old(matches), env)|, batchSize, maxBatches))
      ensures Extent(|Pending(old(matches), env)|, batchSize, maxBatches, |processed|, totals.batches)
    {
      hide Pending, PrescoreOne, PrescoreAll, Ascending, Standing, Finished, BatchCount;
      ghost var start := matches;
      var size := AtLeastOne(batchSize);
      totals := Totals(|Pending(matches, env)|, |Pending(matches, env)|, 0, Tally(0, 0, 0, 0));
      processed := [];
      StandingAtStart(matches, env, size);
      var more := true;
      while more && (maxBatches.None? || totals.batches < maxBatches.value)
        invariant Standing(matches, env, start, processed, totals, size)
        invariant maxBatches.Some? ==> totals.batches <= if maxBatches.value > 0 then maxBatches.value else 0
        invariant !more ==> |processed| == Reach(|Pending(start, env)|, batchSize, maxBatches)
        decreases more, |Pending(start, env)| - |processed|
      {
        ghost var n := totals.batches;
        StandingCovers(matches, env, start, processed, totals, size);
        more, processed, totals := NextBatch(start, processed, totals, size);
        if !more { CapNotReached(|Pending(start, env)|, n, size, maxBatches); }
      }
      StandingCovers(matches, env, start, processed, totals, size);
      StandingFinishes(matches, env, start, processed, totals, size);
      ExtentIs(|Pending(start, env)|, batchSize, maxBatches, |processed|, totals.batches);
    }
  }
}
