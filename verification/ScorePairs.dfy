/** The score-pair cache of the hybrid discovery path: fresh cached rows first, deterministic scoring otherwise. */
module ScorePairs {
  import opened Outcomes
  import opened Ordered

  /** The unique index of tender_matches. */
  datatype MatchKey = MatchKey(kind: string, company: int, source: string, tender: int)

  /** An empty breakdown is falsy. */
  datatype MatchRow = MatchRow(score: int, reasoning: string, breakdown: string, createdAt: int)

  type Matches = map<MatchKey, MatchRow>

  datatype Candidate = Candidate(source: string, tender: int)

  datatype Scored = Scored(score: int, reasoning: string, breakdown: string)

  /** The deterministic scorer of one company; None when the tender is missing or of the wrong kind. */
  type Scorer = Candidate -> Option<Scored>

  datatype Origin = FromCache | FromScorer

  datatype Pair = Pair(score: int, origin: Origin)

  datatype Stats = Stats(hits: nat, scored: nat, capped: nat, skipped: nat)

  const NO_STATS := Stats(0, 0, 0, 0)

  function RowKey(kind: string, company: int, c: Candidate): MatchKey {
    MatchKey(kind, company, c.source, c.tender)
  }

  /** `load_fresh_company_tender_matches` as the dict the loop uses. */
  function LoadFresh(m: Matches, kind: string, company: int, cutoff: int): (cache: map<Candidate, MatchRow>)
    ensures forall c :: c in cache <==> RowKey(kind, company, c) in m && m[RowKey(kind, company, c)].createdAt >= cutoff
    ensures forall c | c in cache :: cache[c] == m[RowKey(kind, company, c)]
  {
    var found := set k | k in m && k.kind == kind && k.company == company && m[k].createdAt >= cutoff ::
      Candidate(k.source, k.tender);
    assert forall c :: c in found <==> RowKey(kind, company, c) in m && m[RowKey(kind, company, c)].createdAt >= cutoff;
    map c | c in found :: m[RowKey(kind, company, c)]
  }

  predicate IsHit(cache: map<Candidate, MatchRow>, c: Candidate) {
    c in cache && cache[c].breakdown != ""
  }

  /** INSERT ... ON CONFLICT DO UPDATE; the reasoning is cut to 4000 characters. */
  function Persisted(m: Matches, key: MatchKey, s: Scored, now: int): Matches {
    m[key := MatchRow(s.score, if |s.reasoning| > 4000 then s.reasoning[..4000] else s.reasoning, s.breakdown, now)]
  }

  datatype Run = Run(matches: Matches, pairs: map<Candidate, Pair>, stats: Stats)

  datatype Call = Call(kind: string, company: int, score: Scorer, persist: bool, cap: Option<nat>, now: int)

  function ScoreOne(r: Run, c: Candidate, call: Call, cache: map<Candidate, MatchRow>): Run {
    if IsHit(cache, c) then
      r.(pairs := r.pairs[c := Pair(cache[c].score, FromCache)], stats := r.stats.(hits := r.stats.hits + 1))
    else if call.cap.Some? && r.stats.scored >= call.cap.value then
      r.(stats := r.stats.(capped := r.stats.capped + 1))
    else match call.score(c)
      case None => r.(stats := r.stats.(skipped := r.stats.skipped + 1))
      case Some(s) =>
        Run(if call.persist then Persisted(r.matches, RowKey(call.kind, call.company, c), s, call.now) else r.matches,
            r.pairs[c := Pair(s.score, FromScorer)],
            r.stats.(scored := r.stats.scored + 1))
  }

  function ScoreAll(m: Matches, cs: seq<Candidate>, call: Call, cache: map<Candidate, MatchRow>): Run {
    if |cs| == 0 then Run(m, map[], NO_STATS)
    else ScoreOne(ScoreAll(m, cs[..|cs| - 1], call, cache), cs[|cs| - 1], call, cache)
  }

  class MatchStore {
    var matches: Matches

    constructor (matches: Matches)
      ensures this.matches == matches
    {
      this.matches := matches;
    }

    method ScoreTenderPairs(cs: seq<Candidate>, call: Call, maxAge: int)
      returns (pairs: map<Candidate, Pair>, stats: Stats)
      modifies this
      ensures Run(matches, pairs, stats) ==
                ScoreAll(old(matches), cs, call, LoadFresh(old(matches), call.kind, call.company, call.now - maxAge))
    {
      hide LoadFresh, Persisted;
      pairs, stats := map[], NO_STATS;
      var cache := LoadFresh(matches, call.kind, call.company, call.now - maxAge);
      for i := 0 to |cs|
        invariant Run(matches, pairs, stats) == ScoreAll(old(matches), cs[..i], call, cache)
      {
        var c := cs[i];
        assert cs[..i + 1][..i] == cs[..i];
        if IsHit(cache, c) {
          stats := stats.(hits := stats.hits + 1);
          pairs := pairs[c := Pair(cache[c].score, FromCache)];
        } else if call.cap.Some? && stats.scored >= call.cap.value {
          stats := stats.(capped := stats.capped + 1);
        } else {
          var outcome := call.score(c);
          if outcome.None? {
            stats := stats.(skipped := stats.skipped + 1);
          } else {
            stats := stats.(scored := stats.scored + 1);
            if call.persist {
              matches := Persisted(matches, RowKey(call.kind, call.company, c), outcome.value, call.now);
            }
            pairs := pairs[c := Pair(outcome.value.score, FromScorer)];
          }
        }
      }
      assert cs[..|cs|] == cs;
    }
  }

  /** `resolve_hybrid_tender_score`: the pairs of this run first, then the rows handed in, then the rule score. */
  function Resolved(pairs: map<Candidate, Pair>, cached: map<Candidate, MatchRow>, c: Candidate, ruleScore: int): int {
    if c in pairs then pairs[c].score else if c in cached then cached[c].score else ruleScore
  }

  // ---------------------------------------------------------------- laws

  lemma {:induction false} StatsAddUp(m: Matches, cs: seq<Candidate>, call: Call, cache: map<Candidate, MatchRow>)
    ensures var s := ScoreAll(m, cs, call, cache).stats;
            && s.hits + s.scored + s.capped + s.skipped == |cs|
            && (call.cap.Some? ==> s.scored <= call.cap.value)
  {
    if |cs| > 0 { StatsAddUp(m, cs[..|cs| - 1], call, cache); }
  }

  function Hits(cs: seq<Candidate>, cache: map<Candidate, MatchRow>): set<int> {
    set i | 0 <= i < |cs| && IsHit(cache, cs[i])
  }

  function Scorable(cs: seq<Candidate>, cache: map<Candidate, MatchRow>, score: Scorer): set<int> {
    set i | 0 <= i < |cs| && IsScorable(cache, score, cs[i])
  }

  lemma OneMoreHit(cs: seq<Candidate>, cache: map<Candidate, MatchRow>)
    requires |cs| > 0
    ensures |Hits(cs, cache)| == |Hits(cs[..|cs| - 1], cache)| + if IsHit(cache, cs[|cs| - 1]) then 1 else 0
  {
    hide IsHit;
    var init, n := cs[..|cs| - 1], |cs| - 1;
    forall i
      ensures i in Hits(cs, cache) <==> i in Hits(init, cache) || (IsHit(cache, cs[n]) && i == n)
    {
      if 0 <= i < n { assert init[i] == cs[i]; }
    }
    OneMoreIndex(Hits(cs, cache), Hits(init, cache), n, IsHit(cache, cs[n]));
  }

  predicate IsScorable(cache: map<Candidate, MatchRow>, score: Scorer, c: Candidate) {
    !IsHit(cache, c) && score(c).Some?
  }

  lemma OneMoreScorable(cs: seq<Candidate>, cache: map<Candidate, MatchRow>, score: Scorer)
    requires |cs| > 0
    ensures |Scorable(cs, cache, score)| ==
            |Scorable(cs[..|cs| - 1], cache, score)| + if IsScorable(cache, score, cs[|cs| - 1]) then 1 else 0
  {
    hide IsScorable;
    var init, n := cs[..|cs| - 1], |cs| - 1;
    forall i
      ensures i in Scorable(cs, cache, score) <==>
          i in Scorable(init, cache, score) || (IsScorable(cache, score, cs[n]) && i == n)
    {
      if 0 <= i < n { assert init[i] == cs[i]; }
    }
    OneMoreIndex(Scorable(cs, cache, score), Scorable(init, cache, score), n, IsScorable(cache, score, cs[n]));
  }

  function AtMostCap(n: nat, cap: Option<nat>): nat {
    if cap.Some? && cap.value < n then cap.value else n
  }

  /** Neither a hit nor scorable. */
  function Unscorable(cs: seq<Candidate>, cache: map<Candidate, MatchRow>, score: Scorer): set<int> {
    set i | 0 <= i < |cs| && IsUnscorable(cache, score, cs[i])
  }

  predicate IsUnscorable(cache: map<Candidate, MatchRow>, score: Scorer, c: Candidate) {
    !IsHit(cache, c) && score(c).None?
  }

  lemma OneMoreUnscorable(cs: seq<Candidate>, cache: map<Candidate, MatchRow>, score: Scorer)
    requires |cs| > 0
    ensures |Unscorable(cs, cache, score)| ==
            |Unscorable(cs[..|cs| - 1], cache, score)| + if IsUnscorable(cache, score, cs[|cs| - 1]) then 1 else 0
  {
    hide IsUnscorable;
    var init, n := cs[..|cs| - 1], |cs| - 1;
    forall i
      ensures i in Unscorable(cs, cache, score) <==>
          i in Unscorable(init, cache, score) || (IsUnscorable(cache, score, cs[n]) && i == n)
    {
      if 0 <= i < n { assert init[i] == cs[i]; }
    }
    OneMoreIndex(Unscorable(cs, cache, score), Unscorable(init, cache, score), n, IsUnscorable(cache, score, cs[n]));
  }

  /** A candidate is skipped because it cannot be scored, and held back by the cap only once that many are scored. */
  lemma {:induction false} SkippedAndCapped(m: Matches, cs: seq<Candidate>, call: Call, cache: map<Candidate, MatchRow>)
    ensures var s := ScoreAll(m, cs, call, cache).stats;
            && s.skipped <= |Unscorable(cs, cache, call.score)|
            && (s.capped == 0 ==> s.skipped == |Unscorable(cs, cache, call.score)|)
            && (s.capped > 0 ==> call.cap == Some(s.scored))
  {
    hide IsHit, Persisted;
    if |cs| == 0 {
      NoMember(Unscorable(cs, cache, call.score));
    } else {
      hide Unscorable;
      SkippedAndCapped(m, cs[..|cs| - 1], call, cache);
      OneMoreUnscorable(cs, cache, call.score);
      StatsAddUp(m, cs[..|cs| - 1], call, cache);
    }
  }

  /** Hits are the candidates with an explained cached row; of the others that can be scored, as many as the cap allows
      are. */
  lemma {:induction false} StatsMean(m: Matches, cs: seq<Candidate>, call: Call, cache: map<Candidate, MatchRow>)
    ensures var s := ScoreAll(m, cs, call, cache).stats;
            && s.hits == |Hits(cs, cache)|
            && s.scored == AtMostCap(|Scorable(cs, cache, call.score)|, call.cap)
            && (call.cap.None? ==> s.capped == 0)
  {
    hide IsHit, Persisted;
    if |cs| == 0 {
      NoMember(Hits(cs, cache));
      NoMember(Scorable(cs, cache, call.score));
    } else {
      hide Hits, Scorable;
      StatsMean(m, cs[..|cs| - 1], call, cache);
      OneMoreHit(cs, cache);
      OneMoreScorable(cs, cache, call.score);
    }
  }

  /** Where every returned pair comes from, and which candidates have none. */
  lemma {:induction false} PairIs(m: Matches, cs: seq<Candidate>, call: Call, cache: map<Candidate, MatchRow>,
                                  c: Candidate)
    ensures var r := ScoreAll(m, cs, call, cache);
            && (c in r.pairs && IsHit(cache, c) ==> c in cs && r.pairs[c] == Pair(cache[c].score, FromCache))
            && (c in r.pairs && !IsHit(cache, c) ==>
                  c in cs && call.score(c).Some? && r.pairs[c] == Pair(call.score(c).value.score, FromScorer))
            && (c in cs && c !in r.pairs ==> !IsHit(cache, c) && (call.score(c).None? || r.stats.capped > 0))
  {
    if |cs| > 0 {
      assert cs == cs[..|cs| - 1] + [cs[|cs| - 1]];
      PairIs(m, cs[..|cs| - 1], call, cache, c);
    }
  }

  /** A run that does not persist leaves the table alone. */
  lemma {:induction false} DryRunWritesNothing(m: Matches, cs: seq<Candidate>, call: Call,
                                               cache: map<Candidate, MatchRow>)
    requires !call.persist
    ensures ScoreAll(m, cs, call, cache).matches == m
  {
    if |cs| > 0 { DryRunWritesNothing(m, cs[..|cs| - 1], call, cache); }
  }

  /** The company has a row for `c` written at `cutoff` or later. */
  predicate HasFreshRow(m: Matches, call: Call, cutoff: int, c: Candidate) {
    var k := MatchKey(call.kind, call.company, c.source, c.tender);
    k in m && m[k].createdAt >= cutoff
  }

  /**
   * The score shown for a tender after a run, capped or not: its cached score on a hit, the scorer's where the run
   * scored it; without either, the score of its fresh row, which then has no breakdown or was not asked for, and the
   * rule score where there is no such row.
   */
  lemma HybridIs(m: Matches, cs: seq<Candidate>, call: Call, cutoff: int, c: Candidate, ruleScore: int)
    ensures var cache := LoadFresh(m, call.kind, call.company, cutoff);
            var pairs := ScoreAll(m, cs, call, cache).pairs;
            var shown := Resolved(pairs, cache, c, ruleScore);
            && (HasFreshRow(m, call, cutoff, c) && (IsHit(cache, c) || c !in pairs) ==>
                  shown == m[MatchKey(call.kind, call.company, c.source, c.tender)].score)
            && (c in pairs && !IsHit(cache, c) ==> call.score(c).Some? && shown == call.score(c).value.score)
            && (!HasFreshRow(m, call, cutoff, c) && c !in pairs ==> shown == ruleScore)
  {
    hide LoadFresh, ScoreAll;
    PairIs(m, cs, call, LoadFresh(m, call.kind, call.company, cutoff), c);
  }

  /** Every explained row of one company from `cutoff` on, except its marker row, holds the score the scorer gives. */
  predicate Truthful(m: Matches, kind: string, company: int, score: Scorer, cutoff: int) {
    forall k | k in m && k.kind == kind && k.company == company && k.tender != 0 && m[k].breakdown != "" &&
        m[k].createdAt >= cutoff ::
      score(Candidate(k.source, k.tender)).Some? && score(Candidate(k.source, k.tender)).value.score == m[k].score
  }

  lemma HitIsTruthful(m: Matches, call: Call, cutoff: int, c: Candidate)
    requires Truthful(m, call.kind, call.company, call.score, cutoff) && c.tender != 0
    requires IsHit(LoadFresh(m, call.kind, call.company, cutoff), c)
    ensures call.score(c).Some? && call.score(c).value.score == LoadFresh(m, call.kind, call.company, cutoff)[c].score
  {
    assert RowKey(call.kind, call.company, c) in m;
  }

  /** Over real tenders, every score returned is the score of direct scoring; rows that have aged out may hold
      anything. */
  lemma {:induction false} CacheIsTransparent(m: Matches, cs: seq<Candidate>, call: Call, cutoff: int)
    requires Truthful(m, call.kind, call.company, call.score, cutoff) && forall c | c in cs :: c.tender != 0
    ensures var pairs := ScoreAll(m, cs, call, LoadFresh(m, call.kind, call.company, cutoff)).pairs;
            forall c | c in pairs :: c in cs && call.score(c).Some? && pairs[c].score == call.score(c).value.score
  {
    hide LoadFresh, Persisted, Truthful;
    if |cs| > 0 {
      var init, last := cs[..|cs| - 1], cs[|cs| - 1];
      assert cs == init + [last];
      CacheIsTransparent(m, init, call, cutoff);
      if IsHit(LoadFresh(m, call.kind, call.company, cutoff), last) { HitIsTruthful(m, call, cutoff, last); }
    }
  }

  /** A run keeps the rows truthful for its own cutoff and every later one, so the premise holds after any number of
      runs. */
  lemma {:induction false} TruthIsKept(m: Matches, cs: seq<Candidate>, call: Call, cache: map<Candidate, MatchRow>,
                                       cutoff: int, later: int)
    requires Truthful(m, call.kind, call.company, call.score, cutoff) && cutoff <= later
    ensures Truthful(ScoreAll(m, cs, call, cache).matches, call.kind, call.company, call.score, later)
  {
    if |cs| > 0 { TruthIsKept(m, cs[..|cs| - 1], call, cache, cutoff, later); }
  }

  /** Nor does it touch another company's rows. */
  lemma {:induction false} OthersUntouched(m: Matches, cs: seq<Candidate>, call: Call, cache: map<Candidate, MatchRow>,
                                           k: MatchKey)
    requires k.kind != call.kind || k.company != call.company || Candidate(k.source, k.tender) !in cs
    ensures k in ScoreAll(m, cs, call, cache).matches <==> k in m
    ensures k in m ==> ScoreAll(m, cs, call, cache).matches[k] == m[k]
  {
    if |cs| > 0 {
      assert cs == cs[..|cs| - 1] + [cs[|cs| - 1]];
      OthersUntouched(m, cs[..|cs| - 1], call, cache, k);
    }
  }

  /** Without a cap, the answer holds exactly the candidates that were cached or can be scored. */
  lemma {:induction false} UncappedIsComplete(m: Matches, cs: seq<Candidate>, call: Call,
                                              cache: map<Candidate, MatchRow>, c: Candidate)
    requires call.cap.None?
    ensures c in ScoreAll(m, cs, call, cache).pairs <==> c in cs && (call.score(c).Some? || IsHit(cache, c))
  {
    if |cs| > 0 {
      assert cs == cs[..|cs| - 1] + [cs[|cs| - 1]];
      UncappedIsComplete(m, cs[..|cs| - 1], call, cache, c);
    }
  }

  /** So the hybrid score of a candidate that can be scored is the scorer's, whatever the rules said. */
  lemma HybridIsDirect(m: Matches, cs: seq<Candidate>, call: Call, cutoff: int, c: Candidate, ruleScore: int)
    requires Truthful(m, call.kind, call.company, call.score, cutoff) && call.cap.None?
    requires (forall d | d in cs :: d.tender != 0) && c in cs && call.score(c).Some?
    ensures var cache := LoadFresh(m, call.kind, call.company, cutoff);
            Resolved(ScoreAll(m, cs, call, cache).pairs, cache, c, ruleScore) == call.score(c).value.score
  {
    CacheIsTransparent(m, cs, call, cutoff);
    UncappedIsComplete(m, cs, call, LoadFresh(m, call.kind, call.company, cutoff), c);
  }

  /** The scorer always explains its score. */
  ghost predicate Explains(score: Scorer) {
    forall c :: score(c).Some? ==> score(c).value.breakdown != ""
  }

  /** The row holds the scored pair, its reasoning cut at 4000 characters, and the time of the run. */
  predicate IsRowOf(row: MatchRow, s: Scored, now: int) {
    && row.score == s.score && row.breakdown == s.breakdown && row.createdAt == now
    && row.reasoning <= s.reasoning && |row.reasoning| == if |s.reasoning| < 4000 then |s.reasoning| else 4000
  }

  /** What an uncapped persisting run leaves for one candidate. */
  lemma {:induction false} WarmedRow(m: Matches, cs: seq<Candidate>, call: Call, cache: map<Candidate, MatchRow>,
                                     c: Candidate)
    requires call.persist && c in cs && ScoreAll(m, cs, call, cache).stats.capped == 0
    ensures var r := ScoreAll(m, cs, call, cache).matches;
            var k := RowKey(call.kind, call.company, c);
            if IsHit(cache, c) || call.score(c).None? then (k in r <==> k in m) && (k in m ==> r[k] == m[k])
            else k in r && IsRowOf(r[k], call.score(c).value, call.now)
  {
    var init, last := cs[..|cs| - 1], cs[|cs| - 1];
    assert cs == init + [last];
    if c in init {
      WarmedRow(m, init, call, cache, c);
    } else {
      OthersUntouched(m, init, call, cache, RowKey(call.kind, call.company, c));
    }
  }

  /** A run that may score at least one pair scores none exactly when every candidate is a hit or cannot be scored. */
  lemma {:induction false} ScoresNothingIff(m: Matches, cs: seq<Candidate>, call: Call, cache: map<Candidate, MatchRow>)
    requires call.cap != Some(0)
    ensures ScoreAll(m, cs, call, cache).stats.scored == 0 <==>
        forall c | c in cs :: IsHit(cache, c) || call.score(c).None?
    ensures ScoreAll(m, cs, call, cache).stats.scored == 0 ==> ScoreAll(m, cs, call, cache).matches == m
  {
    if |cs| > 0 {
      assert cs == cs[..|cs| - 1] + [cs[|cs| - 1]];
      ScoresNothingIff(m, cs[..|cs| - 1], call, cache);
    }
  }

  /** When the row behind a candidate was written, as the first of two runs leaves it. */
  function Stamp(cache: map<Candidate, MatchRow>, c: Candidate, now: int): int {
    if IsHit(cache, c) then cache[c].createdAt else now
  }

  lemma HitLater(m: Matches, cs: seq<Candidate>, call: Call, cutoff: int, cutoff1: int, c: Candidate)
    requires call.persist && Explains(call.score) && c in cs && call.score(c).Some?
    requires ScoreAll(m, cs, call, LoadFresh(m, call.kind, call.company, cutoff)).stats.capped == 0
    ensures var cache := LoadFresh(m, call.kind, call.company, cutoff);
            var m1 := ScoreAll(m, cs, call, cache).matches;
            IsHit(LoadFresh(m1, call.kind, call.company, cutoff1), c) <==> Stamp(cache, c, call.now) >= cutoff1
  {
    hide ScoreAll;
    var cache := LoadFresh(m, call.kind, call.company, cutoff);
    var m1 := ScoreAll(m, cs, call, cache).matches;
    var k := RowKey(call.kind, call.company, c);
    WarmedRow(m, cs, call, cache, c);
    assert c in LoadFresh(m1, call.kind, call.company, cutoff1) <==> k in m1 && m1[k].createdAt >= cutoff1;
  }

  /**
   * Warming again scores nothing, and writes nothing, exactly when no row the first run left for a candidate has
   * aged out by then.
   */
  lemma RewarmScoresNothingIff(m: Matches, cs: seq<Candidate>, call: Call, maxAge: int, later: int)
    requires call.persist && Explains(call.score) && call.cap != Some(0)
    requires ScoreAll(m, cs, call, LoadFresh(m, call.kind, call.company, call.now - maxAge)).stats.capped == 0
    ensures var cache := LoadFresh(m, call.kind, call.company, call.now - maxAge);
            var m1 := ScoreAll(m, cs, call, cache).matches;
            var again := ScoreAll(m1, cs, call.(now := later), LoadFresh(m1, call.kind, call.company, later - maxAge));
            && (again.stats.scored == 0 <==>
                forall c | c in cs && call.score(c).Some? :: Stamp(cache, c, call.now) >= later - maxAge)
            && (again.stats.scored == 0 ==> again.matches == m1)
  {
    hide ScoreAll, LoadFresh, IsHit;
    var m1 := ScoreAll(m, cs, call, LoadFresh(m, call.kind, call.company, call.now - maxAge)).matches;
    ScoresNothingIff(m1, cs, call.(now := later), LoadFresh(m1, call.kind, call.company, later - maxAge));
    forall c | c in cs && call.score(c).Some?
      ensures IsHit(LoadFresh(m1, call.kind, call.company, later - maxAge), c) <==>
              Stamp(LoadFresh(m, call.kind, call.company, call.now - maxAge), c, call.now) >= later - maxAge
    {
      HitLater(m, cs, call, call.now - maxAge, later - maxAge, c);
    }
  }

  /** The prescore marker has tender id 0: with or without it, real tenders are scored alike. */
  lemma {:induction false} MarkerIsNeverAHit(m: Matches, cs: seq<Candidate>, call: Call,
                                             cache: map<Candidate, MatchRow>, source: string)
    requires forall c | c in cs :: c.tender != 0
    ensures ScoreAll(m, cs, call, cache) == ScoreAll(m, cs, call, cache - {Candidate(source, 0)})
  {
    if |cs| > 0 {
      assert cs == cs[..|cs| - 1] + [cs[|cs| - 1]];
      MarkerIsNeverAHit(m, cs[..|cs| - 1], call, cache, source);
    }
  }
}
