/** The recent-activity ranking: merging activities by canonical company, the 95th percentile and the score parts. */
module MarketRanking {
  import opened Outcomes
  import opened Ordered
  import Growth

  type Activity = Growth.Event

  /** What the ranking accumulates for one company. */
  datatype Item = Item(permits: nat, awards: nat, value: real, latest: int)

  type Items = map<int, Item>

  /** `canonical_id` by raw id. */
  type Resolver = int -> Option<int>

  function Events(item: Item): nat {
    item.permits + item.awards
  }

  function Added(items: Items, cid: int, a: Activity): Items {
    var item := if cid in items then items[cid] else Item(0, 0, 0.0, a.date);
    items[cid := Item(item.permits + (if a.kind.Permit? then 1 else 0),
                      item.awards + (if a.kind.Award? then 1 else 0),
                      item.value + a.value,
                      Growth.Max(item.latest, a.date))]
  }

  function Merged(activities: seq<Activity>, resolve: Resolver): Items {
    if |activities| == 0 then map[]
    else
      var a := activities[|activities| - 1];
      var items := Merged(activities[..|activities| - 1], resolve);
      if resolve(a.raw).None? then items else Added(items, resolve(a.raw).value, a)
  }

  function Unresolved(activities: seq<Activity>, resolve: Resolver): nat {
    if |activities| == 0 then 0
    else
      Unresolved(activities[..|activities| - 1], resolve)
      + if resolve(activities[|activities| - 1].raw).None? then 1 else 0
  }

  method Merge(activities: seq<Activity>, resolve: Resolver) returns (items: Items, unresolved: nat)
    ensures items == Merged(activities, resolve) && unresolved == Unresolved(activities, resolve)
  {
    items, unresolved := map[], 0;
    for i := 0 to |activities|
      invariant items == Merged(activities[..i], resolve) && unresolved == Unresolved(activities[..i], resolve)
    {
      assert activities[..i + 1][..i] == activities[..i];
      var cid := resolve(activities[i].raw);
      if cid.None? {
        unresolved := unresolved + 1;
      } else {
        items := Added(items, cid.value, activities[i]);
      }
    }
    assert activities[..|activities|] == activities;
  }

  function Counts(items: Items): int -> nat {
    cid => if cid in items then Events(items[cid]) else 0
  }

  /** Every activity is unresolved or counted once, as a permit or as an award of one company. */
  lemma {:induction false} ActivitiesConserved(activities: seq<Activity>, resolve: Resolver)
    ensures var items := Merged(activities, resolve);
            |activities| == Unresolved(activities, resolve) + SumOver(Counts(items), items.Keys)
    ensures forall cid | cid in Merged(activities, resolve) :: Events(Merged(activities, resolve)[cid]) > 0
  {
    if |activities| > 0 {
      var init, a := activities[..|activities| - 1], activities[|activities| - 1];
      ActivitiesConserved(init, resolve);
      var items := Merged(init, resolve);
      if resolve(a.raw).Some? {
        var cid := resolve(a.raw).value;
        SumOneMore(Counts(items), Counts(Added(items, cid, a)), items.Keys, cid);
        assert Added(items, cid, a).Keys == items.Keys + {cid};
      }
    }
  }

  /** The activities of one company, and of one kind among them. */
  function Of(activities: seq<Activity>, resolve: Resolver, cid: int): seq<Activity> {
    if |activities| == 0 then []
    else
      var a, rest := activities[|activities| - 1], Of(activities[..|activities| - 1], resolve, cid);
      if resolve(a.raw) == Some(cid) then rest + [a] else rest
  }

  function OfKind(activities: seq<Activity>, kind: Growth.Kind): set<int> {
    set i | 0 <= i < |activities| && activities[i].kind == kind
  }

  function TotalValue(activities: seq<Activity>): real {
    if |activities| == 0 then 0.0 else TotalValue(activities[..|activities| - 1]) + activities[|activities| - 1].value
  }

  predicate LatestOf(activities: seq<Activity>, date: int) {
    (exists i | 0 <= i < |activities| :: activities[i].date == date) && forall i | 0 <= i < |activities| ::
        activities[i].date <= date
  }

  lemma OneMoreOfKind(own: seq<Activity>, a: Activity, kind: Growth.Kind)
    ensures |OfKind(own + [a], kind)| == |OfKind(own, kind)| + if a.kind == kind then 1 else 0
  {
    OneMoreIndex(OfKind(own + [a], kind), OfKind(own, kind), |own|, a.kind == kind);
  }

  lemma LatestOfOneMore(own: seq<Activity>, a: Activity, date: int)
    requires if |own| == 0 then date == a.date else LatestOf(own, date)
    ensures LatestOf(own + [a], Growth.Max(date, a.date))
  {
    var all := own + [a];
    assert all[|own|].date == a.date;
    if |own| > 0 {
      var i :| 0 <= i < |own| && own[i].date == date;
      assert all[i].date == date;
    }
  }

  /** A company has an item exactly when it has activities; the item holds their counts by kind, total value and latest
      date. */
  lemma {:induction false} ItemHolds(activities: seq<Activity>, resolve: Resolver, cid: int)
    ensures var own, items := Of(activities, resolve, cid), Merged(activities, resolve);
            && (cid in items <==> |own| > 0)
            && (cid in items ==>
                  && items[cid].permits == |OfKind(own, Growth.Permit)| &&
                      items[cid].awards == |OfKind(own, Growth.Award)|
                  && items[cid].value == TotalValue(own) && LatestOf(own, items[cid].latest))
  {
    hide LatestOf, OfKind;
    if |activities| > 0 {
      var init, a := activities[..|activities| - 1], activities[|activities| - 1];
      ItemHolds(init, resolve, cid);
      if resolve(a.raw) == Some(cid) {
        var own, items := Of(init, resolve, cid), Merged(init, resolve);
        OneMoreOfKind(own, a, Growth.Permit);
        OneMoreOfKind(own, a, Growth.Award);
        if |own| == 0 { NoneOfKind(own, Growth.Permit); NoneOfKind(own, Growth.Award); }
        LatestOfOneMore(own, a, if cid in items then items[cid].latest else a.date);
        assert (own + [a])[..|own|] == own;
      }
    }
  }

  lemma NoneOfKind(own: seq<Activity>, kind: Growth.Kind)
    requires |own| == 0
    ensures OfKind(own, kind) == {}
  {
    NoMember(OfKind(own, kind));
  }

  // ---------------------------------------------------------------- the 95th percentile

  /** Least integer at or above `95 n / 100`. */
  function Ceil95(n: nat): nat {
    (95 * n + 99) / 100
  }

  function P95(q: seq<real>): real
    requires |q| > 0
  {
    q[if |q| - 1 < Ceil95(|q|) - 1 then |q| - 1 else Ceil95(|q|) - 1]
  }

  /** How many values are at most `v`. */
  function AtMost(q: seq<real>, v: real): nat {
    if |q| == 0 then 0 else AtMost(q[..|q| - 1], v) + if q[|q| - 1] <= v then 1 else 0
  }

  /** In an ascending list the values at most `v` come first. */
  lemma {:induction false} AtMostIsPrefix(q: seq<real>, v: real)
    requires Ascends(q)
    ensures AtMost(q, v) <= |q|
    ensures forall i | 0 <= i < |q| :: q[i] <= v <==> i < AtMost(q, v)
  {
    if |q| > 0 {
      AtMostIsPrefix(q[..|q| - 1], v);
      assert forall i | 0 <= i < |q| - 1 :: q[..|q| - 1][i] == q[i];
    }
  }

  /** The nearest-rank percentile: the least listed value that at least 95 in 100 of the values do not exceed. */
  lemma P95IsNearestRank(q: seq<real>)
    requires Ascends(q) && |q| > 0
    ensures P95(q) in q && 100 * AtMost(q, P95(q)) >= 95 * |q|
    ensures forall v | v in q && v < P95(q) :: 100 * AtMost(q, v) < 95 * |q|
  {
    var i := Ceil95(|q|) - 1;
    assert 0 <= i < |q| && P95(q) == q[i];
    AtMostIsPrefix(q, P95(q));
    assert i < AtMost(q, P95(q));
    forall v | v in q && v < P95(q)
      ensures 100 * AtMost(q, v) < 95 * |q|
    {
      AtMostIsPrefix(q, v);
      assert AtMost(q, v) <= i;
    }
  }

  // ---------------------------------------------------------------- scores

  datatype Parts = Parts(volume: real, economy: real, recency: real, diversity: real)

  datatype Failure = LogDomain

  /** The economic part; a percentile of zero or less gives none. */
  function Economy(value: real, p95: real, log1p: real -> real): real
    requires p95 > 0.0 ==> log1p(p95) != 0.0
  {
    if p95 > 0.0 then 25.0 * (log1p(value) / log1p(p95)) else 0.0
  }

  function PartsOf(item: Item, maxEvents: nat, p95: real, today: int, lookback: int, log1p: real -> real): Parts
    requires maxEvents > 1 ==> log1p(maxEvents as real) != 0.0
    requires p95 > 0.0 ==> log1p(p95) != 0.0
  {
    Parts(if maxEvents > 1 then 35.0 * (log1p(Events(item) as real) / log1p(maxEvents as real)) else 35.0,
          Economy(item.value, p95, log1p),
          20.0 * Growth.RMax(0.0, 1.0 - (today - item.latest) as real / Growth.Max(1, lookback) as real),
          if item.permits > 0 && item.awards > 0 then 20.0 else 10.0)
  }

  /** One company's parts; the logarithm raises when a total at or below minus one meets a positive percentile. */
  method ScoreItem(item: Item, maxEvents: nat, p95: real, today: int, lookback: int, log1p: real -> real)
    returns (r: Result<Parts, Failure>)
    requires Growth.Log1pLike(log1p)
    ensures r.Err? <==> p95 > 0.0 && item.value <= -1.0
    ensures r.Ok? ==> (maxEvents > 1 ==> log1p(maxEvents as real) != 0.0) && (p95 > 0.0 ==> log1p(p95) != 0.0) &&
                      r.value == PartsOf(item, maxEvents, p95, today, lookback, log1p)
  {
    assert maxEvents > 1 ==> log1p(0.0) < log1p(maxEvents as real);
    assert p95 > 0.0 ==> log1p(0.0) < log1p(p95);
    if p95 > 0.0 && item.value <= -1.0 { return Err(LogDomain); }
    r := Ok(PartsOf(item, maxEvents, p95, today, lookback, log1p));
  }

  lemma RatioBounds(a: real, b: real)
    requires b > 0.0
    ensures (a <= b <==> a / b <= 1.0) && (a >= b <==> a / b >= 1.0) && (a >= 0.0 <==> a / b >= 0.0)
  {
  }

  lemma EconomyBound(value: real, p95: real, log1p: real -> real)
    requires Growth.Log1pLike(log1p) && (p95 > 0.0 ==> value > -1.0)
    ensures p95 > 0.0 ==> log1p(p95) != 0.0
    ensures Economy(value, p95, log1p) > 25.0 <==> value > p95 > 0.0
  {
    if p95 > 0.0 {
      assert log1p(0.0) < log1p(p95);
      assert value < p95 ==> log1p(value) < log1p(p95);
      assert p95 < value ==> log1p(p95) < log1p(value);
      RatioBounds(log1p(value), log1p(p95));
    }
  }

  /**
   * Volume, recency and diversity stay within 35, 20 and 20. The economic part does not stay within 25: it passes it
   * exactly for the companies whose value lies above the percentile.
   */
  lemma PartsBounds(item: Item, maxEvents: nat, p95: real, today: int, lookback: int, log1p: real -> real)
    requires Growth.Log1pLike(log1p) && 0 < Events(item) <= maxEvents && item.latest <= today
    requires p95 > 0.0 ==> item.value > -1.0
    ensures (maxEvents > 1 ==> log1p(maxEvents as real) != 0.0) && (p95 > 0.0 ==> log1p(p95) != 0.0)
    ensures var parts := PartsOf(item, maxEvents, p95, today, lookback, log1p);
            && 0.0 <= parts.volume <= 35.0 && 0.0 <= parts.recency <= 20.0
            && parts.diversity == (if item.permits > 0 && item.awards > 0 then 20.0 else 10.0)
            && (parts.economy > 25.0 <==> item.value > p95 > 0.0)
            && (Events(item) == maxEvents ==> parts.volume == 35.0)
  {
    hide Economy;
    var n, m := Events(item) as real, maxEvents as real;
    assert log1p(0.0) < log1p(n);
    assert n < m ==> log1p(n) < log1p(m);
    if maxEvents > 1 { RatioBounds(log1p(n), log1p(m)); }
    EconomyBound(item.value, p95, log1p);
    RatioBounds((today - item.latest) as real, Growth.Max(1, lookback) as real);
  }

  /** `part` is the share `a / b` of `most`. */
  predicate IsShare(part: real, most: real, a: real, b: real) {
    part * b == most * a
  }

  lemma ShareIs(most: real, a: real, b: real)
    requires b != 0.0
    ensures IsShare(most * (a / b), most, a, b)
  {
    assert a / b * b == a;
  }

  lemma RemainingIs(age: real, span: real)
    requires span > 0.0
    ensures age >= span ==> 20.0 * Growth.RMax(0.0, 1.0 - age / span) == 0.0
    ensures age < span ==> IsShare(20.0 * Growth.RMax(0.0, 1.0 - age / span), 20.0, span - age, span)
  {
    RatioBounds(age, span);
    ShareIs(20.0, age, span);
  }

  /**
   * The four parts: volume by the logarithm of the activities against the busiest company, the economic part by the
   * logarithm of the value against the percentile, recency by the days left of the lookback, which counts as one day at
   * least, and diversity by having both kinds.
   */
  lemma PartsAre(item: Item, maxEvents: nat, p95: real, today: int, lookback: int, log1p: real -> real)
    requires Growth.Log1pLike(log1p)
    ensures (maxEvents > 1 ==> log1p(maxEvents as real) != 0.0) && (p95 > 0.0 ==> log1p(p95) != 0.0)
    ensures var parts := PartsOf(item, maxEvents, p95, today, lookback, log1p);
            var age, span := today - item.latest, if lookback < 1 then 1 else lookback;
            && (maxEvents <= 1 ==> parts.volume == 35.0)
            && (maxEvents > 1 ==>
                  IsShare(parts.volume, 35.0, log1p((item.permits + item.awards) as real), log1p(maxEvents as real)))
            && (p95 <= 0.0 ==> parts.economy == 0.0)
            && (p95 > 0.0 ==> IsShare(parts.economy, 25.0, log1p(item.value), log1p(p95)))
            && (age >= span ==> parts.recency == 0.0)
            && (age < span ==> IsShare(parts.recency, 20.0, span as real - age as real, span as real))
            && parts.diversity == if item.permits > 0 && item.awards > 0 then 20.0 else 10.0
  {
    hide IsShare, Growth.RMax;
    assert maxEvents > 1 ==> log1p(0.0) < log1p(maxEvents as real);
    assert p95 > 0.0 ==> log1p(0.0) < log1p(p95);
    if maxEvents > 1 { ShareIs(35.0, log1p(Events(item) as real), log1p(maxEvents as real)); }
    if p95 > 0.0 { ShareIs(25.0, log1p(item.value), log1p(p95)); }
    RemainingIs((today - item.latest) as real, Growth.Max(1, lookback) as real);
  }

  // ---------------------------------------------------------------- the economic part over a run

  function ItemOf(items: Items, cid: int): Item {
    if cid in items then items[cid] else Item(0, 0, 0.0, 0)
  }

  function Values(items: Items, ids: seq<int>): seq<real> {
    seq(|ids|, i requires 0 <= i < |ids| => ItemOf(items, ids[i]).value)
  }

  /** `ids` lists the ranked companies and `q` their values as `sorted` returns them. */
  ghost predicate IsRun(items: Items, ids: seq<int>, q: seq<real>) {
    && Distinct(ids) && (forall cid :: cid in ids <==> cid in items) && |ids| > 0
    && Ascends(q) && multiset(q) == multiset(Values(items, ids))
  }

  /** The values on which the logarithm does not raise. */
  predicate Scores(items: Items, p95: real) {
    p95 > 0.0 ==> forall cid | cid in items :: items[cid].value > -1.0
  }

  lemma RunValues(items: Items, ids: seq<int>, q: seq<real>)
    requires IsRun(items, ids, q)
    ensures |q| == |ids| && forall v :: v in q <==> exists cid :: cid in items && items[cid].value == v
  {
    var values := Values(items, ids);
    assert |multiset(q)| == |multiset(values)|;
    forall v
      ensures v in q <==> v in values
    {
      assert v in q <==> v in multiset(q);
      assert v in values <==> v in multiset(values);
    }
    forall cid | cid in items
      ensures items[cid].value in values
    {
      var i :| 0 <= i < |ids| && ids[i] == cid;
      assert values[i] == items[cid].value;
    }
    forall v | v in values
      ensures exists cid :: cid in items && items[cid].value == v
    {
      var i :| 0 <= i < |values| && values[i] == v;
      assert ids[i] in ids;
      assert ids[i] in items && items[ids[i]].value == v;
    }
  }

  /** Some company of a run passes 25 exactly when the largest value lies above a positive percentile. */
  lemma RunEconomyIff(items: Items, ids: seq<int>, q: seq<real>, log1p: real -> real)
    requires Growth.Log1pLike(log1p) && IsRun(items, ids, q)
    requires |q| > 0 && Scores(items, P95(q))
    ensures P95(q) > 0.0 ==> log1p(P95(q)) != 0.0
    ensures (exists cid | cid in items :: Economy(items[cid].value, P95(q), log1p) > 25.0) <==>
        q[|q| - 1] > P95(q) > 0.0
  {
    hide Economy, P95, IsRun, Ascends;
    RunValues(items, ids, q);
    LargestLast(items, ids, q);
    EconomyBound(0.0, P95(q), log1p);
    forall cid | cid in items
      ensures Economy(items[cid].value, P95(q), log1p) > 25.0 <==> items[cid].value > P95(q) > 0.0
    {
      EconomyBound(items[cid].value, P95(q), log1p);
    }
    assert q[|q| - 1] in q;
  }

  lemma LargestLast(items: Items, ids: seq<int>, q: seq<real>)
    requires IsRun(items, ids, q) && |q| > 0
    ensures forall cid | cid in items :: items[cid].value <= q[|q| - 1]
  {
    RunValues(items, ids, q);
    forall cid | cid in items
      ensures items[cid].value <= q[|q| - 1]
    {
      assert items[cid].value in q;
    }
  }

  /** With fewer than twenty companies the percentile is the largest value, so nobody passes 25. */
  lemma FewCompaniesStayWithin(items: Items, ids: seq<int>, q: seq<real>, log1p: real -> real, cid: int)
    requires Growth.Log1pLike(log1p) && IsRun(items, ids, q) && |ids| < 20 && cid in items
    requires |q| > 0 && Scores(items, P95(q))
    ensures P95(q) > 0.0 ==> log1p(P95(q)) != 0.0
    ensures Economy(items[cid].value, P95(q), log1p) <= 25.0
  {
    RunValues(items, ids, q);
    assert P95(q) == q[|q| - 1];
    hide Economy;
    RunEconomyIff(items, ids, q, log1p);
  }

  function OwnCompany(): Resolver {
    raw => Some(raw)
  }

  function ValueAt(i: int): real {
    if i == 19 then 2.0 else 1.0
  }

  /** One permit for each of `n` companies, the twentieth of twice the value. */
  function Permits(n: nat): seq<Activity> {
    seq(n, i => Growth.Event(Growth.Permit, i, i, 0, ValueAt(i)))
  }

  lemma {:induction false} PermitsMerged(n: nat)
    ensures var items := Merged(Permits(n), OwnCompany());
            (forall cid :: cid in items <==> 0 <= cid < n) && forall cid | cid in items ::
                items[cid].value == ValueAt(cid)
  {
    if n > 0 {
      assert Permits(n)[..n - 1] == Permits(n - 1);
      PermitsMerged(n - 1);
    }
  }

  lemma TwentyAreARun(items: Items, ids: seq<int>, q: seq<real>)
    requires items == Merged(Permits(20), OwnCompany()) && ids == seq(20, i => i) && q == seq(20, ValueAt)
    ensures IsRun(items, ids, q) && 19 in items && items[19].value == 2.0
  {
    hide Merged, Permits;
    PermitsMerged(20);
    forall cid
      ensures cid in ids <==> 0 <= cid < 20
    {
      if 0 <= cid < 20 { assert ids[cid] == cid; }
    }
    assert Values(items, ids) == q;
  }

  /** With twenty it happens: nineteen equal values and a larger one. */
  lemma TwentiethPasses(log1p: real -> real)
    requires Growth.Log1pLike(log1p)
    ensures var items, ids, q := Merged(Permits(20), OwnCompany()), seq(20, i => i), seq(20, ValueAt);
            && IsRun(items, ids, q) && 19 in items && P95(q) == 1.0 && log1p(1.0) != 0.0
            && Economy(items[19].value, P95(q), log1p) > 25.0
  {
    hide Merged, Permits, IsRun, Economy;
    var items, ids, q := Merged(Permits(20), OwnCompany()), seq(20, i => i), seq(20, ValueAt);
    TwentyAreARun(items, ids, q);
    assert P95(q) == q[18] == 1.0;
    EconomyBound(2.0, 1.0, log1p);
  }

  // ---------------------------------------------------------------- the listing

  datatype Ranked = Ranked(score: real, events: nat, company: int)

  /** The sort key: score and activity downwards, then the company id. */
  predicate Ahead(a: Ranked, b: Ranked) {
    if a.score != b.score then a.score > b.score
    else if a.events != b.events then a.events > b.events
    else a.company < b.company
  }

  /** In a listing the score falls, then the activity, and then the company id rises. */
  lemma ListingDescends(q: seq<Ranked>, i: nat, j: nat)
    requires NoneAhead(Ahead, q) && i < j < |q|
    ensures q[i].score >= q[j].score && (q[i].score == q[j].score ==> q[i].events >= q[j].events)
    ensures q[i].score == q[j].score && q[i].events == q[j].events ==> q[i].company <= q[j].company
  {
    assert !Ahead(q[j], q[i]);
  }

  function RankedItems(items: Items, ids: seq<int>, score: Item -> real): seq<Ranked>
  {
    seq(|ids|, i requires 0 <= i < |ids| => Ranked(score(ItemOf(items, ids[i])), Events(ItemOf(items, ids[i])), ids[i]))
  }

  lemma RankedItemsDistinct(items: Items, ids: seq<int>, score: Item -> real)
    requires Distinct(ids)
    ensures Distinct(RankedItems(items, ids, score)) && Decides(Ahead, RankedItems(items, ids, score))
  {
    var q := RankedItems(items, ids, score);
    assert forall i | 0 <= i < |q| :: q[i].company == ids[i];
  }

  /** Sorting gives one listing, whatever the order in which the companies were merged. */
  lemma ListingIsDetermined(items: Items, ids: seq<int>, others: seq<int>, score: Item -> real, q: seq<Ranked>,
                            r: seq<Ranked>)
    requires Distinct(ids) && multiset(ids) == multiset(others)
    requires multiset(q) == multiset(RankedItems(items, ids, score)) && NoneAhead(Ahead, q)
    requires multiset(r) == multiset(RankedItems(items, others, score)) && NoneAhead(Ahead, r)
    ensures q == r
  {
    hide Ahead, NoneAhead;
    PermutationIsDistinct(ids, others);
    RankedItemsDistinct(items, ids, score);
    RankedItemsDistinct(items, others, score);
    var a, b := RankedItems(items, ids, score), RankedItems(items, others, score);
    PermutationIsDistinct(a, q);
    PermutationIsDistinct(b, r);
    forall x
      ensures x in a <==> x in b
    {
      if x in a { ItemElsewhere(items, ids, others, score, x); }
      if x in b { ItemElsewhere(items, others, ids, score, x); }
    }
    DecidesAlike(Ahead, a, q);
    SortIsDetermined(Ahead, q, r);
  }

  lemma ItemElsewhere(items: Items, ids: seq<int>, others: seq<int>, score: Item -> real, x: Ranked)
    requires forall cid | cid in ids :: cid in others
    requires x in RankedItems(items, ids, score)
    ensures x in RankedItems(items, others, score)
  {
    var i :| 0 <= i < |ids| && RankedItems(items, ids, score)[i] == x;
    assert ids[i] in others;
    var j :| 0 <= j < |others| && others[j] == ids[i];
    assert RankedItems(items, others, score)[j] == x;
  }
}
