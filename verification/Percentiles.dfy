/** Value percentiles and sector shares of a company's permits. */
module Percentiles {
  import opened Ordered

  // ---------------------------------------------------------------- percentiles

  function Positive(values: seq<real>): seq<real> {
    if |values| == 0 then []
    else (if values[0] > 0.0 then [values[0]] else []) + Positive(values[1..])
  }

  function Insert(x: real, q: seq<real>): seq<real> {
    if |q| == 0 then [x]
    else if x <= q[0] then [x] + q
    else [q[0]] + Insert(x, q[1..])
  }

  lemma {:induction false} InsertAdds(x: real, q: seq<real>)
    ensures multiset(Insert(x, q)) == multiset(q) + multiset{x}
  {
    if |q| > 0 && x > q[0] {
      InsertAdds(x, q[1..]);
      assert q == [q[0]] + q[1..];
    }
  }

  lemma {:induction false} InsertMembers(x: real, q: seq<real>, y: real)
    ensures y in Insert(x, q) <==> y == x || y in q
  {
    if |q| > 0 && x > q[0] {
      InsertMembers(x, q[1..], y);
      assert q == [q[0]] + q[1..];
    }
  }

  lemma ConsAscends(x: real, q: seq<real>)
    requires Ascends(q) && forall y | y in q :: x <= y
    ensures Ascends([x] + q)
  {
    var r := [x] + q;
    forall i, j | 0 <= i < j < |r|
      ensures r[i] <= r[j]
    {
      assert r[j] == q[j - 1] && q[j - 1] in q;
    }
  }

  lemma {:induction false} InsertAscends(x: real, q: seq<real>)
    requires Ascends(q)
    ensures Ascends(Insert(x, q))
  {
    if |q| > 0 {
      if x <= q[0] {
        ConsAscends(x, q);
      } else {
        var rest := Insert(x, q[1..]);
        InsertAscends(x, q[1..]);
        forall y | y in rest
          ensures q[0] <= y
        {
          InsertMembers(x, q[1..], y);
        }
        ConsAscends(q[0], rest);
      }
    }
  }

  /** `sorted`. */
  function Sort(values: seq<real>): seq<real> {
    if |values| == 0 then [] else Insert(values[0], Sort(values[1..]))
  }

  lemma {:induction false} SortSorts(values: seq<real>)
    ensures Ascends(Sort(values)) && multiset(Sort(values)) == multiset(values) && |Sort(values)| == |values|
  {
    if |values| > 0 {
      SortSorts(values[1..]);
      InsertAscends(values[0], Sort(values[1..]));
      InsertAdds(values[0], Sort(values[1..]));
      assert values == [values[0]] + values[1..];
      assert |multiset(Sort(values))| == |multiset(values)|;
    }
  }

  /** Python's `round` of `a / 4`: ties go to the even neighbour. */
  function RoundQuarter(a: nat): nat {
    var q, r := a / 4, a % 4;
    if r < 2 || (r == 2 && q % 2 == 0) then q else q + 1
  }

  lemma RoundQuarterMonotone(a: nat, b: nat)
    requires a <= b
    ensures RoundQuarter(a) <= RoundQuarter(b)
  {
  }

  /** The quarter `k` of a sorted list, nearest index, clamped to the list as the code does. */
  function Quarter(q: seq<real>, k: nat): real
    requires |q| > 0
  {
    var i := RoundQuarter((|q| - 1) * k);
    q[if i < |q| then i else |q| - 1]
  }

  function ValuePercentiles(values: seq<real>): (real, real, real, real) {
    var sorted := Sort(Positive(values));
    if |sorted| == 0 then (0.0, 0.0, 0.0, 0.0)
    else (Quarter(sorted, 1), Quarter(sorted, 2), Quarter(sorted, 3), sorted[|sorted| - 1])
  }

  lemma {:induction false} PositiveMembers(values: seq<real>, x: real)
    ensures x in Positive(values) <==> x in values && x > 0.0
  {
    if |values| > 0 {
      PositiveMembers(values[1..], x);
      assert values == [values[0]] + values[1..];
    }
  }

  lemma QuarterAt(q: seq<real>, k: nat)
    requires |q| > 0 && k <= 3
    ensures RoundQuarter((|q| - 1) * k) < |q| && Quarter(q, k) == q[RoundQuarter((|q| - 1) * k)]
  {
  }

  lemma AtIndices(q: seq<real>, i: nat, j: nat, k: nat)
    requires Ascends(q) && i <= j <= k < |q|
    ensures q[i] <= q[j] <= q[k] <= q[|q| - 1] && q[i] in q && q[j] in q && q[k] in q
  {
  }

  lemma QuartersAscend(q: seq<real>)
    requires Ascends(q) && |q| > 0
    ensures Quarter(q, 1) <= Quarter(q, 2) <= Quarter(q, 3) <= q[|q| - 1]
    ensures Quarter(q, 1) in q && Quarter(q, 2) in q && Quarter(q, 3) in q
  {
    hide RoundQuarter, Quarter, Ascends;
    var n := |q| - 1;
    QuarterAt(q, 1);
    QuarterAt(q, 2);
    QuarterAt(q, 3);
    RoundQuarterMonotone(n * 1, n * 2);
    RoundQuarterMonotone(n * 2, n * 3);
    AtIndices(q, RoundQuarter(n * 1), RoundQuarter(n * 2), RoundQuarter(n * 3));
  }

  lemma SortedPositive(values: seq<real>, x: real)
    ensures x in Sort(Positive(values)) <==> x in values && x > 0.0
  {
    hide Sort, Positive;
    var positive := Positive(values);
    SortSorts(positive);
    PositiveMembers(values, x);
    assert x in Sort(positive) <==> x in multiset(Sort(positive));
    assert x in positive <==> x in multiset(positive);
  }

  /** Each percentile is one of the positive values, and they ascend to the largest. */
  lemma PercentilesAreOrderedMembers(values: seq<real>)
    ensures var (p25, p50, p75, top) := ValuePercentiles(values);
            if exists x :: x in values && x > 0.0 then
              && p25 <= p50 <= p75 <= top
              && (forall p | p in {p25, p50, p75, top} :: p in values && p > 0.0)
              && (forall x | x in values :: x <= top)
            else p25 == p50 == p75 == top == 0.0
  {
    hide Sort, Positive, Quarter;
    var sorted := Sort(Positive(values));
    SortSorts(Positive(values));
    forall x
      ensures x in sorted <==> x in values && x > 0.0
    {
      SortedPositive(values, x);
    }
    if |sorted| > 0 {
      QuartersAscend(sorted);
      assert sorted[0] in sorted && sorted[|sorted| - 1] in sorted;
    }
  }

  lemma HeadsEqual(q: seq<real>, r: seq<real>)
    requires Ascends(q) && Ascends(r) && multiset(q) == multiset(r) && |q| > 0
    ensures |r| > 0 && q[0] == r[0]
  {
    assert q[0] in multiset(r);
    assert q[0] in r;
    assert r[0] in multiset(q);
    assert r[0] in q;
  }

  lemma {:induction false} SortedUnique(q: seq<real>, r: seq<real>)
    requires Ascends(q) && Ascends(r) && multiset(q) == multiset(r)
    ensures q == r
  {
    if |q| == 0 {
      assert |multiset(r)| == 0;
    } else {
      HeadsEqual(q, r);
      assert q == [q[0]] + q[1..] && r == [r[0]] + r[1..];
      assert multiset(q[1..]) == multiset(q) - multiset{q[0]};
      assert multiset(r[1..]) == multiset(r) - multiset{r[0]};
      SortedUnique(q[1..], r[1..]);
    }
  }

  lemma CountOfCons(head: real, rest: seq<real>, x: real)
    ensures multiset([head] + rest)[x] == multiset(rest)[x] + if head == x then 1 else 0
  {
  }

  lemma {:induction false} PositiveMultiset(values: seq<real>, x: real)
    ensures multiset(Positive(values))[x] == if x > 0.0 then multiset(values)[x] else 0
  {
    if |values| > 0 {
      var head, rest := values[0], values[1..];
      PositiveMultiset(rest, x);
      CountOfCons(head, rest, x);
      CountOfCons(head, Positive(rest), x);
      assert values == [head] + rest;
      assert Positive(values) == if head > 0.0 then [head] + Positive(rest) else Positive(rest);
    }
  }

  /** Rounding goes to a nearest integer, and to the even one of two. */
  lemma RoundQuarterIsNearest(a: nat)
    ensures var r := RoundQuarter(a); -2 <= 4 * r - a <= 2 && (4 * r - a == 2 || 4 * r - a == -2 ==> r % 2 == 0)
  {
  }

  /** In any ascending listing of the positive values the percentiles stand at the rounded quarter positions. */
  lemma PercentilesAtQuarters(values: seq<real>, q: seq<real>)
    requires Ascends(q) && multiset(q) == multiset(Positive(values)) && |q| > 0
    ensures var n := |q| - 1;
            RoundQuarter(n * 3) <= n &&
            RoundQuarter(n * 1) <= n && RoundQuarter(n * 2) <= n &&
            ValuePercentiles(values) == (q[RoundQuarter(n * 1)], q[RoundQuarter(n * 2)], q[RoundQuarter(n * 3)], q[n])
  {
    SortSorts(Positive(values));
    SortedUnique(q, Sort(Positive(values)));
    QuarterAt(q, 1);
    QuarterAt(q, 2);
    QuarterAt(q, 3);
  }

  lemma SamePositives(values: seq<real>, others: seq<real>)
    requires multiset(values) == multiset(others)
    ensures multiset(Positive(values)) == multiset(Positive(others))
  {
    hide Positive;
    forall x
      ensures multiset(Positive(values))[x] == multiset(Positive(others))[x]
    {
      PositiveMultiset(values, x);
      PositiveMultiset(others, x);
    }
  }

  /** The order of the input does not matter. */
  lemma PercentilesIgnoreOrder(values: seq<real>, others: seq<real>)
    requires multiset(values) == multiset(others)
    ensures ValuePercentiles(values) == ValuePercentiles(others)
  {
    hide Positive, Sort, Ascends, Quarter;
    SamePositives(values, others);
    SortSorts(Positive(values));
    SortSorts(Positive(others));
    SortedUnique(Sort(Positive(values)), Sort(Positive(others)));
  }

  // ---------------------------------------------------------------- sector shares

  datatype Count = Count(sector: string, n: nat)

  /** A Counter in the order of first appearance. */
  function Bump(counts: seq<Count>, sector: string): seq<Count> {
    if |counts| == 0 then [Count(sector, 1)]
    else if counts[0].sector == sector then [Count(sector, counts[0].n + 1)] + counts[1..]
    else [counts[0]] + Bump(counts[1..], sector)
  }

  function Counted(texts: seq<string>, infer: string -> string): seq<Count> {
    if |texts| == 0 then []
    else Bump(Counted(texts[..|texts| - 1], infer), infer(texts[|texts| - 1]))
  }

  function Total(counts: seq<Count>): nat {
    if |counts| == 0 then 0 else counts[0].n + Total(counts[1..])
  }

  lemma {:induction false} BumpAddsOne(counts: seq<Count>, sector: string)
    ensures Total(Bump(counts, sector)) == Total(counts) + 1
    ensures |counts| <= |Bump(counts, sector)| <= |counts| + 1
  {
    if |counts| > 0 && counts[0].sector != sector { BumpAddsOne(counts[1..], sector); }
  }

  lemma {:induction false} CountedIsComplete(texts: seq<string>, infer: string -> string)
    ensures Total(Counted(texts, infer)) == |texts|
  {
    if |texts| > 0 {
      CountedIsComplete(texts[..|texts| - 1], infer);
      BumpAddsOne(Counted(texts[..|texts| - 1], infer), infer(texts[|texts| - 1]));
    }
  }

  /** How often a sector was counted. */
  function Tally(counts: seq<Count>, sector: string): nat {
    if |counts| == 0 then 0 else (if counts[0].sector == sector then counts[0].n else 0) + Tally(counts[1..], sector)
  }

  function Occurrences(texts: seq<string>, infer: string -> string, sector: string): nat {
    if |texts| == 0 then 0
    else Occurrences(texts[..|texts| - 1], infer, sector) + if infer(texts[|texts| - 1]) == sector then 1 else 0
  }

  lemma {:induction false} BumpTally(counts: seq<Count>, sector: string, other: string)
    ensures Tally(Bump(counts, sector), other) == Tally(counts, other) + if sector == other then 1 else 0
  {
    if |counts| > 0 && counts[0].sector != sector { BumpTally(counts[1..], sector, other); }
  }

  /** Each sector's count is the number of texts inferred to be of that sector. */
  lemma {:induction false} CountedTally(texts: seq<string>, infer: string -> string, sector: string)
    ensures Tally(Counted(texts, infer), sector) == Occurrences(texts, infer, sector)
  {
    if |texts| > 0 {
      CountedTally(texts[..|texts| - 1], infer, sector);
      BumpTally(Counted(texts[..|texts| - 1], infer), infer(texts[|texts| - 1]), sector);
    }
  }

  /** `round(x, 3)`: within half of a thousandth. */
  ghost predicate RoundsTo3(round3: real -> real) {
    forall x :: x - 0.0005 <= round3(x) <= x + 0.0005
  }

  datatype Share = Share(sector: string, part: real)

  function Shares(counts: seq<Count>, total: nat, round3: real -> real): seq<Share>
    requires total > 0
  {
    if |counts| == 0 then []
    else [Share(counts[0].sector, round3(counts[0].n as real / total as real))] + Shares(counts[1..], total, round3)
  }

  function SectorDistribution(texts: seq<string>, infer: string -> string, round3: real -> real): seq<Share> {
    if |texts| == 0 then []
    else CountedIsComplete(texts, infer); Shares(Counted(texts, infer), Total(Counted(texts, infer)), round3)
  }

  function Parts(shares: seq<Share>): real {
    if |shares| == 0 then 0.0 else shares[0].part + Parts(shares[1..])
  }

  lemma SplitQuotient(a: nat, b: nat, total: nat)
    requires total > 0
    ensures (a + b) as real / total as real == a as real / total as real + b as real / total as real
  {
  }

  lemma {:induction false} SharesSum(counts: seq<Count>, total: nat, round3: real -> real)
    requires total > 0 && RoundsTo3(round3)
    ensures |Shares(counts, total, round3)| == |counts|
    ensures var exact := Total(counts) as real / total as real;
            exact - 0.0005 * |counts| as real <= Parts(Shares(counts, total, round3)) <= exact +
                0.0005 * |counts| as real
  {
    if |counts| > 0 {
      SharesSum(counts[1..], total, round3);
      SplitQuotient(counts[0].n, Total(counts[1..]), total);
      var x := counts[0].n as real / total as real;
      assert x - 0.0005 <= round3(x) <= x + 0.0005;
    }
  }

  lemma SelfQuotient(total: nat)
    requires total > 0
    ensures total as real / total as real == 1.0
  {
  }

  lemma SharesSumToOne(counts: seq<Count>, total: nat, round3: real -> real)
    requires total > 0 && RoundsTo3(round3) && Total(counts) == total
    ensures |Shares(counts, total, round3)| == |counts|
    ensures 1.0 - 0.0005 * |counts| as real <= Parts(Shares(counts, total, round3)) <= 1.0 + 0.0005 * |counts| as real
  {
    hide Shares, Parts, RoundsTo3;
    SharesSum(counts, total, round3);
    SelfQuotient(total);
  }

  /** The shares of any non-empty list add up to one within half of a thousandth for each distinct sector. */
  lemma DistributionSumsToOne(texts: seq<string>, infer: string -> string, round3: real -> real)
    requires |texts| > 0 && RoundsTo3(round3)
    ensures var shares := SectorDistribution(texts, infer, round3);
            1.0 - 0.0005 * |shares| as real <= Parts(shares) <= 1.0 + 0.0005 * |shares| as real
  {
    hide Counted, Shares, Parts;
    CountedIsComplete(texts, infer);
    SharesSumToOne(Counted(texts, infer), |texts|, round3);
  }

  /** One share for each distinct sector. */
  lemma {:induction false} SectorsDistinct(texts: seq<string>, infer: string -> string)
    ensures forall i, j | 0 <= i < j < |Counted(texts, infer)| ::
        Counted(texts, infer)[i].sector != Counted(texts, infer)[j].sector
  {
    if |texts| > 0 {
      SectorsDistinct(texts[..|texts| - 1], infer);
      BumpDistinct(Counted(texts[..|texts| - 1], infer), infer(texts[|texts| - 1]));
    }
  }

  predicate DistinctSectors(counts: seq<Count>) {
    forall i, j | 0 <= i < j < |counts| :: counts[i].sector != counts[j].sector
  }

  lemma {:induction false} BumpDistinct(counts: seq<Count>, sector: string)
    requires DistinctSectors(counts)
    ensures DistinctSectors(Bump(counts, sector))
    ensures forall i | 0 <= i < |Bump(counts, sector)| ::
              Bump(counts, sector)[i].sector == sector ||
              exists j :: 0 <= j < |counts| && counts[j].sector == Bump(counts, sector)[i].sector
  {
    if |counts| > 0 {
      if counts[0].sector == sector {
        var r := Bump(counts, sector);
        forall i | 0 <= i < |r|
          ensures r[i].sector == counts[i].sector
        {
        }
      } else {
        BumpDistinct(counts[1..], sector);
        var rest := Bump(counts[1..], sector);
        forall i | 0 <= i < |rest|
          ensures rest[i].sector != counts[0].sector
          ensures rest[i].sector == sector || exists j :: 0 <= j < |counts| && counts[j].sector == rest[i].sector
        {
          if rest[i].sector != sector {
            var j :| 0 <= j < |counts[1..]| && counts[1..][j].sector == rest[i].sector;
            assert counts[j + 1].sector == rest[i].sector;
          }
        }
        assert counts[0].sector == Bump(counts, sector)[0].sector;
      }
    }
  }
}
