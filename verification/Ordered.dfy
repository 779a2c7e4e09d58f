/** Shared vocabulary: optional values, and outcomes that may be an error. */
module Outcomes {
  datatype Option<+T> = None | Some(value: T)

  datatype Result<+T, +E> = Ok(value: T) | Err(error: E)
}

/** Finite sets of ids, and the ascending list of their members that `ORDER BY id` returns. */
module Ordered {

  lemma NoMember<T>(s: set<T>)
    requires forall x :: x !in s
    ensures s == {}
  {
    assert forall x :: x !in s;
  }

  lemma SomeMember<T>(s: set<T>) returns (x: T)
    requires s != {}
    ensures x in s
  {
    if forall y :: y !in s {
      NoMember(s);
      assert false;
    }
    x :| x in s;
  }

  lemma Inhabited<T>(s: set<T>)
    requires s != {}
    ensures exists x :: x in s
  {
    var x := SomeMember(s);
  }

  lemma {:induction false} LeastExists(s: set<int>)
    requires s != {}
    ensures exists m :: m in s && forall x | x in s :: m <= x
    decreases |s|
  {
    var a := SomeMember(s);
    var rest := s - {a};
    assert forall x | x in s :: x == a || x in rest;
    if rest == {} {
      assert a in s && forall x | x in s :: a <= x;
    } else {
      LeastExists(rest);
      var m :| m in rest && forall x | x in rest :: m <= x;
      var least := if a < m then a else m;
      assert least in s && forall x | x in s :: least <= x;
    }
  }

  function Least(s: set<int>): (m: int)
    requires s != {}
    ensures m in s && forall x | x in s :: m <= x
  {
    LeastExists(s);
    var m :| m in s && forall x | x in s :: m <= x;
    m
  }

  predicate Distinct<T(==)>(q: seq<T>) {
    forall i, j | 0 <= i < j < |q| :: q[i] != q[j]
  }

  predicate StrictlyAscending(q: seq<int>) {
    forall i, j | 0 <= i < j < |q| :: q[i] < q[j]
  }

  /** The members of `s`, smallest first. */
  function Ascending(s: set<int>): (q: seq<int>)
    ensures |q| == |s|
    ensures forall x :: x in q <==> x in s
    ensures StrictlyAscending(q)
    decreases |s|
  {
    if s == {} then []
    else
      var m := Least(s);
      [m] + Ascending(s - {m})
  }

  lemma TailMembers(p: seq<int>)
    requires |p| > 0 && StrictlyAscending(p)
    ensures StrictlyAscending(p[1..]) && forall x :: x in p[1..] <==> x in p && x != p[0]
  {
    assert p == [p[0]] + p[1..];
  }

  lemma SameHead(p: seq<int>, q: seq<int>)
    requires StrictlyAscending(p) && StrictlyAscending(q) && |p| > 0
    requires forall x :: x in p <==> x in q
    ensures |q| > 0 && p[0] == q[0]
  {
    assert p[0] in p;
    var i :| 0 <= i < |q| && q[i] == p[0];
    assert q[0] in q;
    var j :| 0 <= j < |p| && p[j] == q[0];
  }

  /** An ascending list is determined by its members. */
  lemma {:induction false} AscendingUnique(p: seq<int>, q: seq<int>)
    requires StrictlyAscending(p) && StrictlyAscending(q)
    requires forall x :: x in p <==> x in q
    ensures p == q
    decreases |p|
  {
    if |q| > 0 { SameHead(q, p); }
    if |p| > 0 {
      SameHead(p, q);
      TailMembers(p);
      TailMembers(q);
      AscendingUnique(p[1..], q[1..]);
      assert p == [p[0]] + p[1..] && q == [q[0]] + q[1..];
    }
  }

  /** Position of `x` among the members, counted from 1: ROW_NUMBER() OVER (ORDER BY id). */
  function RankIn(s: set<int>, x: int): nat {
    |set y | y in s && y <= x|
  }

  lemma BelowIndex(q: seq<int>, i: nat, y: int)
    requires StrictlyAscending(q) && i < |q|
    ensures y in q[..i + 1] <==> y in q && y <= q[i]
  {
    if y in q && y <= q[i] {
      var j :| 0 <= j < |q| && q[j] == y;
      assert q[..i + 1][j] == y;
    }
  }

  lemma RankOfIndex(s: set<int>, i: nat)
    requires i < |s|
    ensures RankIn(s, Ascending(s)[i]) == i + 1
  {
    var q := Ascending(s);
    var below := set y | y in s && y <= q[i];
    forall y
      ensures y in q[..i + 1] <==> y in Ascending(below)
    {
      BelowIndex(q, i, y);
    }
    AscendingSlice(q, i + 1);
    AscendingUnique(q[..i + 1], Ascending(below));
  }

  lemma AscendingSlice(q: seq<int>, m: nat)
    requires StrictlyAscending(q) && m <= |q|
    ensures StrictlyAscending(q[..m])
  {
  }

  /** A member has rank at most `n` exactly when it is among the first `n` of the ascending list. */
  lemma RankAtMostIff(s: set<int>, n: nat, x: int)
    requires n <= |s| && x in s
    ensures RankIn(s, x) <= n <==> x in Ascending(s)[..n]
  {
    hide RankIn, Ascending;
    var q := Ascending(s);
    assert x in q;
    var i :| 0 <= i < |q| && q[i] == x;
    RankOfIndex(s, i);
    if i < n { assert q[..n][i] == x; }
    if x in q[..n] {
      var j :| 0 <= j < n && q[..n][j] == x;
      assert q[j] == q[i];
    }
  }

  lemma RankAtMostAll(s: set<int>, x: int)
    requires x in s
    ensures RankIn(s, x) <= |s|
  {
    hide RankIn, Ascending;
    assert x in Ascending(s);
    var i :| 0 <= i < |s| && Ascending(s)[i] == x;
    RankOfIndex(s, i);
  }

  /** The members of rank at most `m` are the first `m` of the ascending list. */
  lemma RankedPrefix(s: set<int>, m: nat)
    ensures Ascending(set x | x in s && RankIn(s, x) <= m) == Ascending(s)[..if m < |s| then m else |s|]
  {
    hide RankIn, Ascending;
    var n := if m < |s| then m else |s|;
    var ranked := set x | x in s && RankIn(s, x) <= m;
    forall x
      ensures x in ranked <==> x in Ascending(s)[..n]
    {
      if x in s {
        RankAtMostIff(s, n, x);
        RankAtMostAll(s, x);
      } else {
        assert x !in Ascending(s);
      }
    }
    AscendingSlice(Ascending(s), n);
    AscendingUnique(Ascending(ranked), Ascending(s)[..n]);
  }

  /** Counting goes up by one exactly when the next index is counted too. */
  lemma OneMoreIndex(all: set<int>, before: set<int>, n: int, counted: bool)
    requires n !in before && forall i :: i in all <==> i in before || (counted && i == n)
    ensures |all| == |before| + if counted then 1 else 0
  {
    if counted {
      assert forall i :: i in all <==> i in before + {n};
      assert all == before + {n};
    } else {
      assert forall i :: i in all <==> i in before;
      assert all == before;
    }
  }

  // ---------------------------------------------------------------- sums

  function SumOver(f: int -> nat, ids: set<int>): nat
    decreases |ids|
  {
    if ids == {} then 0 else var x := Least(ids); f(x) + SumOver(f, ids - {x})
  }

  lemma {:induction false} SumWithout(f: int -> nat, ids: set<int>, x: int)
    requires x in ids
    ensures SumOver(f, ids) == f(x) + SumOver(f, ids - {x})
    decreases |ids|
  {
    var least := Least(ids);
    if x != least {
      SumWithout(f, ids - {least}, x);
      SumWithout(f, ids - {x}, least);
      assert ids - {least} - {x} == ids - {x} - {least};
    }
  }

  lemma {:induction false} SumSame(f: int -> nat, g: int -> nat, ids: set<int>)
    requires forall x | x in ids :: f(x) == g(x)
    ensures SumOver(f, ids) == SumOver(g, ids)
    decreases |ids|
  {
    if ids != {} { SumSame(f, g, ids - {Least(ids)}); }
  }

  /** One more at `x`, which may be new to `ids`. */
  lemma SumOneMore(f: int -> nat, g: int -> nat, ids: set<int>, x: int)
    requires (forall y | y in ids && y != x :: g(y) == f(y)) && g(x) == (if x in ids then f(x) else 0) + 1
    ensures SumOver(g, ids + {x}) == SumOver(f, ids) + 1
  {
    var rest := ids - {x};
    SumWithout(g, ids + {x}, x);
    assert ids + {x} - {x} == rest;
    SumSame(f, g, rest);
    if x in ids { SumWithout(f, ids, x); } else { assert rest == ids; }
  }

  // ---------------------------------------------------------------- sorted lists

  /** Ascending, ties allowed. */
  predicate Ascends(q: seq<real>) {
    forall i, j | 0 <= i < j < |q| :: q[i] <= q[j]
  }

  lemma DistinctSumIff<T>(a: seq<T>, b: seq<T>)
    ensures Distinct(a + b) <==> Distinct(a) && Distinct(b) && forall x | x in a :: x !in b
  {
    var s := a + b;
    if Distinct(s) {
      assert forall i, j | 0 <= i < j < |a| :: a[i] == s[i] && a[j] == s[j];
      assert forall i, j | 0 <= i < j < |b| :: b[i] == s[|a| + i] && b[j] == s[|a| + j];
      forall i, j | 0 <= i < |a| && 0 <= j < |b|
        ensures a[i] != b[j]
      {
        assert s[i] == a[i] && s[|a| + j] == b[j];
      }
    }
    if Distinct(a) && Distinct(b) && forall x | x in a :: x !in b {
      forall i, j | 0 <= i < j < |s|
        ensures s[i] != s[j]
      {
        if i < |a| <= j { assert a[i] in a && b[j - |a|] in b; }
      }
    }
  }

  /** What a sort by the key of `ahead` leaves: no later element is ahead of an earlier one. */
  ghost predicate NoneAhead<T(!new)>(ahead: (T, T) -> bool, q: seq<T>) {
    forall i, j | 0 <= i < j < |q| :: !ahead(q[j], q[i])
  }

  /** Of two different elements exactly one is ahead. */
  ghost predicate Decides<T(!new)>(ahead: (T, T) -> bool, q: seq<T>) {
    forall x, y | x in q && y in q && x != y :: ahead(x, y) != ahead(y, x)
  }

  lemma DecidesAlike<T(!new)>(ahead: (T, T) -> bool, q: seq<T>, r: seq<T>)
    requires Decides(ahead, q) && forall x :: x in q <==> x in r
    ensures Decides(ahead, r)
  {
  }

  lemma SameLeader<T(!new)>(ahead: (T, T) -> bool, q: seq<T>, r: seq<T>)
    requires Distinct(q) && Distinct(r) && Decides(ahead, q) && NoneAhead(ahead, q) && NoneAhead(ahead, r)
    requires |q| > 0 && forall x :: x in q <==> x in r
    ensures |r| > 0 && q[0] == r[0]
  {
    assert q[0] in q;
    var i :| 0 <= i < |r| && r[i] == q[0];
    assert r[0] in r;
    var j :| 0 <= j < |q| && q[j] == r[0];
  }

  lemma RestOf<T>(q: seq<T>)
    requires Distinct(q) && |q| > 0
    ensures Distinct(q[1..]) && forall x :: x in q[1..] <==> x in q && x != q[0]
  {
    assert q == [q[0]] + q[1..];
  }

  /** When the key decides between any two elements, two sorted lists of the same elements are equal. */
  lemma {:induction false} SortIsDetermined<T(!new)>(ahead: (T, T) -> bool, q: seq<T>, r: seq<T>)
    requires Distinct(q) && Distinct(r) && Decides(ahead, q) && NoneAhead(ahead, q) && NoneAhead(ahead, r)
    requires forall x :: x in q <==> x in r
    ensures q == r
  {
    DecidesAlike(ahead, q, r);
    if |r| > 0 { SameLeader(ahead, r, q); }
    if |q| > 0 {
      SameLeader(ahead, q, r);
      RestOf(q);
      RestOf(r);
      SortIsDetermined(ahead, q[1..], r[1..]);
      assert q == [q[0]] + q[1..] && r == [r[0]] + r[1..];
    }
  }

  lemma {:induction false} DistinctMeansOnce<T>(q: seq<T>, x: T)
    requires Distinct(q)
    ensures multiset(q)[x] <= 1
  {
    if |q| > 0 {
      assert q == [q[0]] + q[1..];
      RestOf(q);
      DistinctMeansOnce(q[1..], x);
    }
  }

  /** A list with the same elements as often, as a sort returns it. */
  lemma PermutationIsDistinct<T>(q: seq<T>, r: seq<T>)
    requires Distinct(q) && multiset(q) == multiset(r)
    ensures Distinct(r) && forall x :: x in q <==> x in r
  {
    forall x
      ensures x in q <==> x in r
    {
      assert x in q <==> x in multiset(q);
      assert x in r <==> x in multiset(r);
    }
    forall i, j | 0 <= i < j < |r|
      ensures r[i] != r[j]
    {
      if r[i] == r[j] {
        DistinctMeansOnce(q, r[i]);
        TwiceCounted(r, i, j);
        assert false;
      }
    }
  }

  lemma TwiceCounted<T>(r: seq<T>, i: nat, j: nat)
    requires i < j < |r| && r[i] == r[j]
    ensures multiset(r)[r[i]] >= 2
  {
    assert r == r[..j] + r[j..];
    assert r[..j][i] == r[i] && r[i] in multiset(r[..j]);
    assert r[j..][0] == r[i] && r[i] in multiset(r[j..]);
  }
}
