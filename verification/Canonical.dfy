/** Following a company's alias and merge links to its canonical company, on every link graph, cyclic ones included. */
module Canonical {
  import opened Outcomes
  import opened Ordered

  type Successor = int -> Option<int>

  /** Where `n` links lead; None once the chain has ended. */
  function At(next: Successor, x: int, n: nat): Option<int> {
    if n == 0 then Some(x)
    else match At(next, x, n - 1)
      case None => None
      case Some(y) => next(y)
  }

  /** `y` is the node without a successor that the chain of `x` reaches. */
  ghost predicate Ends(next: Successor, x: int, y: int) {
    next(y).None? && exists n: nat :: At(next, x, n) == Some(y)
  }

  ghost predicate Cycles(next: Successor, x: int) {
    exists i: nat, j: nat :: i < j && At(next, x, i).Some? && At(next, x, i) == At(next, x, j)
  }

  lemma {:induction false} EndedStaysEnded(next: Successor, x: int, n: nat, m: nat)
    requires n <= m && At(next, x, n).None?
    ensures At(next, x, m).None?
  {
    if n < m { EndedStaysEnded(next, x, n, m - 1); }
  }

  lemma EndIsUnique(next: Successor, x: int, y: int, z: int)
    requires Ends(next, x, y) && Ends(next, x, z)
    ensures y == z
  {
    var n: nat :| At(next, x, n) == Some(y);
    var m: nat :| At(next, x, m) == Some(z);
    assert At(next, x, n + 1).None? && At(next, x, m + 1).None?;
    if n < m { EndedStaysEnded(next, x, n + 1, m); }
    if m < n { EndedStaysEnded(next, x, m + 1, n); }
  }

  lemma {:induction false} CycleNeverEnds(next: Successor, x: int, i: nat, j: nat, n: nat)
    requires i < j && At(next, x, i).Some? && At(next, x, i) == At(next, x, j)
    ensures At(next, x, n).Some?
    decreases n
  {
    if n <= j {
      if At(next, x, n).None? { EndedStaysEnded(next, x, n, j); }
    } else {
      CycleNeverEnds(next, x, i, j, n - (j - i));
      Shifted(next, x, i, j, n - j);
    }
  }

  lemma {:induction false} Shifted(next: Successor, x: int, i: nat, j: nat, d: nat)
    requires At(next, x, i) == At(next, x, j)
    ensures At(next, x, i + d) == At(next, x, j + d)
  {
    if d > 0 { Shifted(next, x, i, j, d - 1); }
  }

  lemma CyclesMeansNoEnd(next: Successor, x: int, y: int)
    requires Cycles(next, x)
    ensures !Ends(next, x, y)
  {
    var i: nat, j: nat :| i < j && At(next, x, i).Some? && At(next, x, i) == At(next, x, j);
    if Ends(next, x, y) {
      var n := EndsAfter(next, x, y);
      CycleNeverEnds(next, x, i, j, n);
      assert false;
    }
  }

  lemma EndsAfter(next: Successor, x: int, y: int) returns (n: nat)
    requires Ends(next, x, y)
    ensures At(next, x, n).None?
  {
    n :| At(next, x, n) == Some(y);
    n := n + 1;
  }

  /** The loop both endpoints share: it stops on every graph with finitely many nodes. */
  method Follow(next: Successor, x: int, ghost nodes: set<int>) returns (end: Option<int>)
    requires x in nodes && forall y | y in nodes && next(y).Some? :: next(y).value in nodes
    ensures end.Some? ==> Ends(next, x, end.value)
    ensures end.None? ==> Cycles(next, x)
  {
    var current := x;
    var seen: set<int> := {};
    ghost var k: nat := 0;
    while current !in seen
      invariant At(next, x, k) == Some(current) && current in nodes && seen <= nodes
      invariant forall y | y in seen :: exists i: nat :: i < k && At(next, x, i) == Some(y)
      decreases |nodes - seen|
    {
      ghost var left := nodes - seen;
      seen := seen + {current};
      Shrinks(left, nodes - seen, current);
      var step := next(current);
      if step.None? { return Some(current); }
      current := step.value;
      k := k + 1;
      assert At(next, x, k - 1) == Some(current) || At(next, x, k) == Some(current);
    }
    return None;
  }

  lemma Shrinks(big: set<int>, small: set<int>, x: int)
    requires small == big - {x} && x in big
    ensures |small| < |big|
  {
  }

  // ---------------------------------------------------------------- the company directory

  /** companies.canonical_company_id by company id, and the alias table by its unique alias_company_id. */
  datatype Directory = Directory(companies: map<int, Option<int>>, aliases: map<int, int>)

  /** Zero is falsy, so an alias or a merge target of zero is no link. */
  function Truthy(id: Option<int>): Option<int> {
    if id == Some(0) then None else id
  }

  function AliasOf(d: Directory, raw: set<int>, x: int): Option<int> {
    if x in raw && x in d.aliases then Truthy(Some(d.aliases[x])) else None
  }

  function MergedInto(d: Directory, x: int): Option<int> {
    if x in d.companies then Truthy(d.companies[x]) else None
  }

  /** `canonical_map` reads any company it meets. */
  function Links(d: Directory, raw: set<int>): Successor {
    x => if AliasOf(d, raw, x).Some? then AliasOf(d, raw, x) else MergedInto(d, x)
  }

  /** `canonical_id` knows only the companies loaded for the raw ids. */
  function LoadedLinks(d: Directory, raw: set<int>): Successor {
    x => if AliasOf(d, raw, x).Some? then AliasOf(d, raw, x) else if x in raw then MergedInto(d, x) else None
  }

  ghost function Nodes(d: Directory, raw: set<int>): set<int> {
    raw + d.aliases.Values + set c | c in d.companies && d.companies[c].Some? :: d.companies[c].value
  }

  lemma NodesAreClosed(d: Directory, raw: set<int>)
    ensures raw <= Nodes(d, raw)
    ensures forall y | Links(d, raw)(y).Some? :: Links(d, raw)(y).value in Nodes(d, raw)
    ensures forall y | LoadedLinks(d, raw)(y).Some? :: LoadedLinks(d, raw)(y).value in Nodes(d, raw)
  {
  }

  // ---------------------------------------------------------------- what a link is

  /** The alias table sends the raw id `x` to `y`. */
  predicate IsAliasOf(d: Directory, raw: set<int>, x: int, y: int) {
    x in raw && x in d.aliases && d.aliases[x] == y && y != 0
  }

  /** Company `x` was merged into `y`. */
  predicate IsMergedInto(d: Directory, x: int, y: int) {
    x in d.companies && d.companies[x] == Some(y) && y != 0
  }

  predicate HasAlias(d: Directory, raw: set<int>, x: int) {
    x in raw && x in d.aliases && d.aliases[x] != 0
  }

  /** An alias goes before a merge; `loaded` are the companies whose merges are known. */
  predicate Leads(d: Directory, raw: set<int>, loaded: set<int>, x: int, y: int) {
    IsAliasOf(d, raw, x, y) || (!HasAlias(d, raw, x) && x in loaded && IsMergedInto(d, x, y))
  }

  lemma LinksLead(d: Directory, raw: set<int>, x: int, y: int)
    ensures Links(d, raw)(x) == Some(y) <==> Leads(d, raw, d.companies.Keys, x, y)
    ensures LoadedLinks(d, raw)(x) == Some(y) <==> Leads(d, raw, raw, x, y)
  {
  }

  /** A chain of companies from `x` to `y`, each leading to the next, that cannot be made longer. */
  ghost predicate FullChain(d: Directory, raw: set<int>, loaded: set<int>, chain: seq<int>, x: int, y: int) {
    && |chain| > 0 && chain[0] == x && chain[|chain| - 1] == y
    && (forall i | 0 <= i < |chain| - 1 :: Leads(d, raw, loaded, chain[i], chain[i + 1]))
    && (forall z :: !Leads(d, raw, loaded, y, z))
  }

  /** `canonical_map` follows the chains over all companies, and `canonical_id` those over the raw ids alone. */
  lemma EndsAreChains(d: Directory, raw: set<int>, x: int, y: int)
    ensures Ends(Links(d, raw), x, y) <==> exists chain :: FullChain(d, raw, d.companies.Keys, chain, x, y)
    ensures Ends(LoadedLinks(d, raw), x, y) <==> exists chain :: FullChain(d, raw, raw, chain, x, y)
  {
    hide Links, LoadedLinks, Leads;
    forall a, b
      ensures Links(d, raw)(a) == Some(b) <==> Leads(d, raw, d.companies.Keys, a, b)
      ensures LoadedLinks(d, raw)(a) == Some(b) <==> Leads(d, raw, raw, a, b)
    {
      LinksLead(d, raw, a, b);
    }
    EndsIsChain(Links(d, raw), d, raw, d.companies.Keys, x, y);
    EndsIsChain(LoadedLinks(d, raw), d, raw, raw, x, y);
  }

  ghost predicate IsLink(next: Successor, d: Directory, raw: set<int>, loaded: set<int>) {
    forall a, b :: next(a) == Some(b) <==> Leads(d, raw, loaded, a, b)
  }

  lemma EndsIsChain(next: Successor, d: Directory, raw: set<int>, loaded: set<int>, x: int, y: int)
    requires IsLink(next, d, raw, loaded)
    ensures Ends(next, x, y) <==> exists chain :: FullChain(d, raw, loaded, chain, x, y)
  {
    hide Leads;
    if Ends(next, x, y) {
      var n: nat :| At(next, x, n) == Some(y);
      var chain := ChainOf(next, x, n);
      assert FullChain(d, raw, loaded, chain, x, y);
    }
    if chain :| FullChain(d, raw, loaded, chain, x, y) {
      ChainIsAt(next, chain, |chain| - 1);
      assert forall z :: next(y) != Some(z);
    }
  }

  lemma {:induction false} ChainOf(next: Successor, x: int, n: nat) returns (chain: seq<int>)
    requires At(next, x, n).Some?
    ensures |chain| == n + 1 && chain[0] == x && chain[n] == At(next, x, n).value
    ensures forall i | 0 <= i < n :: next(chain[i]) == Some(chain[i + 1])
  {
    if n == 0 {
      chain := [x];
    } else {
      var init := ChainOf(next, x, n - 1);
      chain := init + [At(next, x, n).value];
    }
  }

  lemma {:induction false} ChainIsAt(next: Successor, chain: seq<int>, n: nat)
    requires n < |chain| && forall i | 0 <= i < |chain| - 1 :: next(chain[i]) == Some(chain[i + 1])
    ensures At(next, chain[0], n) == Some(chain[n])
  {
    if n > 0 { ChainIsAt(next, chain, n - 1); }
  }

  // ---------------------------------------------------------------- the two resolvers

  /** The map binds `x` exactly when its chain ends, to the company at the end, or to nothing when no such company
      exists. */
  ghost predicate MapsTo(d: Directory, raw: set<int>, mapping: map<int, Option<int>>, x: int) {
    && (x in mapping <==> !Cycles(Links(d, raw), x))
    && (x in mapping ==> exists y :: Ends(Links(d, raw), x, y) && BindsTo(d, mapping[x], y))
  }

  predicate BindsTo(d: Directory, bound: Option<int>, y: int) {
    (y in d.companies ==> bound == Some(y)) && (y !in d.companies ==> bound == None)
  }

  method CanonicalMap(d: Directory, raw: set<int>) returns (mapping: map<int, Option<int>>)
    ensures mapping.Keys <= raw && forall x | x in raw :: MapsTo(d, raw, mapping, x)
  {
    hide Links, Nodes;
    mapping := map[];
    var next := Links(d, raw);
    var todo := raw;
    while |todo| > 0
      invariant todo <= raw && mapping.Keys <= raw - todo
      invariant forall x | x in raw - todo :: MapsTo(d, raw, mapping, x)
      decreases |todo|
    {
      ghost var some := SomeMember(todo);
      var x :| x in todo;
      NodesAreClosed(d, raw);
      var end := Follow(next, x, Nodes(d, raw));
      ghost var before := mapping;
      if end.Some? {
        if Cycles(next, x) { CyclesMeansNoEnd(next, x, end.value); }
        mapping := mapping[x := if end.value in d.companies then end else None];
      }
      todo := todo - {x};
      forall z | z in raw - todo
        ensures MapsTo(d, raw, mapping, z)
      {
        if z != x { assert MapsTo(d, raw, before, z); }
      }
    }
  }

  /** So the map binds exactly the ids from which a full chain of links starts, to the company it leads to. */
  lemma MapFollowsChains(d: Directory, raw: set<int>, mapping: map<int, Option<int>>, x: int)
    requires MapsTo(d, raw, mapping, x)
    ensures x in mapping <==> exists chain, y :: FullChain(d, raw, d.companies.Keys, chain, x, y)
    ensures forall chain, y | FullChain(d, raw, d.companies.Keys, chain, x, y) ::
        x in mapping && BindsTo(d, mapping[x], y)
  {
    hide Links, FullChain, BindsTo, Cycles, Ends;
    var next := Links(d, raw);
    if x in mapping {
      var y :| Ends(next, x, y) && BindsTo(d, mapping[x], y);
      EndsAreChains(d, raw, x, y);
    }
    forall chain, y | FullChain(d, raw, d.companies.Keys, chain, x, y)
      ensures x in mapping && BindsTo(d, mapping[x], y)
    {
      EndsAreChains(d, raw, x, y);
      if Cycles(next, x) { CyclesMeansNoEnd(next, x, y); }
      var z :| Ends(next, x, z) && BindsTo(d, mapping[x], z);
      EndIsUnique(next, x, y, z);
    }
  }

  method CanonicalId(d: Directory, raw: set<int>, x: int) returns (cid: Option<int>)
    requires x in raw
    ensures cid.Some? <==> exists y :: Ends(LoadedLinks(d, raw), x, y) && y in raw && y in d.companies
    ensures cid.Some? ==> Ends(LoadedLinks(d, raw), x, cid.value) && cid.value in raw && cid.value in d.companies
  {
    var next := LoadedLinks(d, raw);
    NodesAreClosed(d, raw);
    var end := Follow(next, x, Nodes(d, raw));
    if end.Some? && end.value in raw && end.value in d.companies {
      cid := end;
    } else {
      cid := None;
      forall y
        ensures !(Ends(next, x, y) && y in raw && y in d.companies)
      {
        if end.None? { CyclesMeansNoEnd(next, x, y); }
        else if Ends(next, x, y) { EndIsUnique(next, x, y, end.value); }
      }
    }
  }

  // ---------------------------------------------------------------- the two endpoints agree

  /** Every link of the chain up to `n` starts at a raw id. */
  ghost predicate StaysInRaw(d: Directory, raw: set<int>, x: int, n: nat) {
    forall i: nat | i <= n :: At(Links(d, raw), x, i).Some? ==> At(Links(d, raw), x, i).value in raw
  }

  /** `more` may hold further raw ids, as the ids of a longer period do. */
  lemma LoadedIsLinkInRaw(d: Directory, raw: set<int>, more: set<int>, y: int)
    requires raw <= more
    ensures y in raw ==> LoadedLinks(d, raw)(y) == Links(d, more)(y)
    ensures y !in raw ==> LoadedLinks(d, raw)(y).None?
  {
  }

  lemma {:induction false} LoadedChain(d: Directory, raw: set<int>, more: set<int>, x: int, n: nat)
    requires raw <= more && x in raw && At(LoadedLinks(d, raw), x, n).Some?
    ensures At(Links(d, more), x, n) == At(LoadedLinks(d, raw), x, n)
    ensures forall i: nat | i < n :: At(Links(d, more), x, i).Some? ==> At(Links(d, more), x, i).value in raw
  {
    hide Links, LoadedLinks;
    if n > 0 {
      LoadedChain(d, raw, more, x, n - 1);
      LoadedIsLinkInRaw(d, raw, more, At(LoadedLinks(d, raw), x, n - 1).value);
    }
  }

  lemma {:induction false} ChainInRawIsLoaded(d: Directory, raw: set<int>, x: int, n: nat)
    requires StaysInRaw(d, raw, x, n)
    ensures At(LoadedLinks(d, raw), x, n) == At(Links(d, raw), x, n)
  {
    hide Links, LoadedLinks;
    if n > 0 {
      ChainInRawIsLoaded(d, raw, x, n - 1);
      var y := At(Links(d, raw), x, n - 1);
      if y.Some? { LoadedIsLinkInRaw(d, raw, raw, y.value); }
    }
  }

  /** The ranking resolves `x` to `y` exactly when the map does and the whole chain, `y` included, is among the raw
      ids. */
  lemma RankingAgreesIff(d: Directory, raw: set<int>, x: int, y: int)
    requires x in raw
    ensures Ends(LoadedLinks(d, raw), x, y) && y in raw && y in d.companies <==>
            y in d.companies && Links(d, raw)(y).None? &&
            exists n: nat :: At(Links(d, raw), x, n) == Some(y) && StaysInRaw(d, raw, x, n)
  {
    hide Links, LoadedLinks;
    LoadedIsLinkInRaw(d, raw, raw, y);
    if Ends(LoadedLinks(d, raw), x, y) && y in raw {
      var n: nat :| At(LoadedLinks(d, raw), x, n) == Some(y);
      LoadedChain(d, raw, raw, x, n);
      assert StaysInRaw(d, raw, x, n);
    }
    if n: nat :| At(Links(d, raw), x, n) == Some(y) && StaysInRaw(d, raw, x, n) {
      ChainInRawIsLoaded(d, raw, x, n);
    }
  }

  /**
   * So whenever the ranking returns a company, the map returns the same one, also when the map was built for more
   * raw ids than the ranking saw.
   */
  lemma RankingImpliesMap(d: Directory, raw: set<int>, more: set<int>, mapping: map<int, Option<int>>, x: int, y: int)
    requires raw <= more && x in raw && MapsTo(d, more, mapping, x)
    requires Ends(LoadedLinks(d, raw), x, y) && y in raw && y in d.companies
    ensures x in mapping && mapping[x] == Some(y)
  {
    hide Links, LoadedLinks;
    var n: nat :| At(LoadedLinks(d, raw), x, n) == Some(y);
    LoadedChain(d, raw, more, x, n);
    LoadedIsLinkInRaw(d, raw, more, y);
    assert Ends(Links(d, more), x, y);
    if Cycles(Links(d, more), x) { CyclesMeansNoEnd(Links(d, more), x, y); }
    var z :| Ends(Links(d, more), x, z) && BindsTo(d, mapping[x], z);
    EndIsUnique(Links(d, more), x, y, z);
  }
}
