/** Matching closed tenders to contract awards: indexes, candidates, unique resolution and the marking loop. */
module Awards {
  import opened Outcomes
  import opened Ordered

  datatype Award = Award(id: int, title: string, description: string, buyer: string, date: string)

  /** Text functions whose bodies do not matter: solicitation codes, the normal form, and date parsing. */
  datatype Lib = Lib(codes: string -> set<string>, norm: string -> string, date: string -> Option<int>)

  type TitleKey = (string, string)

  datatype Indexes = Indexes(byCode: map<string, seq<Award>>, byTitle: map<TitleKey, seq<Award>>)

  datatype Signal = Code | TitleBuyer

  datatype Match = Match(award: int, signal: Signal, date: string)

  // ---------------------------------------------------------------- the full scan

  function CodesOf(a: Award, lib: Lib): set<string> {
    lib.codes(a.title) + lib.codes(a.description)
  }

  function KeyOf(a: Award, lib: Lib): TitleKey {
    (lib.norm(a.title), lib.norm(a.buyer))
  }

  predicate UsableKey(k: TitleKey) {
    k.0 != "" && k.1 != ""
  }

  function WithCode(awards: seq<Award>, code: string, lib: Lib): seq<Award> {
    if |awards| == 0 then []
    else
      var before, a := WithCode(awards[..|awards| - 1], code, lib), awards[|awards| - 1];
      if code in CodesOf(a, lib) then before + [a] else before
  }

  function WithKey(awards: seq<Award>, key: TitleKey, lib: Lib): seq<Award> {
    if |awards| == 0 then []
    else
      var before, a := WithKey(awards[..|awards| - 1], key, lib), awards[|awards| - 1];
      if KeyOf(a, lib) == key then before + [a] else before
  }

  /** Awards are identified by their id. */
  predicate DistinctIds(awards: seq<Award>) {
    forall i, j | 0 <= i < j < |awards| :: awards[i].id != awards[j].id
  }

  function AwardDate(date: string, now: int, lib: Lib): int {
    match lib.date(date) case None => now case Some(d) => d
  }

  /** The only candidate, or the only one dated on or after the close. */
  function Resolve(candidates: set<Award>, closedAt: Option<int>, now: int, lib: Lib): Option<Award> {
    if |candidates| == 1 then Some(TheOne(candidates))
    else if closedAt.None? then None
    else
      var after := set a | a in candidates && AwardDate(a.date, now, lib) >= closedAt.value;
      if |after| == 1 then Some(TheOne(after)) else None
  }

  lemma OneMember<T>(s: set<T>)
    requires |s| == 1
    ensures exists x :: x in s && s == {x}
  {
    var x := SomeMember(s);
    assert |s - {x}| == 0;
    assert s == {x} + (s - {x});
  }

  function TheOne<T>(s: set<T>): (x: T)
    requires |s| == 1
    ensures s == {x}
  {
    OneMember(s);
    var x :| x in s && s == {x};
    x
  }

  function CodeCandidates(awards: set<Award>, title: string, lib: Lib): set<Award> {
    set a | a in awards && Shares(CodesOf(a, lib), lib.codes(title))
  }

  predicate Shares(a: set<string>, b: set<string>) {
    a * b != {}
  }

  function TitleCandidates(awards: set<Award>, title: string, buyer: string, lib: Lib): set<Award> {
    set a | a in awards && UsableKey(KeyOf(a, lib)) && KeyOf(a, lib) == (lib.norm(title), lib.norm(buyer))
  }

  /** What the matcher promises, as a question about the set of awards: codes first, then title and buyer. */
  function Scan(awards: set<Award>, title: string, buyer: string, closedAt: Option<int>, now: int,
                lib: Lib): Option<Match> {
    match Resolve(CodeCandidates(awards, title, lib), closedAt, now, lib)
    case Some(a) => Some(Match(a.id, Code, a.date))
    case None =>
      match Resolve(TitleCandidates(awards, title, buyer, lib), closedAt, now, lib)
      case Some(a) => Some(Match(a.id, TitleBuyer, a.date))
      case None => None
  }

  function AsSet(awards: seq<Award>): set<Award> {
    set a | a in awards
  }

  // ---------------------------------------------------------------- the indexes

  function Lookup<K>(m: map<K, seq<Award>>, k: K): seq<Award> {
    if k in m then m[k] else []
  }

  /** Each index entry is the full scan for its key, in the order of the awards. */
  ghost predicate Indexed(ix: Indexes, awards: seq<Award>, lib: Lib) {
    && (forall c :: Lookup(ix.byCode, c) == WithCode(awards, c, lib))
    && (forall k :: Lookup(ix.byTitle, k) == if UsableKey(k) then WithKey(awards, k, lib) else [])
  }

  method BuildAwardIndexes(awards: seq<Award>, lib: Lib) returns (ix: Indexes)
    ensures Indexed(ix, awards, lib)
  {
    var byCode: map<string, seq<Award>> := map[];
    var byTitle: map<TitleKey, seq<Award>> := map[];
    for i := 0 to |awards|
      invariant forall c :: Lookup(byCode, c) == WithCode(awards[..i], c, lib)
      invariant forall k :: Lookup(byTitle, k) == if UsableKey(k) then WithKey(awards[..i], k, lib) else []
    {
      var award := awards[i];
      var done := awards[..i + 1];
      assert done[..|done| - 1] == awards[..i] && done[|done| - 1] == award;
      byCode := AddCodes(byCode, award, CodesOf(award, lib));
      var key := KeyOf(award, lib);
      if UsableKey(key) {
        byTitle := byTitle[key := Lookup(byTitle, key) + [award]];
      }
    }
    assert awards[..|awards|] == awards;
    return Indexes(byCode, byTitle);
  }

  method AddCodes(byCode: map<string, seq<Award>>, award: Award, codes: set<string>)
    returns (r: map<string, seq<Award>>)
    ensures forall c :: Lookup(r, c) == if c in codes then Lookup(byCode, c) + [award] else Lookup(byCode, c)
  {
    r := byCode;
    var todo := codes;
    while todo != {}
      invariant todo <= codes
      invariant forall c :: Lookup(r, c) == if c in codes - todo then Lookup(byCode, c) + [award] else Lookup(byCode, c)
      decreases |todo|
    {
      ghost var some := SomeMember(todo);
      var code :| code in todo;
      r := r[code := Lookup(r, code) + [award]];
      todo := todo - {code};
    }
  }

  // ---------------------------------------------------------------- matching through the indexes

  function Ids(awards: seq<Award>): set<int> {
    set i | 0 <= i < |awards| :: awards[i].id
  }

  method ResolveUniqueAward(candidates: seq<Award>, closedAt: Option<int>, now: int, lib: Lib)
    returns (r: Option<Award>)
    requires DistinctIds(candidates)
    ensures r == Resolve(AsSet(candidates), closedAt, now, lib)
  {
    SizeOfDistinct(candidates);
    if |candidates| == 0 {
      NoMember(AsSet(candidates));
      assert closedAt.Some? ==> (set a | a in AsSet(candidates) && AwardDate(a.date, now, lib) >= closedAt.value) == {};
      return None;
    }
    if |candidates| == 1 {
      assert candidates[0] in AsSet(candidates);
      return Some(candidates[0]);
    }
    if closedAt.Some? {
      var after: seq<Award> := [];
      for i := 0 to |candidates|
        invariant DistinctIds(after)
        invariant forall a :: a in after <==> a in candidates[..i] && AwardDate(a.date, now, lib) >= closedAt.value
      {
        assert candidates[..i + 1] == candidates[..i] + [candidates[i]];
        if AwardDate(candidates[i].date, now, lib) >= closedAt.value {
          assert forall j | 0 <= j < |after| :: after[j] in candidates[..i];
          after := after + [candidates[i]];
        }
      }
      assert candidates[..|candidates|] == candidates;
      SizeOfDistinct(after);
      assert AsSet(after) == set a | a in AsSet(candidates) && AwardDate(a.date, now, lib) >= closedAt.value;
      if |after| == 1 {
        assert after[0] in AsSet(after);
        return Some(after[0]);
      }
    }
    return None;
  }

  lemma {:induction false} SizeOfDistinct(awards: seq<Award>)
    requires DistinctIds(awards)
    ensures |AsSet(awards)| == |awards|
  {
    if |awards| == 0 {
      NoMember(AsSet(awards));
    } else {
      var init, last := awards[..|awards| - 1], awards[|awards| - 1];
      SizeOfDistinct(init);
      assert last !in init;
      assert awards == init + [last];
      assert AsSet(awards) == AsSet(init) + {last};
    }
  }

  lemma {:induction false} WithCodeMembers(awards: seq<Award>, code: string, lib: Lib, a: Award)
    ensures a in WithCode(awards, code, lib) <==> a in awards && code in CodesOf(a, lib)
  {
    if |awards| > 0 {
      WithCodeMembers(awards[..|awards| - 1], code, lib, a);
      assert awards == awards[..|awards| - 1] + [awards[|awards| - 1]];
    }
  }

  lemma {:induction false} WithKeyMembers(awards: seq<Award>, key: TitleKey, lib: Lib, a: Award)
    ensures a in WithKey(awards, key, lib) <==> a in awards && KeyOf(a, lib) == key
  {
    if |awards| > 0 {
      WithKeyMembers(awards[..|awards| - 1], key, lib, a);
      assert awards == awards[..|awards| - 1] + [awards[|awards| - 1]];
    }
  }

  lemma {:induction false} WithKeyDistinct(awards: seq<Award>, key: TitleKey, lib: Lib)
    requires DistinctIds(awards)
    ensures DistinctIds(WithKey(awards, key, lib))
  {
    if |awards| > 0 {
      var init := awards[..|awards| - 1];
      WithKeyDistinct(init, key, lib);
      forall i | 0 <= i < |WithKey(init, key, lib)|
        ensures WithKey(init, key, lib)[i] in init
      {
        WithKeyMembers(init, key, lib, WithKey(init, key, lib)[i]);
      }
    }
  }

  /** Candidates by code, each award once however many codes it shares. */
  method CollectCodeCandidates(ix: Indexes, ghost awards: seq<Award>, title: string, lib: Lib) returns (r: seq<Award>)
    requires Indexed(ix, awards, lib) && DistinctIds(awards)
    ensures DistinctIds(r) && AsSet(r) == CodeCandidates(AsSet(awards), title, lib)
  {
    hide Shares, CodesOf;
    r := [];
    var todo := lib.codes(title);
    ghost var tried := {};
    NothingSharesEmpty();
    while todo != {}
      invariant todo + tried == lib.codes(title)
      invariant DistinctIds(r)
      invariant forall a :: a in r <==> a in awards && Shares(CodesOf(a, lib), tried)
      decreases |todo|
    {
      ghost var some := SomeMember(todo);
      var code :| code in todo;
      var found := LookupCode(ix, awards, code, lib);
      r := AddUnseen(r, found, awards);
      SharesOneMore(tried, code);
      todo, tried := todo - {code}, tried + {code};
    }
    assert tried == lib.codes(title);
    assert AsSet(r) == CodeCandidates(AsSet(awards), title, lib) by {
      assert forall a :: a in AsSet(r) <==> a in CodeCandidates(AsSet(awards), title, lib);
    }
  }

  method LookupCode(ix: Indexes, ghost awards: seq<Award>, code: string, lib: Lib) returns (r: seq<Award>)
    requires Indexed(ix, awards, lib)
    ensures forall a :: a in r <==> a in awards && code in CodesOf(a, lib)
  {
    r := Lookup(ix.byCode, code);
    forall a
      ensures a in r <==> a in awards && code in CodesOf(a, lib)
    {
      WithCodeMembers(awards, code, lib, a);
    }
  }

  lemma NothingSharesEmpty()
    ensures forall codes: set<string> :: !Shares(codes, {})
  {
    forall codes: set<string>
      ensures !Shares(codes, {})
    {
      NoMember(codes * {});
    }
  }

  lemma SharesOneMore(tried: set<string>, code: string)
    ensures forall codes :: Shares(codes, tried + {code}) <==> code in codes || Shares(codes, tried)
  {
    forall codes
      ensures Shares(codes, tried + {code}) <==> code in codes || Shares(codes, tried)
    {
      if Shares(codes, tried + {code}) {
        var c := SomeMember(codes * (tried + {code}));
        assert c == code || c in codes * tried;
      }
      if Shares(codes, tried) {
        var c := SomeMember(codes * tried);
        assert c in codes * (tried + {code});
      }
      if code in codes { assert code in codes * (tried + {code}); }
    }
  }

  method AddUnseen(seen: seq<Award>, more: seq<Award>, ghost awards: seq<Award>) returns (r: seq<Award>)
    requires DistinctIds(awards) && DistinctIds(seen)
    requires (forall a | a in seen :: a in awards) && forall a | a in more :: a in awards
    ensures DistinctIds(r)
    ensures forall a :: a in r <==> a in seen || a in more
  {
    r := seen;
    for i := 0 to |more|
      invariant DistinctIds(r)
      invariant forall a :: a in r <==> a in seen || a in more[..i]
    {
      assert more[..i + 1] == more[..i] + [more[i]];
      assert more[i] in more;
      if more[i].id !in Ids(r) {
        r := r + [more[i]];
      } else {
        SameIdSameAward(awards, r, more[i]);
      }
    }
    assert more[..|more|] == more;
  }

  lemma SameIdSameAward(awards: seq<Award>, r: seq<Award>, a: Award)
    requires DistinctIds(awards) && a in awards && (forall x | x in r :: x in awards) && a.id in Ids(r)
    ensures a in r
  {
    var j :| 0 <= j < |r| && r[j].id == a.id;
    var p :| 0 <= p < |awards| && awards[p] == a;
    assert r[j] in awards;
    var q :| 0 <= q < |awards| && awards[q] == r[j];
  }

  /** Matching through the indexes gives the answer of the full scan. */
  method FindAwardMatch(title: string, buyer: string, closedAt: Option<int>, ix: Indexes, now: int, lib: Lib,
                        ghost awards: seq<Award>) returns (r: Option<Match>)
    requires Indexed(ix, awards, lib) && DistinctIds(awards)
    ensures r == Scan(AsSet(awards), title, buyer, closedAt, now, lib)
  {
    var byCode := CollectCodeCandidates(ix, awards, title, lib);
    var code := ResolveUniqueAward(byCode, closedAt, now, lib);
    if code.Some? {
      return Some(Match(code.value.id, Code, code.value.date));
    }
    var key := (lib.norm(title), lib.norm(buyer));
    var byTitle := if UsableKey(key) then Lookup(ix.byTitle, key) else [];
    WithKeyDistinct(awards, key, lib);
    forall a
      ensures a in AsSet(byTitle) <==> a in TitleCandidates(AsSet(awards), title, buyer, lib)
    {
      WithKeyMembers(awards, key, lib, a);
    }
    assert AsSet(byTitle) == TitleCandidates(AsSet(awards), title, buyer, lib);
    var award := ResolveUniqueAward(byTitle, closedAt, now, lib);
    if award.Some? {
      return Some(Match(award.value.id, TitleBuyer, award.value.date));
    }
    return None;
  }
}
