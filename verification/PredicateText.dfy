/** The normal form in which index predicates and CHECK definitions are compared, and what it cannot tell apart. */
module PredicateText {
  import opened Text

  predicate IsWord(c: char) {
    'a' <= c <= 'z' || 'A' <= c <= 'Z' || c == '_'
  }

  /** Where the words that start at `i` end; words are one blank apart. */
  function WordsEnd(s: string, i: nat): (j: nat)
    requires i <= |s|
    ensures i <= j <= |s|
    decreases |s| - i
  {
    if i < |s| && IsWord(s[i]) then WordsEnd(s, i + 1)
    else if i + 1 < |s| && s[i] == ' ' && IsWord(s[i + 1]) then WordsEnd(s, i + 2)
    else i
  }

  predicate CastAt(s: string) {
    |s| > 2 && s[0] == ':' && s[1] == ':' && IsWord(s[2])
  }

  /** Removing `::type name` casts, leftmost first and as long as possible. */
  function StripCasts(s: string): string
    decreases |s|
  {
    if |s| == 0 then ""
    else if CastAt(s) then StripCasts(s[WordsEnd(s, 2)..])
    else [s[0]] + StripCasts(s[1..])
  }

  function DropParens(s: string): string {
    if |s| == 0 then ""
    else if s[0] == '(' || s[0] == ')' then DropParens(s[1..])
    else [s[0]] + DropParens(s[1..])
  }

  function LowerChar(c: char): char {
    if 'A' <= c <= 'Z' then c - 'A' + 'a' else c
  }

  function Lower(s: string): string {
    seq(|s|, i requires 0 <= i < |s| => LowerChar(s[i]))
  }

  /** Every capital becomes the small letter at its place in the alphabet; everything else stays. */
  lemma LowerIs(s: string, i: nat)
    requires i < |s|
    ensures |Lower(s)| == |s|
    ensures 'A' <= s[i] <= 'Z' ==> 'a' <= Lower(s)[i] <= 'z' && (Lower(s)[i] - 'a') == (s[i] - 'A')
    ensures !('A' <= s[i] <= 'Z') ==> Lower(s)[i] == s[i]
  {
  }

  /** `_normalize_predicate`. */
  function Normalize(s: string): string {
    Clean(Lower(DropParens(StripCasts(s))))
  }

  /** `rest` cannot go on with the words of a cast that ends before it. */
  predicate EndsWords(rest: string) {
    |rest| > 0 ==> !IsWord(rest[0]) && rest[0] != ' '
  }

  lemma {:induction false} WordsStopBefore(p: string, rest: string, i: nat)
    requires i <= |p| && EndsWords(rest)
    ensures WordsEnd(p + rest, i) == WordsEnd(p, i)
    decreases |p| - i
  {
    if i < |p| && IsWord(p[i]) { WordsStopBefore(p, rest, i + 1); }
    else if i + 1 < |p| && p[i] == ' ' && IsWord(p[i + 1]) { WordsStopBefore(p, rest, i + 2); }
  }

  /** One or more words, one blank apart. */
  predicate Words(w: string) {
    && |w| > 0 && IsWord(w[0])
    && forall i | 0 <= i < |w| :: IsWord(w[i]) || (w[i] == ' ' && i + 1 < |w| && IsWord(w[i + 1]))
  }

  lemma {:induction false} WordsRunToTheEnd(w: string, rest: string, i: nat)
    requires Words(w) && EndsWords(rest) && i <= |w|
    ensures WordsEnd("::" + w + rest, i + 2) == |w| + 2
    decreases |w| - i
  {
    var s := "::" + w + rest;
    if i < |w| {
      assert s[i + 2] == w[i];
      if IsWord(w[i]) { WordsRunToTheEnd(w, rest, i + 1); }
      else {
        assert s[i + 3] == w[i + 1];
        WordsRunToTheEnd(w, rest, i + 2);
      }
    }
  }

  /** No colon of `p` and `rest` meet. */
  predicate ColonsApart(p: string, rest: string) {
    |p| > 0 && |rest| > 0 && rest[0] == ':' ==> p[|p| - 1] != ':'
  }

  /** A cast at the start of `p` ends within `p`. */
  lemma CastAtStart(p: string, rest: string)
    requires CastAt(p) && EndsWords(rest)
    ensures StripCasts(p + rest) == StripCasts(p[WordsEnd(p, 2)..] + rest)
  {
    WordsStopBefore(p, rest, 2);
    assert (p + rest)[WordsEnd(p, 2)..] == p[WordsEnd(p, 2)..] + rest;
    assert CastAt(p + rest);
  }

  lemma NoCastAtFirst(p: string, rest: string)
    requires |p| > 0 && !CastAt(p) && EndsWords(rest) && (|p| > 1 || !CastAt(p + rest))
    ensures StripCasts(p + rest) == [p[0]] + StripCasts(p[1..] + rest)
  {
    NoCastStarts(p, rest);
    assert (p + rest)[1..] == p[1..] + rest;
  }

  lemma {:induction false} CastTailStripped(p: string, w: string, rest: string)
    requires Words(w) && EndsWords(rest) && ColonsApart(p, rest)
    ensures StripCasts(p + ("::" + w + rest)) == StripCasts(p + rest)
    decreases |p|
  {
    hide StripCasts, WordsEnd, Words;
    var tail := "::" + w + rest;
    if |p| == 0 {
      assert p + tail == tail && p + rest == rest;
      CastAlone(w, rest);
    } else if CastAt(p) {
      CastAtStart(p, tail);
      CastAtStart(p, rest);
      CastTailStripped(p[WordsEnd(p, 2)..], w, rest);
    } else {
      NoCastAtFirst(p, tail);
      NoCastAtFirst(p, rest);
      CastTailStripped(p[1..], w, rest);
    }
  }

  lemma CastAlone(w: string, rest: string)
    requires Words(w) && EndsWords(rest)
    ensures StripCasts("::" + w + rest) == StripCasts(rest)
  {
    var s := "::" + w + rest;
    WordsRunToTheEnd(w, rest, 0);
    assert s[2] == w[0] && s[WordsEnd(s, 2)..] == rest;
  }

  lemma NoCastStarts(p: string, rest: string)
    requires |p| > 0 && !CastAt(p) && EndsWords(rest) && (|p| > 1 || !CastAt(p + rest))
    ensures !CastAt(p + rest)
  {
    var s := p + rest;
    if |p| > 1 { assert s[0] == p[0] && s[1] == p[1]; }
    if |p| > 2 { assert s[2] == p[2]; }
    if |p| == 2 && |rest| > 0 { assert s[2] == rest[0]; }
  }

  /**
   * A cast takes all following words with it: up to a parenthesis, `p::boolean AND verified` has the normal form of
   * `p`, so a predicate with a further conjunct is taken for the one without.
   */
  lemma CastSwallowsTheRest(p: string, w: string, rest: string)
    requires Words(w) && EndsWords(rest) && ColonsApart(p, rest)
    ensures Normalize(p + "::" + w + rest) == Normalize(p + rest)
  {
    CastTailStripped(p, w, rest);
    assert p + "::" + w + rest == p + ("::" + w + rest);
  }

  predicate NoCast(s: string) {
    forall i | 0 <= i < |s| :: !CastAt(s[i..])
  }

  lemma {:induction false} NothingToStrip(s: string)
    requires NoCast(s)
    ensures StripCasts(s) == s
  {
    if |s| > 0 {
      assert s[0..] == s && s == [s[0]] + s[1..];
      forall i | 0 <= i < |s[1..]|
        ensures !CastAt(s[1..][i..])
      {
        assert s[1..][i..] == s[i + 1..];
      }
      NothingToStrip(s[1..]);
    }
  }

  lemma NoColonNoCast(s: string)
    requires ':' !in s
    ensures NoCast(s)
  {
    forall i | 0 <= i < |s|
      ensures !CastAt(s[i..])
    {
      assert s[i..][0] == s[i];
    }
  }

  lemma {:induction false} DropParensSplits(a: string, b: string)
    ensures DropParens(a + b) == DropParens(a) + DropParens(b)
  {
    if |a| == 0 {
      assert a + b == b;
    } else {
      assert (a + b)[1..] == a[1..] + b;
      DropParensSplits(a[1..], b);
    }
  }

  /** Without casts, a parenthesis anywhere makes no difference. */
  lemma ParensDoNotMatter(a: string, paren: char, b: string)
    requires paren in "()" && ':' !in a && ':' !in b
    ensures Normalize(a + [paren] + b) == Normalize(a + b)
  {
    NoColonNoCast(a + [paren] + b);
    NoColonNoCast(a + b);
    NothingToStrip(a + [paren] + b);
    NothingToStrip(a + b);
    hide Clean, Lower, StripCasts;
    calc {
      DropParens(a + [paren] + b);
      { DropParensSplits(a + [paren], b); }
      DropParens(a + [paren]) + DropParens(b);
      { DropParensSplits(a, [paren]); assert DropParens([paren]) == ""; }
      DropParens(a) + DropParens(b);
      { DropParensSplits(a, b); }
      DropParens(a + b);
    }
  }

  // ---------------------------------------------------------------- what the normal form keeps of a text

  /** The words of a text, in lower case: parentheses count for nothing, not even as an end of a word. */
  function WordsOf(s: string, word: string): seq<string>
    decreases |s|
  {
    if |s| == 0 then Finished(word)
    else if s[0] == '(' || s[0] == ')' then WordsOf(s[1..], word)
    else if IsSpace(s[0]) then Finished(word) + WordsOf(s[1..], "")
    else WordsOf(s[1..], word + [LowerChar(s[0])])
  }

  lemma LowerIsSolid(c: char)
    ensures IsSpace(LowerChar(c)) == IsSpace(c)
  {
  }

  lemma {:induction false} WordsOfIsWordsIn(s: string, word: string)
    ensures WordsOf(s, word) == WordsIn(Lower(DropParens(s)), word)
    decreases |s|
  {
    if |s| > 0 {
      if s[0] == '(' || s[0] == ')' {
        WordsOfIsWordsIn(s[1..], word);
      } else {
        var low := Lower(DropParens(s));
        assert low[0] == LowerChar(s[0]) && low[1..] == Lower(DropParens(s[1..]));
        LowerIsSolid(s[0]);
        if IsSpace(s[0]) { WordsOfIsWordsIn(s[1..], ""); } else { WordsOfIsWordsIn(s[1..], word + [LowerChar(s[0])]); }
      }
    }
  }

  lemma NormalizeIsSpaced(s: string)
    ensures Normalize(s) == Spaced(WordsOf(StripCasts(s), "")) && AllSolid(WordsOf(StripCasts(s), ""))
  {
    hide StripCasts, DropParens, Lower, Spaced, Collapse, Strip;
    WordsOfIsWordsIn(StripCasts(s), "");
    CleanIsSpaced(Lower(DropParens(StripCasts(s))), "");
    WordsAreSolid(Lower(DropParens(StripCasts(s))), "");
  }

  /** Two texts have one normal form exactly when, their casts removed, they have the same words in the same order:
      whatever the parentheses group, and wherever they stand. */
  lemma SameFormIff(a: string, b: string)
    ensures Normalize(a) == Normalize(b) <==> WordsOf(StripCasts(a), "") == WordsOf(StripCasts(b), "")
    ensures NoCast(a) && NoCast(b) ==> (Normalize(a) == Normalize(b) <==> WordsOf(a, "") == WordsOf(b, ""))
  {
    hide Normalize, StripCasts, WordsOf, NoCast;
    NormalizeIsSpaced(a);
    NormalizeIsSpaced(b);
    WordsOfSpaced(WordsOf(StripCasts(a), ""));
    WordsOfSpaced(WordsOf(StripCasts(b), ""));
    if NoCast(a) && NoCast(b) {
      NothingToStrip(a);
      NothingToStrip(b);
    }
  }

  // ---------------------------------------------------------------- exactly when something is lost

  /** Where the one word at `i` ends. */
  function NameEnd(s: string, i: nat): (j: nat)
    requires i <= |s|
    ensures i <= j <= |s|
    decreases |s| - i
  {
    if i < |s| && IsWord(s[i]) then NameEnd(s, i + 1) else i
  }

  /** The end of the `n`-th further word behind the one at `i`, or of the last one. */
  function NthEnd(s: string, i: nat, n: nat): (j: nat)
    requires i <= |s|
    ensures i <= j <= |s|
  {
    if n == 0 then NameEnd(s, i)
    else
      var j := NthEnd(s, i, n - 1);
      if j + 1 < |s| && s[j] == ' ' && IsWord(s[j + 1]) then NameEnd(s, j + 1) else j
  }

  /** The type names of several words that the database prints. */
  predicate LongType(name: string) {
    name in {"character varying", "bit varying", "double precision", "timestamp with time zone",
             "timestamp without time zone", "time with time zone", "time without time zone"}
  }

  /** Where the type name at `i` ends. */
  function TypeEnd(s: string, i: nat): (j: nat)
    requires i <= |s|
    ensures i <= j <= |s|
  {
    if LongType(s[i..NthEnd(s, i, 3)]) then NthEnd(s, i, 3)
    else if LongType(s[i..NthEnd(s, i, 1)]) then NthEnd(s, i, 1)
    else NameEnd(s, i)
  }

  /** Removing `::type name` and nothing after the type name. */
  function StripTypes(s: string): string
    decreases |s|
  {
    if |s| == 0 then ""
    else if CastAt(s) then StripTypes(s[TypeEnd(s, 2)..])
    else [s[0]] + StripTypes(s[1..])
  }

  /** The normal form that keeps what follows a type name. */
  function NormalizeByType(s: string): string {
    Clean(Lower(DropParens(StripTypes(s))))
  }

  /** At `i` a cast whose type name is followed by a blank and a word. */
  predicate CastWithMore(s: string, i: nat)
    requires i <= |s|
  {
    CastAt(s[i..]) && var j := TypeEnd(s[i..], 2); j + 1 < |s| - i && s[i..][j] == ' ' && IsWord(s[i..][j + 1])
  }

  predicate SomeCastHasMore(s: string) {
    exists i | 0 <= i < |s| :: CastWithMore(s, i)
  }

  /** Letters and underscores of a text. */
  function Weight(s: string): nat {
    if |s| == 0 then 0 else (if IsWord(s[0]) then 1 else 0) + Weight(s[1..])
  }

  lemma {:induction false} WeightOfSum(a: string, b: string)
    ensures Weight(a + b) == Weight(a) + Weight(b)
  {
    if |a| == 0 {
      assert a + b == b;
    } else {
      assert (a + b)[1..] == a[1..] + b;
      WeightOfSum(a[1..], b);
    }
  }

  lemma {:induction false} DropParensWeight(s: string)
    ensures Weight(DropParens(s)) == Weight(s)
  {
    if |s| > 0 { DropParensWeight(s[1..]); }
  }

  lemma {:induction false} LowerWeight(s: string)
    ensures Weight(Lower(s)) == Weight(s)
  {
    if |s| > 0 {
      assert Lower(s)[1..] == Lower(s[1..]);
      assert IsWord(LowerChar(s[0])) == IsWord(s[0]) by { LowerIsWord(s[0]); }
      LowerWeight(s[1..]);
    }
  }

  lemma LowerIsWord(c: char)
    ensures IsWord(LowerChar(c)) == IsWord(c)
  {
  }

  lemma {:induction false} CollapseWeight(s: string)
    ensures Weight(Collapse(s)) == Weight(s)
  {
    if |s| > 0 { CollapseWeight(s[1..]); }
  }

  lemma {:induction false} StripLeftWeight(s: string)
    ensures Weight(StripLeft(s)) == Weight(s)
  {
    if |s| > 0 { StripLeftWeight(s[1..]); }
  }

  lemma {:induction false} StripRightWeight(s: string)
    ensures Weight(StripRight(s)) == Weight(s)
  {
    if |s| > 0 && IsSpace(s[|s| - 1]) {
      StripRightWeight(s[..|s| - 1]);
      WeightOfSum(s[..|s| - 1], [s[|s| - 1]]);
      assert s == s[..|s| - 1] + [s[|s| - 1]];
    }
  }

  /** Dropping parentheses, lower case and cleaning keep every letter. */
  lemma FormWeight(s: string)
    ensures Weight(Clean(Lower(DropParens(s)))) == Weight(s)
  {
    DropParensWeight(s);
    LowerWeight(DropParens(s));
    CollapseWeight(Lower(DropParens(s)));
    StripLeftWeight(Collapse(Lower(DropParens(s))));
    StripRightWeight(StripLeft(Collapse(Lower(DropParens(s)))));
  }

  /** Beyond the name there are further words exactly when a blank and a word follow it, and all of them are kept. */
  lemma {:induction false} NameThenWords(s: string, i: nat)
    requires i <= |s|
    ensures var j := NameEnd(s, i);
            && j <= WordsEnd(s, i) == WordsEnd(s, j)
            && (j < WordsEnd(s, i) <==> j + 1 < |s| && s[j] == ' ' && IsWord(s[j + 1]))
    decreases |s| - i
  {
    if i < |s| && IsWord(s[i]) { NameThenWords(s, i + 1); }
  }

  /** The same beyond any number of words, and so beyond a type name. */
  lemma {:induction false} NthThenWords(s: string, i: nat, n: nat)
    requires i <= |s|
    ensures var j := NthEnd(s, i, n);
            && j <= WordsEnd(s, i) == WordsEnd(s, j)
            && (j < WordsEnd(s, i) <==> j + 1 < |s| && s[j] == ' ' && IsWord(s[j + 1]))
  {
    if n == 0 {
      NameThenWords(s, i);
    } else {
      NthThenWords(s, i, n - 1);
      var j := NthEnd(s, i, n - 1);
      if j + 1 < |s| && s[j] == ' ' && IsWord(s[j + 1]) { NameThenWords(s, j + 1); }
    }
  }

  lemma TypeThenWords(s: string, i: nat)
    requires i <= |s|
    ensures var j := TypeEnd(s, i);
            && j <= WordsEnd(s, i) == WordsEnd(s, j)
            && (j < WordsEnd(s, i) <==> j + 1 < |s| && s[j] == ' ' && IsWord(s[j + 1]))
  {
    hide LongType, NthEnd, NameEnd, WordsEnd;
    NthThenWords(s, i, 3);
    NthThenWords(s, i, 1);
    NameThenWords(s, i);
  }

  /** From a place inside the words of a cast, stripping by type name keeps them up to their end. */
  lemma {:induction false} WordsAreKept(s: string, i: nat)
    requires i <= |s|
    ensures StripTypes(s[i..]) == s[i..WordsEnd(s, i)] + StripTypes(s[WordsEnd(s, i)..])
    decreases |s| - i
  {
    hide TypeEnd;
    if i < |s| && IsWord(s[i]) {
      assert s[i..][1..] == s[i + 1..];
      WordsAreKept(s, i + 1);
    } else if i + 1 < |s| && s[i] == ' ' && IsWord(s[i + 1]) {
      assert s[i..][1..] == s[i + 1..] && s[i + 1..][1..] == s[i + 2..];
      WordsAreKept(s, i + 2);
    }
  }

  lemma {:induction false} WeightOfWords(s: string, i: nat)
    requires i <= |s|
    ensures i + 1 < WordsEnd(s, i) && s[i] == ' ' ==> Weight(s[i..WordsEnd(s, i)]) > 0
  {
    if i + 1 < WordsEnd(s, i) && s[i] == ' ' {
      var w := s[i..WordsEnd(s, i)];
      assert w == [w[0]] + ([w[1]] + w[2..]);
      WeightOfSum([w[0]], [w[1]] + w[2..]);
      WeightOfSum([w[1]], w[2..]);
    }
  }

  lemma {:induction false} WordsHaveNoColon(s: string, i: nat, k: nat)
    requires i <= |s| && i <= k < WordsEnd(s, i)
    ensures s[k] != ':'
    decreases |s| - i
  {
    if i < k && IsWord(s[i]) { WordsHaveNoColon(s, i + 1, k); }
    else if i + 1 < k && !IsWord(s[i]) { WordsHaveNoColon(s, i + 2, k); }
  }

  lemma SuffixCasts(s: string, n: nat)
    requires n <= |s| && forall i | 0 <= i < n :: !CastWithMore(s, i)
    ensures SomeCastHasMore(s) <==> SomeCastHasMore(s[n..])
  {
    forall i | n <= i < |s|
      ensures CastWithMore(s, i) <==> CastWithMore(s[n..], i - n)
    {
      assert s[n..][i - n..] == s[i..];
    }
    if i :| 0 <= i < |s| && CastWithMore(s, i) { assert CastWithMore(s[n..], i - n); }
    if i :| 0 <= i < |s[n..]| && CastWithMore(s[n..], i) { assert CastWithMore(s, n + i); }
  }

  /** A cast has more at its start, or the text after its words has such a cast. */
  lemma CastsOfCast(s: string)
    requires CastAt(s)
    ensures TypeEnd(s, 2) <= WordsEnd(s, 2) <= |s|
    ensures SomeCastHasMore(s) <==> TypeEnd(s, 2) < WordsEnd(s, 2) || SomeCastHasMore(s[WordsEnd(s, 2)..])
  {
    hide TypeEnd;
    TypeThenWords(s, 2);
    assert s[0..] == s;
    if TypeEnd(s, 2) < WordsEnd(s, 2) {
      assert CastWithMore(s, 0);
    } else {
      forall i | 0 <= i < WordsEnd(s, 2)
        ensures !CastWithMore(s, i)
      {
        if i >= 2 { WordsHaveNoColon(s, 2, i); }
      }
      SuffixCasts(s, WordsEnd(s, 2));
    }
  }

  /** Stripping by type name keeps at least as many letters, more exactly when some cast has more, and else the same
      text. */
  lemma {:induction false} StrippersDifferIff(s: string)
    ensures Weight(StripTypes(s)) >= Weight(StripCasts(s))
    ensures if SomeCastHasMore(s) then Weight(StripTypes(s)) > Weight(StripCasts(s)) else StripTypes(s) == StripCasts(s)
    decreases |s|
  {
    hide SomeCastHasMore, CastWithMore, TypeEnd;
    if |s| == 0 {
      NothingHasMore(s);
    } else if CastAt(s) {
      var n, w := TypeEnd(s, 2), WordsEnd(s, 2);
      CastsOfCast(s);
      TypeThenWords(s, 2);
      WordsAreKept(s, n);
      WeightOfSum(s[n..w], StripTypes(s[w..]));
      WeightOfWords(s, n);
      StrippersDifferIff(s[w..]);
    } else {
      NoCastAtStart(s);
      StrippersDifferIff(s[1..]);
    }
  }

  lemma NothingHasMore(s: string)
    requires |s| == 0
    ensures !SomeCastHasMore(s)
  {
  }

  lemma NoCastAtStart(s: string)
    requires |s| > 0 && !CastAt(s)
    ensures SomeCastHasMore(s) <==> SomeCastHasMore(s[1..])
  {
    assert s[0..] == s;
    SuffixCasts(s, 1);
  }

  /** The normal form is the one that drops type names only, exactly when no type name of a cast is followed by a blank
      and a word. */
  lemma NormalizeKeepsIff(s: string)
    ensures Normalize(s) == NormalizeByType(s) <==> !SomeCastHasMore(s)
  {
    hide SomeCastHasMore, StripCasts, StripTypes, Clean, Lower, DropParens;
    StrippersDifferIff(s);
    FormWeight(StripCasts(s));
    FormWeight(StripTypes(s));
  }

  // ---------------------------------------------------------------- a predicate as the database prints it

  lemma TwoWords(a: string, b: string)
    requires Words(a) && Words(b)
    ensures Words(a + " " + b)
  {
    var w := a + " " + b;
    forall i | 0 <= i < |w|
      ensures IsWord(w[i]) || (w[i] == ' ' && i + 1 < |w| && IsWord(w[i + 1]))
    {
      if i < |a| {
        assert w[i] == a[i] && (i + 1 < |a| ==> w[i + 1] == a[i + 1]);
      } else if i == |a| {
        assert w[i] == ' ' && w[i + 1] == b[0];
      } else {
        assert w[i] == b[i - |a| - 1] && (i + 1 < |w| ==> w[i + 1] == b[i - |a|]);
      }
    }
  }

  const PLAIN := "superseded_at IS NULL"
  const PRINTED := "((((superseded_at IS NULL))::integer)::boolean AND verified)"

  lemma LetterWord(w: string)
    requires |w| > 0 && forall c | c in w :: IsWord(c)
    ensures Words(w)
  {
    assert forall i | 0 <= i < |w| :: w[i] in w;
  }

  lemma WordsOfPrinted()
    ensures Words("integer") && Words("boolean AND verified")
  {
    hide Words;
    LetterWord("integer");
    LetterWord("boolean");
    LetterWord("AND");
    LetterWord("verified");
    TwoWords("boolean", "AND");
    assert "boolean" + " " + "AND" == "boolean AND";
    TwoWords("boolean AND", "verified");
    assert "boolean AND" + " " + "verified" == "boolean AND verified";
  }

  const OUTER := "((((superseded_at IS NULL))::integer)"
  const INNER := "((((superseded_at IS NULL))"

  lemma PrintedShape()
    ensures PRINTED == OUTER + "::" + "boolean AND verified" + ")"
  {
  }

  lemma OuterShape()
    ensures OUTER + ")" == INNER + "::" + "integer" + "))"
  {
  }

  lemma InnerShape()
    ensures INNER + "))" == "((((" + PLAIN + "))))" && ':' !in PLAIN
  {
  }

  /** The printed predicate, with its second conjunct, has the normal form of the plain one. */
  lemma PrintedIsTakenForPlain()
    ensures Normalize(PRINTED) == Normalize(PLAIN)
  {
    hide Normalize, Words;
    WordsOfPrinted();
    PrintedShape();
    CastSwallowsTheRest(OUTER, "boolean AND verified", ")");
    OuterShape();
    CastSwallowsTheRest(INNER, "integer", "))");
    InnerShape();
    FourPairs(PLAIN);
  }

  lemma FourPairs(s: string)
    requires ':' !in s
    ensures Normalize("((((" + s + "))))") == Normalize(s)
  {
    hide Normalize;
    assert "((((" + s + "))))" == "(" + ("(((" + s + ")))") + ")";
    ParenPair("(((" + s + ")))");
    assert "(((" + s + ")))" == "(" + ("((" + s + "))") + ")";
    ParenPair("((" + s + "))");
    assert "((" + s + "))" == "(" + ("(" + s + ")") + ")";
    ParenPair("(" + s + ")");
    ParenPair(s);
  }

  lemma ParenPair(s: string)
    requires ':' !in s
    ensures Normalize("(" + s + ")") == Normalize(s)
  {
    hide Normalize;
    ParensDoNotMatter("(" + s, ')', "");
    assert "(" + s + [')'] + "" == "(" + s + ")" && "(" + s + "" == "(" + s;
    ParensDoNotMatter("", '(', s);
    assert "" + ['('] + s == "(" + s && "" + s == s;
  }

  const EXPECTED := "superseded_at is null"

  lemma {:induction false} NoParensToDrop(s: string)
    requires '(' !in s && ')' !in s
    ensures DropParens(s) == s
  {
    if |s| > 0 {
      assert s == [s[0]] + s[1..];
      NoParensToDrop(s[1..]);
    }
  }

  /** A text without casts and parentheses. */
  predicate IsPlain(s: string) {
    ':' !in s && '(' !in s && ')' !in s
  }

  lemma PlainForm(s: string)
    requires IsPlain(s)
    ensures Normalize(s) == Clean(Lower(s))
  {
    hide Clean, Lower;
    NoColonNoCast(s);
    NothingToStrip(s);
    NoParensToDrop(s);
  }

  lemma PlainIsPlain()
    ensures IsPlain(PLAIN)
  {
  }

  lemma LowerPlain()
    ensures Lower(PLAIN) == EXPECTED
  {
  }

  lemma ExpectedIsClean()
    ensures Clean(EXPECTED) == EXPECTED
  {
    hide Clean;
    assert EXPECTED == "superseded_at" + " " + "is" + " " + "null";
    ThreeWords("superseded_at", "is", "null");
  }

  /** The plain predicate has the normal form the migration expects. */
  lemma PlainIsExpected()
    ensures Normalize(PLAIN) == EXPECTED
  {
    hide Normalize, Clean, Lower, IsPlain;
    PlainIsPlain();
    PlainForm(PLAIN);
    LowerPlain();
    ExpectedIsClean();
  }
}
