/** Python's `str` operations that the importers and the statement splitters use. */
module Text {

  predicate IsSpace(c: char) {
    c == ' ' || '\t' <= c <= '\r' || '\U{1C}' <= c <= '\U{1F}' || c == '\U{85}' || c == '\U{A0}'
  }

  predicate IsDigit(c: char) {
    '0' <= c <= '9'
  }

  function StripLeft(s: string): string {
    if |s| > 0 && IsSpace(s[0]) then StripLeft(s[1..]) else s
  }

  function StripRight(s: string): string {
    if |s| > 0 && IsSpace(s[|s| - 1]) then StripRight(s[..|s| - 1]) else s
  }

  function Strip(s: string): string {
    StripRight(StripLeft(s))
  }

  /** Nothing to strip at either end. */
  predicate Stripped(s: string) {
    |s| > 0 ==> !IsSpace(s[0]) && !IsSpace(s[|s| - 1])
  }

  lemma {:induction false} StripLeftFixed(s: string)
    ensures |StripLeft(s)| <= |s|
    ensures |StripLeft(s)| == |s| ==> StripLeft(s) == s && (|s| > 0 ==> !IsSpace(s[0]))
  {
    if |s| > 0 && IsSpace(s[0]) { StripLeftFixed(s[1..]); }
  }

  lemma {:induction false} StripRightFixed(s: string)
    ensures |StripRight(s)| <= |s|
    ensures |StripRight(s)| == |s| ==> StripRight(s) == s && (|s| > 0 ==> !IsSpace(s[|s| - 1]))
  {
    if |s| > 0 && IsSpace(s[|s| - 1]) { StripRightFixed(s[..|s| - 1]); }
  }

  /** `s.strip() == s` exactly when neither end is white space. */
  lemma StripFixedIffStripped(s: string)
    ensures Strip(s) == s <==> Stripped(s)
  {
    StripLeftFixed(s);
    StripRightFixed(StripLeft(s));
  }

  /** `s[:limit]`, the clamp applied before a VARCHAR column. */
  function Truncate(s: string, limit: nat): (r: string)
    ensures |r| <= limit && r <= s
  {
    if |s| > limit then s[..limit] else s
  }

  /** Every run of white space becomes one blank. */
  function Collapse(s: string): string {
    if |s| == 0 then ""
    else if IsSpace(s[0]) then
      if |s| > 1 && IsSpace(s[1]) then Collapse(s[1..]) else " " + Collapse(s[1..])
    else [s[0]] + Collapse(s[1..])
  }

  /** `clean_text`. */
  function Clean(s: string): string {
    Strip(Collapse(s))
  }

  // ---------------------------------------------------------------- what cleaning leaves

  /** What `strip` takes off is white space, and all of it that stands at the two ends. */
  lemma StripIs(s: string) returns (from: nat, to: nat)
    ensures from <= to <= |s| && Strip(s) == s[from..to] && Stripped(Strip(s))
    ensures forall i | 0 <= i < from || to <= i < |s| :: IsSpace(s[i])
  {
    from := StripLeftIs(s);
    var kept := StripRightIs(s[from..]);
    to := from + kept;
    assert forall i | to <= i < |s| :: s[i] == s[from..][i - from];
    assert s[from..][..kept] == s[from..to];
  }

  lemma {:induction false} StripLeftIs(s: string) returns (from: nat)
    ensures from <= |s| && StripLeft(s) == s[from..] && (from < |s| ==> !IsSpace(s[from]))
    ensures forall i | 0 <= i < from :: IsSpace(s[i])
  {
    from := 0;
    if |s| > 0 && IsSpace(s[0]) {
      var rest := StripLeftIs(s[1..]);
      from := rest + 1;
      assert s[1..][rest..] == s[from..];
      assert forall i | 0 < i < from :: s[i] == s[1..][i - 1];
    }
  }

  lemma {:induction false} StripRightIs(s: string) returns (to: nat)
    ensures to <= |s| && StripRight(s) == s[..to] && (to > 0 ==> !IsSpace(s[to - 1]))
    ensures forall i | to <= i < |s| :: IsSpace(s[i])
  {
    to := |s|;
    if |s| > 0 && IsSpace(s[|s| - 1]) {
      to := StripRightIs(s[..|s| - 1]);
      assert s[..|s| - 1][..to] == s[..to];
    }
  }

  /** The only white space is the blank, and no two blanks meet. */
  predicate Tidy(s: string) {
    forall i | 0 <= i < |s| && IsSpace(s[i]) :: s[i] == ' ' && (i + 1 < |s| ==> !IsSpace(s[i + 1]))
  }

  lemma {:induction false} CollapseIsTidy(s: string)
    ensures Tidy(Collapse(s))
    ensures |s| > 0 ==> |Collapse(s)| > 0 && (IsSpace(Collapse(s)[0]) <==> IsSpace(s[0]))
  {
    if |s| > 0 { CollapseIsTidy(s[1..]); }
  }

  lemma {:induction false} TidyCollapses(s: string)
    requires Tidy(s)
    ensures Collapse(s) == s
  {
    if |s| > 0 {
      assert forall i | 0 <= i < |s| - 1 :: s[1..][i] == s[i + 1];
      TidyCollapses(s[1..]);
      assert [s[0]] + s[1..] == s;
    }
  }

  /** `clean_text` leaves exactly the tidy and stripped texts alone, and returns such a text. */
  lemma CleanFixedIff(s: string)
    ensures Clean(s) == s <==> Tidy(s) && Stripped(s)
    ensures Tidy(Clean(s)) && Stripped(Clean(s)) && Clean(Clean(s)) == Clean(s)
  {
    CleanIsTidy(s);
    CleanOfTidy(Clean(s));
    if Tidy(s) && Stripped(s) { CleanOfTidy(s); }
  }

  lemma CleanIsTidy(s: string)
    ensures Tidy(Clean(s)) && Stripped(Clean(s))
  {
    CollapseIsTidy(s);
    var c := Collapse(s);
    var from, to := StripIs(c);
    assert forall i | 0 <= i < to - from :: c[from..to][i] == c[from + i];
  }

  lemma CleanOfTidy(s: string)
    requires Tidy(s) && Stripped(s)
    ensures Clean(s) == s
  {
    TidyCollapses(s);
    StripFixedIffStripped(s);
  }

  // ---------------------------------------------------------------- cleaning and words

  function Finished(word: string): seq<string> {
    if word == "" then [] else [word]
  }

  /** One blank between any two words. */
  function Spaced(ws: seq<string>): string {
    if |ws| == 0 then "" else if |ws| == 1 then ws[0] else ws[0] + " " + Spaced(ws[1..])
  }

  predicate Solid(w: string) {
    |w| > 0 && forall i | 0 <= i < |w| :: !IsSpace(w[i])
  }

  predicate AllSolid(ws: seq<string>) {
    forall i | 0 <= i < |ws| :: Solid(ws[i])
  }

  /** The words of a text as it stands. */
  function WordsIn(s: string, word: string): seq<string>
    decreases |s|
  {
    if |s| == 0 then Finished(word)
    else if IsSpace(s[0]) then Finished(word) + WordsIn(s[1..], "")
    else WordsIn(s[1..], word + [s[0]])
  }

  lemma {:induction false} WordsAreSolid(s: string, word: string)
    requires word == "" || Solid(word)
    ensures AllSolid(WordsIn(s, word))
    decreases |s|
  {
    if |s| > 0 {
      if IsSpace(s[0]) { WordsAreSolid(s[1..], ""); } else { WordsAreSolid(s[1..], word + [s[0]]); }
    }
  }

  /** `s` without white space at its right end, behind `p`, which does not end in any. */
  lemma {:induction false} StripRightBehind(p: string, s: string)
    requires |p| > 0 ==> !IsSpace(p[|p| - 1])
    ensures StripRight(p + s) == p + StripRight(s)
    decreases |s|
  {
    var t := p + s;
    if |s| > 0 {
      assert t[|t| - 1] == s[|s| - 1] && t[..|t| - 1] == p + s[..|s| - 1];
      if IsSpace(s[|s| - 1]) { StripRightBehind(p, s[..|s| - 1]); }
    } else {
      assert t == p;
    }
  }

  lemma StripRightOfCons(c: char, s: string)
    requires !IsSpace(c)
    ensures StripRight([c] + s) == [c] + StripRight(s)
    ensures StripRight(" " + ([c] + s)) == " " + ([c] + StripRight(s))
  {
    StripRightBehind([c], s);
    StripRightBehind(" " + [c], s);
    assert " " + [c] + s == " " + ([c] + s) && " " + [c] + StripRight(s) == " " + ([c] + StripRight(s));
  }

  /** One blank before the text of the next word. */
  lemma BlankThenWord(s: string, word: string, ws: seq<string>)
    requires |s| > 0 && !IsSpace(s[0]) && Strip(Collapse(s)) == Spaced(ws)
    ensures word + StripRight(" " + Collapse(s)) == Spaced([word] + ws)
  {
    StripRightOfCons(s[0], Collapse(s[1..]));
    assert Collapse(s) == [s[0]] + Collapse(s[1..]) && StripLeft(Collapse(s)) == Collapse(s);
    assert |ws| > 0 && ([word] + ws)[1..] == ws;
  }

  lemma NoWords(word: string)
    ensures Spaced(Finished(word)) == word
  {
  }

  /** Cleaning a text puts one blank between its words. */
  lemma {:induction false} CleanIsSpaced(s: string, word: string)
    ensures word != "" ==> word + StripRight(Collapse(s)) == Spaced(WordsIn(s, word))
    ensures Strip(Collapse(s)) == Spaced(WordsIn(s, ""))
    decreases |s|
  {
    hide Spaced;
    if |s| == 0 {
      NoWords(word);
      NoWords("");
    } else if !IsSpace(s[0]) {
      CleanIsSpaced(s[1..], word + [s[0]]);
      CleanIsSpaced(s[1..], "" + [s[0]]);
      StripRightOfCons(s[0], Collapse(s[1..]));
      assert word + [s[0]] + StripRight(Collapse(s[1..])) == word + ([s[0]] + StripRight(Collapse(s[1..])));
      assert "" + [s[0]] == [s[0]];
    } else {
      CleanIsSpaced(s[1..], word);
      BlankFirst(s, word);
    }
  }

  lemma BlankFirst(s: string, word: string)
    requires |s| > 0 && IsSpace(s[0])
    requires word != "" ==> word + StripRight(Collapse(s[1..])) == Spaced(WordsIn(s[1..], word))
    requires Strip(Collapse(s[1..])) == Spaced(WordsIn(s[1..], ""))
    ensures word != "" ==> word + StripRight(Collapse(s)) == Spaced(WordsIn(s, word))
    ensures Strip(Collapse(s)) == Spaced(WordsIn(s, ""))
  {
    var rest := s[1..];
    assert Finished("") + WordsIn(rest, "") == WordsIn(rest, "");
    if |rest| == 0 {
      assert StripRight(" " + "") == "" && StripLeft(" " + "") == "";
    } else if IsSpace(rest[0]) {
      assert [] + WordsIn(rest[1..], "") == WordsIn(rest[1..], "");
    } else {
      assert (" " + Collapse(rest))[1..] == Collapse(rest);
      if word != "" { BlankThenWord(rest, word, WordsIn(rest, "")); }
    }
  }

  lemma {:induction false} SolidRunsOn(w: string, rest: string, word: string)
    requires forall i | 0 <= i < |w| :: !IsSpace(w[i])
    ensures WordsIn(w + rest, word) == WordsIn(rest, word + w)
    decreases |w|
  {
    if |w| == 0 {
      assert w + rest == rest && word + w == word;
    } else {
      assert (w + rest)[1..] == w[1..] + rest && word + [w[0]] + w[1..] == word + w;
      SolidRunsOn(w[1..], rest, word + [w[0]]);
    }
  }

  /** The words can be read off the spaced text. */
  lemma {:induction false} WordsOfSpaced(ws: seq<string>)
    requires AllSolid(ws)
    ensures WordsIn(Spaced(ws), "") == ws
    decreases |ws|
  {
    if |ws| == 1 {
      SolidRunsOn(ws[0], "", "");
      assert ws[0] + "" == ws[0] && "" + ws[0] == ws[0] && ws == [ws[0]];
    } else if |ws| > 1 {
      var rest := " " + Spaced(ws[1..]);
      SolidRunsOn(ws[0], rest, "");
      WordsOfSpaced(ws[1..]);
      assert "" + ws[0] == ws[0] && ws[0] + " " + Spaced(ws[1..]) == ws[0] + rest;
      assert rest[1..] == Spaced(ws[1..]) && ws == [ws[0]] + ws[1..];
    }
  }

  /** `clean_text` gives the words of the text with one blank between any two. */
  lemma CleanSpacesWords(s: string)
    ensures Clean(s) == Spaced(WordsIn(s, ""))
  {
    CleanIsSpaced(s, "");
  }

  lemma SpacedIsClean(ws: seq<string>)
    requires AllSolid(ws)
    ensures Clean(Spaced(ws)) == Spaced(ws)
  {
    hide Clean, Spaced;
    CleanSpacesWords(Spaced(ws));
    WordsOfSpaced(ws);
  }

  lemma ThreeWords(a: string, b: string, c: string)
    requires Solid(a) && Solid(b) && Solid(c)
    ensures Clean(a + " " + b + " " + c) == a + " " + b + " " + c
  {
    hide Clean, Solid;
    assert Spaced([c]) == c && [b, c][1..] == [c] && [a, b, c][1..] == [b, c];
    assert Spaced([b, c]) == b + " " + c;
    assert Spaced([a, b, c]) == a + " " + (b + " " + c);
    assert a + " " + (b + " " + c) == a + " " + b + " " + c;
    SpacedIsClean([a, b, c]);
  }

  predicate StartsWith(s: string, p: string) {
    p <= s
  }

  predicate EndsWith(s: string, p: string) {
    |p| <= |s| && s[|s| - |p|..] == p
  }
}
