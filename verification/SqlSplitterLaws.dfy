/** Where the dollar-aware splitter cuts, what it keeps, and when the simpler splitters agree with it. */
module SqlSplitterLaws {
  import opened Outcomes
  import opened SqlSplitter
  import opened Text

  // ---------------------------------------------------------------- scanning lines is scanning the text

  /** The open tag after a list of lines. */
  function TagAfter(lines: seq<Line>, tag: Option<string>): (r: Option<string>)
    requires TagState(tag)
    ensures TagState(r)
    decreases |lines|
  {
    if |lines| == 0 then tag else TagAfter(lines[1..], Scan(lines[0], 0, tag))
  }

  /** A name never runs across a line end. */
  lemma {:induction false} NameEndOfPrefix(a: string, b: string, i: nat)
    requires i <= |a|
    ensures NameEnd(a + "\n" + b, i) == NameEnd(a, i)
    decreases |a| - i
  {
    var s := a + "\n" + b;
    if i < |a| {
      assert s[i] == a[i];
      if IsNameChar(a[i]) { NameEndOfPrefix(a, b, i + 1); }
    } else {
      assert s[i] == '\n';
    }
  }

  lemma {:induction false} NameEndOfSuffix(a: string, b: string, i: nat)
    requires i <= |b|
    ensures NameEnd(a + "\n" + b, |a| + 1 + i) == |a| + 1 + NameEnd(b, i)
    decreases |b| - i
  {
    var s := a + "\n" + b;
    if i < |b| {
      assert s[|a| + 1 + i] == b[i];
      if IsNameChar(b[i]) { NameEndOfSuffix(a, b, i + 1); }
    }
  }

  lemma TagAtPrefix(a: string, b: string, i: nat)
    requires i < |a|
    ensures TagAt(a + "\n" + b, i) == TagAt(a, i)
  {
    var s := a + "\n" + b;
    assert s[i] == a[i];
    if a[i] == '$' {
      NameEndOfPrefix(a, b, i + 1);
      var n := NameEnd(a, i + 1);
      if n < |a| { assert s[n] == a[n]; } else { assert s[n] == '\n'; }
    }
  }

  lemma TagAtSuffix(a: string, b: string, i: nat)
    requires i < |b|
    ensures TagAt(a + "\n" + b, |a| + 1 + i) ==
              match TagAt(b, i) case None => None case Some(e) => Some(|a| + 1 + e)
  {
    var s := a + "\n" + b;
    assert s[|a| + 1 + i] == b[i];
    if b[i] == '$' {
      NameEndOfSuffix(a, b, i + 1);
      var n := NameEnd(b, i + 1);
      if n < |b| { assert s[|a| + 1 + n] == b[n]; }
    }
  }

  lemma {:induction false} SearchPrefix(a: string, b: string, pos: nat)
    requires pos <= |a|
    ensures SearchTag(a, pos) < |a| ==> SearchTag(a + "\n" + b, pos) == SearchTag(a, pos)
    ensures SearchTag(a, pos) == |a| ==> SearchTag(a + "\n" + b, pos) == SearchTag(a + "\n" + b, |a| + 1)
    decreases |a| - pos
  {
    var s := a + "\n" + b;
    if pos < |a| {
      TagAtPrefix(a, b, pos);
      if TagAt(a, pos).None? { SearchPrefix(a, b, pos + 1); }
    } else {
      assert s[pos] == '\n';
    }
  }

  lemma {:induction false} SearchSuffix(a: string, b: string, pos: nat)
    requires pos <= |b|
    ensures SearchTag(a + "\n" + b, |a| + 1 + pos) == |a| + 1 + SearchTag(b, pos)
    decreases |b| - pos
  {
    if pos < |b| {
      TagAtSuffix(a, b, pos);
      if TagAt(b, pos).None? { SearchSuffix(a, b, pos + 1); }
    }
  }

  /** An occurrence of a tag lies within one line. */
  lemma OccursInOneLine(a: string, b: string, t: string, k: nat)
    requires IsTag(t)
    ensures k <= |a| ==> (OccursAt(a + "\n" + b, t, k) <==> OccursAt(a, t, k))
  {
    var s := a + "\n" + b;
    if k <= |a| && k + |t| <= |s| {
      if k + |t| <= |a| {
        assert s[k..k + |t|] == a[k..k + |t|];
      } else {
        assert s[k..k + |t|][|a| - k] == '\n';
        assert t[|a| - k] != '\n';
      }
    }
  }

  lemma OccursShifted(a: string, b: string, t: string, k: nat)
    ensures OccursAt(a + "\n" + b, t, |a| + 1 + k) <==> OccursAt(b, t, k)
  {
    var s := a + "\n" + b;
    if k + |t| <= |b| {
      assert s[|a| + 1 + k..|a| + 1 + k + |t|] == b[k..k + |t|];
    }
  }

  lemma {:induction false} FindPrefix(a: string, b: string, t: string, pos: nat)
    requires IsTag(t) && pos <= |a|
    ensures Find(a, t, pos) <= |a| ==> Find(a + "\n" + b, t, pos) == Find(a, t, pos)
    ensures Find(a, t, pos) > |a| ==> Find(a + "\n" + b, t, pos) == Find(a + "\n" + b, t, |a| + 1)
    decreases |a| - pos
  {
    OccursInOneLine(a, b, t, pos);
    if pos < |a| && !OccursAt(a, t, pos) { FindPrefix(a, b, t, pos + 1); }
  }

  lemma {:induction false} FindSuffix(a: string, b: string, t: string, pos: nat)
    requires pos <= |b|
    ensures Find(a + "\n" + b, t, |a| + 1 + pos) == |a| + 1 + Find(b, t, pos)
    decreases |b| - pos
  {
    OccursShifted(a, b, t, pos);
    if pos < |b| && !OccursAt(b, t, pos) { FindSuffix(a, b, t, pos + 1); }
  }

  lemma TurnSuffix(a: string, b: string, pos: nat, tag: Option<string>)
    requires pos <= |b| && TagState(tag)
    ensures Turn(a + "\n" + b, |a| + 1 + pos, tag) ==
              match Turn(b, pos, tag) case None => None case Some((p, t)) => Some((|a| + 1 + p, t))
  {
    hide TagAt, IsTag;
    var s := a + "\n" + b;
    match tag {
      case None =>
        SearchSuffix(a, b, pos);
        var i := SearchTag(b, pos);
        if i < |b| {
          TagAtSuffix(a, b, i);
          assert s[|a| + 1 + i..|a| + 1 + TagAt(b, i).value] == b[i..TagAt(b, i).value];
        }
      case Some(t) =>
        FindSuffix(a, b, t, pos);
    }
  }

  /** A turn within the first line is the same in the whole text; past its last tag the next line goes on. */
  lemma TurnPrefix(a: string, b: string, pos: nat, tag: Option<string>)
    requires pos <= |a| && TagState(tag)
    ensures Turn(a + "\n" + b, pos, tag) ==
              if Turn(a, pos, tag).Some? then Turn(a, pos, tag) else Turn(a + "\n" + b, |a| + 1, tag)
  {
    hide TagAt;
    var s := a + "\n" + b;
    match tag {
      case None =>
        SearchPrefix(a, b, pos);
        var i := SearchTag(a, pos);
        if i < |a| {
          TagAtPrefix(a, b, i);
          assert s[i..TagAt(a, i).value] == a[i..TagAt(a, i).value];
        }
      case Some(t) =>
        FindPrefix(a, b, t, pos);
    }
  }

  lemma {:induction false} ScanSuffix(a: string, b: string, pos: nat, tag: Option<string>)
    requires pos <= |b| && TagState(tag)
    ensures Scan(a + "\n" + b, |a| + 1 + pos, tag) == Scan(b, pos, tag)
    decreases |b| - pos
  {
    hide Turn, TagState;
    TurnSuffix(a, b, pos, tag);
    if Turn(b, pos, tag).Some? {
      ScanSuffix(a, b, Turn(b, pos, tag).value.0, Turn(b, pos, tag).value.1);
    }
  }

  lemma {:induction false} ScanAcrossLines(a: string, b: string, pos: nat, tag: Option<string>)
    requires pos <= |a| && TagState(tag)
    ensures Scan(a + "\n" + b, pos, tag) == Scan(b, 0, Scan(a, pos, tag))
    decreases |a| - pos
  {
    hide Turn, TagState;
    TurnPrefix(a, b, pos, tag);
    if Turn(a, pos, tag).Some? {
      ScanAcrossLines(a, b, Turn(a, pos, tag).value.0, Turn(a, pos, tag).value.1);
    } else {
      assert Scan(a + "\n" + b, pos, tag) == Scan(a + "\n" + b, |a| + 1, tag);
      ScanSuffix(a, b, 0, tag);
    }
  }

  /** The line loop computes the state of the whole text: where the lines end does not matter. */
  lemma {:induction false} LinesScanAsText(lines: seq<Line>, tag: Option<string>)
    requires TagState(tag) && |lines| > 0
    ensures TagAfter(lines, tag) == Scan(Join(lines), 0, tag)
    decreases |lines|
  {
    if |lines| > 1 {
      LinesScanAsText(lines[1..], Scan(lines[0], 0, tag));
      ScanAcrossLines(lines[0], Join(lines[1..]), 0, tag);
    } else {
      assert TagAfter(lines[1..], Scan(lines[0], 0, tag)) == Scan(lines[0], 0, tag);
    }
  }

  // ---------------------------------------------------------------- where the cuts are

  function Flat(groups: seq<seq<Line>>): seq<Line> {
    if |groups| == 0 then [] else groups[0] + Flat(groups[1..])
  }

  /** All lines but the comments outside dollar-quoted blocks. */
  function Kept(lines: seq<Line>, tag: Option<string>): seq<Line>
    requires TagState(tag)
    decreases |lines|
  {
    if |lines| == 0 then []
    else if tag.None? && IsComment(lines[0]) then Kept(lines[1..], None)
    else [lines[0]] + Kept(lines[1..], Scan(lines[0], 0, tag))
  }

  /** No line is lost, invented or moved. */
  lemma {:induction false} DollarKeepsLines(lines: seq<Line>, buffer: seq<Line>, tag: Option<string>)
    requires TagState(tag)
    ensures Flat(Dollar(lines, buffer, tag)) == buffer + Kept(lines, tag)
    decreases |lines|
  {
    hide Scan, IsComment, IsTerminated, TagState;
    if |lines| == 0 {
      if |buffer| > 0 { assert [buffer][1..] == []; }
    } else {
      var line := lines[0];
      var after := Scan(line, 0, tag);
      if tag.None? && IsComment(line) {
        DollarKeepsLines(lines[1..], buffer, None);
      } else if after.None? && IsTerminated(line) {
        DollarKeepsLines(lines[1..], [], None);
        var rest := Dollar(lines[1..], [], None);
        assert ([buffer + [line]] + rest)[1..] == rest;
      } else {
        DollarKeepsLines(lines[1..], buffer + [line], after);
      }
    }
  }

  /** The text so far is outside every block and its last line ends in a semicolon. */
  predicate EndsStatement(g: seq<Line>) {
    |g| > 0 && TagAfter(g, None) == None && IsTerminated(g[|g| - 1])
  }

  predicate NoEarlierEnd(g: seq<Line>) {
    forall k | 0 < k < |g| :: !EndsStatement(g[..k])
  }

  lemma {:induction false} TagAfterAppend(g: seq<Line>, line: Line, tag: Option<string>)
    requires TagState(tag)
    ensures TagAfter(g + [line], tag) == Scan(line, 0, TagAfter(g, tag))
    decreases |g|
  {
    if |g| == 0 {
      assert (g + [line])[1..] == [];
    } else {
      assert (g + [line])[1..] == g[1..] + [line];
      TagAfterAppend(g[1..], line, Scan(g[0], 0, tag));
    }
  }

  /** Every statement but the last ends outside all blocks at a semicolon, and none could have ended earlier. */
  predicate CutAtTopLevel(groups: seq<seq<Line>>) {
    forall i | 0 <= i < |groups| ::
      |groups[i]| > 0 && NoEarlierEnd(groups[i]) && (i < |groups| - 1 ==> EndsStatement(groups[i]))
  }

  lemma GrownHasNoEarlierEnd(buffer: seq<Line>, line: Line)
    requires NoEarlierEnd(buffer) && !EndsStatement(buffer)
    ensures NoEarlierEnd(buffer + [line])
  {
    forall k | 0 < k < |buffer + [line]|
      ensures !EndsStatement((buffer + [line])[..k])
    {
      assert (buffer + [line])[..k] == buffer[..k];
      if k == |buffer| { assert buffer[..k] == buffer; }
    }
  }

  lemma CutCons(g: seq<Line>, groups: seq<seq<Line>>)
    requires EndsStatement(g) && NoEarlierEnd(g) && CutAtTopLevel(groups)
    ensures CutAtTopLevel([g] + groups)
  {
  }

  /** The splitter cuts exactly at the top-level terminators. */
  lemma {:induction false} DollarCutsAtTopLevel(lines: seq<Line>, buffer: seq<Line>, tag: Option<string>)
    requires TagState(tag) && TagAfter(buffer, None) == tag && NoEarlierEnd(buffer) && !EndsStatement(buffer)
    ensures CutAtTopLevel(Dollar(lines, buffer, tag))
    decreases |lines|
  {
    if |lines| > 0 {
      hide NoEarlierEnd, CutAtTopLevel, Scan, IsComment, IsTerminated;
      var line := lines[0];
      var grown := buffer + [line];
      var after := Scan(line, 0, tag);
      if tag.None? && IsComment(line) {
        DollarCutsAtTopLevel(lines[1..], buffer, None);
      } else {
        TagAfterAppend(buffer, line, None);
        GrownHasNoEarlierEnd(buffer, line);
        if after.None? && IsTerminated(line) {
          EmptyIsOpen();
          DollarCutsAtTopLevel(lines[1..], [], None);
          CutCons(grown, Dollar(lines[1..], [], None));
        } else {
          DollarCutsAtTopLevel(lines[1..], grown, after);
        }
      }
    }
  }

  lemma EmptyIsOpen()
    ensures TagAfter([], None) == None && NoEarlierEnd([]) && !EndsStatement([])
  {
  }

  /** In the scanner's own reading of its text every statement but the last ends outside all blocks. */
  lemma EndsOutsideBlocks(lines: seq<Line>, i: nat)
    requires i < |Dollar(lines, [], None)| - 1
    ensures Scan(Join(Dollar(lines, [], None)[i]), 0, None) == None
  {
    EmptyIsOpen();
    DollarCutsAtTopLevel(lines, [], None);
    LinesScanAsText(Dollar(lines, [], None)[i], None);
  }

  // ---------------------------------------------------------------- the simpler splitters

  predicate NoTag(s: string) {
    forall i | 0 <= i < |s| :: TagAt(s, i).None?
  }

  /** Where no tag occurs outside the comments, the naive splitter gives the same statements. */
  lemma {:induction false} NaiveAgreesWithoutTags(lines: seq<Line>, buffer: seq<Line>)
    requires forall i | 0 <= i < |lines| :: IsComment(lines[i]) || NoTag(lines[i])
    ensures Dollar(lines, buffer, None) == Naive(lines, buffer)
    decreases |lines|
  {
    if |lines| > 0 {
      var line := lines[0];
      if IsComment(line) {
        NaiveAgreesWithoutTags(lines[1..], buffer);
      } else {
        assert SearchTag(line, 0) == |line|;
        assert Scan(line, 0, None) == None;
        NaiveAgreesWithoutTags(lines[1..], []);
        NaiveAgreesWithoutTags(lines[1..], buffer + [line]);
      }
    }
  }

  /** Every tag of the line is `$$`. */
  predicate OnlyEmptyTags(s: string) {
    forall i | 0 <= i < |s| && TagAt(s, i).Some? :: TagAt(s, i).value == i + 2
  }

  lemma EmptyTagIsDoubleDollar(s: string, i: nat)
    requires OnlyEmptyTags(s) && i < |s|
    ensures TagAt(s, i).Some? <==> OccursAt(s, "$$", i)
    ensures TagAt(s, i).Some? ==> TagAt(s, i) == Some(i + 2) && s[i..i + 2] == "$$"
  {
    if OccursAt(s, "$$", i) {
      assert s[i..i + 2][0] == '$' && s[i..i + 2][1] == '$';
      assert NameEnd(s, i + 1) == i + 1;
    }
  }

  lemma {:induction false} SearchIsFind(s: string, pos: nat)
    requires OnlyEmptyTags(s) && pos <= |s|
    ensures Find(s, "$$", pos) == if SearchTag(s, pos) == |s| then |s| + 1 else SearchTag(s, pos)
    decreases |s| - pos
  {
    if pos < |s| {
      EmptyTagIsDoubleDollar(s, pos);
      if TagAt(s, pos).None? { SearchIsFind(s, pos + 1); }
    }
  }

  function BlockTag(inBlock: bool): Option<string> {
    if inBlock then Some("$$") else None
  }

  lemma {:induction false} ScanIsParity(s: string, pos: nat, inBlock: bool)
    requires OnlyEmptyTags(s) && pos <= |s|
    ensures Scan(s, pos, BlockTag(inBlock)) == BlockTag(if Count(s, pos) % 2 == 1 then !inBlock else inBlock)
    decreases |s| - pos
  {
    hide Turn;
    TurnIsCount(s, pos, inBlock);
    if Find(s, "$$", pos) <= |s| { ScanIsParity(s, Find(s, "$$", pos) + 2, !inBlock); }
  }

  lemma TurnIsCount(s: string, pos: nat, inBlock: bool)
    requires OnlyEmptyTags(s) && pos <= |s|
    ensures Turn(s, pos, BlockTag(inBlock)) ==
              var i := Find(s, "$$", pos); if i > |s| then None else Some((i + 2, BlockTag(!inBlock)))
  {
    SearchIsFind(s, pos);
    var i := Find(s, "$$", pos);
    if i < |s| { EmptyTagIsDoubleDollar(s, i); }
  }

  /** Where every tag is `$$`, counting `$$` per line gives the same statements. */
  lemma {:induction false} ParityAgreesOnEmptyTags(lines: seq<Line>, buffer: seq<Line>, inBlock: bool)
    requires forall i | 0 <= i < |lines| :: OnlyEmptyTags(lines[i])
    ensures Dollar(lines, buffer, BlockTag(inBlock)) == Parity(lines, buffer, inBlock)
    decreases |lines|
  {
    if |lines| > 0 {
      var line := lines[0];
      var after := if Count(line, 0) % 2 == 1 then !inBlock else inBlock;
      if !inBlock && IsComment(line) {
        ParityAgreesOnEmptyTags(lines[1..], buffer, false);
      } else {
        ScanIsParity(line, 0, inBlock);
        ParityAgreesOnEmptyTags(lines[1..], [], false);
        ParityAgreesOnEmptyTags(lines[1..], buffer + [line], after);
      }
    }
  }

  // ---------------------------------------------------------------- lines and texts

  /** Two dashes with nothing but white space before them. */
  predicate CommentAt(line: Line, i: nat) {
    i + 1 < |line| && line[i] == '-' && line[i + 1] == '-' && forall k | 0 <= k < i :: IsSpace(line[k])
  }

  /** A semicolon with nothing but white space after it. */
  predicate TerminatedAt(line: Line, i: nat) {
    i < |line| && line[i] == ';' && forall k | i < k < |line| :: IsSpace(line[k])
  }

  lemma CommentIff(line: Line)
    ensures IsComment(line) <==> exists i: nat :: CommentAt(line, i)
  {
    var from, to := StripIs(line);
    var text := line[from..to];
    if IsComment(line) {
      assert text[..2] == "--" && text[0] == '-' && text[1] == '-';
      assert line[from] == text[0] && line[from + 1] == text[1];
      assert CommentAt(line, from);
    }
    if i: nat :| CommentAt(line, i) {
      assert !IsSpace(line[i]) && !IsSpace(line[i + 1]);
      assert from <= i && i + 2 <= to;
      assert from < to ==> text[0] == line[from];
      assert from == i;
      assert text[..2] == "--";
    }
  }

  lemma TerminatedIff(line: Line)
    ensures IsTerminated(line) <==> exists i: nat :: TerminatedAt(line, i)
  {
    var from, to := StripIs(line);
    var text := line[from..to];
    if IsTerminated(line) {
      assert text[|text| - 1..][0] == ';';
      assert line[to - 1] == ';';
      assert TerminatedAt(line, to - 1);
    }
    if i: nat :| TerminatedAt(line, i) {
      assert !IsSpace(line[i]);
      assert from <= i && i < to;
      assert text[|text| - 1] == line[to - 1];
      assert i == to - 1;
      assert text[|text| - 1..] == ";";
    }
  }

  /** The statement of a group is its lines with what stands around them taken off; a blank group has none. */
  lemma EmittedText(group: seq<Line>) returns (from: nat, to: nat)
    ensures var text := Join(group);
            && from <= to <= |text|
            && (forall k | 0 <= k < from || to <= k < |text| :: IsSpace(text[k]))
            && (from < to ==> !IsSpace(text[from]) && !IsSpace(text[to - 1]))
            && Emit(group) == if from == to then [] else [text[from..to]]
  {
    var text := Join(group);
    from, to := StripIs(text);
    if from < to { assert text[from..to][0] == text[from] && text[from..to][to - from - 1] == text[to - 1]; }
  }

  /** The statements of a file are those of its groups, in order. */
  lemma {:induction false} RenderSums(a: seq<seq<Line>>, b: seq<seq<Line>>)
    ensures Render(a + b) == Render(a) + Render(b)
    ensures |a| == 1 ==> Render(a) == Emit(a[0])
  {
    hide Emit;
    if |a| == 0 {
      assert a + b == b;
    } else {
      RenderSums(a[1..], b);
      assert (a + b)[0] == a[0] && (a + b)[1..] == a[1..] + b;
    }
  }
}
