/**
 Dollar-quoted blocks as PostgreSQL reads them (section 4.1.2.4 of its manual), and when the dollar-aware splitter keeps
 them whole: its own idea of a tag knows no digits. Quotation marks and comments inside a statement are not read.
 */
module SqlBlocks {
  import opened Outcomes
  import opened Text
  import opened SqlSplitter
  import opened SqlSplitterLaws

  // ---------------------------------------------------------------- PostgreSQL's reading

  /** What a tag name starts with: an ASCII letter, an underscore, or anything beyond ASCII. */
  predicate StartsName(c: char) {
    IsAsciiNameChar(c) || c >= '\U{80}'
  }

  predicate IsAsciiNameChar(c: char) {
    'a' <= c <= 'z' || 'A' <= c <= 'Z' || c == '_'
  }

  predicate ContinuesName(c: char) {
    StartsName(c) || IsDigit(c)
  }

  /** `$$`, or a name between dollar signs. */
  predicate IsPgTag(t: string) {
    && |t| >= 2 && t[0] == '$' && t[|t| - 1] == '$'
    && (|t| > 2 ==> StartsName(t[1]))
    && forall k | 0 < k < |t| - 1 :: ContinuesName(t[k])
  }

  /** End of the tag at `i`, if there is one. */
  function PgTagAt(s: string, i: nat): (e: Option<nat>)
    requires i < |s|
    ensures e.Some? ==> i + 2 <= e.value <= |s| && IsPgTag(s[i..e.value])
    ensures e.None? ==> forall n | i + 2 <= n <= |s| :: !IsPgTag(s[i..n])
  {
    if s[i] != '$' then NoTagWithoutDollar(s, i); None
    else
      var n := PgNameEnd(s, i + 1);
      if n < |s| && s[n] == '$' && (n > i + 1 ==> StartsName(s[i + 1])) then
        Some(n + 1)
      else
        NoTagHere(s, i);
        None
  }

  function PgNameEnd(s: string, i: nat): (e: nat)
    requires i <= |s|
    ensures i <= e <= |s|
    ensures e < |s| ==> !ContinuesName(s[e])
    ensures forall k | i <= k < e :: ContinuesName(s[k])
    decreases |s| - i
  {
    if i < |s| && ContinuesName(s[i]) then PgNameEnd(s, i + 1) else i
  }

  lemma NoTagWithoutDollar(s: string, i: nat)
    requires i < |s| && s[i] != '$'
    ensures forall n | i + 2 <= n <= |s| :: !IsPgTag(s[i..n])
  {
    forall n | i + 2 <= n <= |s|
      ensures !IsPgTag(s[i..n])
    {
      assert s[i..n][0] == s[i];
    }
  }

  /** A tag at `i` would end with the name. */
  lemma TagEndsWithName(s: string, i: nat, n: nat)
    requires i + 2 <= n <= |s| && IsPgTag(s[i..n])
    ensures PgNameEnd(s, i + 1) == n - 1 && s[n - 1] == '$' && (n > i + 2 ==> StartsName(s[i + 1]))
  {
    var t := s[i..n];
    var e := PgNameEnd(s, i + 1);
    assert t[n - i - 1] == s[n - 1];
    if n > i + 2 { assert t[1] == s[i + 1]; }
    forall k | i < k < n - 1
      ensures ContinuesName(s[k])
    {
      assert t[k - i] == s[k];
    }
  }

  lemma NoTagHere(s: string, i: nat)
    requires i < |s|
    requires var n := PgNameEnd(s, i + 1); !(n < |s| && s[n] == '$' && (n > i + 1 ==> StartsName(s[i + 1])))
    ensures forall n | i + 2 <= n <= |s| :: !IsPgTag(s[i..n])
  {
    forall n | i + 2 <= n <= |s|
      ensures !IsPgTag(s[i..n])
    {
      if IsPgTag(s[i..n]) { TagEndsWithName(s, i, n); }
    }
  }

  /** A dollar sign right behind one of these belongs to an identifier. */
  predicate InIdentifier(c: char) {
    ContinuesName(c) || c == '$'
  }

  /** A block may start at `i`, when everything before `pos` has been read. */
  predicate Apart(s: string, pos: nat, i: nat)
    requires pos <= i <= |s|
  {
    i == pos || !InIdentifier(s[i - 1])
  }

  /** The leftmost start of a block from `i`, or |s|. */
  function PgSearch(s: string, pos: nat, i: nat): (r: nat)
    requires pos <= i <= |s|
    ensures i <= r <= |s|
    ensures r < |s| ==> PgTagAt(s, r).Some? && Apart(s, pos, r)
    ensures forall k | i <= k < r :: PgTagAt(s, k).None? || !Apart(s, pos, k)
    decreases |s| - i
  {
    if i == |s| || (PgTagAt(s, i).Some? && Apart(s, pos, i)) then i else PgSearch(s, pos, i + 1)
  }

  predicate PgState(tag: Option<string>) {
    tag.Some? ==> IsPgTag(tag.value)
  }

  /** Past the next start of a block, or past the end of the open one. */
  function PgTurn(s: string, pos: nat, tag: Option<string>): (r: Option<(nat, Option<string>)>)
    requires pos <= |s| && PgState(tag)
    ensures r.Some? ==> pos < r.value.0 <= |s| && PgState(r.value.1)
  {
    match tag
    case None =>
      var i := PgSearch(s, pos, pos);
      if i == |s| then None else Some((PgTagAt(s, i).value, Some(s[i..PgTagAt(s, i).value])))
    case Some(t) =>
      var i := Find(s, t, pos);
      if i > |s| then None else Some((i + |t|, None))
  }

  /** The block that is open at the end of `s`, if any. */
  function PgScan(s: string, pos: nat, tag: Option<string>): (r: Option<string>)
    requires pos <= |s| && PgState(tag)
    ensures PgState(r)
    decreases |s| - pos
  {
    match PgTurn(s, pos, tag)
    case None => tag
    case Some((next, after)) => PgScan(s, next, after)
  }

  // ---------------------------------------------------------------- when both read the same blocks

  /** No tag in the text holds a digit or a character beyond ASCII. */
  predicate PlainTags(s: string) {
    forall i, e | 0 <= i < e <= |s| && IsPgTag(s[i..e]) :: IsTag(s[i..e])
  }

  /** No block of the scanner starts inside an identifier. */
  predicate BlocksApart(s: string, pos: nat, tag: Option<string>)
    requires pos <= |s| && TagState(tag)
    decreases |s| - pos
  {
    match Turn(s, pos, tag)
    case None => true
    case Some((next, after)) => (tag.None? ==> Apart(s, pos, SearchTag(s, pos))) && BlocksApart(s, next, after)
  }

  lemma TagIsPgTag(t: string)
    requires IsTag(t)
    ensures IsPgTag(t)
  {
  }

  /** The scanner's name ends with the tag. */
  lemma TagAtIs(s: string, i: nat, e: nat)
    requires i + 2 <= e <= |s| && IsTag(s[i..e])
    ensures TagAt(s, i) == Some(e)
  {
    var t := s[i..e];
    assert t[0] == s[i] && t[e - i - 1] == s[e - 1] && s[e - 1] == '$';
    var n := NameEnd(s, i + 1);
    forall k | i < k < e - 1
      ensures IsNameChar(s[k])
    {
      assert t[k - i] == s[k];
    }
  }

  lemma TagAtHolds(s: string, i: nat)
    requires i < |s| && TagAt(s, i).Some?
    ensures IsTag(s[i..TagAt(s, i).value])
  {
  }

  lemma SameTagAt(s: string, i: nat)
    requires i < |s| && PlainTags(s)
    ensures PgTagAt(s, i) == TagAt(s, i)
  {
    if PgTagAt(s, i).Some? {
      TagAtIs(s, i, PgTagAt(s, i).value);
    } else if TagAt(s, i).Some? {
      TagAtHolds(s, i);
      TagIsPgTag(s[i..TagAt(s, i).value]);
      assert false;
    }
  }

  lemma {:induction false} SameSearch(s: string, pos: nat, i: nat)
    requires PlainTags(s) && pos <= |s| && pos <= i <= SearchTag(s, pos)
    requires SearchTag(s, pos) < |s| ==> Apart(s, pos, SearchTag(s, pos))
    ensures PgSearch(s, pos, i) == SearchTag(s, pos)
    decreases |s| - i
  {
    if i < |s| {
      SameTagAt(s, i);
      if i < SearchTag(s, pos) { SameSearch(s, pos, i + 1); }
    }
  }

  lemma SameTurn(s: string, pos: nat, tag: Option<string>)
    requires pos <= |s| && TagState(tag) && PlainTags(s) && BlocksApart(s, pos, tag)
    ensures PgState(tag) && PgTurn(s, pos, tag) == Turn(s, pos, tag)
  {
    if tag.None? {
      hide PlainTags;
      SameSearch(s, pos, pos);
      if SearchTag(s, pos) < |s| { SameTagAt(s, SearchTag(s, pos)); }
    } else {
      TagIsPgTag(tag.value);
    }
  }

  lemma {:induction false} SameScan(s: string, pos: nat, tag: Option<string>)
    requires pos <= |s| && TagState(tag) && PlainTags(s) && BlocksApart(s, pos, tag)
    ensures PgState(tag) && PgScan(s, pos, tag) == Scan(s, pos, tag)
    decreases |s| - pos
  {
    hide Turn, PgTurn, TagState, PgState, PlainTags;
    SameTurn(s, pos, tag);
    if Turn(s, pos, tag).Some? {
      SameScan(s, Turn(s, pos, tag).value.0, Turn(s, pos, tag).value.1);
    }
  }

  // ---------------------------------------------------------------- over the lines of a file

  /** A tag has no line end. */
  lemma TagOnOneLine(a: string, b: string, i: nat, e: nat)
    requires i < e <= |a| + 1 + |b| && IsPgTag((a + "\n" + b)[i..e])
    ensures e <= |a| || i > |a|
  {
    var s := a + "\n" + b;
    assert s[|a|] == '\n';
    assert forall k | i <= k < e :: s[k] == s[i..e][k - i];
  }

  lemma PlainJoin(a: string, b: string)
    requires PlainTags(a) && PlainTags(b)
    ensures PlainTags(a + "\n" + b)
  {
    var s := a + "\n" + b;
    forall i, e | 0 <= i < e <= |s| && IsPgTag(s[i..e])
      ensures IsTag(s[i..e])
    {
      TagOnOneLine(a, b, i, e);
      if e <= |a| {
        assert s[i..e] == a[i..e];
      } else {
        assert s[i..e] == b[i - |a| - 1..e - |a| - 1];
      }
    }
  }

  predicate AllPlain(lines: seq<Line>) {
    forall i | 0 <= i < |lines| :: PlainTags(lines[i])
  }

  lemma {:induction false} PlainLinesJoin(lines: seq<Line>)
    requires AllPlain(lines)
    ensures PlainTags(Join(lines))
    decreases |lines|
  {
    hide PlainTags;
    if |lines| == 0 {
      NothingIsPlain();
    } else if |lines| > 1 {
      PlainLinesJoin(lines[1..]);
      PlainJoin(lines[0], Join(lines[1..]));
    }
  }

  lemma NothingIsPlain()
    ensures PlainTags("")
  {
  }

  /** Line by line, as the splitter reads them. */
  predicate LinesApart(lines: seq<Line>, tag: Option<string>)
    requires TagState(tag)
    decreases |lines|
  {
    |lines| > 0 ==> BlocksApart(lines[0], 0, tag) && LinesApart(lines[1..], Scan(lines[0], 0, tag))
  }

  lemma ApartShifted(a: string, b: string, pos: nat, i: nat)
    requires pos <= i <= |b|
    ensures Apart(a + "\n" + b, |a| + 1 + pos, |a| + 1 + i) <==> Apart(b, pos, i)
  {
    if i > pos { assert (a + "\n" + b)[|a| + i] == b[i - 1]; }
  }

  lemma {:induction false} BlocksApartSuffix(a: string, b: string, pos: nat, tag: Option<string>)
    requires pos <= |b| && TagState(tag) && BlocksApart(b, pos, tag)
    ensures BlocksApart(a + "\n" + b, |a| + 1 + pos, tag)
    decreases |b| - pos
  {
    hide Turn, Apart, TagState;
    TurnSuffix(a, b, pos, tag);
    if Turn(b, pos, tag).Some? {
      if tag.None? {
        SearchSuffix(a, b, pos);
        ApartShifted(a, b, pos, SearchTag(b, pos));
      }
      BlocksApartSuffix(a, b, Turn(b, pos, tag).value.0, Turn(b, pos, tag).value.1);
    }
  }

  /** A block that starts on a later line starts apart: a line end is no part of an identifier. */
  lemma ApartOnLaterLine(a: string, b: string, pos: nat, i: nat)
    requires pos <= |a| && |a| + 1 <= i <= |a| + 1 + |b| && Apart(a + "\n" + b, |a| + 1, i)
    ensures Apart(a + "\n" + b, pos, i)
  {
    assert (a + "\n" + b)[|a|] == '\n';
  }

  lemma {:induction false} BlocksApartAcross(a: string, b: string, pos: nat, tag: Option<string>)
    requires pos <= |a| && TagState(tag) && BlocksApart(a, pos, tag) && BlocksApart(b, 0, Scan(a, pos, tag))
    ensures BlocksApart(a + "\n" + b, pos, tag)
    decreases |a| - pos
  {
    hide Turn, Apart, TagState;
    var s := a + "\n" + b;
    TurnPrefix(a, b, pos, tag);
    if Turn(a, pos, tag).Some? {
      if tag.None? { SameStart(a, b, pos); }
      BlocksApartAcross(a, b, Turn(a, pos, tag).value.0, Turn(a, pos, tag).value.1);
    } else {
      BlocksApartSuffix(a, b, 0, tag);
      if tag.None? && Turn(s, pos, tag).Some? { LaterStart(a, b, pos); }
    }
  }

  lemma SameStart(a: string, b: string, pos: nat)
    requires pos <= |a| && Turn(a, pos, None).Some? && Apart(a, pos, SearchTag(a, pos))
    ensures Apart(a + "\n" + b, pos, SearchTag(a + "\n" + b, pos))
  {
    SearchPrefix(a, b, pos);
    var i := SearchTag(a, pos);
    if i > pos { assert (a + "\n" + b)[i - 1] == a[i - 1]; }
  }

  lemma LaterStart(a: string, b: string, pos: nat)
    requires pos <= |a| && Turn(a, pos, None).None?
    requires Turn(a + "\n" + b, |a| + 1, None).Some? ==> Apart(a + "\n" + b, |a| + 1, SearchTag(a + "\n" + b, |a| + 1))
    requires Turn(a + "\n" + b, pos, None).Some?
    ensures Apart(a + "\n" + b, pos, SearchTag(a + "\n" + b, pos))
  {
    SearchPrefix(a, b, pos);
    ApartOnLaterLine(a, b, pos, SearchTag(a + "\n" + b, pos));
  }

  lemma {:induction false} LinesApartJoin(lines: seq<Line>, tag: Option<string>)
    requires TagState(tag) && LinesApart(lines, tag)
    ensures BlocksApart(Join(lines), 0, tag)
    decreases |lines|
  {
    hide BlocksApart, TagState;
    if |lines| == 0 {
      NothingIsApart(tag);
    } else if |lines| == 1 {
    } else {
      LinesApartJoin(lines[1..], Scan(lines[0], 0, tag));
      BlocksApartAcross(lines[0], Join(lines[1..]), 0, tag);
    }
  }

  lemma NothingIsApart(tag: Option<string>)
    requires TagState(tag)
    ensures BlocksApart("", 0, tag)
  {
  }

  // ---------------------------------------------------------------- cuts and blocks

  /** The lines that reach the statements are read with their blocks apart; comments outside blocks are dropped. */
  predicate FileApart(lines: seq<Line>, tag: Option<string>)
    requires TagState(tag)
    decreases |lines|
  {
    |lines| > 0 ==>
      if tag.None? && IsComment(lines[0]) then FileApart(lines[1..], None)
      else BlocksApart(lines[0], 0, tag) && FileApart(lines[1..], Scan(lines[0], 0, tag))
  }

  predicate ReadAlike(groups: seq<seq<Line>>) {
    forall i | 0 <= i < |groups| :: AllPlain(groups[i]) && LinesApart(groups[i], None)
  }

  lemma {:induction false} LinesApartAppend(g: seq<Line>, line: Line, tag: Option<string>)
    requires TagState(tag) && LinesApart(g, tag) && BlocksApart(line, 0, TagAfter(g, tag))
    ensures LinesApart(g + [line], tag)
    decreases |g|
  {
    hide BlocksApart, TagState;
    if |g| == 0 {
      assert (g + [line])[1..] == [];
    } else {
      assert (g + [line])[1..] == g[1..] + [line];
      LinesApartAppend(g[1..], line, Scan(g[0], 0, tag));
    }
  }

  lemma AlikeCons(g: seq<Line>, groups: seq<seq<Line>>)
    requires AllPlain(g) && LinesApart(g, None) && ReadAlike(groups)
    ensures ReadAlike([g] + groups)
  {
  }

  lemma {:induction false} DollarReadsAlike(lines: seq<Line>, buffer: seq<Line>, tag: Option<string>)
    requires TagState(tag) && TagAfter(buffer, None) == tag && AllPlain(lines) && FileApart(lines, tag)
    requires AllPlain(buffer) && LinesApart(buffer, None)
    ensures ReadAlike(Dollar(lines, buffer, tag))
    decreases |lines|
  {
    if |lines| > 0 {
      hide PlainTags, LinesApart, BlocksApart, ReadAlike, Scan, IsComment, IsTerminated, TagState;
      var line := lines[0];
      var after := Scan(line, 0, tag);
      if tag.None? && IsComment(line) {
        DollarReadsAlike(lines[1..], buffer, None);
      } else {
        TagAfterAppend(buffer, line, None);
        LinesApartAppend(buffer, line, None);
        if after.None? && IsTerminated(line) {
          EmptyIsOpen();
          NoLinesApart();
          DollarReadsAlike(lines[1..], [], None);
          AlikeCons(buffer + [line], Dollar(lines[1..], [], None));
        } else {
          DollarReadsAlike(lines[1..], buffer + [line], after);
        }
      }
    }
  }

  lemma NoLinesApart()
    ensures LinesApart([], None)
  {
  }

  /**
   * No statement but the last ends inside a block of PostgreSQL, when no tag of the file holds a digit or a character
   * beyond ASCII and no block starts inside an identifier.
   */
  lemma NeverCutsInsideABlock(lines: seq<Line>, i: nat)
    requires AllPlain(lines) && FileApart(lines, None) && i < |Dollar(lines, [], None)| - 1
    ensures PgScan(Join(Dollar(lines, [], None)[i]), 0, None) == None
  {
    hide PlainTags, BlocksApart, Scan, PgScan;
    NoLinesApart();
    EndsOutsideBlocks(lines, i);
    DollarReadsAlike(lines, [], None);
    var g := Dollar(lines, [], None)[i];
    assert AllPlain(g) && LinesApart(g, None);
    PlainLinesJoin(g);
    LinesApartJoin(g, None);
    SameScan(Join(g), 0, None);
  }

  // ---------------------------------------------------------------- which tags keep their blocks whole

  /** A function body between two tags. */
  function BlockLines(t: string, body: seq<Line>): seq<Line> {
    ["AS " + t] + body + [t + ";"]
  }

  predicate NotIn(t: string, body: seq<Line>) {
    forall i, k | 0 <= i < |body| && 0 <= k <= |body[i]| :: !OccursAt(body[i], t, k)
  }

  /** A line without white space at its ends is judged as it is. */
  lemma LineKind(line: Line)
    requires |line| > 0 && Stripped(line)
    ensures line[0] != '-' ==> !IsComment(line)
    ensures IsTerminated(line) <==> line[|line| - 1] == ';'
  {
    hide Strip;
    StripFixedIffStripped(line);
    assert |line[|line| - 1..]| == 1 && line[|line| - 1..][0] == line[|line| - 1];
    assert "--"[0] == '-' && ";"[0] == ';';
  }

  lemma LineKinds(t: string)
    requires IsPgTag(t)
    ensures !IsComment("AS " + t) && !IsTerminated("AS " + t)
    ensures !IsComment(t + ";") && IsTerminated(t + ";")
  {
    hide IsComment, IsTerminated;
    var a, b := "AS " + t, t + ";";
    assert a[0] == 'A' && a[|a| - 1] == '$' && b[0] == '$' && b[|b| - 1] == ';';
    LineKind(a);
    LineKind(b);
  }

  lemma OpensBlock(t: string)
    requires IsTag(t)
    ensures Scan("AS " + t, 0, None) == Some(t)
  {
    var s := "AS " + t;
    assert s[3..|s|] == t && s[0] == 'A' && s[1] == 'S' && s[2] == ' ' && s[3] == '$';
    TagAtIs(s, 3, |s|);
    assert SearchTag(s, 3) == 3 && SearchTag(s, 2) == 3 && SearchTag(s, 1) == 3 && SearchTag(s, 0) == 3;
    assert Turn(s, 0, None) == Some((|s|, Some(t)));
    assert Turn(s, |s|, Some(t)) == None;
    assert Scan(s, |s|, Some(t)) == Some(t);
  }

  lemma ClosesBlock(t: string)
    requires IsTag(t)
    ensures Scan(t + ";", 0, Some(t)) == None
  {
    var s := t + ";";
    assert s[0..|t|] == t && OccursAt(s, t, 0) && s[|t|] == ';';
    assert Turn(s, 0, Some(t)) == Some((|t|, None));
    assert SearchTag(s, |t|) == |s|;
    assert Scan(s, |t|, None) == None;
  }

  lemma {:induction false} NeverFound(s: string, t: string, pos: nat)
    requires pos <= |s| && forall k | 0 <= k <= |s| :: !OccursAt(s, t, k)
    ensures Find(s, t, pos) == |s| + 1
  {
  }

  lemma {:induction false} BodyKept(t: string, body: seq<Line>, buffer: seq<Line>)
    requires IsTag(t) && NotIn(t, body)
    ensures Dollar(body + [t + ";"], buffer, Some(t)) == [buffer + body + [t + ";"]]
    decreases |body|
  {
    hide IsTerminated, IsComment;
    if |body| == 0 {
      TagIsPgTag(t);
      ClosesBlock(t);
      LineKinds(t);
      assert body + [t + ";"] == [t + ";"] && [t + ";"][1..] == [];
      assert Dollar([], [], None) == [];
      assert buffer + body + [t + ";"] == buffer + [t + ";"];
    } else {
      var lines := body + [t + ";"];
      assert lines[0] == body[0] && lines[1..] == body[1..] + [t + ";"];
      NeverFound(body[0], t, 0);
      assert Scan(body[0], 0, Some(t)) == Some(t);
      BodyKept(t, body[1..], buffer + [body[0]]);
      assert buffer + [body[0]] + body[1..] + [t + ";"] == buffer + body + [t + ";"];
    }
  }

  lemma LettersKeepBlock(t: string, body: seq<Line>)
    requires IsTag(t) && NotIn(t, body)
    ensures Dollar(BlockLines(t, body), [], None) == [BlockLines(t, body)]
  {
    hide IsTerminated, IsComment;
    TagIsPgTag(t);
    LineKinds(t);
    OpensBlock(t);
    var lines := BlockLines(t, body);
    assert lines[0] == "AS " + t && lines[1..] == body + [t + ";"];
    BodyKept(t, body, ["AS " + t]);
    assert [] + ["AS " + t] == ["AS " + t];
    assert ["AS " + t] + body + [t + ";"] == lines;
  }

  /** A tag that the scanner does not know is none for it wherever it stands. */
  lemma BrokenTag(pre: string, t: string, post: string)
    requires IsPgTag(t) && !IsTag(t)
    requires (forall i | 0 <= i < |pre| :: pre[i] != '$') && forall i | 0 <= i < |post| :: post[i] != '$'
    ensures NoTag(pre + t + post)
  {
    var s := pre + t + post;
    forall i | 0 <= i < |s|
      ensures TagAt(s, i).None?
    {
      DollarsOf(pre, t, post, i);
      if TagAt(s, i).Some? {
        var e := TagAt(s, i).value;
        DollarsOf(pre, t, post, e - 1);
        assert s[i..e] == t;
        TagAtHolds(s, i);
        assert false;
      }
    }
  }

  lemma DollarsOf(pre: string, t: string, post: string, i: nat)
    requires IsPgTag(t) && i < |pre + t + post|
    requires (forall i | 0 <= i < |pre| :: pre[i] != '$') && forall i | 0 <= i < |post| :: post[i] != '$'
    ensures (pre + t + post)[i] == '$' <==> i == |pre| || i == |pre| + |t| - 1
  {
    var s := pre + t + post;
    if i < |pre| {
      assert s[i] == pre[i];
    } else if i < |pre| + |t| {
      assert s[i] == t[i - |pre|];
      if 0 < i - |pre| < |t| - 1 { assert ContinuesName(t[i - |pre|]); }
    } else {
      assert s[i] == post[i - |pre| - |t|];
    }
  }

  /** Three lines of which only the first is open, as the naive splitter reads them. */
  lemma NaiveCutsTwice(a: Line, b: Line, c: Line)
    requires !IsComment(a) && !IsTerminated(a) && !IsComment(b) && IsTerminated(b) && !IsComment(c) && IsTerminated(c)
    ensures Naive([a, b, c], []) == [[a, b], [c]]
  {
    hide IsTerminated, IsComment;
    assert [a, b, c][1..] == [b, c] && [b, c][1..] == [c] && [c][1..] == [];
    assert [] + [c] == [c] && [a] + [b] == [a, b] && Naive([], []) == [];
    assert Naive([c], []) == [[c]];
    assert Naive([b, c], [a]) == [[a, b]] + Naive([c], []);
    assert Naive([a, b, c], []) == Naive([b, c], [] + [a]) && [] + [a] == [a];
  }

  /** With any other tag a semicolon in the block ends the statement. */
  lemma OthersCutBlock(t: string)
    requires IsPgTag(t) && !IsTag(t)
    ensures Dollar(BlockLines(t, ["a;"]), [], None) == [["AS " + t, "a;"], [t + ";"]]
  {
    hide IsTerminated, IsComment, NoTag, IsPgTag, IsTag, Naive, Dollar;
    BrokenTag("AS ", t, "");
    BrokenTag("", t, ";");
    assert "AS " + t + "" == "AS " + t && "" + t + ";" == t + ";";
    ShortLine();
    LineKinds(t);
    var lines := ["AS " + t, "a;", t + ";"];
    assert BlockLines(t, ["a;"]) == lines;
    NaiveAgreesWithoutTags(lines, []);
    NaiveCutsTwice("AS " + t, "a;", t + ";");
  }

  lemma ShortLine()
    ensures NoTag("a;") && !IsComment("a;") && IsTerminated("a;")
  {
    StripFixedIffStripped("a;");
    assert "a;"[1..] == ";";
  }

  /** The first of the two pieces ends inside the block. */
  lemma PieceIsOpen(t: string)
    requires IsPgTag(t) && !IsTag(t)
    ensures PgScan(Join(["AS " + t, "a;"]), 0, None) == Some(t)
  {
    var s := "AS " + t + "\na;";
    assert ["AS " + t, "a;"][1..] == ["a;"];
    assert Join(["AS " + t, "a;"]) == s;
    var e := 3 + |t|;
    assert s[3..e] == t && s[0] == 'A' && s[1] == 'S' && s[2] == ' ';
    TagEndsWithName(s, 3, e);
    assert PgTagAt(s, 3) == Some(e) by {
      TagEndsWithName(s, 3, PgTagAt(s, 3).value);
    }
    assert Apart(s, 0, 3);
    assert PgSearch(s, 0, 3) == 3 && PgSearch(s, 0, 2) == 3 && PgSearch(s, 0, 1) == 3 && PgSearch(s, 0, 0) == 3;
    assert PgTurn(s, 0, None) == Some((e, Some(t)));
    NoDollarLater(t);
    assert PgTurn(s, e, Some(t)) == None;
    assert PgScan(s, e, Some(t)) == Some(t);
  }

  lemma NoDollarLater(t: string)
    requires IsPgTag(t)
    ensures var s := "AS " + t + "\na;"; Find(s, t, 3 + |t|) == |s| + 1
  {
    var s := "AS " + t + "\na;";
    forall k: nat | 3 + |t| <= k <= |s|
      ensures !OccursAt(s, t, k)
    {
      if k < |s| { DollarsOf("AS ", t, "\na;", k); }
      StartsWithDollar(s, t, k);
    }
    var i := Find(s, t, 3 + |t|);
  }

  lemma StartsWithDollar(s: string, t: string, k: nat)
    requires IsPgTag(t) && k <= |s| && (k < |s| ==> s[k] != '$')
    ensures !OccursAt(s, t, k)
  {
    if k + |t| <= |s| { assert s[k..k + |t|][0] == s[k]; }
  }

  /** A tag keeps every function body whole exactly when it has only ASCII letters and underscores. */
  lemma KeepsBlocksIff(t: string)
    requires IsPgTag(t)
    ensures (forall body :: NotIn(t, body) ==> Dollar(BlockLines(t, body), [], None) == [BlockLines(t, body)]) <==>
        forall k | 0 < k < |t| - 1 :: IsAsciiNameChar(t[k])
  {
    if IsTag(t) {
      forall body | NotIn(t, body)
        ensures Dollar(BlockLines(t, body), [], None) == [BlockLines(t, body)]
      {
        LettersKeepBlock(t, body);
      }
    } else {
      OthersCutBlock(t);
      NotInShort(t);
      assert |Dollar(BlockLines(t, ["a;"]), [], None)| == 2;
    }
  }

  lemma NotInShort(t: string)
    requires IsPgTag(t)
    ensures NotIn(t, ["a;"])
  {
    forall k: nat | k <= 2
      ensures !OccursAt("a;", t, k)
    {
      StartsWithDollar("a;", t, k);
    }
  }

  lemma DigitTag()
    ensures IsPgTag("$f1$") && !IsTag("$f1$")
  {
    var t := "$f1$";
    assert t[1] == 'f' && t[2] == '1' && !IsNameChar(t[2]);
  }

  /** The cut is real: two statements, the first of which ends inside the block. */
  lemma DigitTagIsCut()
    ensures Dollar(["AS $f1$", "a;", "$f1$;"], [], None) == [["AS $f1$", "a;"], ["$f1$;"]]
    ensures PgScan(Join(["AS $f1$", "a;"]), 0, None) == Some("$f1$")
  {
    hide Dollar, PgScan, IsPgTag, IsTag;
    DigitTag();
    OthersCutBlock("$f1$");
    PieceIsOpen("$f1$");
    assert "AS " + "$f1$" == "AS $f1$";
    assert "$f1$" + ";" == "$f1$;";
    assert BlockLines("$f1$", ["a;"]) == ["AS $f1$", "a;", "$f1$;"];
  }
}
