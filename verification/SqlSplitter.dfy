/** The three ways in which migration files are cut into statements, over the lines of a file. */
module SqlSplitter {
  import opened Outcomes
  import opened Text

  type Line = string

  // ---------------------------------------------------------------- dollar tags

  predicate IsNameChar(c: char) {
    'a' <= c <= 'z' || 'A' <= c <= 'Z' || c == '_'
  }

  /** First position at or after `i` that is not part of a name. */
  function NameEnd(s: string, i: nat): (e: nat)
    requires i <= |s|
    ensures i <= e <= |s|
    ensures e < |s| ==> !IsNameChar(s[e])
    ensures forall k | i <= k < e :: IsNameChar(s[k])
    decreases |s| - i
  {
    if i < |s| && IsNameChar(s[i]) then NameEnd(s, i + 1) else i
  }

  /** End of the tag `$name$` that starts at `i`, if one does; the name may be empty. */
  function TagAt(s: string, i: nat): (e: Option<nat>)
    requires i < |s|
    ensures e.Some? ==> i + 2 <= e.value <= |s| && s[i] == '$' && s[e.value - 1] == '$'
  {
    if s[i] != '$' then None
    else
      var n := NameEnd(s, i + 1);
      if n < |s| && s[n] == '$' then Some(n + 1) else None
  }

  /** `re.search` of a tag from `pos`: the leftmost start, or |s|. */
  function SearchTag(s: string, pos: nat): (i: nat)
    requires pos <= |s|
    ensures pos <= i <= |s|
    ensures i < |s| ==> TagAt(s, i).Some?
    ensures forall k | pos <= k < i :: TagAt(s, k).None?
    decreases |s| - pos
  {
    if pos == |s| || TagAt(s, pos).Some? then pos else SearchTag(s, pos + 1)
  }

  predicate OccursAt(s: string, needle: string, i: nat) {
    i + |needle| <= |s| && s[i..i + |needle|] == needle
  }

  /** `str.find`: the leftmost occurrence from `pos`, or |s| + 1. */
  function Find(s: string, needle: string, pos: nat): (i: nat)
    requires pos <= |s|
    ensures i == |s| + 1 || (pos <= i && OccursAt(s, needle, i))
    ensures forall k | pos <= k < i :: !OccursAt(s, needle, k)
    decreases |s| - pos
  {
    if OccursAt(s, needle, pos) then pos
    else if pos == |s| then |s| + 1
    else Find(s, needle, pos + 1)
  }

  /** A tag as the scanner stores it. */
  predicate IsTag(tag: string) {
    |tag| >= 2 && tag[0] == '$' && tag[|tag| - 1] == '$' && forall k | 0 < k < |tag| - 1 :: IsNameChar(tag[k])
  }

  predicate TagState(tag: Option<string>) {
    tag.Some? ==> IsTag(tag.value)
  }

  /** One turn of the scanning loop from `pos`: past the next opening or closing tag; None when there is none. */
  function Turn(s: string, pos: nat, tag: Option<string>): (r: Option<(nat, Option<string>)>)
    requires pos <= |s| && TagState(tag)
    ensures r.Some? ==> pos < r.value.0 <= |s| && TagState(r.value.1) && (tag.None? <==> r.value.1.Some?)
  {
    match tag
    case None =>
      var i := SearchTag(s, pos);
      if i == |s| then None else Some((TagAt(s, i).value, Some(s[i..TagAt(s, i).value])))
    case Some(t) =>
      var i := Find(s, t, pos);
      if i > |s| then None else Some((i + |t|, None))
  }

  /** The open tag, if any, after reading `s` from `pos` with `tag` open before. */
  function Scan(s: string, pos: nat, tag: Option<string>): (r: Option<string>)
    requires pos <= |s| && TagState(tag)
    ensures TagState(r)
    decreases |s| - pos
  {
    match Turn(s, pos, tag)
    case None => tag
    case Some((next, after)) => Scan(s, next, after)
  }

  method ScanLine(line: Line, tag: Option<string>) returns (r: Option<string>)
    requires TagState(tag)
    ensures r == Scan(line, 0, tag)
  {
    r := tag;
    var pos := 0;
    while true
      invariant pos <= |line| && TagState(r)
      invariant Scan(line, pos, r) == Scan(line, 0, tag)
      decreases |line| - pos
    {
      hide TagState, Turn;
      match Turn(line, pos, r) {
        case None => break;
        case Some((next, after)) => pos, r := next, after;
      }
    }
  }

  // ---------------------------------------------------------------- the splitters

  predicate IsComment(line: Line) {
    StartsWith(Strip(line), "--")
  }

  predicate IsTerminated(line: Line) {
    EndsWith(Strip(line), ";")
  }

  function Join(lines: seq<Line>): string {
    if |lines| == 0 then "" else if |lines| == 1 then lines[0] else lines[0] + "\n" + Join(lines[1..])
  }

  /** The statement a buffer of lines becomes, unless it is blank. */
  function Emit(buffer: seq<Line>): seq<string> {
    if Strip(Join(buffer)) == "" then [] else [Strip(Join(buffer))]
  }

  /** The buffers that are flushed, in order; the last may be unterminated. */
  function Dollar(lines: seq<Line>, buffer: seq<Line>, tag: Option<string>): seq<seq<Line>>
    requires TagState(tag)
    decreases |lines|
  {
    if |lines| == 0 then if |buffer| == 0 then [] else [buffer]
    else
      var line := lines[0];
      if tag.None? && IsComment(line) then Dollar(lines[1..], buffer, None)
      else
        var after := Scan(line, 0, tag);
        if after.None? && IsTerminated(line) then [buffer + [line]] + Dollar(lines[1..], [], None)
        else Dollar(lines[1..], buffer + [line], after)
  }

  function Naive(lines: seq<Line>, buffer: seq<Line>): seq<seq<Line>>
    decreases |lines|
  {
    if |lines| == 0 then if |buffer| == 0 then [] else [buffer]
    else
      var line := lines[0];
      if IsComment(line) then Naive(lines[1..], buffer)
      else if IsTerminated(line) then [buffer + [line]] + Naive(lines[1..], [])
      else Naive(lines[1..], buffer + [line])
  }

  /** `line.count("$$")` from `pos`: occurrences that do not overlap. */
  function Count(s: string, pos: nat): nat
    requires pos <= |s|
    decreases |s| - pos
  {
    var i := Find(s, "$$", pos);
    if i > |s| then 0 else 1 + Count(s, i + 2)
  }

  function Parity(lines: seq<Line>, buffer: seq<Line>, inBlock: bool): seq<seq<Line>>
    decreases |lines|
  {
    if |lines| == 0 then if |buffer| == 0 then [] else [buffer]
    else
      var line := lines[0];
      if !inBlock && IsComment(line) then Parity(lines[1..], buffer, false)
      else
        var after := if Count(line, 0) % 2 == 1 then !inBlock else inBlock;
        if !after && IsTerminated(line) then [buffer + [line]] + Parity(lines[1..], [], false)
        else Parity(lines[1..], buffer + [line], after)
  }

  function Render(groups: seq<seq<Line>>): seq<string> {
    if |groups| == 0 then [] else Emit(groups[0]) + Render(groups[1..])
  }

  method DollarStatements(lines: seq<Line>) returns (parts: seq<string>)
    ensures parts == Render(Dollar(lines, [], None))
  {
    parts := [];
    var buffer: seq<Line> := [];
    var tag: Option<string> := None;
    for i := 0 to |lines|
      invariant TagState(tag)
      invariant parts + Render(Dollar(lines[i..], buffer, tag)) == Render(Dollar(lines, [], None))
    {
      var line := lines[i];
      var rest := lines[i..];
      assert rest[0] == line && rest[1..] == lines[i + 1..];
      if tag.None? && IsComment(line) {
        continue;
      }
      buffer := buffer + [line];
      tag := ScanLine(line, tag);
      if tag.None? && IsTerminated(line) {
        RenderCons(buffer, Dollar(lines[i + 1..], [], None));
        parts := parts + Emit(buffer);
        buffer := [];
      }
    }
    if |buffer| > 0 {
      RenderCons(buffer, []);
      parts := parts + Emit(buffer);
    }
  }

  method ParityStatements(lines: seq<Line>) returns (parts: seq<string>)
    ensures parts == Render(Parity(lines, [], false))
  {
    parts := [];
    var buffer: seq<Line> := [];
    var inBlock := false;
    for i := 0 to |lines|
      invariant parts + Render(Parity(lines[i..], buffer, inBlock)) == Render(Parity(lines, [], false))
    {
      var line := lines[i];
      var rest := lines[i..];
      assert rest[0] == line && rest[1..] == lines[i + 1..];
      if !inBlock && IsComment(line) {
        continue;
      }
      buffer := buffer + [line];
      if Count(line, 0) % 2 == 1 {
        inBlock := !inBlock;
      }
      if !inBlock && IsTerminated(line) {
        RenderCons(buffer, Parity(lines[i + 1..], [], false));
        parts := parts + Emit(buffer);
        buffer := [];
      }
    }
    if |buffer| > 0 {
      RenderCons(buffer, []);
      parts := parts + Emit(buffer);
    }
  }

  lemma RenderCons(group: seq<Line>, rest: seq<seq<Line>>)
    ensures Render([group] + rest) == Emit(group) + Render(rest)
  {
    assert ([group] + rest)[1..] == rest;
  }
}
