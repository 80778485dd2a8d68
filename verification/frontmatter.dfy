/** The router's frontmatter printer and parser, and what survives a round trip. */
module Frontmatter {
  import opened Prelude
  import opened Text

  /** An insertion-ordered dictionary. */
  type Pairs = seq<(string, string)>

  function Keys(pairs: Pairs): (keys: seq<string>)
    ensures |keys| == |pairs| && forall i :: 0 <= i < |pairs| ==> keys[i] == pairs[i].0
  {
    seq(|pairs|, i requires 0 <= i < |pairs| => pairs[i].0)
  }

  /** Assigning a dictionary member: in place when present, else at the end. */
  function SetPair(pairs: Pairs, key: string, value: string): Pairs {
    if pairs == [] then [(key, value)]
    else if pairs[0].0 == key then [(key, value)] + pairs[1..]
    else [pairs[0]] + SetPair(pairs[1..], key, value)
  }

  lemma {:induction false} SetNewPair(pairs: Pairs, key: string, value: string)
    requires key !in Keys(pairs)
    ensures SetPair(pairs, key, value) == pairs + [(key, value)]
  {
    if pairs != [] {
      assert Keys(pairs)[0] == pairs[0].0;
      assert Keys(pairs[1..]) == Keys(pairs)[1..];
      SetNewPair(pairs[1..], key, value);
      HeadInFront(SetPair(pairs, key, value), [pairs[0]], SetPair(pairs[1..], key, value), pairs[1..], [(key, value)]);
      assert [pairs[0]] + pairs[1..] == pairs;
    }
  }

  /** Looking a member up. */
  function ValueOf(pairs: Pairs, key: string): Option<string> {
    if pairs == [] then None else if pairs[0].0 == key then Some(pairs[0].1) else ValueOf(pairs[1..], key)
  }

  /** The key maps to what was assigned last; every other key to what it did. */
  lemma {:induction false} SetPairSets(pairs: Pairs, key: string, value: string, other: string)
    ensures ValueOf(SetPair(pairs, key, value), other) == if other == key then Some(value) else ValueOf(pairs, other)
  {
    if pairs != [] {
      assert ([(key, value)] + pairs[1..])[1..] == pairs[1..];
      SetPairSets(pairs[1..], key, value, other);
    }
  }

  predicate IsNewline(c: char) {
    c == '\n'
  }

  predicate IsDoubleQuote(c: char) {
    c == '"'
  }

  predicate IsSingleQuote(c: char) {
    c == '\''
  }

  predicate NoBreaks(s: string) {
    forall i :: 0 <= i < |s| ==> !IsLineBreak(s[i])
  }

  /** "\n" is the only kind of line break. */
  predicate OnlyNewlines(s: string) {
    forall i :: 0 <= i < |s| && IsLineBreak(s[i]) ==> s[i] == '\n'
  }

  /** splitlines(): "\r\n" is one break, and a final break opens no line. */
  function SplitLines(s: string): (lines: seq<string>)
    ensures s != "" ==> lines != []
    decreases |s|
  {
    if s == "" then []
    else if IsLineBreak(s[0]) then
      [""] + SplitLines(s[if s[0] == '\r' && |s| > 1 && s[1] == '\n' then 2 else 1..])
    else
      var rest := SplitLines(s[1..]);
      if rest == [] then [[s[0]]] else [[s[0]] + rest[0]] + rest[1..]
  }

  /** split("\n"). */
  function SplitNewlines(s: string): (lines: seq<string>)
    ensures lines != []
  {
    SplitOn(s, '\n')
  }

  // ---------------------------------------------------------------------
  // Printing
  // ---------------------------------------------------------------------

  function Indent(lines: seq<string>): (r: seq<string>)
    ensures |r| == |lines| && forall i :: 0 <= i < |r| ==> r[i] == "  " + lines[i]
  {
    seq(|lines|, i requires 0 <= i < |lines| => "  " + lines[i])
  }

  function RenderPair(pair: (string, string)): seq<string> {
    var key, value := Strip(pair.0), Trim(pair.1, IsNewline);
    if key == "" then []
    else if '\n' in value then [key + ": |"] + Indent(SplitNewlines(value))
    else [key + ": " + Strip(value)]
  }

  function RenderPairs(pairs: Pairs): seq<string> {
    if pairs == [] then [] else RenderPair(pairs[0]) + RenderPairs(pairs[1..])
  }

  function Render(pairs: Pairs, body: string): string {
    var head := Join(["---"] + RenderPairs(pairs) + ["---"], "\n");
    if body != "" then head + "\n\n" + TrimRight(body, IsNewline) + "\n" else head + "\n"
  }

  /** One pair's lines, appended in place. */
  method RenderEntry(lines: seq<string>, pair: (string, string)) returns (r: seq<string>)
    ensures r == lines + RenderPair(pair)
  {
    r := lines;
    var key, value := Strip(pair.0), Trim(pair.1, IsNewline);
    if key == "" {
      return;
    }
    if '\n' in value {
      var valueLines := SplitNewlines(value);
      r := r + [key + ": |"];
      var i := 0;
      while i < |valueLines|
        invariant 0 <= i <= |valueLines|
        invariant r == lines + [key + ": |"] + Indent(valueLines[..i])
      {
        assert Indent(valueLines[..i + 1]) == Indent(valueLines[..i]) + ["  " + valueLines[i]];
        r := r + ["  " + valueLines[i]];
        i := i + 1;
      }
      assert valueLines[..i] == valueLines;
    } else {
      r := r + [key + ": " + Strip(value)];
    }
  }

  lemma RenderNext(lines: seq<string>, pairs: Pairs, i: nat)
    requires i < |pairs|
    ensures lines + RenderPairs(pairs[i..]) == (lines + RenderPair(pairs[i])) + RenderPairs(pairs[i + 1..])
  {
    assert pairs[i..][1..] == pairs[i + 1..];
  }

  method RenderFrontmatter(pairs: Pairs, body: string) returns (text: string)
    ensures text == Render(pairs, body)
  {
    var lines := ["---"];
    var i := 0;
    while i < |pairs|
      invariant 0 <= i <= |pairs|
      invariant lines + RenderPairs(pairs[i..]) == ["---"] + RenderPairs(pairs)
    {
      RenderNext(lines, pairs, i);
      lines := RenderEntry(lines, pairs[i]);
      i := i + 1;
    }
    assert lines == ["---"] + RenderPairs(pairs);
    lines := lines + ["---"];
    if body != "" {
      text := Join(lines, "\n") + "\n\n" + TrimRight(body, IsNewline) + "\n";
    } else {
      text := Join(lines, "\n") + "\n";
    }
  }

  // ---------------------------------------------------------------------
  // Parsing
  // ---------------------------------------------------------------------

  datatype ParseError = NoOpening | NoClosing | InvalidLine(line: string) | EmptyKey

  datatype Block = NoBlock | InBlock(key: string, lines: seq<string>)

  /** The dictionary so far and the block value being collected. */
  datatype Scan = Scan(pairs: Pairs, block: Block)

  function Flush(st: Scan): Pairs {
    match st.block
    case NoBlock => st.pairs
    case InBlock(key, lines) => SetPair(st.pairs, key, TrimRight(Join(lines, "\n"), IsNewline))
  }

  function ColonIndex(s: string): (r: Option<nat>)
    ensures r.Some? ==> r.value < |s| && s[r.value] == ':' && ':' !in s[..r.value]
    ensures r.None? ==> ':' !in s
  {
    if s == "" then None
    else if s[0] == ':' then Some(0)
    else
      var rest := ColonIndex(s[1..]);
      if rest.Some? then Some(rest.value + 1) else None
  }

  function Unquote(s: string): string {
    Trim(Trim(s, IsDoubleQuote), IsSingleQuote)
  }

  predicate BlockMarker(value: string) {
    value in {"|", "|-", "|+"}
  }

  /** A line outside any block. */
  function KeyLine(pairs: Pairs, line: string): Result<Scan, ParseError> {
    var s := Strip(line);
    if s == "" then Ok(Scan(pairs, NoBlock))
    else
      var colon := ColonIndex(s);
      if colon.None? then Err(InvalidLine(line))
      else
        var key, value := Strip(s[..colon.value]), Unquote(Strip(s[colon.value + 1..]));
        if key == "" then Err(EmptyKey)
        else if BlockMarker(value) then Ok(Scan(pairs, InBlock(key, [])))
        else Ok(Scan(SetPair(pairs, key, value), NoBlock))
  }

  predicate Indented(line: string) {
    |line| >= 2 && line[..2] == "  "
  }

  function FeedLine(st: Scan, line: string): Result<Scan, ParseError> {
    if st.block.InBlock? && (Indented(line) || line == "") then
      Ok(Scan(st.pairs, InBlock(st.block.key, st.block.lines + [if Indented(line) then line[2..] else ""])))
    else KeyLine(Flush(st), line)
  }

  function FeedLines(st: Scan, lines: seq<string>): Result<Scan, ParseError>
    decreases |lines|
  {
    if lines == [] then Ok(st)
    else
      var next :- FeedLine(st, lines[0]);
      FeedLines(next, lines[1..])
  }

  /** The first line from `i` on that strips to the delimiter. */
  function ClosingIndex(lines: seq<string>, i: nat): (r: Option<nat>)
    requires i <= |lines|
    ensures r.Some? ==> i <= r.value < |lines| && Strip(lines[r.value]) == "---"
    decreases |lines| - i
  {
    if i == |lines| then None else if Strip(lines[i]) == "---" then Some(i) else ClosingIndex(lines, i + 1)
  }

  function Parse(content: string): Result<(Pairs, string), ParseError> {
    if !("---\n" <= content) then Err(NoOpening)
    else
      var lines := SplitLines(content);
      if lines == [] || Strip(lines[0]) != "---" then Err(NoOpening)
      else
        var closing := ClosingIndex(lines, 1);
        if closing.None? then Err(NoClosing)
        else
          var st :- FeedLines(Scan([], NoBlock), lines[1..closing.value]);
          Ok((Flush(st), Join(lines[closing.value + 1..], "\n")))
  }

  /** The lines between the delimiters, one at a time. */
  method ParseLines(lines: seq<string>) returns (r: Result<Pairs, ParseError>)
    ensures var st := FeedLines(Scan([], NoBlock), lines);
            r == if st.Ok? then Ok(Flush(st.value)) else Err(st.error)
  {
    var pairs: Pairs := [];
    var blockKey: Option<string> := None;
    var blockLines: seq<string> := [];
    var i := 0;
    while i < |lines|
      invariant 0 <= i <= |lines|
      invariant FeedLines(Scan(pairs, if blockKey.Some? then InBlock(blockKey.value, blockLines) else NoBlock),
                          lines[i..])
             == FeedLines(Scan([], NoBlock), lines)
    {
      ghost var st := Scan(pairs, if blockKey.Some? then InBlock(blockKey.value, blockLines) else NoBlock);
      assert lines[i..][0] == lines[i] && lines[i..][1..] == lines[i + 1..];
      var line := lines[i];
      i := i + 1;
      if blockKey.Some? {
        if Indented(line) {
          blockLines := blockLines + [line[2..]];
          continue;
        }
        if line == "" {
          blockLines := blockLines + [""];
          continue;
        }
        pairs := SetPair(pairs, blockKey.value, TrimRight(Join(blockLines, "\n"), IsNewline));
        blockKey, blockLines := None, [];
      }
      assert FeedLine(st, line) == KeyLine(pairs, line);
      var stripped := Strip(line);
      if stripped == "" {
        continue;
      }
      var colon := ColonIndex(stripped);
      if colon.None? {
        return Err(InvalidLine(line));
      }
      var key, value := Strip(stripped[..colon.value]), Unquote(Strip(stripped[colon.value + 1..]));
      if key == "" {
        return Err(EmptyKey);
      }
      if BlockMarker(value) {
        blockKey, blockLines := Some(key), [];
        continue;
      }
      pairs := SetPair(pairs, key, value);
    }
    if blockKey.Some? {
      pairs := SetPair(pairs, blockKey.value, TrimRight(Join(blockLines, "\n"), IsNewline));
    }
    r := Ok(pairs);
  }

  method ParseFrontmatter(content: string) returns (r: Result<(Pairs, string), ParseError>)
    ensures r == Parse(content)
  {
    if !("---\n" <= content) {
      return Err(NoOpening);
    }
    var lines := SplitLines(content);
    if lines == [] || Strip(lines[0]) != "---" {
      return Err(NoOpening);
    }
    var index := 1;
    while index < |lines| && Strip(lines[index]) != "---"
      invariant 1 <= index <= |lines|
      invariant ClosingIndex(lines, index) == ClosingIndex(lines, 1)
    {
      index := index + 1;
    }
    if index == |lines| {
      return Err(NoClosing);
    }
    var pairs := ParseLines(lines[1..index]);
    if pairs.Err? {
      return Err(pairs.error);
    }
    r := Ok((pairs.value, Join(lines[index + 1..], "\n")));
  }

  // ---------------------------------------------------------------------
  // Lines
  // ---------------------------------------------------------------------

  lemma {:induction false} SplitFirstLine(line: string, rest: string)
    requires NoBreaks(line)
    ensures SplitLines(line + "\n" + rest) == [line] + SplitLines(rest)
  {
    var s := line + "\n" + rest;
    if line == "" {
      assert s[0] == '\n' && s[1..] == rest;
    } else {
      SplitFirstLine(line[1..], rest);
      assert s[0] == line[0] && s[1..] == line[1..] + "\n" + rest;
      assert [line[0]] + line[1..] == line;
      assert ([line[1..]] + SplitLines(rest))[1..] == SplitLines(rest);
    }
  }

  /** Lines without breaks, joined and closed by a newline, split back. */
  lemma {:induction false} SplitJoined(lines: seq<string>, rest: string)
    requires lines != [] && forall i :: 0 <= i < |lines| ==> NoBreaks(lines[i])
    ensures SplitLines(Join(lines, "\n") + "\n" + rest) == lines + SplitLines(rest)
  {
    if |lines| == 1 {
      SplitFirstLine(lines[0], rest);
    } else {
      var more := Join(lines[1..], "\n") + "\n" + rest;
      assert Join(lines, "\n") + "\n" + rest == lines[0] + "\n" + more;
      SplitFirstLine(lines[0], more);
      SplitJoined(lines[1..], rest);
      assert lines == [lines[0]] + lines[1..];
    }
  }

  lemma {:induction false} SplitBody(s: string)
    requires OnlyNewlines(s)
    ensures SplitLines(s + "\n") == SplitNewlines(s)
  {
    if s != "" {
      SplitBody(s[1..]);
      assert (s + "\n")[1..] == s[1..] + "\n";
    }
  }

  lemma JoinEmptyFirst(rest: seq<string>)
    requires rest != []
    ensures Join([""] + rest, "\n") == "\n" + Join(rest, "\n")
  {
    assert ([""] + rest)[1..] == rest;
  }

  lemma JoinLongerFirst(c: char, rest: seq<string>)
    requires rest != []
    ensures Join([[c] + rest[0]] + rest[1..], "\n") == [c] + Join(rest, "\n")
  {
    assert ([[c] + rest[0]] + rest[1..])[1..] == rest[1..];
  }

  lemma {:induction false} JoinSplitNewlines(s: string)
    ensures Join(SplitNewlines(s), "\n") == s
  {
    if s != "" {
      var rest := SplitNewlines(s[1..]);
      JoinSplitNewlines(s[1..]);
      if s[0] == '\n' {
        JoinEmptyFirst(rest);
      } else {
        JoinLongerFirst(s[0], rest);
      }
    }
  }

  lemma {:induction false} LinesHaveNoBreaks(s: string)
    ensures forall i :: 0 <= i < |SplitLines(s)| ==> NoBreaks(SplitLines(s)[i])
    decreases |s|
  {
    if s != "" {
      if IsLineBreak(s[0]) {
        LinesHaveNoBreaks(s[if s[0] == '\r' && |s| > 1 && s[1] == '\n' then 2 else 1..]);
      } else {
        LinesHaveNoBreaks(s[1..]);
      }
    }
  }

  lemma {:induction false} JoinOnlyNewlines(lines: seq<string>)
    requires forall i :: 0 <= i < |lines| ==> NoBreaks(lines[i])
    ensures OnlyNewlines(Join(lines, "\n"))
  {
    if |lines| > 1 { JoinOnlyNewlines(lines[1..]); }
  }

  // ---------------------------------------------------------------------
  // Round trip
  // ---------------------------------------------------------------------

  predicate CleanKey(key: string) {
    key != "" && Trimmed(key) && ':' !in key && NoBreaks(key)
  }

  /** No line of the text would close the frontmatter. */
  ghost predicate NoDelimiter(text: string) {
    forall i :: 0 <= i < |SplitNewlines(text)| ==> Strip(SplitNewlines(text)[i]) != "---"
  }

  ghost predicate PrintablePair(pair: (string, string)) {
    var t := Trim(pair.1, IsNewline);
    CleanKey(pair.0) && OnlyNewlines(pair.1) && ('\n' in t ==> NoDelimiter(t))
  }

  /** A dictionary whose printed form keeps its lines apart; whatever the parser
      returns is one. */
  ghost predicate Printable(pairs: Pairs) {
    NoDup(Keys(pairs)) && forall i :: 0 <= i < |pairs| ==> PrintablePair(pairs[i])
  }

  /** What is read back for a printed value. */
  function ReadBack(value: string): string {
    var t := Trim(value, IsNewline);
    if '\n' in t then t
    else
      var u := Unquote(Strip(t));
      if BlockMarker(u) then "" else u
  }

  function AllReadBack(pairs: Pairs): (r: Pairs)
    ensures |r| == |pairs| && Keys(r) == Keys(pairs)
    ensures forall i :: 0 <= i < |r| ==> r[i] == (pairs[i].0, ReadBack(pairs[i].1))
  {
    seq(|pairs|, i requires 0 <= i < |pairs| => (pairs[i].0, ReadBack(pairs[i].1)))
  }

  /** A value that nothing is stripped from: no outer blanks or quotes on a single
      line, no outer newlines on several. */
  predicate CleanValue(value: string) {
    if '\n' in value then Bare(value, IsNewline)
    else Trimmed(value) && Bare(value, IsDoubleQuote) && Bare(value, IsSingleQuote) && !BlockMarker(value)
  }

  lemma TrimShortens(s: string, drop: char -> bool)
    ensures |Trim(s, drop)| <= |s| && (|Trim(s, drop)| == |s| ==> Trim(s, drop) == s)
    ensures Trim(s, drop) == s <==> Bare(s, drop)
    ensures forall c :: c in Trim(s, drop) ==> c in s
  {
    var left, t := TrimLeft(s, drop), Trim(s, drop);
    TrimLeftSpec(s, drop);
    TrimRightSpec(left, drop);
    TrimIsBare(s, drop);
    PartOf(left, s, |s| - |left|);
    PartOf(t, left, 0);
  }

  lemma PartOf(part: string, whole: string, at: nat)
    requires at + |part| <= |whole| && part == whole[at..at + |part|]
    ensures forall c :: c in part ==> c in whole
    ensures |part| == |whole| ==> part == whole
  {
    forall c | c in part ensures c in whole {
      var i :| 0 <= i < |part| && part[i] == c;
      assert whole[at + i] == c;
    }
  }

  /** Stripping and unquoting shorten a text unless it is bare in every respect. */
  lemma SameTrims(value: string)
    ensures Unquote(Strip(value)) == value
       <==> Trimmed(value) && Bare(value, IsDoubleQuote) && Bare(value, IsSingleQuote)
  {
    var s := Strip(value);
    TrimShortens(value, IsSpace);
    TrimShortens(s, IsDoubleQuote);
    TrimShortens(Trim(s, IsDoubleQuote), IsSingleQuote);
  }

  /** Exactly the clean values are read back as they were. */
  lemma ReadBackSameIff(value: string)
    ensures ReadBack(value) == value <==> CleanValue(value)
  {
    var t := Trim(value, IsNewline);
    TrimShortens(value, IsNewline);
    if '\n' !in t {
      var s := Strip(t);
      TrimShortens(t, IsSpace);
      TrimShortens(s, IsDoubleQuote);
      TrimShortens(Trim(s, IsDoubleQuote), IsSingleQuote);
      assert '\n' !in Unquote(s);
      if '\n' in value {
        assert '\n' !in ReadBack(value);
      } else {
        TrimNoNewline(value);
        SameTrims(value);
      }
    }
  }

  lemma {:induction false} ColonAfter(key: string, rest: string)
    requires ':' !in key
    ensures ColonIndex(key + ":" + rest) == Some(|key|)
  {
    if key != "" {
      ColonAfter(key[1..], rest);
      assert (key + ":" + rest)[1..] == key[1..] + ":" + rest;
      assert (key + ":" + rest)[0] == key[0];
    }
  }

  lemma StripLeadingSpace(v: string)
    ensures Strip(" " + v) == Strip(v) && Strip("  " + v) == Strip(v)
  {
    assert (" " + v)[1..] == v && ("  " + v)[1..] == " " + v;
  }

  /** A printed key line strips to the key, the colon and the value. */
  lemma StripKeyLine(key: string, value: string)
    requires CleanKey(key) && Trimmed(value)
    ensures Strip(key + ": " + value) == key + ":" + (if value == "" then "" else " " + value)
  {
    var line := key + ": " + value;
    assert TrimLeft(line, IsSpace) == line;
    if value == "" {
      assert line[|line| - 1] == ' ' && line[..|line| - 1] == key + ":";
      assert TrimRight(key + ":", IsSpace) == key + ":";
    } else {
      assert line[|line| - 1] == value[|value| - 1];
      assert TrimRight(line, IsSpace) == line;
      assert line == key + ":" + (" " + value);
    }
  }

  lemma ParsedKeyLine(pairs: Pairs, key: string, value: string)
    requires CleanKey(key) && Trimmed(value)
    ensures KeyLine(pairs, key + ": " + value)
         == if BlockMarker(Unquote(value)) then Ok(Scan(pairs, InBlock(key, [])))
            else Ok(Scan(SetPair(pairs, key, Unquote(value)), NoBlock))
    ensures Strip(key + ": " + value) != "---"
  {
    var tail := if value == "" then "" else " " + value;
    StripKeyLine(key, value);
    ColonAfter(key, tail);
    var s := key + ":" + tail;
    assert s[..|key|] == key && s[|key| + 1..] == tail && s[|key|] == ':';
    StripTrimmed(key);
    StripTrimmed(value);
    StripLeadingSpace(value);
  }

  /** A key line ends any block. */
  lemma KeyLineFlushes(st: Scan, key: string, line: string)
    requires CleanKey(key) && key <= line
    ensures FeedLine(st, line) == KeyLine(Flush(st), line)
  {
    assert line[0] == key[0] && !IsSpace(key[0]);
    if |line| >= 2 { assert line[..2][0] == key[0] && "  "[0] == ' '; }
  }

  lemma {:induction false} FeedAppend(st: Scan, a: seq<string>, b: seq<string>)
    requires FeedLines(st, a).Ok?
    ensures FeedLines(st, a + b) == FeedLines(FeedLines(st, a).value, b)
    decreases |a|
  {
    if a == [] {
      assert a + b == b;
    } else {
      assert (a + b)[0] == a[0] && (a + b)[1..] == a[1..] + b;
      FeedAppend(FeedLine(st, a[0]).value, a[1..], b);
    }
  }

  lemma {:induction false} FeedIndented(pairs: Pairs, key: string, done: seq<string>, lines: seq<string>)
    ensures FeedLines(Scan(pairs, InBlock(key, done)), Indent(lines)) == Ok(Scan(pairs, InBlock(key, done + lines)))
    decreases |lines|
  {
    if lines == [] {
      assert done + lines == done;
    } else {
      assert Indent(lines)[0][..2] == "  " && Indent(lines)[0][2..] == lines[0];
      assert Indent(lines)[1..] == Indent(lines[1..]);
      FeedIndented(pairs, key, done + [lines[0]], lines[1..]);
      assert done + [lines[0]] + lines[1..] == done + lines;
    }
  }

  lemma MarkerPlain()
    ensures Trimmed("|") && Unquote("|") == "|" && BlockMarker("|")
  {
    TrimIsBare("|", IsDoubleQuote);
    TrimIsBare("|", IsSingleQuote);
  }

  /** What printing makes of a value without inner newlines. */
  lemma RenderedLine(key: string, value: string)
    requires PrintablePair((key, value)) && '\n' !in Trim(value, IsNewline)
    ensures var s := Strip(Trim(value, IsNewline));
            RenderPair((key, value)) == [key + ": " + s] && Trimmed(s) && NoBreaks(s)
  {
    var t := Trim(value, IsNewline);
    StripTrimmed(key);
    StripTrimmed(t);
    TrimShortens(value, IsNewline);
    TrimShortens(t, IsSpace);
    forall i | 0 <= i < |Strip(t)| ensures !IsLineBreak(Strip(t)[i]) {
      assert Strip(t)[i] in t && Strip(t)[i] in value;
      var k :| 0 <= k < |value| && value[k] == Strip(t)[i];
    }
  }

  lemma FeedOne(st: Scan, line: string)
    requires FeedLine(st, line).Ok?
    ensures FeedLines(st, [line]) == FeedLine(st, line)
  {
    assert [line][1..] == [];
  }

  /** Feeding a printed pair adds what is read back to what the state stands for. */
  lemma FeedPair(st: Scan, pair: (string, string)) returns (after: Scan)
    requires PrintablePair(pair) && pair.0 !in Keys(Flush(st))
    ensures FeedLines(st, RenderPair(pair)) == Ok(after) && Flush(after) == Flush(st) + [(pair.0, ReadBack(pair.1))]
  {
    var (key, value) := pair;
    var t := Trim(value, IsNewline);
    SetNewPair(Flush(st), key, ReadBack(value));
    if '\n' in t {
      StripTrimmed(key);
      FeedBlock(st, key, value);
      after := Scan(Flush(st), InBlock(key, SplitNewlines(t)));
    } else {
      after := FeedSingle(st, key, value);
    }
  }

  lemma FeedSingle(st: Scan, key: string, value: string) returns (after: Scan)
    requires PrintablePair((key, value)) && '\n' !in Trim(value, IsNewline)
    ensures FeedLines(st, RenderPair((key, value))) == Ok(after)
    ensures Flush(after) == SetPair(Flush(st), key, ReadBack(value))
  {
    var s := Strip(Trim(value, IsNewline));
    RenderedLine(key, value);
    ParsedKeyLine(Flush(st), key, s);
    KeyLineFlushes(st, key, key + ": " + s);
    FeedOne(st, key + ": " + s);
    after := KeyLine(Flush(st), key + ": " + s).value;
    assert TrimRight(Join([], "\n"), IsNewline) == "";
  }

  lemma TrimNoNewline(value: string)
    requires '\n' !in value
    ensures Trim(value, IsNewline) == value
  {
    TrimIsBare(value, IsNewline);
  }

  lemma FeedBlock(st: Scan, key: string, value: string)
    requires CleanKey(key) && '\n' in Trim(value, IsNewline) && Strip(key) == key
    ensures var t := Trim(value, IsNewline);
            && FeedLines(st, RenderPair((key, value))) == Ok(Scan(Flush(st), InBlock(key, SplitNewlines(t))))
            && TrimRight(Join(SplitNewlines(t), "\n"), IsNewline) == t
  {
    var t := Trim(value, IsNewline);
    TrimIsBare(value, IsNewline);
    TrimIsBare(t, IsNewline);
    JoinSplitNewlines(t);
    MarkerPlain();
    ParsedKeyLine(Flush(st), key, "|");
    KeyLineFlushes(st, key, key + ": |");
    assert key + ": " + "|" == key + ": |";
    var lines := RenderPair((key, value));
    assert lines[0] == key + ": |" && lines[1..] == Indent(SplitNewlines(t));
    FeedIndented(Flush(st), key, [], SplitNewlines(t));
    assert [] + SplitNewlines(t) == SplitNewlines(t);
  }

  /** Whatever came before, the lines of a printed pair give its key what is read
      back of its value, and leave every other key alone: a later entry wins. */
  lemma LaterEntryWins(st: Scan, key: string, value: string, other: string) returns (after: Scan)
    requires PrintablePair((key, value))
    ensures FeedLines(st, RenderPair((key, value))) == Ok(after)
    ensures ValueOf(Flush(after), other) == if other == key then Some(ReadBack(value)) else ValueOf(Flush(st), other)
  {
    var t := Trim(value, IsNewline);
    SetPairSets(Flush(st), key, ReadBack(value), other);
    if '\n' in t {
      StripTrimmed(key);
      FeedBlock(st, key, value);
      after := Scan(Flush(st), InBlock(key, SplitNewlines(t)));
    } else {
      after := FeedSingle(st, key, value);
    }
  }

  /** The pairs that are printed: keys without outer blanks, blank ones left out. */
  function Shown(pairs: Pairs): Pairs {
    if pairs == [] then []
    else (if Blank(pairs[0].0) then [] else [(Strip(pairs[0].0), pairs[0].1)]) + Shown(pairs[1..])
  }

  lemma ShownPair(key: string, value: string)
    ensures RenderPair((Strip(key), value)) == RenderPair((key, value))
    ensures Blank(key) ==> RenderPair((key, value)) == []
  {
    StripTrimmed(key);
    StripTrimmed(Strip(key));
  }

  lemma ShownHead(pairs: Pairs)
    requires pairs != []
    ensures var head := (Strip(pairs[0].0), pairs[0].1);
            Shown(pairs) == if Blank(pairs[0].0) then Shown(pairs[1..]) else [head] + Shown(pairs[1..])
  {
  }

  lemma RenderHead(pair: (string, string), rest: Pairs)
    ensures RenderPairs([pair] + rest) == RenderPair(pair) + RenderPairs(rest)
  {
    assert ([pair] + rest)[1..] == rest;
  }

  /** Outer blanks of keys, and entries with blank keys, are not printed. */
  lemma {:induction false} RendersShown(pairs: Pairs)
    ensures RenderPairs(Shown(pairs)) == RenderPairs(pairs)
  {
    if pairs != [] {
      RendersShown(pairs[1..]);
      ShownHead(pairs);
      ShownPair(pairs[0].0, pairs[0].1);
      if Blank(pairs[0].0) {
        assert [] + RenderPairs(pairs[1..]) == RenderPairs(pairs[1..]);
      } else {
        RenderHead((Strip(pairs[0].0), pairs[0].1), Shown(pairs[1..]));
      }
    }
  }

  lemma MarkerLine(pairs: Pairs, key: string, marker: string)
    requires CleanKey(key) && marker in ["|", "|-", "|+"]
    ensures KeyLine(pairs, key + ": " + marker) == Ok(Scan(pairs, InBlock(key, [])))
  {
    TrimIsBare(marker, IsDoubleQuote);
    TrimIsBare(marker, IsSingleQuote);
    ParsedKeyLine(pairs, key, marker);
  }

  /** Each of the three markers opens a block: the indented lines below it, without
      their indentation and trailing newlines, are the key's value. */
  lemma {:induction false} BlockEntryReads(st: Scan, key: string, marker: string, lines: seq<string>, other: string)
    returns (after: Scan)
    requires CleanKey(key) && marker in ["|", "|-", "|+"]
    ensures FeedLines(st, [key + ": " + marker] + Indent(lines)) == Ok(after)
    ensures ValueOf(Flush(after), other)
         == if other == key then Some(TrimRight(Join(lines, "\n"), IsNewline)) else ValueOf(Flush(st), other)
  {
    var opening := key + ": " + marker;
    var inside := Scan(Flush(st), InBlock(key, []));
    after := Scan(Flush(st), InBlock(key, lines));
    MarkerLine(Flush(st), key, marker);
    KeyLineFlushes(st, key, opening);
    FeedOne(st, opening);
    FeedIndented(Flush(st), key, [], lines);
    assert [] + lines == lines;
    FeedTwo(st, inside, [opening], Indent(lines));
    SetPairSets(Flush(st), key, TrimRight(Join(lines, "\n"), IsNewline), other);
  }

  lemma {:induction false} FeedErrors(st: Scan, lines: seq<string>)
    ensures var r := FeedLines(st, lines); r.Err? ==> r.error.InvalidLine? || r.error.EmptyKey?
    decreases |lines|
  {
    if lines != [] && FeedLine(st, lines[0]).Ok? { FeedErrors(FeedLine(st, lines[0]).value, lines[1..]); }
  }

  /** A text without frontmatter is told from one whose frontmatter does not end. */
  lemma {:induction false} ParseErrorsIff(content: string)
    ensures Parse(content) == Err(NoOpening) <==> !("---\n" <= content)
    ensures Parse(content) == Err(NoClosing) <==>
              && "---\n" <= content
              && forall i :: 1 <= i < |SplitLines(content)| ==> Strip(SplitLines(content)[i]) != "---"
  {
    if "---\n" <= content {
      var lines := SplitLines(content);
      assert content == "---" + "\n" + content[4..];
      SplitFirstLine("---", content[4..]);
      StripTrimmed("---");
      assert lines[0] == "---";
      if ClosingIndex(lines, 1).Some? {
        FeedErrors(Scan([], NoBlock), lines[1..ClosingIndex(lines, 1).value]);
      } else {
        NoClosingIndex(lines, 1);
      }
    }
  }

  lemma {:induction false} NoClosingIndex(lines: seq<string>, i: nat)
    requires i <= |lines| && ClosingIndex(lines, i).None?
    ensures forall j :: i <= j < |lines| ==> Strip(lines[j]) != "---"
    decreases |lines| - i
  {
    if i < |lines| { NoClosingIndex(lines, i + 1); }
  }

  /** "\r\n" ends a line once, as any other single break does. */
  lemma {:induction false} BreakEndsLine(line: string, end: string, rest: string)
    requires NoBreaks(line)
    requires end == "\r\n" || (|end| == 1 && IsLineBreak(end[0]) && (end == "\r" ==> !("\n" <= rest)))
    ensures SplitLines(line + end + rest) == [line] + SplitLines(rest)
  {
    var s := line + end + rest;
    if line == "" {
      assert s == end + rest && s[|end|..] == rest && s[0] == end[0];
      if |end| == 2 { assert s[1] == '\n'; } else if rest != "" { assert s[1] == rest[0]; }
    } else {
      BreakEndsLine(line[1..], end, rest);
      assert s[0] == line[0] && s[1..] == line[1..] + end + rest;
      assert [line[0]] + line[1..] == line;
      assert ([line[1..]] + SplitLines(rest))[1..] == SplitLines(rest);
    }
  }

  /** What was printed so far and is read back is what parsing stands for so far. */
  lemma {:induction false} FeedPairs(st: Scan, pairs: Pairs, k: nat) returns (last: Scan)
    requires k <= |pairs| && Flush(st) == AllReadBack(pairs)[..k] && Printable(pairs)
    ensures FeedLines(st, RenderPairs(pairs[k..])) == Ok(last) && Flush(last) == AllReadBack(pairs)
    decreases |pairs| - k
  {
    if k == |pairs| {
      last := st;
    } else {
      NewKey(pairs, k);
      var mid := FeedPair(st, pairs[k]);
      assert AllReadBack(pairs)[..k] + [(pairs[k].0, ReadBack(pairs[k].1))] == AllReadBack(pairs)[..k + 1];
      last := FeedPairs(mid, pairs, k + 1);
      assert pairs[k..][0] == pairs[k] && pairs[k..][1..] == pairs[k + 1..];
      FeedTwo(st, mid, RenderPair(pairs[k]), RenderPairs(pairs[k + 1..]));
    }
  }

  lemma FeedTwo(st: Scan, mid: Scan, a: seq<string>, b: seq<string>)
    requires FeedLines(st, a) == Ok(mid)
    ensures FeedLines(st, a + b) == FeedLines(mid, b)
  {
    FeedAppend(st, a, b);
  }

  lemma NewKey(pairs: Pairs, k: nat)
    requires Printable(pairs) && k < |pairs|
    ensures pairs[k].0 !in Keys(AllReadBack(pairs)[..k]) && PrintablePair(pairs[k])
  {
    assert forall i :: 0 <= i < k ==> Keys(AllReadBack(pairs)[..k])[i] == Keys(pairs)[i];
    assert Keys(pairs)[k] == pairs[k].0;
  }

  /** Printed lines hold no break and are never mistaken for the delimiter. */
  predicate PlainLine(line: string) {
    NoBreaks(line) && Strip(line) != "---"
  }

  lemma RenderedPairPlain(pair: (string, string))
    requires PrintablePair(pair)
    ensures forall i :: 0 <= i < |RenderPair(pair)| ==> PlainLine(RenderPair(pair)[i])
  {
    var (key, value) := pair;
    if '\n' in Trim(value, IsNewline) {
      BlockPlain(key, value);
    } else {
      RenderedLine(key, value);
      ParsedKeyLine([], key, Strip(Trim(value, IsNewline)));
    }
  }

  lemma BlockPlain(key: string, value: string)
    requires PrintablePair((key, value)) && '\n' in Trim(value, IsNewline)
    ensures forall i :: 0 <= i < |RenderPair((key, value))| ==> PlainLine(RenderPair((key, value))[i])
  {
    StripTrimmed(key);
    TrimmedBreaks(value);
    MarkerPlain();
    ParsedKeyLine([], key, "|");
    assert key + ": " + "|" == key + ": |";
    BlockLinesPlain(Trim(value, IsNewline));
  }

  lemma TrimmedBreaks(value: string)
    requires OnlyNewlines(value)
    ensures OnlyNewlines(Trim(value, IsNewline))
  {
    TrimLeftSpec(value, IsNewline);
    TrimRightSpec(TrimLeft(value, IsNewline), IsNewline);
  }

  lemma BlockLinesPlain(text: string)
    requires OnlyNewlines(text) && NoDelimiter(text)
    ensures forall i :: 0 <= i < |SplitNewlines(text)| ==> PlainLine("  " + SplitNewlines(text)[i])
  {
    SplitBody(text);
    LinesHaveNoBreaks(text + "\n");
    forall i | 0 <= i < |SplitNewlines(text)| ensures PlainLine("  " + SplitNewlines(text)[i]) {
      StripLeadingSpace(SplitNewlines(text)[i]);
    }
  }

  lemma {:induction false} RenderedPlain(pairs: Pairs)
    requires forall i :: 0 <= i < |pairs| ==> PrintablePair(pairs[i])
    ensures forall i :: 0 <= i < |RenderPairs(pairs)| ==> PlainLine(RenderPairs(pairs)[i])
  {
    if pairs != [] {
      RenderedPairPlain(pairs[0]);
      RenderedPlain(pairs[1..]);
    }
  }

  lemma {:induction false} ClosingAfter(lines: seq<string>, i: nat, k: nat)
    requires i <= k < |lines| && Strip(lines[k]) == "---"
    requires forall j :: i <= j < k ==> Strip(lines[j]) != "---"
    ensures ClosingIndex(lines, i) == Some(k)
    decreases k - i
  {
    if i < k { ClosingAfter(lines, i + 1, k); }
  }

  /** The text after the closing delimiter. */
  function Tail(body: string): string {
    if body == "" then "" else "\n" + TrimRight(body, IsNewline) + "\n"
  }

  /** The body that a parser finds in a printed file. */
  function ReturnedBody(body: string): string {
    Join(SplitLines(Tail(body)), "\n")
  }

  lemma RenderedLines(pairs: Pairs, body: string)
    requires Printable(pairs)
    ensures SplitLines(Render(pairs, body)) == ["---"] + RenderPairs(pairs) + ["---"] + SplitLines(Tail(body))
    ensures "---\n" <= Render(pairs, body)
  {
    var lines := ["---"] + RenderPairs(pairs) + ["---"];
    RenderedPlain(pairs);
    RenderShape(pairs, body);
    DelimitersPlain(RenderPairs(pairs));
    SplitJoined(lines, Tail(body));
  }

  lemma RenderShape(pairs: Pairs, body: string)
    ensures Render(pairs, body) == Join(["---"] + RenderPairs(pairs) + ["---"], "\n") + "\n" + Tail(body)
    ensures "---\n" <= Render(pairs, body)
  {
    var lines := ["---"] + RenderPairs(pairs) + ["---"];
    assert Join(lines, "\n") == "---" + "\n" + Join(lines[1..], "\n");
  }

  lemma DelimitersPlain(middle: seq<string>)
    requires forall i :: 0 <= i < |middle| ==> PlainLine(middle[i])
    ensures forall i :: 0 <= i < |middle| + 2 ==> NoBreaks((["---"] + middle + ["---"])[i])
  {
  }

  lemma Delimited(middle: seq<string>, tail: seq<string>)
    requires forall i :: 0 <= i < |middle| ==> Strip(middle[i]) != "---"
    ensures var lines := ["---"] + middle + ["---"] + tail;
            && Strip(lines[0]) == "---" && ClosingIndex(lines, 1) == Some(|middle| + 1)
            && lines[1..|middle| + 1] == middle && lines[|middle| + 2..] == tail
  {
    var lines := ["---"] + middle + ["---"] + tail;
    StripTrimmed("---");
    assert lines[0] == "---" && lines[|middle| + 1] == "---";
    assert forall j :: 1 <= j < |middle| + 1 ==> lines[j] == middle[j - 1];
    ClosingAfter(lines, 1, |middle| + 1);
  }

  lemma ParseOfLines(content: string, middle: seq<string>, tail: seq<string>, st: Scan)
    requires "---\n" <= content && SplitLines(content) == ["---"] + middle + ["---"] + tail
    requires forall i :: 0 <= i < |middle| ==> Strip(middle[i]) != "---"
    requires FeedLines(Scan([], NoBlock), middle) == Ok(st)
    ensures Parse(content) == Ok((Flush(st), Join(tail, "\n")))
  {
    Delimited(middle, tail);
  }

  /** Parsing what was printed returns the keys in order, each with the value
      that is read back for it. */
  lemma ReadsBack(pairs: Pairs, body: string)
    requires Printable(pairs)
    ensures Parse(Render(pairs, body)) == Ok((AllReadBack(pairs), ReturnedBody(body)))
  {
    var middle := RenderPairs(pairs);
    RenderedLines(pairs, body);
    RenderedPlain(pairs);
    assert forall i :: 0 <= i < |middle| ==> PlainLine(middle[i]);
    assert pairs[0..] == pairs && AllReadBack(pairs)[..0] == [];
    var last := FeedPairs(Scan([], NoBlock), pairs, 0);
    ParseOfLines(Render(pairs, body), middle, SplitLines(Tail(body)), last);
  }

  /** Parsing what was printed returns exactly the same ordered pairs if and only
      if every value is clean. */
  lemma RoundTripIff(pairs: Pairs, body: string)
    requires Printable(pairs)
    ensures Parse(Render(pairs, body)) == Ok((pairs, ReturnedBody(body)))
       <==> forall i :: 0 <= i < |pairs| ==> CleanValue(pairs[i].1)
  {
    ReadsBack(pairs, body);
    forall i | 0 <= i < |pairs| ensures AllReadBack(pairs)[i] == pairs[i] <==> CleanValue(pairs[i].1) {
      ReadBackSameIff(pairs[i].1);
    }
    assert AllReadBack(pairs) == pairs <==> forall i :: 0 <= i < |pairs| ==> AllReadBack(pairs)[i] == pairs[i];
  }

  // ---------------------------------------------------------------------
  // What the parser returns can be printed
  // ---------------------------------------------------------------------

  lemma KeysCons(pair: (string, string), rest: Pairs)
    ensures Keys([pair] + rest) == [pair.0] + Keys(rest)
  {
  }

  lemma {:induction false} SetOldPair(pairs: Pairs, key: string, value: string)
    requires key in Keys(pairs)
    ensures Keys(SetPair(pairs, key, value)) == Keys(pairs)
  {
    var rest := pairs[1..];
    assert pairs == [pairs[0]] + rest;
    KeysCons(pairs[0], rest);
    if pairs[0].0 == key {
      KeysCons((key, value), rest);
    } else {
      SetOldPair(rest, key, value);
      KeysCons(pairs[0], SetPair(rest, key, value));
    }
  }

  lemma SetPairKeys(pairs: Pairs, key: string, value: string)
    ensures Keys(SetPair(pairs, key, value)) == if key in Keys(pairs) then Keys(pairs) else Keys(pairs) + [key]
  {
    if key in Keys(pairs) {
      SetOldPair(pairs, key, value);
    } else {
      SetNewPair(pairs, key, value);
    }
  }

  lemma {:induction false} SetPairMembers(pairs: Pairs, key: string, value: string)
    ensures forall pair :: pair in SetPair(pairs, key, value) ==> pair == (key, value) || pair in pairs
  {
    if pairs != [] { SetPairMembers(pairs[1..], key, value); }
  }

  lemma SetPairPrintable(pairs: Pairs, key: string, value: string)
    requires Printable(pairs) && PrintablePair((key, value))
    ensures Printable(SetPair(pairs, key, value))
  {
    var after := SetPair(pairs, key, value);
    SetPairKeys(pairs, key, value);
    SetPairMembers(pairs, key, value);
    NoDupSnoc(Keys(pairs), key);
    forall i | 0 <= i < |after| ensures PrintablePair(after[i]) {
      assert after[i] in after;
    }
  }

  lemma {:induction false} SplitNewlineAtEnd(s: string)
    ensures SplitNewlines(s + "\n") == SplitNewlines(s) + [""]
  {
    if s == "" {
      assert ("" + "\n")[1..] == "";
    } else {
      SplitNewlineAtEnd(s[1..]);
      assert (s + "\n")[1..] == s[1..] + "\n" && (s + "\n")[0] == s[0];
    }
  }

  lemma {:induction false} TrimRightNoDelimiter(s: string)
    requires NoDelimiter(s)
    ensures NoDelimiter(TrimRight(s, IsNewline))
    decreases |s|
  {
    if s != "" && s[|s| - 1] == '\n' {
      var rest := s[..|s| - 1];
      assert s == rest + "\n";
      SplitNewlineAtEnd(rest);
      forall i | 0 <= i < |SplitNewlines(rest)| ensures Strip(SplitNewlines(rest)[i]) != "---" {
        assert SplitNewlines(s)[i] == SplitNewlines(rest)[i];
      }
      TrimRightNoDelimiter(rest);
    }
  }

  lemma {:induction false} TrimLeftNoDelimiter(s: string)
    requires NoDelimiter(s)
    ensures NoDelimiter(TrimLeft(s, IsNewline))
    decreases |s|
  {
    if s != "" && s[0] == '\n' {
      var rest := s[1..];
      assert SplitNewlines(s) == [""] + SplitNewlines(rest);
      forall i | 0 <= i < |SplitNewlines(rest)| ensures Strip(SplitNewlines(rest)[i]) != "---" {
        assert SplitNewlines(s)[i + 1] == SplitNewlines(rest)[i];
      }
      TrimLeftNoDelimiter(rest);
    }
  }

  lemma {:induction false} SplitFirst(line: string, rest: string)
    requires '\n' !in line
    ensures SplitNewlines(line) == [line] && SplitNewlines(line + "\n" + rest) == [line] + SplitNewlines(rest)
  {
    var s := line + "\n" + rest;
    if line == "" {
      assert s[0] == '\n' && s[1..] == rest;
    } else {
      SplitFirst(line[1..], rest);
      assert s[0] == line[0] && s[1..] == line[1..] + "\n" + rest;
      assert [line[0]] + line[1..] == line;
      assert ([line[1..]] + SplitNewlines(rest))[1..] == SplitNewlines(rest);
    }
  }

  /** Joining plain lines makes a text without a delimiter line. */
  lemma {:induction false} JoinNoDelimiter(lines: seq<string>)
    requires forall i :: 0 <= i < |lines| ==> PlainLine(lines[i])
    ensures NoDelimiter(Join(lines, "\n"))
  {
    if lines != [] {
      assert PlainLine(lines[0]);
      if |lines| == 1 {
        SplitFirst(lines[0], "");
      } else {
        JoinNoDelimiter(lines[1..]);
        SplitFirst(lines[0], Join(lines[1..], "\n"));
        assert Join(lines, "\n") == lines[0] + "\n" + Join(lines[1..], "\n");
      }
    }
  }

  lemma BlockPrintable(key: string, lines: seq<string>)
    requires CleanKey(key) && forall i :: 0 <= i < |lines| ==> PlainLine(lines[i])
    ensures PrintablePair((key, TrimRight(Join(lines, "\n"), IsNewline)))
  {
    var joined := Join(lines, "\n");
    JoinOnlyNewlines(lines);
    KeptBreaks(joined);
    JoinNoDelimiter(lines);
    TrimRightNoDelimiter(joined);
    TrimLeftNoDelimiter(TrimRight(joined, IsNewline));
    TrimRightNoDelimiter(TrimLeft(TrimRight(joined, IsNewline), IsNewline));
  }

  ghost predicate ScanOk(st: Scan) {
    && Printable(st.pairs)
    && (st.block.InBlock? ==>
          CleanKey(st.block.key) && forall i :: 0 <= i < |st.block.lines| ==> PlainLine(st.block.lines[i]))
  }

  lemma FlushPrintable(st: Scan)
    requires ScanOk(st)
    ensures Printable(Flush(st))
  {
    if st.block.InBlock? {
      BlockPrintable(st.block.key, st.block.lines);
      SetPairPrintable(st.pairs, st.block.key, TrimRight(Join(st.block.lines, "\n"), IsNewline));
    }
  }

  lemma PartNoBreaks(part: string, whole: string)
    requires NoBreaks(whole) && forall c :: c in part ==> c in whole
    ensures NoBreaks(part)
  {
    forall i | 0 <= i < |part| ensures !IsLineBreak(part[i]) {
      assert part[i] in part;
    }
  }

  lemma LineParts(line: string, colon: nat)
    requires NoBreaks(line) && ColonIndex(Strip(line)) == Some(colon)
    ensures var s := Strip(line);
            && NoBreaks(Strip(s[..colon])) && ':' !in Strip(s[..colon]) && Trimmed(Strip(s[..colon]))
            && NoBreaks(Unquote(Strip(s[colon + 1..])))
  {
    var s := Strip(line);
    var left, right := s[..colon], s[colon + 1..];
    TrimShortens(line, IsSpace);
    TrimShortens(left, IsSpace);
    TrimShortens(right, IsSpace);
    TrimShortens(Strip(right), IsDoubleQuote);
    TrimShortens(Trim(Strip(right), IsDoubleQuote), IsSingleQuote);
    StripTrimmed(left);
    PartNoBreaks(s, line);
    PartNoBreaks(Strip(left), s);
    PartNoBreaks(Unquote(Strip(right)), s);
  }

  lemma KeyLineOk(pairs: Pairs, line: string)
    requires Printable(pairs) && NoBreaks(line) && KeyLine(pairs, line).Ok?
    ensures ScanOk(KeyLine(pairs, line).value)
  {
    var s := Strip(line);
    if s != "" {
      var colon := ColonIndex(s).value;
      var key, value := Strip(s[..colon]), Unquote(Strip(s[colon + 1..]));
      LineParts(line, colon);
      if !BlockMarker(value) {
        TrimShortens(value, IsNewline);
        assert '\n' !in value;
        SetPairPrintable(pairs, key, value);
      }
    }
  }

  lemma FeedLineOk(st: Scan, line: string)
    requires ScanOk(st) && PlainLine(line) && FeedLine(st, line).Ok?
    ensures ScanOk(FeedLine(st, line).value)
  {
    if st.block.InBlock? && (Indented(line) || line == "") {
      if Indented(line) {
        assert line == "  " + line[2..];
        StripLeadingSpace(line[2..]);
      }
    } else {
      FlushPrintable(st);
      KeyLineOk(Flush(st), line);
    }
  }

  lemma {:induction false} FeedLinesOk(st: Scan, lines: seq<string>)
    requires ScanOk(st) && FeedLines(st, lines).Ok? && forall i :: 0 <= i < |lines| ==> PlainLine(lines[i])
    ensures ScanOk(FeedLines(st, lines).value)
    decreases |lines|
  {
    if lines != [] {
      FeedLineOk(st, lines[0]);
      FeedLinesOk(FeedLine(st, lines[0]).value, lines[1..]);
    }
  }

  lemma {:induction false} NoneBeforeClosing(lines: seq<string>, i: nat)
    requires i <= |lines| && ClosingIndex(lines, i).Some?
    ensures forall j :: i <= j < ClosingIndex(lines, i).value ==> Strip(lines[j]) != "---"
    decreases |lines| - i
  {
    if i < |lines| && Strip(lines[i]) != "---" { NoneBeforeClosing(lines, i + 1); }
  }

  /** Whatever text the parser accepts, the dictionary it returns is printable and
      the body it returns has no break but "\n". */
  lemma ParsedIsPrintable(content: string)
    requires Parse(content).Ok?
    ensures Printable(Parse(content).value.0) && OnlyNewlines(Parse(content).value.1)
  {
    var lines := SplitLines(content);
    var closing := ClosingIndex(lines, 1).value;
    LinesHaveNoBreaks(content);
    NoneBeforeClosing(lines, 1);
    var start := Scan([], NoBlock);
    FeedLinesOk(start, lines[1..closing]);
    FlushPrintable(FeedLines(start, lines[1..closing]).value);
    JoinOnlyNewlines(lines[closing + 1..]);
  }

  lemma KeptBreaks(body: string)
    ensures OnlyNewlines(TrimRight(body, IsNewline)) <==> OnlyNewlines(body)
  {
    TrimRightSpec(body, IsNewline);
  }

  /** What a router writes: some keys dropped, then fields assigned. */
  function Without(pairs: Pairs, keys: set<string>): Pairs {
    if pairs == [] then [] else (if pairs[0].0 in keys then [] else [pairs[0]]) + Without(pairs[1..], keys)
  }

  function SetPairs(pairs: Pairs, fields: Pairs): Pairs
    decreases |fields|
  {
    if fields == [] then pairs else SetPairs(SetPair(pairs, fields[0].0, fields[0].1), fields[1..])
  }

  lemma {:induction false} WithoutDrops(pairs: Pairs, keys: set<string>, key: string)
    ensures ValueOf(Without(pairs, keys), key) == if key in keys then None else ValueOf(pairs, key)
  {
    if pairs != [] {
      WithoutDrops(pairs[1..], keys, key);
      var rest := Without(pairs[1..], keys);
      assert [] + rest == rest && ([pairs[0]] + rest)[1..] == rest;
    }
  }

  /** Of several assignments to a key the last one counts. */
  function LastOf(fields: Pairs, key: string): Option<string> {
    if fields == [] then None
    else
      var last := fields[|fields| - 1];
      if last.0 == key then Some(last.1) else LastOf(fields[..|fields| - 1], key)
  }

  lemma {:induction false} SetPairsSnoc(pairs: Pairs, fields: Pairs)
    requires fields != []
    ensures var last := fields[|fields| - 1];
            SetPairs(pairs, fields) == SetPair(SetPairs(pairs, fields[..|fields| - 1]), last.0, last.1)
    decreases |fields|
  {
    if |fields| > 1 {
      SetPairsSnoc(SetPair(pairs, fields[0].0, fields[0].1), fields[1..]);
      assert fields[1..][..|fields| - 2] == fields[..|fields| - 1][1..];
    }
  }

  lemma {:induction false} SetPairsSet(pairs: Pairs, fields: Pairs, key: string)
    ensures ValueOf(SetPairs(pairs, fields), key)
         == if LastOf(fields, key).Some? then LastOf(fields, key) else ValueOf(pairs, key)
    decreases |fields|
  {
    if fields != [] {
      var last, before := fields[|fields| - 1], fields[..|fields| - 1];
      SetPairsSnoc(pairs, fields);
      SetPairSets(SetPairs(pairs, before), last.0, last.1, key);
      SetPairsSet(pairs, before, key);
    }
  }

  lemma {:induction false} AllReadBackAt(pairs: Pairs, key: string)
    ensures ValueOf(AllReadBack(pairs), key)
         == if ValueOf(pairs, key).Some? then Some(ReadBack(ValueOf(pairs, key).value)) else None
  {
    if pairs != [] {
      AllReadBackAt(pairs[1..], key);
      assert AllReadBack(pairs)[1..] == AllReadBack(pairs[1..]);
    }
  }

  lemma TailPrintable(pairs: Pairs)
    requires Printable(pairs) && pairs != []
    ensures Printable(pairs[1..]) && pairs[0].0 !in Keys(pairs[1..])
  {
    assert forall i :: 0 <= i < |pairs[1..]| ==> Keys(pairs[1..])[i] == Keys(pairs)[i + 1];
    assert Keys(pairs)[0] == pairs[0].0;
  }

  lemma ConsPrintable(pair: (string, string), rest: Pairs)
    requires Printable(rest) && PrintablePair(pair) && pair.0 !in Keys(rest)
    ensures Printable([pair] + rest)
  {
    var all := [pair] + rest;
    assert Keys(all) == [pair.0] + Keys(rest);
    forall i | 0 <= i < |all| ensures PrintablePair(all[i]) {
      assert i > 0 ==> all[i] == rest[i - 1];
    }
  }

  lemma {:induction false} WithoutPrintable(pairs: Pairs, keys: set<string>)
    requires Printable(pairs)
    ensures Printable(Without(pairs, keys)) && forall pair :: pair in Without(pairs, keys) ==> pair in pairs
  {
    if pairs != [] {
      var rest := Without(pairs[1..], keys);
      TailPrintable(pairs);
      WithoutPrintable(pairs[1..], keys);
      assert [] + rest == rest;
      if pairs[0].0 !in keys {
        assert PrintablePair(pairs[0]);
        KeyKept(rest, pairs[1..], pairs[0].0);
        ConsPrintable(pairs[0], rest);
      }
    }
  }

  lemma KeyKept(some: Pairs, all: Pairs, key: string)
    requires key !in Keys(all) && forall pair :: pair in some ==> pair in all
    ensures key !in Keys(some)
  {
    forall i | 0 <= i < |some| ensures some[i].0 != key {
      assert some[i] in all;
      var k :| 0 <= k < |all| && all[k] == some[i];
      assert Keys(all)[k] == all[k].0;
    }
  }

  lemma {:induction false} RoutedPrintable(pairs: Pairs, fields: Pairs)
    requires Printable(pairs) && forall i :: 0 <= i < |fields| ==> PrintablePair(fields[i])
    ensures Printable(SetPairs(pairs, fields))
    decreases |fields|
  {
    if fields != [] {
      SetPairPrintable(pairs, fields[0].0, fields[0].1);
      RoutedPrintable(SetPair(pairs, fields[0].0, fields[0].1), fields[1..]);
    }
  }

  // ---------------------------------------------------------------------
  // The body over many hops
  // ---------------------------------------------------------------------

  /** A body comes back as one newline and the body without its trailing
      newlines exactly when "\n" is its only kind of line break. */
  lemma BodyReturnsIff(body: string)
    requires body != ""
    ensures ReturnedBody(body) == "\n" + TrimRight(body, IsNewline) <==> OnlyNewlines(body)
  {
    var kept := TrimRight(body, IsNewline);
    KeptBreaks(body);
    ReturnedLines(body);
    JoinedLinesIff(kept);
    assert ("\n" + Join(SplitLines(kept + "\n"), "\n"))[1..] == Join(SplitLines(kept + "\n"), "\n");
    assert ("\n" + kept)[1..] == kept;
  }

  /** Splitting and joining gives the text back unless it has other breaks. */
  lemma JoinedLinesIff(kept: string)
    ensures Join(SplitLines(kept + "\n"), "\n") == kept <==> OnlyNewlines(kept)
  {
    if OnlyNewlines(kept) {
      SplitBody(kept);
      JoinSplitNewlines(kept);
    } else {
      LinesHaveNoBreaks(kept + "\n");
      JoinOnlyNewlines(SplitLines(kept + "\n"));
    }
  }

  lemma ReturnedLines(body: string)
    requires body != ""
    ensures ReturnedBody(body) == "\n" + Join(SplitLines(TrimRight(body, IsNewline) + "\n"), "\n")
  {
    var kept := TrimRight(body, IsNewline);
    var rest := SplitLines(kept + "\n");
    assert Tail(body) == "" + "\n" + (kept + "\n");
    SplitFirstLine("", kept + "\n");
    assert ([""] + rest)[1..] == rest && rest != [];
  }

  /** A file printed with this dictionary and body is parsed, and its body is `after`. */
  predicate HopTo(pairs: Pairs, body: string, after: string) {
    Parse(Render(pairs, body)).Ok? && Parse(Render(pairs, body)).value.1 == after
  }

  /** The bodies a file goes through when printed and parsed once per dictionary. */
  ghost predicate Hops(files: seq<Pairs>, bodies: seq<string>) {
    |bodies| == |files| + 1 && forall i :: 0 <= i < |files| ==> HopTo(files[i], bodies[i], bodies[i + 1])
  }

  function Newlines(n: nat): (s: string)
    ensures |s| == n && forall i :: 0 <= i < n ==> s[i] == '\n'
  {
    seq(n, i => '\n')
  }

  ghost predicate AllPrintable(files: seq<Pairs>) {
    forall i :: 0 <= i < |files| ==> Printable(files[i])
  }

  lemma HopReturns(pairs: Pairs, body: string, after: string)
    requires Printable(pairs)
    ensures HopTo(pairs, body, after) <==> after == ReturnedBody(body)
  {
    ReadsBack(pairs, body);
  }

  function Iterate(f: string -> string, n: nat, x: string): string {
    if n == 0 then x else f(Iterate(f, n - 1, x))
  }

  /** Iterating along a known orbit. */
  lemma {:induction false} IterateOrbit(f: string -> string, n: nat, x: string, orbit: nat -> string)
    requires n >= 1 && f(x) == orbit(1) && forall k: nat :: k >= 1 ==> f(orbit(k)) == orbit(k + 1)
    ensures Iterate(f, n, x) == orbit(n)
  {
    if n == 1 {
      assert Iterate(f, 0, x) == x;
    } else {
      IterateOrbit(f, n - 1, x, orbit);
      assert f(orbit(n - 1)) == orbit(n - 1 + 1);
    }
  }

  lemma {:induction false} IterateSeq(f: string -> string, xs: seq<string>, n: nat)
    requires n < |xs| && forall i :: 0 <= i < |xs| - 1 ==> xs[i + 1] == f(xs[i])
    ensures xs[n] == Iterate(f, n, xs[0])
  {
    if n > 0 {
      IterateSeq(f, xs, n - 1);
      assert xs[n - 1 + 1] == f(xs[n - 1]);
    }
  }

  lemma {:induction false} Trace(f: string -> string, n: nat, x: string) returns (xs: seq<string>)
    ensures |xs| == n + 1 && xs[0] == x && forall i :: 0 <= i < n ==> xs[i + 1] == f(xs[i])
  {
    if n == 0 {
      xs := [x];
    } else {
      xs := Trace(f, n - 1, x);
      xs := xs + [f(xs[n - 1])];
    }
  }

  /** The body after `n` hops. */
  function Returned(n: nat, body: string): string {
    Iterate(ReturnedBody, n, body)
  }

  /** The bodies a file goes through do not depend on its dictionaries. */
  lemma HopsReturn(files: seq<Pairs>, bodies: seq<string>)
    requires AllPrintable(files) && Hops(files, bodies)
    ensures bodies[|files|] == Returned(|files|, bodies[0])
  {
    forall i | 0 <= i < |bodies| - 1 ensures bodies[i + 1] == ReturnedBody(bodies[i]) {
      HopReturns(files[i], bodies[i], bodies[i + 1]);
    }
    IterateSeq(ReturnedBody, bodies, |files|);
  }

  /** Printable dictionaries never stop a hop. */
  lemma HopsExist(files: seq<Pairs>, body: string) returns (bodies: seq<string>)
    requires AllPrintable(files)
    ensures Hops(files, bodies) && bodies[0] == body
  {
    bodies := Trace(ReturnedBody, |files|, body);
    forall i | 0 <= i < |files| ensures HopTo(files[i], bodies[i], bodies[i + 1]) {
      HopReturns(files[i], bodies[i], bodies[i + 1]);
    }
  }

  /** No break but "\n", and none at the end. */
  predicate CleanText(text: string) {
    text != "" && text[|text| - 1] != '\n' && OnlyNewlines(text)
  }

  lemma KeepAfterNewlines(n: nat, kept: string)
    requires CleanText(kept)
    ensures var s := Newlines(n) + kept; TrimRight(s, IsNewline) == s && OnlyNewlines(s) && s != ""
  {
    var s := Newlines(n) + kept;
    assert s[|s| - 1] == kept[|kept| - 1];
  }

  lemma NewlineInFront(n: nat, kept: string)
    requires CleanText(kept)
    ensures ReturnedBody(Newlines(n) + kept) == Newlines(n + 1) + kept
  {
    KeepAfterNewlines(n, kept);
    BodyReturnsIff(Newlines(n) + kept);
    assert "\n" + (Newlines(n) + kept) == Newlines(n + 1) + kept;
  }

  lemma FirstReturn(body: string)
    requires body != "" && OnlyNewlines(body)
    ensures ReturnedBody(body) == Newlines(1) + TrimRight(body, IsNewline)
  {
    BodyReturnsIff(body);
    assert Newlines(1) == "\n";
  }

  /** From a body of clean text, each hop adds one newline in front. */
  lemma CleanBodyReturns(n: nat, body: string)
    requires n >= 1 && body != "" && OnlyNewlines(body) && TrimRight(body, IsNewline) != ""
    ensures Returned(n, body) == Newlines(n) + TrimRight(body, IsNewline)
  {
    var kept := TrimRight(body, IsNewline);
    KeptIsClean(body);
    FirstReturn(body);
    OrbitReturns(n, body, kept);
  }

  lemma OrbitReturns(n: nat, body: string, kept: string)
    requires n >= 1 && CleanText(kept) && ReturnedBody(body) == Newlines(1) + kept
    ensures Returned(n, body) == Newlines(n) + kept
  {
    forall k: nat ensures ReturnedBody(Newlines(k) + kept) == Newlines(k + 1) + kept {
      NewlineInFront(k, kept);
    }
    IterateOrbit(ReturnedBody, n, body, (k: nat) => Newlines(k) + kept);
  }

  lemma KeptIsClean(body: string)
    requires OnlyNewlines(body) && TrimRight(body, IsNewline) != ""
    ensures CleanText(TrimRight(body, IsNewline))
  {
    TrimRightSpec(body, IsNewline);
    KeptBreaks(body);
  }

  lemma NewlineStays()
    ensures ReturnedBody("\n") == "\n"
  {
    assert TrimRight("\n", IsNewline) == "";
    BodyReturnsIff("\n");
    assert "\n" + "" == "\n";
  }

  lemma NewlinesReturn(n: nat, body: string)
    requires n >= 1 && body != "" && OnlyNewlines(body) && TrimRight(body, IsNewline) == ""
    ensures Returned(n, body) == "\n"
  {
    FirstReturn(body);
    assert Newlines(1) + "" == "\n";
    NewlineStays();
    IterateOrbit(ReturnedBody, n, body, (k: nat) => "\n");
  }

  lemma ReturnedOnlyNewlines(body: string)
    ensures OnlyNewlines(ReturnedBody(body))
  {
    LinesHaveNoBreaks(Tail(body));
    JoinOnlyNewlines(SplitLines(Tail(body)));
  }

  /** Over n hops a non-empty body gains exactly n newlines in front, and loses
      only its trailing ones, if and only if "\n" is its only kind of line
      break and it is more than newlines (one hop does not need that). */
  lemma HopsPrependIff(files: seq<Pairs>, bodies: seq<string>)
    requires files != [] && AllPrintable(files) && Hops(files, bodies) && bodies[0] != ""
    ensures var body := bodies[0];
            bodies[|files|] == Newlines(|files|) + TrimRight(body, IsNewline)
            <==> OnlyNewlines(body) && (|files| == 1 || TrimRight(body, IsNewline) != "")
  {
    HopsReturn(files, bodies);
    ReturnedIff(|files|, bodies[0]);
  }

  lemma ReturnedIff(n: nat, body: string)
    requires n >= 1 && body != ""
    ensures Returned(n, body) == Newlines(n) + TrimRight(body, IsNewline)
       <==> OnlyNewlines(body) && (n == 1 || TrimRight(body, IsNewline) != "")
  {
    if !OnlyNewlines(body) {
      OddBreaksAreLost(n, body);
    } else if TrimRight(body, IsNewline) == "" {
      NewlinesReturn(n, body);
      assert Newlines(1) == "\n" && Newlines(n) + "" == Newlines(n);
      assert n == 1 || |Newlines(n)| != |"\n"|;
    } else {
      CleanBodyReturns(n, body);
    }
  }

  lemma OddBreaksAreLost(n: nat, body: string)
    requires n >= 1 && body != "" && !OnlyNewlines(body)
    ensures Returned(n, body) != Newlines(n) + TrimRight(body, IsNewline)
  {
    ReturnedOnlyNewlines(Returned(n - 1, body));
    KeptBreaks(body);
    TailOnlyNewlines(n, TrimRight(body, IsNewline));
  }

  lemma TailOnlyNewlines(n: nat, kept: string)
    ensures OnlyNewlines(Newlines(n) + kept) ==> OnlyNewlines(kept)
  {
    assert forall i :: 0 <= i < |kept| ==> kept[i] == (Newlines(n) + kept)[n + i];
  }
}
