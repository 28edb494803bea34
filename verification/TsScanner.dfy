/** The scanner that splits generated TypeScript at top-level delimiters, and
    what happens when the surviving parts are joined and split again. */
module TsScanner {
  import opened Common
  import opened Strings

  // ----- scanner states -----

  datatype Depth = Depth(brace: nat, bracket: nat, paren: nat, angle: nat)

  datatype Scan = Scan(
    depth: Depth,
    delim: Option<char>,
    escape: bool,
    block: bool,
    line: bool,
    previous: Option<char>)

  const INITIAL := Scan(Depth(0, 0, 0, 0), None, false, false, false, None)

  predicate InIgnored(s: Scan) {
    s.delim.Some? || s.block || s.line
  }

  predicate TopLevel(s: Scan) {
    s.depth == Depth(0, 0, 0, 0)
  }

  function Down(n: nat): nat {
    if n == 0 then 0 else n - 1
  }

  /** Brackets outside strings and comments. */
  function Nest(d: Depth, c: char): Depth {
    match c
    case '{' => d.(brace := d.brace + 1)
    case '}' => d.(brace := Down(d.brace))
    case '[' => d.(bracket := d.bracket + 1)
    case ']' => d.(bracket := Down(d.bracket))
    case '(' => d.(paren := d.paren + 1)
    case ')' => d.(paren := Down(d.paren))
    case '<' => d.(angle := d.angle + 1)
    case '>' => d.(angle := Down(d.angle))
    case _ => d
  }

  function Observe(s: Scan, c: char): Scan {
    if s.line then s.(line := c != '\n', previous := Some(c))
    else if s.block then
      if s.previous == Some('*') && c == '/' then s.(block := false, previous := None)
      else s.(previous := Some(c))
    else if s.delim.Some? then
      if s.escape then s.(escape := false, previous := Some(c))
      else if c == '\\' then s.(escape := true, previous := Some(c))
      else s.(delim := if c == s.delim.value then None else s.delim, previous := Some(c))
    else if s.previous == Some('/') && c == '/' then s.(line := true, previous := Some(c))
    else if s.previous == Some('/') && c == '*' then s.(block := true, previous := Some(c))
    else if c == '"' || c == '\'' then s.(delim := Some(c), previous := Some(c))
    else s.(depth := Nest(s.depth, c), previous := Some(c))
  }

  function ScanText(s: Scan, text: string): Scan
    decreases |text|
  {
    if text == "" then s else ScanText(Observe(s, text[0]), text[1..])
  }

  lemma {:induction false} ScanConcat(s: Scan, a: string, b: string)
    ensures ScanText(s, a + b) == ScanText(ScanText(s, a), b)
    decreases |a|
  {
    if a == "" {
      assert a + b == b;
    } else {
      assert (a + b)[1..] == a[1..] + b;
      ScanConcat(Observe(s, a[0]), a[1..], b);
    }
  }

  /** The states behave alike from here on: the last character matters only as a
      slash, or as a star inside a block comment. */
  predicate Alike(s: Scan, t: Scan) {
    && s.(previous := None) == t.(previous := None)
    && (s.previous == Some('/') <==> t.previous == Some('/'))
    && (s.block ==> (s.previous == Some('*') <==> t.previous == Some('*')))
  }

  lemma AlikeObserve(s: Scan, t: Scan, c: char)
    requires Alike(s, t)
    ensures Observe(s, c) == Observe(t, c)
  {
  }

  lemma AlikeScan(s: Scan, t: Scan, text: string)
    requires Alike(s, t)
    ensures Alike(ScanText(s, text), ScanText(t, text))
    ensures text != "" ==> ScanText(s, text) == ScanText(t, text)
  {
    if text != "" {
      AlikeObserve(s, t, text[0]);
    }
  }

  // ----- splitting -----

  predicate SplitsAt(s: Scan, c: char, delimiters: set<char>) {
    !InIgnored(s) && TopLevel(s) && c in delimiters
  }

  /** A piece of text between delimiters, unless it is blank. */
  function Piece(text: string): seq<string> {
    if Trim(text) == "" then [] else [Trim(text)]
  }

  /** The parts of `pending + rest` when the scanner has read `pending` without
      splitting and is in state `s`. */
  function Parts(s: Scan, pending: string, rest: string, delimiters: set<char>): seq<string>
    decreases |rest|
  {
    if rest == "" then Piece(pending)
    else if SplitsAt(s, rest[0], delimiters) then
      Piece(pending) + Parts(Observe(s, rest[0]), "", rest[1..], delimiters)
    else Parts(Observe(s, rest[0]), pending + [rest[0]], rest[1..], delimiters)
  }

  function SplitTopLevel(input: string, delimiters: set<char>): seq<string> {
    Parts(INITIAL, "", input, delimiters)
  }

  class ScanState {
    var depth: Depth
    var stringDelim: Option<char>
    var escape: bool
    var blockComment: bool
    var lineComment: bool
    var previousChar: Option<char>

    function View(): Scan
      reads this
    {
      Scan(depth, stringDelim, escape, blockComment, lineComment, previousChar)
    }

    constructor ()
      ensures View() == INITIAL
    {
      depth := Depth(0, 0, 0, 0);
      stringDelim := None;
      escape := false;
      blockComment := false;
      lineComment := false;
      previousChar := None;
    }

    method ObserveChar(c: char)
      modifies this
      ensures View() == Observe(old(View()), c)
    {
      if lineComment {
        if c == '\n' {
          lineComment := false;
        }
        previousChar := Some(c);
        return;
      }
      if blockComment {
        if previousChar == Some('*') && c == '/' {
          blockComment := false;
          previousChar := None;
        } else {
          previousChar := Some(c);
        }
        return;
      }
      if stringDelim.Some? {
        if escape {
          escape := false;
          previousChar := Some(c);
          return;
        }
        if c == '\\' {
          escape := true;
          previousChar := Some(c);
          return;
        }
        if c == stringDelim.value {
          stringDelim := None;
        }
        previousChar := Some(c);
        return;
      }
      if previousChar == Some('/') && c == '/' {
        lineComment := true;
        previousChar := Some(c);
        return;
      }
      if previousChar == Some('/') && c == '*' {
        blockComment := true;
        previousChar := Some(c);
        return;
      }
      if c == '"' || c == '\'' {
        stringDelim := Some(c);
      } else {
        depth := Nest(depth, c);
      }
      previousChar := Some(c);
    }
  }

  /** What is still to come: the parts of `input[index..]`, the first of which began at `start`. */
  function Remaining(s: Scan, input: string, start: nat, index: nat, delimiters: set<char>): seq<string>
    requires start <= index <= |input|
  {
    Parts(s, input[start..index], input[index..], delimiters)
  }

  lemma RemainingStep(s: Scan, input: string, start: nat, index: nat, delimiters: set<char>)
    requires start <= index < |input|
    ensures Remaining(s, input, start, index, delimiters) ==
              if SplitsAt(s, input[index], delimiters)
              then Piece(input[start..index]) +
                  Remaining(Observe(s, input[index]), input, index + 1, index + 1, delimiters)
              else Remaining(Observe(s, input[index]), input, start, index + 1, delimiters)
  {
    var c, after := input[index], input[index + 1..];
    assert input[index..] == [c] + after && ([c] + after)[1..] == after;
    assert input[start..index] + [c] == input[start..index + 1];
    assert input[index + 1..index + 1] == "";
  }

  method SplitTopLevelMulti(input: string, delimiters: set<char>) returns (parts: seq<string>)
    ensures parts == SplitTopLevel(input, delimiters)
  {
    var scan := new ScanState();
    var start, index := 0, 0;
    parts := [];
    assert input[0..0] == "" && input[0..] == input;
    while index < |input|
      invariant 0 <= start <= index <= |input|
      invariant parts + Remaining(scan.View(), input, start, index, delimiters) == SplitTopLevel(input, delimiters)
    {
      RemainingStep(scan.View(), input, start, index, delimiters);
      if SplitsAt(scan.View(), input[index], delimiters) {
        var part := Trim(input[start..index]);
        if part != "" {
          parts := parts + [part];
        }
        start := index + 1;
      }
      scan.ObserveChar(input[index]);
      index := index + 1;
    }
    assert input[index..] == "" && input[start..index] == input[start..];
    var tail := Trim(input[start..]);
    if tail != "" {
      parts := parts + [tail];
    }
  }

  // ----- pieces of a split -----

  /** A delimiter with no meaning of its own to the scanner. */
  predicate PlainDelimiter(c: char) {
    c !in "/*\"'\\{}[]()<>" && !IsWhitespace(c)
  }

  predicate Fresh(s: Scan) {
    Alike(s, INITIAL)
  }

  lemma FreshAfter(s: Scan, c: char)
    requires !InIgnored(s) && TopLevel(s) && !s.escape && (PlainDelimiter(c) || IsWhitespace(c))
    ensures Fresh(Observe(s, c))
  {
  }

  /** At most one kind of ignored text is open, escapes are pending only inside
      strings, and strings are closed by a quote. */
  predicate Sane(s: Scan) {
    && (s.delim.Some? ==> !s.block && !s.line && (s.delim.value == '"' || s.delim.value == '\''))
    && (s.block ==> !s.line)
    && (s.escape ==> s.delim.Some?)
  }

  lemma {:induction false} SaneScan(s: Scan, text: string)
    requires Sane(s)
    ensures Sane(ScanText(s, text))
    decreases |text|
  {
    if text != "" {
      SaneScan(Observe(s, text[0]), text[1..]);
    }
  }

  /** White space neither nests nor closes a string or a block comment. */
  lemma {:induction false} SpaceKeeps(s: Scan, space: string)
    requires Sane(s) && AllSpace(space)
    ensures var t := ScanText(s, space);
            && t.depth == s.depth && t.block == s.block && t.delim == s.delim
            && (!s.line ==> !t.line)
    decreases |space|
  {
    if space != "" {
      assert IsWhitespace(space[0]);
      SpaceKeeps(Observe(s, space[0]), space[1..]);
    }
  }

  lemma {:induction false} FreshSpace(s: Scan, space: string)
    requires Fresh(s) && AllSpace(space)
    ensures Fresh(ScanText(s, space))
    decreases |space|
  {
    if space != "" {
      FreshAfter(s, space[0]);
      FreshSpace(Observe(s, space[0]), space[1..]);
    }
  }

  /** The scanner reads the text from `s` without meeting a split point. */
  predicate NoSplit(s: Scan, text: string, delimiters: set<char>)
    decreases |text|
  {
    text == "" || (!SplitsAt(s, text[0], delimiters) && NoSplit(Observe(s, text[0]), text[1..], delimiters))
  }

  lemma {:induction false} NoSplitConcat(s: Scan, a: string, b: string, delimiters: set<char>)
    ensures NoSplit(s, a + b, delimiters) <==> NoSplit(s, a, delimiters) && NoSplit(ScanText(s, a), b, delimiters)
    decreases |a|
  {
    if a == "" {
      assert a + b == b;
    } else {
      assert (a + b)[1..] == a[1..] + b;
      NoSplitConcat(Observe(s, a[0]), a[1..], b, delimiters);
    }
  }

  lemma AlikeNoSplit(s: Scan, t: Scan, text: string, delimiters: set<char>)
    requires Alike(s, t)
    ensures NoSplit(s, text, delimiters) <==> NoSplit(t, text, delimiters)
  {
    if text != "" {
      AlikeObserve(s, t, text[0]);
    }
  }

  /** No line comment is open before, inside or after the text. */
  predicate LineFree(s: Scan, text: string)
    decreases |text|
  {
    !s.line && (text != "" ==> LineFree(Observe(s, text[0]), text[1..]))
  }

  lemma {:induction false} LineFreeConcat(s: Scan, a: string, b: string)
    ensures LineFree(s, a + b) <==> LineFree(s, a) && LineFree(ScanText(s, a), b)
    decreases |a|
  {
    if a == "" {
      assert a + b == b;
    } else {
      assert (a + b)[1..] == a[1..] + b;
      LineFreeConcat(Observe(s, a[0]), a[1..], b);
    }
  }

  lemma AlikeLineFree(s: Scan, t: Scan, text: string)
    requires Alike(s, t)
    ensures LineFree(s, text) <==> LineFree(t, text)
  {
    if text != "" {
      AlikeObserve(s, t, text[0]);
    }
  }

  /** Trimmed text with no split point inside. */
  predicate Atomic(part: string, delimiters: set<char>) {
    part != "" && Trimmed(part) && NoSplit(INITIAL, part, delimiters)
  }

  /** Every bracket, string and block comment that the part opens is closed again. */
  predicate Balanced(part: string) {
    var s := ScanText(INITIAL, part);
    TopLevel(s) && s.delim.None? && !s.block
  }

  /** The part ends inside a line comment. */
  predicate EndsInLineComment(part: string) {
    ScanText(INITIAL, part).line
  }

  /** What every list of parts looks like: only the last part may be unbalanced. */
  predicate Partition(parts: seq<string>, delimiters: set<char>) {
    parts != [] ==>
      && Atomic(parts[0], delimiters)
      && (|parts| > 1 ==> Balanced(parts[0]))
      && Partition(parts[1..], delimiters)
  }

  lemma {:induction false} PartsAlike(s: Scan, t: Scan, pending: string, rest: string, delimiters: set<char>)
    requires Alike(s, t)
    ensures Parts(s, pending, rest, delimiters) == Parts(t, pending, rest, delimiters)
    decreases |rest|
  {
    if rest != "" {
      AlikeObserve(s, t, rest[0]);
    }
  }

  /** What trimming a piece keeps of the way it was scanned. */
  lemma PieceScan(text: string, delimiters: set<char>)
    requires NoSplit(INITIAL, text, delimiters) && Trim(text) != ""
    ensures Atomic(Trim(text), delimiters)
    ensures !InIgnored(ScanText(INITIAL, text)) && TopLevel(ScanText(INITIAL, text)) ==> Balanced(Trim(text))
    ensures LineFree(INITIAL, text) ==> LineFree(INITIAL, Trim(text))
  {
    var lead, trail := TrimSplits(text);
    var part := Trim(text);
    var fresh_ := ScanText(INITIAL, lead);
    FreshSpace(INITIAL, lead);
    assert text == lead + (part + trail);
    NoSplitConcat(INITIAL, lead, part + trail, delimiters);
    NoSplitConcat(fresh_, part, trail, delimiters);
    AlikeNoSplit(fresh_, INITIAL, part, delimiters);
    LineFreeConcat(INITIAL, lead, part + trail);
    LineFreeConcat(fresh_, part, trail);
    AlikeLineFree(fresh_, INITIAL, part);
    ScanConcat(INITIAL, lead, part + trail);
    ScanConcat(fresh_, part, trail);
    AlikeScan(fresh_, INITIAL, part);
    SaneScan(INITIAL, part);
    SpaceKeeps(ScanText(INITIAL, part), trail);
  }

  lemma {:induction false} PartsPartition(pending: string, rest: string, delimiters: set<char>)
    requires forall c | c in delimiters :: PlainDelimiter(c)
    requires NoSplit(INITIAL, pending, delimiters)
    ensures Partition(Parts(ScanText(INITIAL, pending), pending, rest, delimiters), delimiters)
    decreases |rest|
  {
    var s := ScanText(INITIAL, pending);
    if Trim(pending) != "" {
      PieceScan(pending, delimiters);
    }
    if rest != "" {
      var c := rest[0];
      SaneScan(INITIAL, pending);
      if SplitsAt(s, c, delimiters) {
        FreshAfter(s, c);
        PartsAlike(Observe(s, c), INITIAL, "", rest[1..], delimiters);
        PartsPartition("", rest[1..], delimiters);
        var tail := Parts(INITIAL, "", rest[1..], delimiters);
        assert Piece(pending) != [] ==> (Piece(pending) + tail)[1..] == tail;
        assert Piece(pending) == [] ==> Piece(pending) + tail == tail;
      } else {
        ScanConcat(INITIAL, pending, [c]);
        NoSplitConcat(INITIAL, pending, [c], delimiters);
        PartsPartition(pending + [c], rest[1..], delimiters);
      }
    }
  }

  /** Splitting any text gives a partition. */
  lemma SplitPartition(input: string, delimiters: set<char>)
    requires forall c | c in delimiters :: PlainDelimiter(c)
    ensures Partition(SplitTopLevel(input, delimiters), delimiters)
  {
    PartsPartition("", input, delimiters);
  }

  lemma {:induction false} PartsLineFree(pending: string, rest: string, delimiters: set<char>)
    requires forall c | c in delimiters :: PlainDelimiter(c)
    requires NoSplit(INITIAL, pending, delimiters)
    requires LineFree(INITIAL, pending) && LineFree(ScanText(INITIAL, pending), rest)
    ensures forall p | p in Parts(ScanText(INITIAL, pending), pending, rest, delimiters) :: LineFree(INITIAL, p)
    decreases |rest|
  {
    var s := ScanText(INITIAL, pending);
    if Trim(pending) != "" {
      PieceScan(pending, delimiters);
    }
    if rest != "" {
      var c := rest[0];
      SaneScan(INITIAL, pending);
      if SplitsAt(s, c, delimiters) {
        FreshAfter(s, c);
        PartsAlike(Observe(s, c), INITIAL, "", rest[1..], delimiters);
        AlikeLineFree(Observe(s, c), INITIAL, rest[1..]);
        PartsLineFree("", rest[1..], delimiters);
      } else {
        ScanConcat(INITIAL, pending, [c]);
        NoSplitConcat(INITIAL, pending, [c], delimiters);
        LineFreeConcat(INITIAL, pending, [c]);
        PartsLineFree(pending + [c], rest[1..], delimiters);
      }
    }
  }

  // ----- joining and splitting again -----

  /** A delimiter with white space around it; only a newline before it could end a
      line comment. */
  datatype Separator = Separator(before: string, delimiter: char, after: string) {
    function Text(): string {
      before + [delimiter] + after
    }

    predicate Valid(delimiters: set<char>) {
      && delimiter in delimiters && PlainDelimiter(delimiter)
      && AllSpace(before) && '\n' !in before && AllSpace(after)
    }
  }

  const UNION_DELIMITERS := {'|'}
  const UNION_SEPARATOR := Separator(" ", '|', " ")
  const FIELD_DELIMITERS := {',', ';'}
  const FIELD_SEPARATOR := Separator("", ',', " ")

  function JoinParts(parts: seq<string>, separator: string): string {
    if parts == [] then ""
    else if |parts| == 1 then parts[0]
    else parts[0] + separator + JoinParts(parts[1..], separator)
  }

  /** Reading text without split points only adds it to the pending piece. */
  lemma {:induction false} ReadOver(s: Scan, pending: string, text: string, rest: string, delimiters: set<char>)
    requires NoSplit(s, text, delimiters)
    ensures Parts(s, pending, text + rest, delimiters) == Parts(ScanText(s, text), pending + text, rest, delimiters)
    decreases |text|
  {
    if text == "" {
      assert text + rest == rest && pending + text == pending;
    } else {
      assert (text + rest)[1..] == text[1..] + rest;
      ReadOver(Observe(s, text[0]), pending + [text[0]], text[1..], rest, delimiters);
      assert pending + [text[0]] + text[1..] == pending + text;
    }
  }

  /** White space at the start of a piece does not matter. */
  lemma {:induction false} PendingSpace(s: Scan, space: string, pending: string, rest: string, delimiters: set<char>)
    requires AllSpace(space)
    ensures Parts(s, space + pending, rest, delimiters) == Parts(s, pending, rest, delimiters)
    decreases |rest|
  {
    TrimLead(space, pending);
    if rest != "" && !SplitsAt(s, rest[0], delimiters) {
      assert space + pending + [rest[0]] == space + (pending + [rest[0]]);
      PendingSpace(Observe(s, rest[0]), space, pending + [rest[0]], rest[1..], delimiters);
    }
  }

  lemma {:induction false} SpaceNoSplit(s: Scan, space: string, delimiters: set<char>)
    requires AllSpace(space) && forall c | c in delimiters :: PlainDelimiter(c)
    ensures NoSplit(s, space, delimiters)
    decreases |space|
  {
    if space != "" {
      assert IsWhitespace(space[0]);
      SpaceNoSplit(Observe(s, space[0]), space[1..], delimiters);
    }
  }

  /** White space before the text changes nothing. */
  lemma SplitAfterSpace(s: Scan, space: string, rest: string, delimiters: set<char>)
    requires Fresh(s) && AllSpace(space) && forall c | c in delimiters :: PlainDelimiter(c)
    ensures Parts(s, "", space + rest, delimiters) == SplitTopLevel(rest, delimiters)
  {
    SpaceNoSplit(s, space, delimiters);
    ReadOver(s, "", space, rest, delimiters);
    FreshSpace(s, space);
    assert "" + space == space + "";
    PendingSpace(ScanText(s, space), space, "", rest, delimiters);
    PartsAlike(ScanText(s, space), INITIAL, "", rest, delimiters);
  }

  /** A balanced part followed by a separator is split off as it is. */
  lemma SplitFirstPart(part: string, separator: Separator, rest: string, delimiters: set<char>)
    requires (forall c | c in delimiters :: PlainDelimiter(c)) && separator.Valid(delimiters)
    requires Atomic(part, delimiters) && Balanced(part) && !EndsInLineComment(part)
    ensures SplitTopLevel(part + separator.Text() + rest, delimiters) == [part] + SplitTopLevel(rest, delimiters)
  {
    var d := separator.delimiter;
    var after := [d] + (separator.after + rest);
    var s := ScanText(INITIAL, part);
    var t := ScanText(s, separator.before);
    assert part + separator.Text() + rest == part + (separator.before + after);
    ReadOver(INITIAL, "", part, separator.before + after, delimiters);
    assert "" + part == part;
    SpaceNoSplit(s, separator.before, delimiters);
    ReadOver(s, part, separator.before, after, delimiters);
    SaneScan(INITIAL, part);
    SpaceKeeps(s, separator.before);
    SaneScan(s, separator.before);
    TrimTrail(part, separator.before);
    assert after[1..] == separator.after + rest;
    FreshAfter(t, d);
    SplitAfterSpace(Observe(t, d), separator.after, rest, delimiters);
  }

  /** Whatever follows, the first piece starts with the trimmed text read so far. */
  lemma {:induction false} FirstPieceGrows(s: Scan, text: string, more: string, rest: string, delimiters: set<char>)
    requires text != "" && Trimmed(text)
    ensures var parts := Parts(s, text + more, rest, delimiters);
            parts != [] && text <= parts[0]
    decreases |rest|
  {
    TrimKeepsPrefix(text, more);
    if rest != "" && !SplitsAt(s, rest[0], delimiters) {
      assert text + more + [rest[0]] == text + (more + [rest[0]]);
      FirstPieceGrows(Observe(s, rest[0]), text, more + [rest[0]], rest[1..], delimiters);
    }
  }

  lemma {:induction false} LineCommentGoesOn(s: Scan, text: string, delimiters: set<char>)
    requires s.line && '\n' !in text
    ensures NoSplit(s, text, delimiters) && ScanText(s, text).line
    decreases |text|
  {
    if text != "" {
      LineCommentGoesOn(Observe(s, text[0]), text[1..], delimiters);
    }
  }

  /** A part that ends inside a line comment swallows the separator. */
  lemma SwallowedSeparator(part: string, separator: Separator, rest: string, delimiters: set<char>)
    requires separator.Valid(delimiters) && Atomic(part, delimiters) && EndsInLineComment(part)
    ensures var parts := SplitTopLevel(part + separator.Text() + rest, delimiters);
            parts != [] && parts[0] != part
  {
    var open := separator.before + [separator.delimiter];
    var after := separator.after + rest;
    var s := ScanText(INITIAL, part);
    assert part + separator.Text() + rest == part + (open + after);
    ReadOver(INITIAL, "", part, open + after, delimiters);
    assert "" + part == part;
    LineCommentGoesOn(s, open, delimiters);
    ReadOver(s, part, open, after, delimiters);
    var text := part + open;
    assert text[0] == part[0] && text[|text| - 1] == separator.delimiter;
    assert text + "" == text;
    FirstPieceGrows(ScanText(s, open), text, "", after, delimiters);
  }

  /** Some part other than the last ends inside a line comment. */
  predicate HasOpenLineComment(parts: seq<string>) {
    |parts| > 1 && (EndsInLineComment(parts[0]) || HasOpenLineComment(parts[1..]))
  }

  /** Splitting the joined parts gives exactly the parts if and only if no part but
      the last ends inside a line comment. */
  lemma {:induction false} Resplit(parts: seq<string>, separator: Separator, delimiters: set<char>)
    requires (forall c | c in delimiters :: PlainDelimiter(c)) && separator.Valid(delimiters)
    requires Partition(parts, delimiters)
    ensures SplitTopLevel(JoinParts(parts, separator.Text()), delimiters) == parts <==> !HasOpenLineComment(parts)
  {
    if |parts| == 1 {
      var part := parts[0];
      assert part + "" == part && "" + part == part;
      ReadOver(INITIAL, "", part, "", delimiters);
      TrimTrail(part, "");
    } else if |parts| > 1 {
      var rest := JoinParts(parts[1..], separator.Text());
      if EndsInLineComment(parts[0]) {
        SwallowedSeparator(parts[0], separator, rest, delimiters);
      } else {
        SplitFirstPart(parts[0], separator, rest, delimiters);
        Resplit(parts[1..], separator, delimiters);
        assert parts == [parts[0]] + parts[1..];
        var again := SplitTopLevel(rest, delimiters);
        assert ([parts[0]] + again)[1..] == again;
      }
    }
  }

  /** A part that ends in a line comment is split off where the comment's line ends. */
  lemma CommentedPart(part: string, d: char, rest: string, delimiters: set<char>)
    requires (forall c | c in delimiters :: PlainDelimiter(c)) && d in delimiters
    requires Atomic(part, delimiters) && Balanced(part) && EndsInLineComment(part)
    ensures SplitTopLevel(part + "\n" + ([d] + rest), delimiters) == [part] + SplitTopLevel(rest, delimiters)
  {
    var s := ScanText(INITIAL, part);
    var t := Observe(s, '\n');
    var after := [d] + rest;
    assert part + "\n" + after == part + ("\n" + after);
    ReadOver(INITIAL, "", part, "\n" + after, delimiters);
    assert "" + part == part && ("\n" + after)[1..] == after && after[1..] == rest;
    SaneScan(INITIAL, part);
    TrimTrail(part, "\n");
    FreshAfter(t, d);
    PartsAlike(Observe(t, d), INITIAL, "", rest, delimiters);
  }

  /** The parts of such a body are not found again once they are joined. */
  lemma CommentedBody(part: string, d: char, rest: string, separator: Separator, delimiters: set<char>)
    requires (forall c | c in delimiters :: PlainDelimiter(c)) && d in delimiters && separator.Valid(delimiters)
    requires Atomic(part, delimiters) && Balanced(part) && EndsInLineComment(part)
    requires SplitTopLevel(rest, delimiters) != []
    ensures var parts := SplitTopLevel(part + "\n" + ([d] + rest), delimiters);
            parts != [] && parts[0] == part && SplitTopLevel(JoinParts(parts, separator.Text()), delimiters) != parts
  {
    var body := part + "\n" + ([d] + rest);
    CommentedPart(part, d, rest, delimiters);
    SplitPartition(body, delimiters);
    Resplit(SplitTopLevel(body, delimiters), separator, delimiters);
  }

  /** For instance `a//` and `b`, one below the other, become one arm of a union. */
  lemma CommentedArms()
    ensures var parts := SplitTopLevel("a//" + "\n" + (['|'] + "b"), UNION_DELIMITERS);
            && parts == ["a//", "b"]
            && SplitTopLevel(JoinParts(parts, UNION_SEPARATOR.Text()), UNION_DELIMITERS) != parts
  {
    var a, b := "a//", "b";
    ExporterSeparators();
    ScanComment(a);
    OneCharPart('b');
    CommentedPart(a, '|', b, UNION_DELIMITERS);
    CommentedBody(a, '|', b, UNION_SEPARATOR, UNION_DELIMITERS);
  }

  lemma ScanComment(text: string)
    requires text == "a//"
    ensures Atomic(text, UNION_DELIMITERS) && Balanced(text) && EndsInLineComment(text)
  {
    var slashes, slash := text[1..], text[2..];
    assert slashes[1..] == slash && slash[1..] == "";
    var s := Observe(INITIAL, 'a');
    var t := Observe(s, '/');
    var u := Observe(t, '/');
    assert ScanText(u, "") == u && ScanText(t, slash) == u && ScanText(s, slashes) == u;
    assert NoSplit(t, slash, UNION_DELIMITERS);
    assert NoSplit(s, slashes, UNION_DELIMITERS);
  }

  lemma OneCharPart(c: char)
    requires c == 'b'
    ensures SplitTopLevel([c], UNION_DELIMITERS) == [[c]]
  {
    var text := [c];
    assert text[1..] == "" && "" + text == text && text + "" == text;
    assert NoSplit(INITIAL, text, UNION_DELIMITERS);
    ReadOver(INITIAL, "", text, "", UNION_DELIMITERS);
    TrimTrail(text, "");
  }

  // ----- filtering -----

  function Filter(keep: string -> bool, parts: seq<string>): seq<string> {
    if parts == [] then []
    else (if keep(parts[0]) then [parts[0]] else []) + Filter(keep, parts[1..])
  }

  lemma {:induction false} FilterPartition(keep: string -> bool, parts: seq<string>, delimiters: set<char>)
    requires Partition(parts, delimiters)
    ensures Partition(Filter(keep, parts), delimiters)
    ensures |Filter(keep, parts)| <= |parts|
  {
    if parts != [] {
      FilterPartition(keep, parts[1..], delimiters);
      var kept := Filter(keep, parts[1..]);
      assert keep(parts[0]) ==> Filter(keep, parts)[1..] == kept;
      assert !keep(parts[0]) ==> Filter(keep, parts) == kept;
    }
  }

  lemma {:induction false} FilterTwice(keep: string -> bool, parts: seq<string>)
    ensures Filter(keep, Filter(keep, parts)) == Filter(keep, parts)
  {
    if parts != [] {
      FilterTwice(keep, parts[1..]);
      var kept := Filter(keep, parts[1..]);
      assert keep(parts[0]) ==> Filter(keep, parts)[1..] == kept;
      assert !keep(parts[0]) ==> Filter(keep, parts) == kept;
    }
  }

  /** The body that is written back: the surviving parts, joined. */
  function FilterBody(keep: string -> bool, body: string, separator: Separator, delimiters: set<char>): string {
    JoinParts(Filter(keep, SplitTopLevel(body, delimiters)), separator.Text())
  }

  /** The surviving parts are found again as they were if and only if none but the last
      ends inside a line comment, and then filtering the body again changes nothing. */
  lemma FilterBodyTwice(keep: string -> bool, body: string, separator: Separator, delimiters: set<char>)
    requires (forall c | c in delimiters :: PlainDelimiter(c)) && separator.Valid(delimiters)
    ensures var kept := Filter(keep, SplitTopLevel(body, delimiters));
            var once := FilterBody(keep, body, separator, delimiters);
            && (SplitTopLevel(once, delimiters) == kept <==> !HasOpenLineComment(kept))
            && (!HasOpenLineComment(kept) ==> FilterBody(keep, once, separator, delimiters) == once)
  {
    var parts := SplitTopLevel(body, delimiters);
    SplitPartition(body, delimiters);
    FilterPartition(keep, parts, delimiters);
    Resplit(Filter(keep, parts), separator, delimiters);
    FilterTwice(keep, parts);
  }

  lemma {:induction false} LineFreeEnd(s: Scan, text: string)
    requires LineFree(s, text)
    ensures !ScanText(s, text).line
    decreases |text|
  {
    if text != "" {
      LineFreeEnd(Observe(s, text[0]), text[1..]);
    }
  }

  lemma {:induction false} FilteredLineFree(keep: string -> bool, parts: seq<string>)
    requires forall p | p in parts :: LineFree(INITIAL, p)
    ensures !HasOpenLineComment(Filter(keep, parts))
  {
    if parts != [] {
      FilteredLineFree(keep, parts[1..]);
      LineFreeEnd(INITIAL, parts[0]);
      var kept := Filter(keep, parts[1..]);
      assert keep(parts[0]) ==> Filter(keep, parts)[1..] == kept;
      assert !keep(parts[0]) ==> Filter(keep, parts) == kept;
    }
  }

  /** On text in which the scanner never enters a line comment, filtering is
      idempotent and the surviving parts are found again as they were. */
  lemma FilterIdempotent(keep: string -> bool, body: string, separator: Separator, delimiters: set<char>)
    requires (forall c | c in delimiters :: PlainDelimiter(c)) && separator.Valid(delimiters)
    requires LineFree(INITIAL, body)
    ensures var kept := Filter(keep, SplitTopLevel(body, delimiters));
            var once := FilterBody(keep, body, separator, delimiters);
            SplitTopLevel(once, delimiters) == kept && FilterBody(keep, once, separator, delimiters) == once
  {
    PartsLineFree("", body, delimiters);
    FilteredLineFree(keep, SplitTopLevel(body, delimiters));
    FilterBodyTwice(keep, body, separator, delimiters);
  }

  /** The separators the exporter joins with suit the delimiters it splits at. */
  lemma ExporterSeparators()
    ensures UNION_SEPARATOR.Valid(UNION_DELIMITERS) && FIELD_SEPARATOR.Valid(FIELD_DELIMITERS)
    ensures forall c | c in UNION_DELIMITERS + FIELD_DELIMITERS :: PlainDelimiter(c)
  {
  }

  // ----- a whole type alias -----

  /** The position of the first `c`, or the length. */
  function FirstIndex(s: string, c: char): (i: nat)
    ensures i <= |s| && c !in s[..i] && (i < |s| ==> s[i] == c)
  {
    if s == "" || s[0] == c then 0
    else
      var rest := FirstIndex(s[1..], c);
      assert s[..rest + 1] == [s[0]] + s[1..][..rest];
      1 + rest
  }

  /** The position of the last `c`, or the length. */
  function LastIndex(s: string, c: char): (i: nat)
    ensures i <= |s| && (i < |s| ==> s[i] == c && c !in s[i + 1..]) && (i == |s| ==> c !in s)
  {
    if s == "" then 0
    else if s[|s| - 1] == c then |s| - 1
    else
      var init := s[..|s| - 1];
      var found := LastIndex(init, c);
      assert s == init + [s[|s| - 1]];
      if found == |init| then |s|
      else
        assert s[found + 1..] == init[found + 1..] + [s[|s| - 1]];
        found
  }

  lemma {:induction false} FirstIndexIs(s: string, c: char, i: nat)
    requires i < |s| && s[i] == c && c !in s[..i]
    ensures FirstIndex(s, c) == i
  {
    if i > 0 {
      assert s[0] in s[..i];
      assert s[..i][1..] == s[1..][..i - 1];
      FirstIndexIs(s[1..], c, i - 1);
    }
  }

  lemma {:induction false} LastIndexIs(s: string, c: char, i: nat)
    requires i < |s| && s[i] == c && c !in s[i + 1..]
    ensures LastIndex(s, c) == i
  {
    if i < |s| - 1 {
      var init := s[..|s| - 1];
      assert s[|s| - 1] == s[i + 1..][|s| - 2 - i];
      assert s[i + 1..][..|s| - 2 - i] == init[i + 1..];
      LastIndexIs(init, c, i);
    }
  }

  datatype Alias = Alias(prefix: string, body: string, suffix: string) {
    function Text(): string {
      prefix + body + suffix
    }
  }

  /** The text up to the first `=`, the aliased type, and the text from the last `;`. */
  function SplitTypeAlias(content: string): Option<Alias> {
    var eq, semi := FirstIndex(content, '='), LastIndex(content, ';');
    if eq == |content| || semi == |content| || semi <= eq then None
    else Some(Alias(content[..eq + 1], content[eq + 1..semi], content[semi..]))
  }

  lemma SplitAliasText(content: string)
    requires SplitTypeAlias(content).Some?
    ensures SplitTypeAlias(content).value.Text() == content
  {
  }

  /** Replacing the aliased type leaves the frame of the alias where it was. */
  lemma AliasFrame(content: string, body: string)
    requires SplitTypeAlias(content).Some?
    ensures var alias := SplitTypeAlias(content).value;
            SplitTypeAlias(alias.(body := body).Text()) == Some(alias.(body := body))
  {
    var alias := SplitTypeAlias(content).value;
    var text := alias.(body := body).Text();
    var eq, semi := |alias.prefix| - 1, |alias.prefix| + |body|;
    assert text[..eq] == content[..eq] && text[eq] == '=';
    FirstIndexIs(text, '=', eq);
    assert text[semi] == ';' && text[semi + 1..] == alias.suffix[1..];
    LastIndexIs(text, ';', semi);
    assert text[..eq + 1] == alias.prefix && text[eq + 1..semi] == body && text[semi..] == alias.suffix;
  }

  /** The file with the union arms that `keep` refuses removed, before imports are pruned. */
  function FilterUnion(keep: string -> bool, content: string): string {
    var alias := SplitTypeAlias(content);
    if alias.None? then content
    else alias.value.(body := FilterBody(keep, alias.value.body, UNION_SEPARATOR, UNION_DELIMITERS)).Text()
  }

  /** Removing union arms from a file a second time changes nothing. */
  lemma FilterUnionIdempotent(keep: string -> bool, content: string)
    requires var alias := SplitTypeAlias(content); alias.Some? ==> LineFree(INITIAL, alias.value.body)
    ensures FilterUnion(keep, FilterUnion(keep, content)) == FilterUnion(keep, content)
  {
    var alias := SplitTypeAlias(content);
    if alias.Some? {
      ExporterSeparators();
      FilterIdempotent(keep, alias.value.body, UNION_SEPARATOR, UNION_DELIMITERS);
      AliasFrame(content, FilterBody(keep, alias.value.body, UNION_SEPARATOR, UNION_DELIMITERS));
    }
  }
}
