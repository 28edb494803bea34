/** Dropping the imports that a filtered TypeScript file no longer uses, and what
    filtering a whole file twice does. */
module TsImports {
  import opened Common
  import opened Strings
  import opened TextSearch
  import opened TsScanner
  import opened TsFields

  // ----- lines -----

  function StripReturn(line: string): string {
    if line != "" && line[|line| - 1] == '\r' then line[..|line| - 1] else line
  }

  function StripAll(lines: seq<string>): seq<string> {
    seq(|lines|, i requires 0 <= i < |lines| => StripReturn(lines[i]))
  }

  /** The lines of a text that is split at its line feeds: a return before a line feed
      belongs to the line end, and a final line end starts no line. */
  function LinesOf(pieces: seq<string>): seq<string>
    requires pieces != []
  {
    var n := |pieces| - 1;
    StripAll(pieces[..n]) + if pieces[n] == "" then [] else [pieces[n]]
  }

  function Lines(text: string): seq<string> {
    LinesOf(Split(text, '\n'))
  }

  predicate EndsLine(text: string) {
    text != "" && text[|text| - 1] == '\n'
  }

  function JoinLines(lines: seq<string>): string {
    if lines == [] then "" else Join(lines, '\n')
  }

  // ----- imports -----

  const IMPORT := "import type {"
  const FROM := "} from "

  /** The type that a line imports, if it imports one under its own name. */
  function ImportedName(line: string): Option<string> {
    var trimmed := Trim(line);
    if !(IMPORT <= trimmed) then None
    else
      var rest := trimmed[|IMPORT|..];
      var end := Find(rest, FROM);
      if end.None? then None
      else
        var name := Trim(rest[..end.value]);
        if name == "" || ',' in name || Find(name, " as ").Some? then None else Some(name)
  }

  /** A line that imports one type gives its name, however it is padded; with several, a
      renamed one or none it gives nothing. */
  lemma ImportRead(lead: string, before: string, name: string, behind: string, path: string, trail: string)
    requires AllSpace(lead) && AllSpace(before) && AllSpace(behind) && AllSpace(trail)
    requires Trimmed(name) && '}' !in name && path != "" && !IsWhitespace(path[|path| - 1])
    ensures ImportedName(lead + (IMPORT + (before + name + behind + (FROM + path))) + trail) ==
            if name == "" || ',' in name || Occurs(name, " as ") then None else Some(name)
  {
    var padded := before + name + behind;
    var rest := padded + (FROM + path);
    ImportTrimmed(lead, rest, trail);
    assert (IMPORT + rest)[|IMPORT|..] == rest;
    FromFound(padded, path);
    assert rest[..|padded|] == padded;
    PaddedName(before, name, behind);
    FindNone(name, " as ");
  }

  lemma ImportTrimmed(lead: string, rest: string, trail: string)
    requires AllSpace(lead) && AllSpace(trail) && rest != "" && !IsWhitespace(rest[|rest| - 1])
    ensures Trim(lead + (IMPORT + rest) + trail) == IMPORT + rest
  {
    assert IMPORT[0] == 'i';
    assert lead + (IMPORT + rest) + trail == lead + (IMPORT + rest + trail);
    TrimLead(lead, IMPORT + rest + trail);
    TrimTrail(IMPORT + rest, trail);
  }

  lemma FromFound(padded: string, path: string)
    requires '}' !in padded
    ensures Find(padded + (FROM + path), FROM) == Some(|padded|)
  {
    var s := padded + (FROM + path);
    assert s[|padded|..|padded| + |FROM|] == FROM;
    assert OccursAt(s, FROM, |padded|);
    forall k: nat | k < |padded| ensures !OccursAt(s, FROM, k) {
      assert FROM[0] == '}' && s[k] == padded[k] && padded[k] in padded;
      assert k + |FROM| <= |s| ==> s[k..k + |FROM|][0] == s[k];
    }
    FindIs(s, FROM, |padded|);
  }

  lemma PaddedName(before: string, name: string, behind: string)
    requires AllSpace(before) && AllSpace(behind) && Trimmed(name)
    ensures Trim(before + name + behind) == name
  {
    assert before + name + behind == before + (name + behind);
    TrimLead(before, name + behind);
    if name == "" {
      assert name + behind == behind;
      assert AllSpace(behind);
      TrimLead(behind, "");
      assert behind + "" == behind;
    } else {
      TrimTrail(name, behind);
    }
  }

  /** The line stays: it is no import, or the scope mentions the imported type. */
  predicate Stays(line: string, scope: string) {
    ImportedName(line).Some? ==> Find(scope, ImportedName(line).value).Some?
  }

  function Uses(scope: string): string -> bool {
    line => Stays(line, scope)
  }

  /** The text with the lines that `keep` refuses removed. */
  function KeepLines(keep: string -> bool, content: string): string {
    JoinLines(Filter(keep, Lines(content))) + if EndsLine(content) then "\n" else ""
  }

  /** The file without the imports of types that the scope does not mention. */
  function WithoutUnused(content: string, scope: string): string {
    KeepLines(Uses(scope), content)
  }

  lemma {:induction false} FilterConcat(keep: string -> bool, a: seq<string>, b: seq<string>)
    ensures Filter(keep, a + b) == Filter(keep, a) + Filter(keep, b)
  {
    if a == [] {
      assert a + b == b;
    } else {
      FilterConcat(keep, a[1..], b);
      var first := if keep(a[0]) then [a[0]] else [];
      assert (a + b)[1..] == a[1..] + b && (a + b)[0] == a[0];
      assert first + (Filter(keep, a[1..]) + Filter(keep, b)) == first + Filter(keep, a[1..]) + Filter(keep, b);
    }
  }

  lemma FilterMore(keep: string -> bool, lines: seq<string>, i: nat)
    requires i < |lines|
    ensures Filter(keep, lines[..i + 1]) == Filter(keep, lines[..i]) + if keep(lines[i]) then [lines[i]] else []
  {
    assert lines[..i + 1] == lines[..i] + [lines[i]] && [lines[i]][1..] == [];
    FilterConcat(keep, lines[..i], [lines[i]]);
  }

  method PruneUnusedTypeImports(content: string, scope: string) returns (rewritten: string)
    ensures rewritten == WithoutUnused(content, scope)
  {
    var all, used := Lines(content), Uses(scope);
    var lines: seq<string> := [];
    for i := 0 to |all|
      invariant lines == Filter(used, all[..i])
    {
      FilterMore(used, all, i);
      if used(all[i]) {
        lines := lines + [all[i]];
      }
    }
    assert all[..|all|] == all;
    rewritten := JoinLines(lines);
    if EndsLine(content) {
      rewritten := rewritten + "\n";
    }
  }

  // ----- a file that starts with its imports -----

  /** Lines with their ends. */
  function Unlines(lines: seq<string>): string {
    if lines == [] then "" else lines[0] + ['\n'] + Unlines(lines[1..])
  }

  const RETURN := "\r\n"

  /** Something in which every line ends with a mere line feed. */
  predicate Rest(rest: string) {
    rest != "" && !Occurs(rest, RETURN)
  }

  predicate EndsInReturn(line: string) {
    line != "" && line[|line| - 1] == '\r'
  }

  predicate Head(lines: seq<string>) {
    forall line | line in lines :: '\n' !in line && !EndsInReturn(line)
  }

  lemma Regroup(a: string, b: string, c: string, d: string)
    ensures a + b + c + d == a + b + (c + d)
  {
  }

  lemma UnlinesFirst(head: seq<string>, rest: string)
    requires head != []
    ensures Unlines(head) + rest == head[0] + ['\n'] + (Unlines(head[1..]) + rest)
    ensures |Unlines(head)| == |head[0]| + 1 + |Unlines(head[1..])|
  {
    Regroup(head[0], ['\n'], Unlines(head[1..]), rest);
  }

  lemma HeadFirst(head: seq<string>, pieces: seq<string>)
    requires head != []
    ensures [head[0]] + (head[1..] + pieces) == head + pieces
    ensures Head(head) ==> Head(head[1..])
  {
  }

  lemma {:induction false} SplitHead(head: seq<string>, rest: string)
    requires Head(head)
    ensures Split(Unlines(head) + rest, '\n') == head + Split(rest, '\n')
  {
    if head == [] {
      assert Unlines(head) + rest == rest;
    } else {
      var tail := Unlines(head[1..]) + rest;
      assert head[0] in head;
      HeadFirst(head, []);
      UnlinesFirst(head, rest);
      SplitFirst(head[0], '\n', tail);
      SplitHead(head[1..], rest);
      HeadFirst(head, Split(rest, '\n'));
    }
  }

  /** Without returns before line feeds no piece but the last ends in a return. */
  lemma {:induction false} PiecesEnd(text: string)
    requires !Occurs(text, RETURN)
    ensures var pieces := Split(text, '\n'); forall i | 0 <= i < |pieces| - 1 :: !EndsInReturn(pieces[i])
  {
    if text != "" {
      SliceFree(text, 1, |text|, RETURN);
      assert text[1..|text|] == text[1..];
      PiecesEnd(text[1..]);
      var pieces, rest := Split(text, '\n'), Split(text[1..], '\n');
      if |pieces| > 1 && text[0] != '\n' {
        FirstEnds(text);
      }
      LaterEnd(text, rest);
    }
  }

  lemma LaterEnd(text: string, rest: seq<string>)
    requires text != "" && rest == Split(text[1..], '\n')
    requires forall i | 0 <= i < |rest| - 1 :: !EndsInReturn(rest[i])
    ensures var pieces := Split(text, '\n'); forall i | 1 <= i < |pieces| - 1 :: !EndsInReturn(pieces[i])
  {
    var pieces := Split(text, '\n');
    assert text[0] == '\n' ==> pieces == [""] + rest;
    assert text[0] != '\n' ==> pieces == [[text[0]] + rest[0]] + rest[1..];
    forall i | 1 <= i < |pieces| - 1 ensures !EndsInReturn(pieces[i]) {
      var k := if text[0] == '\n' then i - 1 else i;
      assert pieces[i] == rest[k];
    }
  }

  lemma ReturnFeed(text: string)
    requires |text| >= 2 && text[0] == '\r' && text[1] == '\n'
    ensures Occurs(text, RETURN)
  {
    assert text[..2] == RETURN;
    AtStart(text, RETURN);
  }

  lemma FirstEnds(text: string)
    requires !Occurs(text, RETURN) && |Split(text, '\n')| > 1 && text != "" && text[0] != '\n'
    requires !EndsInReturn(Split(text[1..], '\n')[0])
    ensures !EndsInReturn(Split(text, '\n')[0])
  {
    var rest := Split(text[1..], '\n');
    if rest[0] == "" {
      EmptyPiece(text[1..]);
      if text[0] == '\r' {
        ReturnFeed(text);
      }
    }
  }

  lemma EmptyPiece(text: string)
    requires |Split(text, '\n')| > 1 && Split(text, '\n')[0] == ""
    ensures text != "" && text[0] == '\n'
  {
  }

  lemma LinesOfHead(head: seq<string>, rest: string)
    requires Head(head) && Rest(rest)
    ensures Lines(Unlines(head) + rest) == head + Lines(rest)
  {
    SplitHead(head, rest);
    LinesBehind(head, Split(rest, '\n'));
  }

  lemma LinesBehind(head: seq<string>, pieces: seq<string>)
    requires Head(head) && pieces != []
    ensures LinesOf(head + pieces) == head + LinesOf(pieces)
  {
    var all := head + pieces;
    assert all[|all| - 1] == pieces[|pieces| - 1] && all[..|all| - 1] == head + pieces[..|pieces| - 1];
    StripHead(head, pieces[..|pieces| - 1]);
  }

  lemma StripHead(head: seq<string>, lines: seq<string>)
    requires Head(head)
    ensures StripAll(head + lines) == head + StripAll(lines)
  {
    forall i | 0 <= i < |head| ensures StripReturn(head[i]) == head[i] {
      assert head[i] in head;
    }
  }

  /** The lines of the rest put the rest together again. */
  lemma JoinRest(rest: string)
    requires Rest(rest)
    ensures Lines(rest) != [] && JoinLines(Lines(rest)) + (if EndsLine(rest) then "\n" else "") == rest
  {
    var pieces := Split(rest, '\n');
    JoinSplit(rest, '\n');
    PiecesEnd(rest);
    LastPiece(rest);
    var n := |pieces| - 1;
    assert StripAll(pieces[..n]) == pieces[..n];
    assert |pieces| == 1 ==> Join(pieces, '\n') == pieces[0];
    assert pieces == pieces[..n] + [pieces[n]];
    if pieces[n] == "" {
      assert Lines(rest) == pieces[..n];
      JoinLast(pieces[..n], '\n');
    } else {
      assert Lines(rest) == pieces;
    }
  }

  lemma {:induction false} LastPiece(text: string)
    ensures var pieces := Split(text, '\n');
            pieces[|pieces| - 1] == "" <==> text == "" || EndsLine(text)
  {
    if text != "" {
      LastPiece(text[1..]);
      var pieces, rest := Split(text, '\n'), Split(text[1..], '\n');
      if |text| == 1 {
        assert text[1..] == "";
      } else {
        assert EndsLine(text) <==> EndsLine(text[1..]);
        if text[0] != '\n' && |rest| == 1 {
          JoinSplit(text[1..], '\n');
        }
      }
    }
  }

  lemma {:induction false} JoinLast(parts: seq<string>, sep: char)
    requires parts != []
    ensures Join(parts + [""], sep) == Join(parts, sep) + [sep]
  {
    if |parts| == 1 {
      assert (parts + [""])[1..] == [""];
    } else {
      assert (parts + [""])[1..] == parts[1..] + [""];
      JoinLast(parts[1..], sep);
    }
  }

  lemma {:induction false} JoinHead(head: seq<string>, lines: seq<string>)
    requires lines != []
    ensures JoinLines(head + lines) == Unlines(head) + JoinLines(lines)
  {
    if head == [] {
      assert head + lines == lines;
    } else {
      assert (head + lines)[1..] == head[1..] + lines;
      JoinHead(head[1..], lines);
    }
  }

  predicate NoImports(lines: seq<string>) {
    forall i | 0 <= i < |lines| :: ImportedName(lines[i]).None?
  }

  predicate All(keep: string -> bool, lines: seq<string>) {
    forall i | 0 <= i < |lines| :: keep(lines[i])
  }

  lemma {:induction false} FilterAll(keep: string -> bool, lines: seq<string>)
    requires All(keep, lines)
    ensures Filter(keep, lines) == lines
  {
    if lines != [] {
      FilterAll(keep, lines[1..]);
    }
  }

  lemma {:induction false} FilterSubset(keep: string -> bool, lines: seq<string>)
    ensures forall line | line in Filter(keep, lines) :: line in lines
  {
    if lines != [] {
      FilterSubset(keep, lines[1..]);
    }
  }

  lemma {:induction false} FilterFree(keep: string -> bool, lines: seq<string>, c: char)
    requires c !in Unlines(lines)
    ensures c !in Unlines(Filter(keep, lines))
  {
    if lines != [] {
      var rest := Filter(keep, lines[1..]);
      FilterFree(keep, lines[1..], c);
      assert keep(lines[0]) ==> Filter(keep, lines)[1..] == rest;
      assert !keep(lines[0]) ==> Filter(keep, lines) == rest;
    }
  }

  lemma FilterBefore(keep: string -> bool, head: seq<string>, lines: seq<string>)
    requires All(keep, lines)
    ensures Filter(keep, head + lines) == Filter(keep, head) + lines
  {
    FilterConcat(keep, head, lines);
    FilterAll(keep, lines);
  }

  lemma JoinBefore(head: seq<string>, lines: seq<string>, rest: string, end: string)
    requires lines != [] && JoinLines(lines) + end == rest
    ensures JoinLines(head + lines) + end == Unlines(head) + rest
  {
    JoinHead(head, lines);
    assert Unlines(head) + JoinLines(lines) + end == Unlines(head) + (JoinLines(lines) + end);
  }

  lemma EndsBehind(head: string, rest: string)
    requires rest != ""
    ensures EndsLine(head + rest) <==> EndsLine(rest)
  {
  }

  /** Removing lines only touches the head of the file when the rest is kept. */
  lemma KeepHead(keep: string -> bool, head: seq<string>, rest: string)
    requires Head(head) && Rest(rest) && All(keep, Lines(rest))
    ensures KeepLines(keep, Unlines(head) + rest) == Unlines(Filter(keep, head)) + rest
  {
    LinesOfHead(head, rest);
    FilterBefore(keep, head, Lines(rest));
    JoinRest(rest);
    JoinBefore(Filter(keep, head), Lines(rest), rest, if EndsLine(rest) then "\n" else "");
    EndsBehind(Unlines(head), rest);
  }

  /** Removing lines twice is removing them once. */
  lemma KeepTwice(keep: string -> bool, head: seq<string>, rest: string, once: string)
    requires Head(head) && Rest(rest) && All(keep, Lines(rest))
    requires once == Unlines(Filter(keep, head)) + rest
    ensures KeepLines(keep, Unlines(head) + rest) == once && KeepLines(keep, once) == once
  {
    KeepHead(keep, head, rest);
    FilterSubset(keep, head);
    FilterTwice(keep, head);
    KeepHead(keep, Filter(keep, head), rest);
  }

  lemma OneLine(keep: string -> bool, line: string)
    requires '\n' !in line && keep(StripReturn(line))
    ensures KeepLines(keep, line + ['\n']) == StripReturn(line) + "\n"
  {
    SplitFirst(line, '\n', "");
    assert line + ['\n'] + "" == line + ['\n'];
    var pieces := [line, ""];
    assert Split(line + ['\n'], '\n') == pieces && pieces[..1] == [line];
    assert StripAll([line]) == [StripReturn(line)];
    var lines := [StripReturn(line)];
    assert Lines(line + ['\n']) == lines;
    FilterAll(keep, lines);
    assert JoinLines(lines) == StripReturn(line);
  }

  /** Returns before a line feed go one at a time, so with two of them a second time does
      change something. */
  lemma ReturnsGoOneByOne(keep: string -> bool, line: string)
    requires '\n' !in line && keep(line + ['\r']) && keep(line)
    ensures KeepLines(keep, line + ['\r'] + ['\r'] + ['\n']) == line + ['\r'] + "\n"
    ensures KeepLines(keep, line + ['\r'] + ['\n']) == line + "\n"
  {
    assert StripReturn(line + ['\r'] + ['\r']) == line + ['\r'] && StripReturn(line + ['\r']) == line;
    OneLine(keep, line + ['\r'] + ['\r']);
    OneLine(keep, line + ['\r']);
  }

  /** Lines of a text in which no import occurs import nothing. */
  lemma NoneImported(text: string)
    requires !Occurs(text, IMPORT)
    ensures NoImports(Lines(text))
  {
    PiecesFree(text, '\n', IMPORT);
    var pieces, lines := Split(text, '\n'), Lines(text);
    forall i | 0 <= i < |lines| ensures ImportedName(lines[i]).None? {
      assert pieces[i] in pieces;
      LineImportsNothing(pieces[i], lines[i]);
    }
  }

  lemma LineImportsNothing(piece: string, line: string)
    requires !Occurs(piece, IMPORT) && (line == piece || line == StripReturn(piece))
    ensures ImportedName(line).None?
  {
    PrefixFree(line, piece, IMPORT);
    TrimFree(line, IMPORT);
    AtStart(Trim(line), IMPORT);
  }

  /** The file starts with lines before its `=`, after which nothing is imported, and its
      lines end with mere line feeds. */
  predicate ImportsFirst(content: string, head: seq<string>, rest: string) {
    && content == Unlines(head) + rest && Head(head) && '=' !in Unlines(head)
    && !Occurs(rest, IMPORT) && !Occurs(rest, RETURN)
  }

  /** Dropping unused imports twice is dropping them once. */
  lemma PruneTwice(content: string, head: seq<string>, rest: string, scope: string) returns (used: seq<string>)
    requires ImportsFirst(content, head, rest) && rest != ""
    ensures var once := Unlines(used) + rest;
            WithoutUnused(content, scope) == once && WithoutUnused(once, scope) == once
    ensures '=' !in Unlines(used) && forall line | line in used :: line in head
  {
    NoneImported(rest);
    assert All(Uses(scope), Lines(rest));
    used := Filter(Uses(scope), head);
    KeepTwice(Uses(scope), head, rest, Unlines(used) + rest);
    FilterFree(Uses(scope), head, '=');
    FilterSubset(Uses(scope), head);
  }

  // ----- what filtering leaves out stays out -----

  /** The text cannot reach over the separator. */
  predicate Apart(p: string, separator: Separator) {
    && p != "" && separator.delimiter !in p
    && p[|p| - 1] !in separator.before && p[0] !in separator.after
  }

  lemma JoinTwo(a: string, separator: Separator, b: string, p: string)
    requires Apart(p, separator) && Occurs(a + separator.Text() + b, p)
    ensures Occurs(a, p) || Occurs(b, p)
  {
    var left, right := a + separator.before, separator.after + b;
    assert a + separator.Text() + b == left + [separator.delimiter] + right;
    OccursAround(left, separator.delimiter, right, p);
    if Occurs(left, p) {
      OccursLeft(a, separator.before, p);
    } else {
      OccursRight(separator.after, b, p);
    }
  }

  predicate AllFree(parts: seq<string>, p: string) {
    forall part | part in parts :: !Occurs(part, p)
  }

  lemma {:induction false} JoinFree(parts: seq<string>, separator: Separator, p: string)
    requires Apart(p, separator) && AllFree(parts, p)
    ensures !Occurs(JoinParts(parts, separator.Text()), p)
  {
    if parts == [] {
      assert forall i: nat | i <= 0 :: !OccursAt("", p, i);
    } else {
      assert parts[0] in parts;
      if |parts| > 1 {
        var rest := JoinParts(parts[1..], separator.Text());
        JoinFree(parts[1..], separator, p);
        if Occurs(parts[0] + separator.Text() + rest, p) {
          JoinTwo(parts[0], separator, rest, p);
        }
      }
    }
  }

  lemma {:induction false} PartsFree(s: Scan, pending: string, rest: string, delimiters: set<char>, p: string)
    requires !Occurs(pending + rest, p)
    ensures AllFree(Parts(s, pending, rest, delimiters), p)
    decreases |rest|
  {
    var all := pending + rest;
    PrefixFree(pending, all, p);
    TrimFree(pending, p);
    if rest != "" {
      if SplitsAt(s, rest[0], delimiters) {
        SliceFree(all, |pending| + 1, |all|, p);
        assert all[|pending| + 1..|all|] == "" + rest[1..];
        PartsFree(Observe(s, rest[0]), "", rest[1..], delimiters, p);
      } else {
        assert pending + [rest[0]] + rest[1..] == all;
        PartsFree(Observe(s, rest[0]), pending + [rest[0]], rest[1..], delimiters, p);
      }
    }
  }

  /** What does not occur in a body does not occur in the filtered body. */
  lemma BodyFree(keep: string -> bool, body: string, separator: Separator, delimiters: set<char>, p: string)
    requires Apart(p, separator) && !Occurs(body, p)
    ensures !Occurs(FilterBody(keep, body, separator, delimiters), p)
  {
    assert "" + body == body;
    PartsFree(INITIAL, "", body, delimiters, p);
    var parts := SplitTopLevel(body, delimiters);
    FilterSubset(keep, parts);
    JoinFree(Filter(keep, parts), separator, p);
  }

  /** The text reaches neither over a separator nor over what frames a body. */
  predicate Unbroken(p: string) {
    && Apart(p, UNION_SEPARATOR) && Apart(p, FIELD_SEPARATOR)
    && '=' !in p && ';' !in p && '{' !in p[..|p| - 1] && '}' !in p
  }

  /** Neither an import nor a return before a line feed reaches further. */
  lemma ExporterApart()
    ensures Unbroken(IMPORT) && Unbroken(RETURN)
  {
  }

  // ----- where things are found in such a file -----

  lemma FirstBehind(head: string, rest: string, c: char)
    requires c !in head
    ensures FirstIndex(head + rest, c) == |head| + FirstIndex(rest, c)
  {
    var all, at := head + rest, FirstIndex(rest, c);
    assert all[..|head| + at] == head + rest[..at];
    if at < |rest| {
      FirstIndexIs(all, c, |head| + at);
    } else {
      assert all[..|all|] == all && rest[..at] == rest;
      FirstIndexNone(all, c);
    }
  }

  lemma {:induction false} LastBehind(head: string, rest: string, c: char)
    ensures LastIndex(rest, c) < |rest| ==> LastIndex(head + rest, c) == |head| + LastIndex(rest, c)
    ensures LastIndex(rest, c) == |rest| ==>
              LastIndex(head + rest, c) < |head| || LastIndex(head + rest, c) == |head| + |rest|
  {
    if rest == "" {
      assert head + rest == head;
    } else {
      var init := rest[..|rest| - 1];
      assert (head + rest)[..|head + rest| - 1] == head + init && rest == init + [rest[|rest| - 1]];
      LastBehind(head, init, c);
    }
  }

  lemma SliceBehind(head: string, rest: string, from: nat, to: nat)
    requires from <= to <= |rest|
    ensures (head + rest)[|head| + from..|head| + to] == rest[from..to]
  {
  }

  lemma AliasBody(content: string)
    ensures SplitTypeAlias(content).Some? <==> FirstIndex(content, '=') < LastIndex(content, ';') < |content|
    ensures SplitTypeAlias(content).Some? ==>
              var eq, semi := FirstIndex(content, '='), LastIndex(content, ';');
              SplitTypeAlias(content).value == Alias(content[..eq + 1], content[eq + 1..semi], content[semi..])
  {
  }

  lemma AliasFound(head: string, rest: string)
    requires '=' !in head
    ensures SplitTypeAlias(head + rest).Some? <==> SplitTypeAlias(rest).Some?
    ensures SplitTypeAlias(rest).Some? ==>
              && FirstIndex(head + rest, '=') == |head| + FirstIndex(rest, '=')
              && LastIndex(head + rest, ';') == |head| + LastIndex(rest, ';')
  {
    FirstBehind(head, rest, '=');
    LastBehind(head, rest, ';');
    AliasBody(rest);
    AliasBody(head + rest);
  }

  /** What a file aliases does not depend on the lines before its `=`. */
  lemma AliasBehind(head: string, rest: string)
    requires '=' !in head
    ensures SplitTypeAlias(head + rest).Some? <==> SplitTypeAlias(rest).Some?
    ensures SplitTypeAlias(rest).Some? ==> SplitTypeAlias(head + rest).value.body == SplitTypeAlias(rest).value.body
  {
    AliasFound(head, rest);
    AliasBody(rest);
    AliasBody(head + rest);
    if SplitTypeAlias(rest).Some? {
      SliceBehind(head, rest, FirstIndex(rest, '=') + 1, LastIndex(rest, ';'));
    }
  }

  // ----- the imports that are used -----

  /** The text in which imports have to be used: the aliased type, or without an alias
      what was filtered. */
  function Scope(content: string, body: string): string {
    var alias := SplitTypeAlias(content);
    if alias.Some? then alias.value.body else body
  }

  /** The file without the imports that its filtered text does not use. */
  function PruneFor(content: string, body: string): string {
    WithoutUnused(content, Scope(content, body))
  }

  // ----- a whole union file -----

  /** Removing union arms and then the imports that are not used any more. */
  function FilterUnionFile(keep: string -> bool, content: string): string {
    var alias := SplitTypeAlias(content);
    if alias.None? then content
    else
      PruneFor(FilterUnion(keep, content), FilterBody(keep, alias.value.body, UNION_SEPARATOR, UNION_DELIMITERS))
  }

  /** A file whose union is filtered already only loses imports. */
  lemma FilteredUnionFile(keep: string -> bool, content: string, body: string)
    requires SplitTypeAlias(content).Some? && SplitTypeAlias(content).value.body == body
    requires FilterBody(keep, body, UNION_SEPARATOR, UNION_DELIMITERS) == body
    ensures FilterUnion(keep, content) == content
    ensures FilterUnionFile(keep, content) == WithoutUnused(content, body)
  {
    SplitAliasText(content);
  }

  /** The filtered union is found again where it was written. */
  lemma UnionFoundAgain(keep: string -> bool, content: string, alias: Alias, body: string)
    requires SplitTypeAlias(content) == Some(alias) && LineFree(INITIAL, alias.body)
    requires body == FilterBody(keep, alias.body, UNION_SEPARATOR, UNION_DELIMITERS)
    ensures SplitTypeAlias(FilterUnion(keep, content)) == Some(alias.(body := body))
    ensures FilterBody(keep, body, UNION_SEPARATOR, UNION_DELIMITERS) == body
    ensures FilterUnionFile(keep, content) == WithoutUnused(FilterUnion(keep, content), body)
  {
    AliasFrame(content, body);
    ExporterSeparators();
    FilterIdempotent(keep, alias.body, UNION_SEPARATOR, UNION_DELIMITERS);
  }

  /** What frames a union. */
  lemma AliasEnds(content: string) returns (before: string, after: string)
    requires SplitTypeAlias(content).Some?
    ensures SplitTypeAlias(content).value.prefix == before + ['=']
    ensures SplitTypeAlias(content).value.suffix == [';'] + after
  {
    before, after := content[..FirstIndex(content, '=')], content[LastIndex(content, ';') + 1..];
  }

  lemma FrameBehind(head: string, rest: string)
    requires '=' !in head && SplitTypeAlias(rest).Some?
    ensures SplitTypeAlias(head + rest).Some?
    ensures SplitTypeAlias(head + rest).value.prefix == head + SplitTypeAlias(rest).value.prefix
    ensures SplitTypeAlias(head + rest).value.suffix == SplitTypeAlias(rest).value.suffix
  {
    AliasFound(head, rest);
    TailBehind(head, rest, LastIndex(rest, ';'));
    FrontBehind(head, rest, FirstIndex(rest, '=') + 1);
  }

  lemma TailBehind(head: string, rest: string, from: nat)
    requires from <= |rest|
    ensures (head + rest)[|head| + from..] == rest[from..]
  {
  }

  lemma FrontBehind(head: string, rest: string, to: nat)
    requires to <= |rest|
    ensures (head + rest)[..|head| + to] == head + rest[..to]
  {
  }

  /** A filtered union between what frames it. */
  lemma UnionIs(keep: string -> bool, content: string)
    requires SplitTypeAlias(content).Some?
    ensures var alias := SplitTypeAlias(content).value;
            FilterUnion(keep, content) ==
              alias.prefix + FilterBody(keep, alias.body, UNION_SEPARATOR, UNION_DELIMITERS) + alias.suffix
  {
  }

  lemma FrameJoin(head: string, prefix: string, body: string, suffix: string)
    ensures head + prefix + body + suffix == head + (prefix + body + suffix)
  {
  }

  lemma FilterUnionBehind(keep: string -> bool, head: string, rest: string)
    requires '=' !in head && SplitTypeAlias(rest).Some?
    ensures FilterUnion(keep, head + rest) == head + FilterUnion(keep, rest)
  {
    AliasBehind(head, rest);
    FrameBehind(head, rest);
    UnionIs(keep, rest);
    UnionIs(keep, head + rest);
    var alias := SplitTypeAlias(rest).value;
    FrameJoin(head, alias.prefix, FilterBody(keep, alias.body, UNION_SEPARATOR, UNION_DELIMITERS), alias.suffix);
  }

  /** What does not occur in three parts occurs in none of their joinings. */
  lemma FramedFree(before: string, open: char, body: string, close: char, after: string, p: string)
    requires p != "" && open !in p[..|p| - 1] && close !in p
    requires !Occurs(before + [open], p) && !Occurs(body, p) && !Occurs(after, p)
    ensures !Occurs(before + [open] + body + ([close] + after), p)
  {
    var rest := body + [close] + after;
    assert before + [open] + body + ([close] + after) == before + [open] + rest;
    if Occurs(before + [open] + rest, p) {
      OccursAfter(before, open, rest, p);
      OccursAround(body, close, after, p);
    }
  }

  lemma AliasFree(alias: Alias, p: string)
    requires !Occurs(alias.Text(), p)
    ensures !Occurs(alias.prefix, p) && !Occurs(alias.body, p) && !Occurs(alias.suffix, p)
  {
    assert "" + alias.prefix + (alias.body + alias.suffix) == alias.Text();
    assert alias.prefix + alias.body + alias.suffix + "" == alias.Text();
    if Occurs(alias.prefix, p) {
      OccursWithin("", alias.prefix, alias.body + alias.suffix, p);
    }
    if Occurs(alias.body, p) {
      OccursWithin(alias.prefix, alias.body, alias.suffix, p);
    }
    if Occurs(alias.suffix, p) {
      OccursWithin(alias.prefix + alias.body, alias.suffix, "", p);
    }
  }

  /** What does not occur in a file does not occur with another body without it. */
  lemma RealiasFree(alias: Alias, before: string, after: string, body: string, p: string)
    requires alias.prefix == before + ['='] && alias.suffix == [';'] + after && Unbroken(p)
    requires !Occurs(alias.Text(), p) && !Occurs(body, p)
    ensures !Occurs(alias.(body := body).Text(), p)
  {
    AliasFree(alias, p);
    assert [';'] + after + "" == alias.suffix;
    if Occurs(after, p) {
      OccursWithin([';'], after, "", p);
    }
    FramedFree(before, '=', body, ';', after, p);
  }

  /** What does not occur in a union file does not occur in the filtered one. */
  lemma UnionFree(keep: string -> bool, content: string, p: string)
    requires SplitTypeAlias(content).Some? && Unbroken(p) && !Occurs(content, p)
    ensures !Occurs(FilterUnion(keep, content), p)
  {
    var alias := SplitTypeAlias(content).value;
    var before, after := AliasEnds(content);
    SplitAliasText(content);
    AliasFree(alias, p);
    BodyFree(keep, alias.body, UNION_SEPARATOR, UNION_DELIMITERS, p);
    RealiasFree(alias, before, after, FilterBody(keep, alias.body, UNION_SEPARATOR, UNION_DELIMITERS), p);
  }

  lemma FilteredUnionFirst(keep: string -> bool, content: string, head: seq<string>, rest: string)
    requires ImportsFirst(content, head, rest) && SplitTypeAlias(content).Some?
    ensures FilterUnion(keep, rest) != ""
    ensures ImportsFirst(FilterUnion(keep, content), head, FilterUnion(keep, rest))
  {
    AliasBehind(Unlines(head), rest);
    FilterUnionBehind(keep, Unlines(head), rest);
    ExporterApart();
    UnionFree(keep, rest, IMPORT);
    UnionFree(keep, rest, RETURN);
  }

  /** Filtering a whole union file a second time changes nothing, when its body has no
      line comment and its imports come first. */
  lemma FilterUnionFileIdempotent(keep: string -> bool, content: string, head: seq<string>, rest: string)
    requires var alias := SplitTypeAlias(content); alias.Some? ==> LineFree(INITIAL, alias.value.body)
    requires ImportsFirst(content, head, rest)
    ensures FilterUnionFile(keep, FilterUnionFile(keep, content)) == FilterUnionFile(keep, content)
  {
    if SplitTypeAlias(content).Some? {
      var alias := SplitTypeAlias(content).value;
      var body := FilterBody(keep, alias.body, UNION_SEPARATOR, UNION_DELIMITERS);
      UnionFoundAgain(keep, content, alias, body);
      FilteredUnionFirst(keep, content, head, rest);
      UnionPrunedTwice(keep, FilterUnion(keep, content), head, FilterUnion(keep, rest), body);
    }
  }

  lemma UnionPrunedTwice(keep: string -> bool, once: string, head: seq<string>, rest: string, body: string)
    requires ImportsFirst(once, head, rest) && rest != ""
    requires SplitTypeAlias(once).Some? && SplitTypeAlias(once).value.body == body
    requires FilterBody(keep, body, UNION_SEPARATOR, UNION_DELIMITERS) == body
    ensures var pruned := WithoutUnused(once, body); FilterUnionFile(keep, pruned) == pruned
  {
    var used := PruneTwice(once, head, rest, body);
    AliasBehind(Unlines(head), rest);
    AliasBehind(Unlines(used), rest);
    FilteredUnionFile(keep, Unlines(used) + rest, body);
  }

  // ----- a whole file with fields -----

  /** Removing fields and then the imports that are not used any more. */
  function FilterFieldsFile(keep: string -> bool, content: string): string {
    if BodySpan(content).None? then content
    else PruneFor(FilterFields(keep, content), FieldsKept(keep, FieldsOf(content)))
  }

  /** The place where the body is looked for is not in the head. */
  predicate Marked(head: string, rest: string) {
    '=' !in head && ('=' in rest || StartsBehind(head, rest, INTERFACE))
  }

  lemma {:induction false} HeadBehind(head: seq<string>, rest: string, p: string)
    requires p != "" && '\n' !in p && AllFree(head, p)
    ensures StartsBehind(Unlines(head), rest, p)
  {
    if head != [] {
      assert head[0] in head && AllFree(head[1..], p);
      HeadBehind(head[1..], rest, p);
      LineBehind(head[0], Unlines(head[1..]) + rest, p);
      StartsBehindBoth(head[0] + ['\n'], Unlines(head[1..]), rest, p);
    }
  }

  /** The lines do not have the keywords when they would matter. */
  predicate Unmarked(head: seq<string>, rest: string) {
    '=' in rest || AllFree(head, INTERFACE)
  }

  /** Such lines are such a head. */
  lemma HeadMarked(head: seq<string>, rest: string)
    requires '=' !in Unlines(head) && Unmarked(head, rest)
    ensures Marked(Unlines(head), rest)
  {
    if '=' !in rest {
      HeadBehind(head, rest, INTERFACE);
    }
  }

  lemma StartBehind(head: string, rest: string)
    requires Marked(head, rest)
    ensures BodyStart(head + rest) ==
            if BodyStart(rest).None? then None else Some(|head| + BodyStart(rest).value)
  {
    StartIs(rest);
    StartIs(head + rest);
    if '=' in rest {
      FirstBehind(head, rest, '=');
    } else {
      FindBehind(head, rest, INTERFACE);
    }
  }

  /** The search for the body starts behind the `=`, or else behind the keywords. */
  lemma StartIs(content: string)
    ensures '=' in content ==> BodyStart(content) == Some(FirstIndex(content, '=') + 1)
    ensures '=' !in content ==>
              BodyStart(content) == if Find(content, INTERFACE).None? then None
                                    else Some(Find(content, INTERFACE).value + |INTERFACE|)
  {
    FirstIndexNone(content, '=');
  }

  lemma SpanAt(content: string)
    requires BodyStart(content).Some?
    ensures var start, r := BodyStart(content).value, FindSpan(content[BodyStart(content).value..]);
            && (BodySpan(content).Some? <==> r.Some?)
            && (r.Some? ==> BodySpan(content).value == Braces(start + r.value.open, start + r.value.close))
  {
  }

  /** The braces around the fields do not depend on the lines before the `=` or the
      keywords. */
  lemma SpanBehind(head: string, rest: string)
    requires Marked(head, rest)
    ensures BodySpan(head + rest).Some? <==> BodySpan(rest).Some?
    ensures BodySpan(rest).Some? ==>
              var r := BodySpan(rest).value;
              BodySpan(head + rest).value == Braces(|head| + r.open, |head| + r.close)
  {
    StartBehind(head, rest);
    if BodyStart(rest).Some? {
      TailBehind(head, rest, BodyStart(rest).value);
      SpanAt(rest);
      SpanAt(head + rest);
    }
  }

  lemma FieldsBehind(head: string, rest: string)
    requires Marked(head, rest)
    ensures BodySpan(head + rest).Some? <==> BodySpan(rest).Some?
    ensures BodySpan(rest).Some? ==> FieldsOf(head + rest) == FieldsOf(rest)
  {
    SpanBehind(head, rest);
    if BodySpan(rest).Some? {
      SliceBehind(head, rest, BodySpan(rest).value.open + 1, BodySpan(rest).value.close);
    }
  }

  lemma FilterFieldsBehind(keep: string -> bool, head: string, rest: string)
    requires Marked(head, rest) && BodySpan(rest).Some?
    ensures FilterFields(keep, head + rest) == head + FilterFields(keep, rest)
  {
    SpanBehind(head, rest);
    FieldsBehind(head, rest);
    FieldsText(keep, rest);
    FieldsText(keep, head + rest);
    RebodyBehind(head, rest, BodySpan(rest).value, FieldsKept(keep, FieldsOf(rest)));
  }

  lemma RebodyBehind(head: string, rest: string, r: Braces, body: string)
    requires r.open < r.close < |rest|
    ensures Rebody(head + rest, Braces(|head| + r.open, |head| + r.close), body) == head + Rebody(rest, r, body)
  {
    FrontBehind(head, rest, r.open + 1);
    TailBehind(head, rest, r.close);
  }

  /** What does not occur in a text does not occur once what is between its braces is
      replaced by something without it. */
  lemma RebodyFree(text: string, r: Braces, body: string, p: string)
    requires r.open < r.close < |text| && text[r.open] == '{' && text[r.close] == '}'
    requires Unbroken(p) && !Occurs(text, p) && !Occurs(body, p)
    ensures !Occurs(Rebody(text, r, body), p)
  {
    var before, after := text[..r.open], text[r.close + 1..];
    SliceFree(text, 0, r.open + 1, p);
    SliceFree(text, r.close + 1, |text|, p);
    assert text[0..r.open + 1] == before + ['{'] == text[..r.open + 1];
    assert text[r.close..] == ['}'] + after && text[r.close + 1..|text|] == after;
    FramedFree(before, '{', body, '}', after, p);
  }

  lemma FieldsFree(keep: string -> bool, content: string, p: string)
    requires BodySpan(content).Some? && Unbroken(p) && !Occurs(content, p)
    ensures !Occurs(FilterFields(keep, content), p)
  {
    SliceFree(content, BodySpan(content).value.open + 1, BodySpan(content).value.close, p);
    BodyFree(keep, FieldsOf(content), FIELD_SEPARATOR, FIELD_DELIMITERS, p);
    BraceSpan(content);
    FieldsText(keep, content);
    RebodyFree(content, BodySpan(content).value, FieldsKept(keep, FieldsOf(content)), p);
  }

  /** A span is between braces. */
  lemma BraceSpan(content: string)
    requires BodySpan(content).Some?
    ensures content[BodySpan(content).value.open] == '{' && content[BodySpan(content).value.close] == '}'
  {
    SpanOpens(content[BodyStart(content).value..]);
  }

  lemma ScopeBehind(head: string, rest: string, body: string)
    requires '=' !in head
    ensures Scope(head + rest, body) == Scope(rest, body)
  {
    AliasBehind(head, rest);
  }

  /** A file whose fields are filtered already only loses imports. */
  lemma FilteredFieldsFile(keep: string -> bool, content: string)
    requires FieldsFiltered(keep, content)
    ensures FilterFieldsFile(keep, content) == PruneFor(content, FieldsOf(content))
  {
    FilteredFields(keep, content);
  }

  lemma UsedFields(keep: string -> bool, used: string, rest: string)
    requires Marked(used, rest) && FieldsFiltered(keep, rest)
    ensures FilterFieldsFile(keep, used + rest) == WithoutUnused(used + rest, Scope(rest, FieldsOf(rest)))
  {
    FieldsBehind(used, rest);
    ScopeBehind(used, rest, FieldsOf(rest));
    FilteredFieldsFile(keep, used + rest);
  }

  /** Dropping unused imports leaves filtered fields as they are. */
  lemma FieldsPrunedTwice(keep: string -> bool, content: string, head: seq<string>, rest: string, scope: string)
    requires ImportsFirst(content, head, rest) && Unmarked(head, rest)
    requires FieldsFiltered(keep, rest) && scope == Scope(rest, FieldsOf(rest))
    ensures var pruned := WithoutUnused(content, scope); FilterFieldsFile(keep, pruned) == pruned
  {
    var used := PruneTwice(content, head, rest, scope);
    HeadMarked(used, rest);
    UsedFields(keep, Unlines(used), rest);
  }

  /** The fields of a filtered file are the filtered fields. */
  lemma FieldsOnce(keep: string -> bool, content: string, once: string)
    requires BodySpan(content).Some? && Nested(INITIAL, FieldsOf(content)) && once == FilterFields(keep, content)
    ensures FieldsFiltered(keep, once) && FieldsOf(once) == FieldsKept(keep, FieldsOf(content))
    ensures '=' in content ==> '=' in once
  {
    FieldsFoundAgain(keep, content);
    if '=' in content {
      FirstIndexNone(content, '=');
      var eq := FirstIndex(content, '=');
      assert once[eq] == content[eq];
    }
  }

  lemma FilteredFieldsFirst(keep: string -> bool, content: string, head: seq<string>, rest: string)
    requires ImportsFirst(content, head, rest) && Unmarked(head, rest) && BodySpan(rest).Some?
    ensures ImportsFirst(FilterFields(keep, content), head, FilterFields(keep, rest))
  {
    HeadMarked(head, rest);
    FilterFieldsBehind(keep, Unlines(head), rest);
    ExporterApart();
    FieldsFree(keep, rest, IMPORT);
    FieldsFree(keep, rest, RETURN);
  }

  lemma FieldsAgain(keep: string -> bool, once: string, head: seq<string>, rest: string)
    requires ImportsFirst(once, head, rest) && Unmarked(head, rest) && FieldsFiltered(keep, rest)
    ensures var pruned := PruneFor(once, FieldsOf(rest)); FilterFieldsFile(keep, pruned) == pruned
  {
    ScopeBehind(Unlines(head), rest, FieldsOf(rest));
    FieldsPrunedTwice(keep, once, head, rest, Scope(rest, FieldsOf(rest)));
  }

  /** Filtering the fields of a whole file a second time changes nothing, when its body
      closes no brace it did not open and has no line comment, and its imports come
      before the `=` or the keywords after which the body is looked for. */
  lemma FilterFieldsFileIdempotent(keep: string -> bool, content: string, head: seq<string>, rest: string)
    requires BodySpan(content).Some? ==> Nested(INITIAL, FieldsOf(content))
    requires ImportsFirst(content, head, rest) && Unmarked(head, rest)
    ensures FilterFieldsFile(keep, FilterFieldsFile(keep, content)) == FilterFieldsFile(keep, content)
  {
    HeadMarked(head, rest);
    FieldsBehind(Unlines(head), rest);
    if BodySpan(rest).Some? {
      FieldsOnce(keep, rest, FilterFields(keep, rest));
      FilteredFieldsFirst(keep, content, head, rest);
      FieldsAgain(keep, FilterFields(keep, content), head, FilterFields(keep, rest));
    }
  }
}
