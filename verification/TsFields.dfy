/** Finding the braces around the fields of a generated TypeScript type, and
    removing fields from a file. */
module TsFields {
  import opened Common
  import opened Strings
  import opened TextSearch
  import opened TsScanner

  // ----- text that may stand between braces -----

  predicate Dips(s: Scan, c: char) {
    c == '}' && !InIgnored(s) && s.depth.brace == 0
  }

  /** The text closes no brace that it did not open and enters no line comment. */
  predicate Nested(s: Scan, text: string)
    decreases |text|
  {
    !s.line && (text == "" || (!Dips(s, text[0]) && Nested(Observe(s, text[0]), text[1..])))
  }

  lemma {:induction false} NestedConcat(s: Scan, a: string, b: string)
    ensures Nested(s, a + b) <==> Nested(s, a) && Nested(ScanText(s, a), b)
    decreases |a|
  {
    if a == "" {
      assert a + b == b;
    } else {
      assert (a + b)[1..] == a[1..] + b;
      NestedConcat(Observe(s, a[0]), a[1..], b);
    }
  }

  lemma AlikeNested(s: Scan, t: Scan, text: string)
    requires Alike(s, t)
    ensures Nested(s, text) <==> Nested(t, text)
  {
    if text != "" {
      AlikeObserve(s, t, text[0]);
    }
  }

  lemma {:induction false} NestedLineFree(s: Scan, text: string)
    requires Nested(s, text)
    ensures LineFree(s, text) && !ScanText(s, text).line
    decreases |text|
  {
    if text != "" {
      NestedLineFree(Observe(s, text[0]), text[1..]);
    }
  }

  /** The text reads as a whole of its own. */
  predicate Whole(text: string) {
    Nested(INITIAL, text) && Balanced(text)
  }

  lemma PieceWhole(text: string, delimiters: set<char>)
    requires NoSplit(INITIAL, text, delimiters) && Nested(INITIAL, text) && Trim(text) != ""
    requires TopLevel(ScanText(INITIAL, text)) && !InIgnored(ScanText(INITIAL, text))
    ensures Whole(Trim(text))
  {
    PieceScan(text, delimiters);
    var lead, trail := TrimSplits(text);
    assert text == lead + (Trim(text) + trail);
    FreshSpace(INITIAL, lead);
    NestedConcat(INITIAL, lead, Trim(text) + trail);
    NestedConcat(ScanText(INITIAL, lead), Trim(text), trail);
    AlikeNested(ScanText(INITIAL, lead), INITIAL, Trim(text));
  }

  /** Every part of a whole text is whole. */
  lemma {:induction false} PartsWhole(pending: string, rest: string, delimiters: set<char>)
    requires forall c | c in delimiters :: PlainDelimiter(c)
    requires NoSplit(INITIAL, pending, delimiters) && Nested(INITIAL, pending)
    requires var s := ScanText(INITIAL, pending);
             Nested(s, rest) && TopLevel(ScanText(s, rest)) && !InIgnored(ScanText(s, rest))
    ensures forall p | p in Parts(ScanText(INITIAL, pending), pending, rest, delimiters) :: Whole(p)
    decreases |rest|
  {
    var s := ScanText(INITIAL, pending);
    SaneScan(INITIAL, pending);
    if rest == "" {
      if Trim(pending) != "" {
        PieceWhole(pending, delimiters);
      }
    } else {
      var c := rest[0];
      if SplitsAt(s, c, delimiters) {
        if Trim(pending) != "" {
          PieceWhole(pending, delimiters);
        }
        FreshAfter(s, c);
        PartsAlike(Observe(s, c), INITIAL, "", rest[1..], delimiters);
        AlikeNested(Observe(s, c), INITIAL, rest[1..]);
        AlikeScan(Observe(s, c), INITIAL, rest[1..]);
        PartsWhole("", rest[1..], delimiters);
      } else {
        ScanConcat(INITIAL, pending, [c]);
        NoSplitConcat(INITIAL, pending, [c], delimiters);
        NestedConcat(INITIAL, pending, [c]);
        NestedLineFree(Observe(s, c), rest[1..]);
        PartsWhole(pending + [c], rest[1..], delimiters);
      }
    }
  }

  lemma {:induction false} SpaceNested(s: Scan, space: string)
    requires Sane(s) && !s.line && AllSpace(space)
    ensures Nested(s, space)
    decreases |space|
  {
    if space != "" {
      assert IsWhitespace(space[0]);
      SpaceNested(Observe(s, space[0]), space[1..]);
    }
  }

  /** A separator after a whole part leaves the scanner as it was at the start. */
  lemma SeparatorFresh(part: string, separator: Separator, delimiters: set<char>)
    requires Whole(part) && separator.Valid(delimiters)
    ensures var s := ScanText(INITIAL, part);
            Nested(s, separator.Text()) && Fresh(ScanText(s, separator.Text()))
  {
    var s, d := ScanText(INITIAL, part), separator.delimiter;
    NestedLineFree(INITIAL, part);
    SaneScan(INITIAL, part);
    SpaceKeeps(s, separator.before);
    SpaceNested(s, separator.before);
    SaneScan(s, separator.before);
    var t := ScanText(s, separator.before);
    FreshAfter(t, d);
    var u := Observe(t, d);
    FreshSpace(u, separator.after);
    SpaceNested(u, separator.after);
    assert separator.Text() == separator.before + ([d] + separator.after);
    assert ([d] + separator.after)[1..] == separator.after;
    ScanConcat(s, separator.before, [d] + separator.after);
    NestedConcat(s, separator.before, [d] + separator.after);
  }

  /** Whole parts joined are whole. */
  lemma {:induction false} JoinWhole(parts: seq<string>, separator: Separator, delimiters: set<char>)
    requires separator.Valid(delimiters) && forall p | p in parts :: Whole(p)
    ensures Whole(JoinParts(parts, separator.Text()))
  {
    if |parts| > 1 {
      var rest := JoinParts(parts[1..], separator.Text());
      JoinWhole(parts[1..], separator, delimiters);
      SeparatorFresh(parts[0], separator, delimiters);
      var s := ScanText(INITIAL, parts[0]);
      var t := ScanText(s, separator.Text());
      AlikeNested(t, INITIAL, rest);
      AlikeScan(t, INITIAL, rest);
      assert parts[0] + separator.Text() + rest == parts[0] + (separator.Text() + rest);
      ScanConcat(INITIAL, parts[0], separator.Text() + rest);
      ScanConcat(s, separator.Text(), rest);
      NestedConcat(INITIAL, parts[0], separator.Text() + rest);
      NestedConcat(s, separator.Text(), rest);
    }
  }

  lemma {:induction false} FilterWhole(keep: string -> bool, parts: seq<string>)
    requires forall p | p in parts :: Whole(p)
    ensures forall p | p in Filter(keep, parts) :: Whole(p)
  {
    if parts != [] {
      FilterWhole(keep, parts[1..]);
    }
  }

  /** Filtering a whole body gives a whole body. */
  lemma FilterBodyWhole(keep: string -> bool, body: string)
    requires Whole(body)
    ensures Whole(FilterBody(keep, body, FIELD_SEPARATOR, FIELD_DELIMITERS))
  {
    ExporterSeparators();
    NestedLineFree(INITIAL, body);
    PartsWhole("", body, FIELD_DELIMITERS);
    FilterWhole(keep, SplitTopLevel(body, FIELD_DELIMITERS));
    JoinWhole(Filter(keep, SplitTopLevel(body, FIELD_DELIMITERS)), FIELD_SEPARATOR, FIELD_DELIMITERS);
  }

  // ----- the brace span -----

  predicate Opens(s: Scan, c: char) {
    !InIgnored(s) && c == '{' && TopLevel(s)
  }

  predicate Closes(after: Scan, c: char) {
    !InIgnored(after) && c == '}' && TopLevel(after)
  }

  datatype Braces = Braces(open: nat, close: nat)

  /** The span found in `rest`, which starts at `at`, when the last brace opened at
      top level is `open`. */
  function Span(s: Scan, open: Option<nat>, at: nat, rest: string): Option<Braces>
    decreases |rest|
  {
    if rest == "" then None
    else
      var begun := if Opens(s, rest[0]) then Some(at) else open;
      var t := Observe(s, rest[0]);
      if Closes(t, rest[0]) && begun.Some? then Some(Braces(begun.value, at))
      else Span(t, begun, at + 1, rest[1..])
  }

  function FindSpan(text: string): (r: Option<Braces>)
    ensures r.Some? ==> r.value.open < r.value.close < |text|
  {
    var r := Span(INITIAL, None, 0, text);
    if r.None? then None else SpanOpens(text); r
  }

  method FindTopLevelBraceSpan(input: string) returns (r: Option<Braces>)
    ensures r == FindSpan(input)
  {
    var state := new ScanState();
    var openIndex: Option<nat> := None;
    assert input[0..] == input;
    for i := 0 to |input|
      invariant Span(state.View(), openIndex, i, input[i..]) == FindSpan(input)
    {
      var c := input[i];
      assert input[i..][1..] == input[i + 1..];
      if Opens(state.View(), c) {
        openIndex := Some(i);
      }
      state.ObserveChar(c);
      if Closes(state.View(), c) && openIndex.Some? {
        return Some(Braces(openIndex.value, i));
      }
    }
    return None;
  }

  /** Reading the text ends no span. */
  predicate Quiet(s: Scan, open: Option<nat>, at: nat, text: string)
    decreases |text|
  {
    text == "" ||
    var begun := if Opens(s, text[0]) then Some(at) else open;
    var t := Observe(s, text[0]);
    !(Closes(t, text[0]) && begun.Some?) && Quiet(t, begun, at + 1, text[1..])
  }

  function OpenAfter(s: Scan, open: Option<nat>, at: nat, text: string): Option<nat>
    decreases |text|
  {
    if text == "" then open
    else OpenAfter(Observe(s, text[0]), if Opens(s, text[0]) then Some(at) else open, at + 1, text[1..])
  }

  lemma {:induction false} SpanConcat(s: Scan, open: Option<nat>, at: nat, a: string, b: string)
    requires Quiet(s, open, at, a)
    ensures Span(s, open, at, a + b) == Span(ScanText(s, a), OpenAfter(s, open, at, a), at + |a|, b)
    decreases |a|
  {
    if a == "" {
      assert a + b == b;
    } else {
      assert (a + b)[1..] == a[1..] + b;
      SpanConcat(Observe(s, a[0]), if Opens(s, a[0]) then Some(at) else open, at + 1, a[1..], b);
    }
  }

  /** A span closes at a brace that brings the scanner back to the top level and
      starts at the last brace that was opened there. */
  lemma {:induction false} SpanMeans(s: Scan, open: Option<nat>, at: nat, rest: string)
    requires Span(s, open, at, rest).Some?
    ensures var r := Span(s, open, at, rest).value;
            && at <= r.close < at + |rest| && rest[r.close - at] == '}'
            && Closes(ScanText(s, rest[..r.close - at + 1]), '}')
            && Quiet(s, open, at, rest[..r.close - at])
            && OpenAfter(s, open, at, rest[..r.close - at]) == Some(r.open)
    decreases |rest|
  {
    var begun := if Opens(s, rest[0]) then Some(at) else open;
    var t := Observe(s, rest[0]);
    if Closes(t, rest[0]) && begun.Some? {
      assert rest[..1] == [rest[0]];
      assert ScanText(t, "") == t;
    } else {
      SpanMeans(t, begun, at + 1, rest[1..]);
      var n := Span(s, open, at, rest).value.close - at;
      assert rest[..n + 1][1..] == rest[1..][..n];
      assert rest[..n][1..] == rest[1..][..n - 1];
    }
  }

  /** Where the last brace was opened: inside the text at top level, or before it. */
  lemma {:induction false} OpenMeans(s: Scan, open: Option<nat>, at: nat, text: string)
    requires OpenAfter(s, open, at, text).Some?
    ensures var o := OpenAfter(s, open, at, text).value;
            || open == Some(o)
            || (at <= o < at + |text| && Opens(ScanText(s, text[..o - at]), text[o - at]))
    decreases |text|
  {
    if text != "" {
      var begun := if Opens(s, text[0]) then Some(at) else open;
      OpenMeans(Observe(s, text[0]), begun, at + 1, text[1..]);
      var o := OpenAfter(s, open, at, text).value;
      if o > at && o < at + |text| {
        assert text[..o - at][1..] == text[1..][..o - at - 1];
      }
      assert text[..0] == "";
    }
  }

  lemma {:induction false} QuietPrefix(s: Scan, open: Option<nat>, at: nat, a: string, b: string)
    requires Quiet(s, open, at, a + b)
    ensures Quiet(s, open, at, a)
    decreases |a|
  {
    if a != "" {
      assert (a + b)[1..] == a[1..] + b;
      QuietPrefix(Observe(s, a[0]), if Opens(s, a[0]) then Some(at) else open, at + 1, a[1..], b);
    }
  }

  function Shift(s: Scan): Scan {
    s.(depth := s.depth.(brace := s.depth.brace + 1))
  }

  lemma ShiftObserve(s: Scan, c: char)
    requires !Dips(s, c)
    ensures Observe(Shift(s), c) == Shift(Observe(s, c))
  {
  }

  /** Inside one more brace, nested text is read the same. */
  lemma {:induction false} ShiftScan(s: Scan, text: string)
    requires Nested(s, text)
    ensures ScanText(Shift(s), text) == Shift(ScanText(s, text))
    decreases |text|
  {
    if text != "" {
      ShiftObserve(s, text[0]);
      ShiftScan(Observe(s, text[0]), text[1..]);
    }
  }

  lemma LastOpened(s: Scan, text: string)
    requires Quiet(s, None, 0, text) && OpenAfter(s, None, 0, text).Some?
    ensures var o := OpenAfter(s, None, 0, text).value;
            o < |text| && text[o] == '{' && Quiet(s, None, 0, text[..o]) && Opens(ScanText(s, text[..o]), '{')
  {
    OpenMeans(s, None, 0, text);
    var o := OpenAfter(s, None, 0, text).value;
    assert text == text[..o] + text[o..];
    QuietPrefix(s, None, 0, text[..o], text[o..]);
  }

  /** What a found span says about the scanner at its braces. */
  lemma SpanOpensFrom(s: Scan, text: string)
    requires Span(s, None, 0, text).Some?
    ensures var r := Span(s, None, 0, text).value;
            && r.open < r.close < |text| && text[r.open] == '{' && text[r.close] == '}'
            && Quiet(s, None, 0, text[..r.open])
            && Opens(ScanText(s, text[..r.open]), '{')
            && Closes(ScanText(s, text[..r.close + 1]), '}')
  {
    var r := Span(s, None, 0, text).value;
    SpanMeans(s, None, 0, text);
    LastOpened(s, text[..r.close]);
    assert text[..r.close][..r.open] == text[..r.open];
  }

  lemma SpanOpens(text: string)
    requires Span(INITIAL, None, 0, text).Some?
    ensures var r := Span(INITIAL, None, 0, text).value;
            && r.open < r.close < |text| && text[r.open] == '{' && text[r.close] == '}'
            && Quiet(INITIAL, None, 0, text[..r.open])
            && Opens(ScanText(INITIAL, text[..r.open]), '{')
            && Closes(ScanText(INITIAL, text[..r.close + 1]), '}')
  {
    SpanOpensFrom(INITIAL, text);
  }

  /** The scanner state just inside the opening brace. */
  lemma InsideBrace(before: string) returns (inside: Scan)
    requires Opens(ScanText(INITIAL, before), '{')
    ensures Fresh(inside) && Observe(ScanText(INITIAL, before), '{') == Shift(inside)
  {
    var s := ScanText(INITIAL, before);
    SaneScan(INITIAL, before);
    inside := s.(previous := Some('{'));
  }

  lemma InsideWhole(inside: Scan, inner: string)
    requires Fresh(inside) && Whole(inner)
    ensures Nested(inside, inner) && TopLevel(ScanText(inside, inner)) && !InIgnored(ScanText(inside, inner))
  {
    AlikeNested(inside, INITIAL, inner);
    AlikeScan(inside, INITIAL, inner);
    NestedLineFree(inside, inner);
  }

  /** Inside one more brace, nested text that ends at the top level and a closing
      brace end the span. */
  lemma {:induction false} SpanToEnd(s: Scan, open: nat, at: nat, inner: string, rest: string)
    requires Nested(s, inner) && TopLevel(ScanText(s, inner)) && !InIgnored(ScanText(s, inner))
    requires rest != "" && rest[0] == '}'
    ensures Span(Shift(s), Some(open), at, inner + rest) == Some(Braces(open, at + |inner|))
    decreases |inner|
  {
    if inner == "" {
      assert inner + rest == rest;
    } else {
      assert (inner + rest)[1..] == inner[1..] + rest;
      ShiftObserve(s, inner[0]);
      SpanToEnd(Observe(s, inner[0]), open, at + 1, inner[1..], rest);
    }
  }

  /** Replacing what is between the braces by whole text moves only the closing one. */
  lemma SpanReplaced(text: string, inner: string)
    requires FindSpan(text).Some? && Whole(inner)
    ensures var r := FindSpan(text).value;
            FindSpan(text[..r.open + 1] + inner + text[r.close..]) == Some(Braces(r.open, r.open + 1 + |inner|))
  {
    var r := FindSpan(text).value;
    SpanOpens(text);
    var before, tail := text[..r.open], inner + text[r.close..];
    var inside := InsideBrace(before);
    assert text[..r.open + 1] + inner + text[r.close..] == before + ("{" + tail);
    SpanConcat(INITIAL, None, 0, before, "{" + tail);
    assert ("{" + tail)[1..] == tail;
    InsideWhole(inside, inner);
    SpanToEnd(inside, r.open, r.open + 1, inner, text[r.close..]);
  }

  /** Nested text that a closing brace takes back to the top level is whole. */
  lemma ClosedWhole(inside: Scan, inner: string)
    requires Fresh(inside) && Nested(INITIAL, inner) && Closes(Observe(ScanText(Shift(inside), inner), '}'), '}')
    ensures Whole(inner)
  {
    AlikeNested(inside, INITIAL, inner);
    AlikeScan(inside, INITIAL, inner);
    NestedLineFree(inside, inner);
    ShiftScan(inside, inner);
  }

  lemma ScanBraces(before: string, inner: string)
    ensures ScanText(INITIAL, before + ("{" + inner + "}")) ==
            Observe(ScanText(Observe(ScanText(INITIAL, before), '{'), inner), '}')
  {
    var s := ScanText(INITIAL, before);
    ScanConcat(INITIAL, before, "{" + inner + "}");
    ScanConcat(s, "{" + inner, "}");
    assert ("{" + inner)[1..] == inner;
    var last := ScanText(s, "{" + inner);
    assert ScanText(last, "}") == Observe(last, '}');
  }

  /** Nested text between the braces of a span is whole. */
  lemma SpanWhole(text: string)
    requires FindSpan(text).Some?
    requires var r := FindSpan(text).value; Nested(INITIAL, text[r.open + 1..r.close])
    ensures var r := FindSpan(text).value; Whole(text[r.open + 1..r.close])
  {
    var r := FindSpan(text).value;
    SpanOpens(text);
    var before, inner := text[..r.open], text[r.open + 1..r.close];
    var inside := InsideBrace(before);
    assert text[..r.close + 1] == before + ("{" + inner + "}");
    ScanBraces(before, inner);
    ClosedWhole(inside, inner);
  }

  // ----- a whole file -----

  const INTERFACE := "export interface"

  /** Where the search for the body starts: after the `=`, or after the keywords. */
  function BodyStart(content: string): (n: Option<nat>)
    ensures n.Some? ==> n.value <= |content|
  {
    var eq := FirstIndex(content, '=');
    if eq < |content| then Some(eq + 1)
    else
      var at := Find(content, INTERFACE);
      if at.Some? then Some(at.value + |INTERFACE|) else None
  }

  function BodySpan(content: string): (r: Option<Braces>)
    ensures r.Some? ==> BodyStart(content).Some? && BodyStart(content).value <= r.value.open < r.value.close < |content|
  {
    var start := BodyStart(content);
    if start.None? then None
    else
      var r := FindSpan(content[start.value..]);
      if r.None? then None else Some(Braces(start.value + r.value.open, start.value + r.value.close))
  }

  /** The text with what is between the braces replaced. */
  function Rebody(text: string, r: Braces, inner: string): string
    requires r.open < r.close < |text|
  {
    text[..r.open + 1] + inner + text[r.close..]
  }

  /** The file with the fields that `keep` refuses removed, before imports are pruned. */
  function FilterFields(keep: string -> bool, content: string): string {
    var span := BodySpan(content);
    if span.None? then content
    else Rebody(content, span.value,
        FilterBody(keep, content[span.value.open + 1..span.value.close], FIELD_SEPARATOR, FIELD_DELIMITERS))
  }

  lemma {:induction false} PartsChars(s: Scan, pending: string, rest: string, delimiters: set<char>, c: char)
    requires c !in pending && c !in rest
    ensures forall p | p in Parts(s, pending, rest, delimiters) :: c !in p
    decreases |rest|
  {
    var lead, trail := TrimSplits(pending);
    assert c !in Trim(pending);
    if rest != "" {
      assert rest[0] != c;
      PartsChars(Observe(s, rest[0]), if SplitsAt(s, rest[0], delimiters) then "" else pending + [rest[0]], rest[1..],
          delimiters, c);
    }
  }

  lemma {:induction false} FilterChars(keep: string -> bool, parts: seq<string>, separator: string, c: char)
    requires c !in separator && forall p | p in parts :: c !in p
    ensures c !in JoinParts(Filter(keep, parts), separator)
  {
    if parts != [] {
      FilterChars(keep, parts[1..], separator, c);
      var kept := Filter(keep, parts[1..]);
      assert keep(parts[0]) ==> Filter(keep, parts)[1..] == kept;
      assert !keep(parts[0]) ==> Filter(keep, parts) == kept;
    }
  }

  lemma FirstIndexAgain(s: string, t: string, c: char, n: nat)
    requires n <= |s| && n <= |t| && s[..n] == t[..n] && FirstIndex(s, c) < n
    ensures FirstIndex(t, c) == FirstIndex(s, c)
  {
    var i := FirstIndex(s, c);
    assert t[..i] == t[..n][..i] == s[..n][..i] == s[..i];
    assert t[i] == t[..n][i] == s[..n][i];
    FirstIndexIs(t, c, i);
  }

  lemma FirstIndexNone(s: string, c: char)
    ensures FirstIndex(s, c) == |s| <==> c !in s
  {
    assert s[..|s|] == s;
  }

  lemma BodyStartDetermined(s: string, t: string, n: nat)
    requires n <= |s| && n <= |t| && s[..n] == t[..n] && ('=' !in s ==> '=' !in t)
    requires BodyStart(s).Some? && BodyStart(s).value <= n
    ensures BodyStart(t) == BodyStart(s)
  {
    FirstIndexNone(s, '=');
    FirstIndexNone(t, '=');
    if '=' in s {
      FirstIndexAgain(s, t, '=', n);
    } else {
      FindAgain(s, t, INTERFACE, n);
    }
  }

  /** Putting another body between the braces leaves the place where the search for
      them starts, unless it brings the first `=`. */
  lemma BodyStartKept(content: string, body: string)
    requires BodySpan(content).Some? && ('=' !in content ==> '=' !in body)
    ensures BodyStart(Rebody(content, BodySpan(content).value, body)) == BodyStart(content)
  {
    var r := BodySpan(content).value;
    var after := Rebody(content, r, body);
    assert after[..r.open + 1] == content[..r.open + 1];
    assert '=' in after ==> '=' in content || '=' in body;
    BodyStartDetermined(content, after, r.open + 1);
  }

  /** Putting a whole body between the braces moves only the closing one. */
  lemma BodySpanKept(content: string, body: string)
    requires BodySpan(content).Some? && Whole(body) && ('=' !in content ==> '=' !in body)
    ensures var r := BodySpan(content).value;
            BodySpan(Rebody(content, r, body)) == Some(Braces(r.open, r.open + 1 + |body|))
  {
    var r, start := BodySpan(content).value, BodyStart(content).value;
    BodyStartKept(content, body);
    SpanReplaced(content[start..], body);
    RebodySuffix(content, r, body, start);
  }

  lemma RebodySuffix(text: string, r: Braces, inner: string, start: nat)
    requires start <= r.open < r.close < |text|
    ensures Rebody(text, r, inner)[start..] ==
            text[start..][..r.open - start + 1] + inner + text[start..][r.close - start..]
  {
  }

  lemma BodyHasNoEquals(keep: string -> bool, content: string, inner: string)
    requires forall c | c in inner :: c in content
    ensures '=' !in content ==> '=' !in FilterBody(keep, inner, FIELD_SEPARATOR, FIELD_DELIMITERS)
  {
    if '=' !in content {
      PartsChars(INITIAL, "", inner, FIELD_DELIMITERS, '=');
      FilterChars(keep, SplitTopLevel(inner, FIELD_DELIMITERS), FIELD_SEPARATOR.Text(), '=');
    }
  }

  lemma BodyWhole(content: string)
    requires BodySpan(content).Some?
    requires var r := BodySpan(content).value; Nested(INITIAL, content[r.open + 1..r.close])
    ensures var r := BodySpan(content).value; Whole(content[r.open + 1..r.close])
  {
    var r, start := BodySpan(content).value, BodyStart(content).value;
    assert content[r.open + 1..r.close] == content[start..][r.open - start + 1..r.close - start];
    SpanWhole(content[start..]);
  }

  lemma RebodyTwice(text: string, r: Braces, inner: string)
    requires r.open < r.close < |text|
    ensures var once, moved := Rebody(text, r, inner), Braces(r.open, r.open + 1 + |inner|);
            moved.close < |once| && once[moved.open + 1..moved.close] == inner && Rebody(once, moved, inner) == once
  {
  }

  function FieldsOf(content: string): string
    requires BodySpan(content).Some?
  {
    content[BodySpan(content).value.open + 1..BodySpan(content).value.close]
  }

  function FieldsKept(keep: string -> bool, body: string): string {
    FilterBody(keep, body, FIELD_SEPARATOR, FIELD_DELIMITERS)
  }

  /** The filtered file between its braces. */
  lemma FieldsText(keep: string -> bool, content: string)
    requires BodySpan(content).Some?
    ensures FilterFields(keep, content) ==
            Rebody(content, BodySpan(content).value, FieldsKept(keep, FieldsOf(content)))
  {
  }

  /** Replacing the fields by what is already there changes nothing. */
  lemma RebodySame(text: string, r: Braces)
    requires r.open < r.close < |text|
    ensures Rebody(text, r, text[r.open + 1..r.close]) == text
  {
  }

  predicate FieldsFiltered(keep: string -> bool, content: string) {
    BodySpan(content).Some? && FieldsKept(keep, FieldsOf(content)) == FieldsOf(content)
  }

  lemma FieldsTwice(keep: string -> bool, inner: string)
    requires Nested(INITIAL, inner)
    ensures FieldsKept(keep, FieldsKept(keep, inner)) == FieldsKept(keep, inner)
  {
    ExporterSeparators();
    NestedLineFree(INITIAL, inner);
    FilterIdempotent(keep, inner, FIELD_SEPARATOR, FIELD_DELIMITERS);
  }

  /** Whole fields put between the braces are found there. */
  lemma RebodyFound(content: string, body: string)
    requires BodySpan(content).Some? && Whole(body) && ('=' !in content ==> '=' !in body)
    ensures var once := Rebody(content, BodySpan(content).value, body);
            BodySpan(once).Some? && FieldsOf(once) == body
  {
    BodySpanKept(content, body);
    RebodyTwice(content, BodySpan(content).value, body);
  }

  lemma KeptWhole(keep: string -> bool, content: string)
    requires BodySpan(content).Some? && Nested(INITIAL, FieldsOf(content))
    ensures var body := FieldsKept(keep, FieldsOf(content)); Whole(body) && ('=' !in content ==> '=' !in body)
  {
    BodyWhole(content);
    FilterBodyWhole(keep, FieldsOf(content));
    BodyHasNoEquals(keep, content, FieldsOf(content));
  }

  /** The filtered fields are found again where they were written. */
  lemma FieldsFoundAgain(keep: string -> bool, content: string)
    requires BodySpan(content).Some? && Nested(INITIAL, FieldsOf(content))
    ensures var once := FilterFields(keep, content);
            FieldsFiltered(keep, once) && FieldsOf(once) == FieldsKept(keep, FieldsOf(content))
  {
    KeptWhole(keep, content);
    FieldsText(keep, content);
    RebodyFound(content, FieldsKept(keep, FieldsOf(content)));
    FieldsTwice(keep, FieldsOf(content));
  }

  lemma FilteredFields(keep: string -> bool, content: string)
    requires FieldsFiltered(keep, content)
    ensures FilterFields(keep, content) == content
  {
    FieldsText(keep, content);
    RebodySame(content, BodySpan(content).value);
  }

  /** Removing fields a second time changes nothing, when the body neither closes a
      brace it did not open nor enters a line comment. */
  lemma FilterFieldsIdempotent(keep: string -> bool, content: string)
    requires BodySpan(content).Some? ==> Nested(INITIAL, FieldsOf(content))
    ensures FilterFields(keep, FilterFields(keep, content)) == FilterFields(keep, content)
  {
    if BodySpan(content).Some? {
      FieldsFoundAgain(keep, content);
      FilteredFields(keep, FilterFields(keep, content));
    }
  }
}
