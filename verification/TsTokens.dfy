/** What the scanner makes of TypeScript that is written as tokens: plain characters,
    comments, string literals and bracketed groups. */
module TsTokens {
  import opened Common
  import opened Strings
  import opened TextSearch
  import opened TsScanner
  import opened TsFields

  datatype Pair = Curly | Square | Round | Angle

  function OpenOf(pair: Pair): char {
    match pair
    case Curly => '{'
    case Square => '['
    case Round => '('
    case Angle => '<'
  }

  function CloseOf(pair: Pair): char {
    match pair
    case Curly => '}'
    case Square => ']'
    case Round => ')'
    case Angle => '>'
  }

  datatype Token =
    | Plain(c: char)
    | Block(text: string)
    | Line(text: string)
    | Quote(quote: char, text: string)
    | Group(pair: Pair, inner: seq<Token>)

  function TextOf(token: Token): (text: string)
    ensures text != ""
    decreases token
  {
    match token
    case Plain(c) => [c]
    case Block(text) => "/*" + text + "*/"
    case Line(text) => "//" + text + "\n"
    case Quote(quote, text) => [quote] + text + [quote]
    case Group(pair, inner) => [OpenOf(pair)] + TextOfAll(inner) + [CloseOf(pair)]
  }

  function TextOfAll(tokens: seq<Token>): string
    decreases tokens
  {
    if tokens == [] then "" else TextOf(tokens[0]) + TextOfAll(tokens[1..])
  }

  // ----- well-formed tokens -----

  /** Every quote in the text is escaped, and so is every backslash. */
  predicate Closed(text: string, quote: char)
    decreases |text|
  {
    text == "" ||
    if text[0] == '\\' then |text| >= 2 && Closed(text[2..], quote) else text[0] != quote && Closed(text[1..], quote)
  }

  /** A slash is not followed by what would make a comment of it. */
  predicate Clear(previous: Option<char>, text: string) {
    previous == Some('/') && text != "" ==> text[0] != '/' && text[0] != '*'
  }

  predicate Proper(token: Token)
    decreases token
  {
    match token
    case Plain(c) => c !in "{}[]()<>\"'"
    case Block(text) => !Occurs("*" + text, "*/")
    case Line(text) => '\n' !in text
    case Quote(quote, text) => (quote == '"' || quote == '\'') && Closed(text, quote)
    case Group(_, inner) => AllProper(inner)
  }

  /** The tokens are proper and no slash runs into the next one. */
  predicate AllProper(tokens: seq<Token>)
    decreases tokens
  {
    tokens != [] ==>
      && Proper(tokens[0]) && AllProper(tokens[1..])
      && (tokens[0] == Plain('/') ==> Clear(Some('/'), TextOfAll(tokens[1..])))
  }

  /** No group of braces stands on its own. */
  predicate NoBraces(tokens: seq<Token>) {
    forall i | 0 <= i < |tokens| :: !(tokens[i].Group? && tokens[i].pair.Curly?)
  }

  // ----- what the scanner makes of them -----

  /** Outside strings and comments. */
  predicate Calm(s: Scan) {
    !InIgnored(s) && !s.escape
  }

  lemma {:induction false} NoSplitConcat(s: Scan, a: string, b: string, delimiters: set<char>)
    ensures NoSplit(s, a + b, delimiters) <==>
            NoSplit(s, a, delimiters) && NoSplit(ScanText(s, a), b, delimiters)
    decreases |a|
  {
    if a == "" {
      assert a + b == b;
    } else {
      assert (a + b)[1..] == a[1..] + b;
      NoSplitConcat(Observe(s, a[0]), a[1..], b, delimiters);
    }
  }

  /** No brace in the text opens or closes anything at top level. */
  predicate Still(s: Scan, text: string)
    decreases |text|
  {
    text == "" ||
    (!Opens(s, text[0]) && !Closes(Observe(s, text[0]), text[0]) && Still(Observe(s, text[0]), text[1..]))
  }

  lemma {:induction false} StillConcat(s: Scan, a: string, b: string)
    ensures Still(s, a + b) <==> Still(s, a) && Still(ScanText(s, a), b)
    decreases |a|
  {
    if a == "" {
      assert a + b == b;
    } else {
      assert (a + b)[1..] == a[1..] + b;
      StillConcat(Observe(s, a[0]), a[1..], b);
    }
  }

  lemma {:induction false} StillQuiet(s: Scan, open: Option<nat>, at: nat, text: string)
    requires Still(s, text)
    ensures Quiet(s, open, at, text) && OpenAfter(s, open, at, text) == open
    decreases |text|
  {
    if text != "" {
      StillQuiet(Observe(s, text[0]), open, at + 1, text[1..]);
    }
  }

  lemma ReadOne(s: Scan, c: char, delimiters: set<char>)
    ensures Still(s, [c]) <==> !Opens(s, c) && !Closes(Observe(s, c), c)
    ensures ScanText(s, [c]) == Observe(s, c)
    ensures NoSplit(s, [c], delimiters) <==> !SplitsAt(s, c, delimiters)
  {
    assert [c][1..] == "";
  }

  // Inside a block comment the first star and slash end it.
  lemma {:induction false} ReadBlock(s: Scan, text: string, delimiters: set<char>)
    requires s.block && !s.line && s.previous.Some? && !Occurs([s.previous.value] + text, "*/")
    ensures NoSplit(s, text + "*/", delimiters) && Still(s, text + "*/")
    ensures ScanText(s, text + "*/") == s.(block := false, previous := None)
    decreases |text|
  {
    if text == "" {
      assert text + "*/" == "*/" && "*/"[1..] == "/" && "/"[1..] == "";
      ReadOne(Observe(s, '*'), '/', delimiters);
    } else {
      var rest := text[1..] + "*/";
      assert (text + "*/")[1..] == rest && (text + "*/")[0] == text[0];
      NotClosed(s.previous.value, text);
      ReadBlock(Observe(s, text[0]), text[1..], delimiters);
    }
  }

  lemma NotClosed(previous: char, text: string)
    requires text != "" && !Occurs([previous] + text, "*/")
    ensures !(previous == '*' && text[0] == '/') && !Occurs([text[0]] + text[1..], "*/")
  {
    var all := [previous] + text;
    SliceFree(all, 1, |all|, "*/");
    assert all[1..|all|] == [text[0]] + text[1..];
    if previous == '*' && text[0] == '/' {
      StarSlash(all);
    }
  }

  lemma StarSlash(text: string)
    requires |text| >= 2 && text[0] == '*' && text[1] == '/'
    ensures Occurs(text, "*/")
  {
    assert text[..2] == "*/";
    AtStart(text, "*/");
  }

  lemma {:induction false} ReadLine(s: Scan, text: string, delimiters: set<char>)
    requires s.line && '\n' !in text
    ensures NoSplit(s, text + "\n", delimiters) && Still(s, text + "\n")
    ensures ScanText(s, text + "\n") == s.(line := false, previous := Some('\n'))
    decreases |text|
  {
    if text == "" {
      assert text + "\n" == ['\n'];
      ReadOne(s, '\n', delimiters);
    } else {
      assert (text + "\n")[1..] == text[1..] + "\n" && (text + "\n")[0] == text[0] && text[0] in text;
      ReadLine(Observe(s, text[0]), text[1..], delimiters);
    }
  }

  lemma {:induction false} ReadQuote(s: Scan, text: string, quote: char, delimiters: set<char>)
    requires s.delim == Some(quote) && !s.line && !s.block && !s.escape && Closed(text, quote)
    requires quote == '"' || quote == '\''
    ensures NoSplit(s, text + [quote], delimiters) && Still(s, text + [quote])
    ensures ScanText(s, text + [quote]) == s.(delim := None, previous := Some(quote))
    decreases |text|
  {
    var all := text + [quote];
    if text == "" {
      assert all == [quote];
      ReadOne(s, quote, delimiters);
    } else if text[0] == '\\' {
      var t := Observe(s, text[0]);
      assert all[1..][0] == text[1] && all[1..][1..] == text[2..] + [quote];
      ReadQuote(Observe(t, text[1]), text[2..], quote, delimiters);
    } else {
      assert all[1..] == text[1..] + [quote];
      ReadQuote(Observe(s, text[0]), text[1..], quote, delimiters);
    }
  }

  /** Two characters and the rest. */
  lemma ReadTwo(s: Scan, a: char, b: char, rest: string, delimiters: set<char>)
    ensures ScanText(s, [a, b] + rest) == ScanText(Observe(Observe(s, a), b), rest)
    ensures a != '{' && a != '}' && b != '{' && b != '}' ==>
              (Still(s, [a, b] + rest) <==> Still(Observe(Observe(s, a), b), rest))
    ensures !SplitsAt(s, a, delimiters) && !SplitsAt(Observe(s, a), b, delimiters) ==>
              (NoSplit(s, [a, b] + rest, delimiters) <==> NoSplit(Observe(Observe(s, a), b), rest, delimiters))
  {
    assert ([a, b] + rest)[1..] == [b] + rest && ([b] + rest)[1..] == rest;
  }

  lemma ReadFirst(s: Scan, a: char, rest: string, delimiters: set<char>)
    ensures ScanText(s, [a] + rest) == ScanText(Observe(s, a), rest)
    ensures !Opens(s, a) && !Closes(Observe(s, a), a) ==> (Still(s, [a] + rest) <==> Still(Observe(s, a), rest))
    ensures !SplitsAt(s, a, delimiters) ==>
              (NoSplit(s, [a] + rest, delimiters) <==> NoSplit(Observe(s, a), rest, delimiters))
  {
    assert ([a] + rest)[1..] == rest;
  }

  predicate PlainDelimiters(delimiters: set<char>) {
    forall c | c in delimiters :: PlainDelimiter(c)
  }

  /** A block comment has no split point, and leaves the scanner as it was. */
  lemma BlockIgnored(s: Scan, text: string, delimiters: set<char>)
    requires Calm(s) && s.previous != Some('/') && PlainDelimiters(delimiters) && Proper(Block(text))
    ensures NoSplit(s, TextOf(Block(text)), delimiters) && Still(s, TextOf(Block(text)))
    ensures ScanText(s, TextOf(Block(text))) == s.(previous := None)
  {
    assert TextOf(Block(text)) == ['/', '*'] + (text + "*/");
    ReadTwo(s, '/', '*', text + "*/", delimiters);
    var t := Observe(Observe(s, '/'), '*');
    assert ['*'] + text == "*" + text;
    ReadBlock(t, text, delimiters);
  }

  /** So has a line comment. */
  lemma LineIgnored(s: Scan, text: string, delimiters: set<char>)
    requires Calm(s) && s.previous != Some('/') && PlainDelimiters(delimiters) && '\n' !in text
    ensures NoSplit(s, TextOf(Line(text)), delimiters) && Still(s, TextOf(Line(text)))
    ensures ScanText(s, TextOf(Line(text))) == s.(previous := Some('\n'))
  {
    assert TextOf(Line(text)) == ['/', '/'] + (text + "\n");
    ReadTwo(s, '/', '/', text + "\n", delimiters);
    ReadLine(Observe(Observe(s, '/'), '/'), text, delimiters);
  }

  /** So has a string literal. */
  lemma QuoteIgnored(s: Scan, quote: char, text: string, delimiters: set<char>)
    requires Calm(s) && PlainDelimiters(delimiters) && Proper(Quote(quote, text))
    ensures NoSplit(s, TextOf(Quote(quote, text)), delimiters) && Still(s, TextOf(Quote(quote, text)))
    ensures ScanText(s, TextOf(Quote(quote, text))) == s.(previous := Some(quote))
  {
    assert TextOf(Quote(quote, text)) == [quote] + (text + [quote]);
    ReadFirst(s, quote, text + [quote], delimiters);
    ReadQuote(Observe(s, quote), text, quote, delimiters);
  }

  /** A token leaves the scanner at the depth it was, and only a delimiter at top level
      is a split point. */
  lemma {:induction false} ReadToken(s: Scan, token: Token, delimiters: set<char>)
    requires Calm(s) && Proper(token) && PlainDelimiters(delimiters) && Clear(s.previous, TextOf(token))
    ensures var t := ScanText(s, TextOf(token));
            Calm(t) && t.depth == s.depth && (t.previous == Some('/') <==> token == Plain('/'))
    ensures !(token.Plain? && token.c in delimiters && TopLevel(s)) ==> NoSplit(s, TextOf(token), delimiters)
    ensures !(token.Group? && token.pair.Curly? && TopLevel(s)) ==> Still(s, TextOf(token))
    decreases token, 1
  {
    match token
    case Plain(c) => ReadOne(s, c, delimiters);
    case Block(text) =>
      assert TextOf(token)[0] == '/';
      BlockIgnored(s, text, delimiters);
    case Line(text) =>
      assert TextOf(token)[0] == '/';
      LineIgnored(s, text, delimiters);
    case Quote(quote, text) => QuoteIgnored(s, quote, text, delimiters);
    case Group(pair, inner) => ReadGroup(s, pair, inner, delimiters);
  }

  /** What is between brackets of any kind has no split point. */
  lemma {:induction false} ReadGroup(s: Scan, pair: Pair, inner: seq<Token>, delimiters: set<char>)
    requires Calm(s) && AllProper(inner) && PlainDelimiters(delimiters)
    ensures var t := ScanText(s, TextOf(Group(pair, inner)));
            Calm(t) && t.depth == s.depth && t.previous == Some(CloseOf(pair))
    ensures NoSplit(s, TextOf(Group(pair, inner)), delimiters)
    ensures Still(Observe(s, OpenOf(pair)), TextOfAll(inner))
    ensures !(pair.Curly? && TopLevel(s)) ==> Still(s, TextOf(Group(pair, inner)))
    decreases inner, 1
  {
    var a, b, text := OpenOf(pair), CloseOf(pair), TextOfAll(inner);
    var inside := Observe(s, a);
    GroupDepth(s, inside, pair);
    GroupText(pair, inner);
    ReadFirst(s, a, text + [b], delimiters);
    ReadTokens(inside, inner, delimiters);
    ReadLast(inside, text, b, delimiters);
    GroupDepth(s, ScanText(inside, text), pair);
  }

  lemma GroupText(pair: Pair, inner: seq<Token>)
    ensures TextOf(Group(pair, inner)) == [OpenOf(pair)] + (TextOfAll(inner) + [CloseOf(pair)])
  {
  }

  lemma ReadLast(s: Scan, text: string, c: char, delimiters: set<char>)
    ensures ScanText(s, text + [c]) == Observe(ScanText(s, text), c)
    ensures NoSplit(s, text + [c], delimiters) <==>
            NoSplit(s, text, delimiters) && !SplitsAt(ScanText(s, text), c, delimiters)
    ensures Still(s, text + [c]) <==>
            var t := ScanText(s, text); Still(s, text) && !Opens(t, c) && !Closes(Observe(t, c), c)
  {
    ScanConcat(s, text, [c]);
    NoSplitConcat(s, text, [c], delimiters);
    StillConcat(s, text, [c]);
    ReadOne(ScanText(s, text), c, delimiters);
  }

  /** An opening bracket goes down one level and its closing bracket comes back. */
  lemma GroupDepth(s: Scan, t: Scan, pair: Pair)
    requires Calm(s) && Calm(t) && t.depth == Observe(s, OpenOf(pair)).depth
    ensures Calm(Observe(s, OpenOf(pair))) && !TopLevel(Observe(s, OpenOf(pair))) && !TopLevel(t)
    ensures var u := Observe(t, CloseOf(pair));
            Calm(u) && u.depth == s.depth && u.previous == Some(CloseOf(pair))
  {
  }

  lemma {:induction false} ReadTokens(s: Scan, tokens: seq<Token>, delimiters: set<char>)
    requires Calm(s) && AllProper(tokens) && PlainDelimiters(delimiters) && Clear(s.previous, TextOfAll(tokens))
    ensures var t := ScanText(s, TextOfAll(tokens)); Calm(t) && t.depth == s.depth
    ensures !TopLevel(s) ==> NoSplit(s, TextOfAll(tokens), delimiters)
    ensures !TopLevel(s) || NoBraces(tokens) ==> Still(s, TextOfAll(tokens))
    decreases tokens, 0
  {
    if tokens != [] {
      var first, rest := TextOf(tokens[0]), TextOfAll(tokens[1..]);
      assert first[0] == (first + rest)[0];
      ReadToken(s, tokens[0], delimiters);
      ReadTokens(ScanText(s, first), tokens[1..], delimiters);
      ScanConcat(s, first, rest);
      NoSplitConcat(s, first, rest, delimiters);
      StillConcat(s, first, rest);
    }
  }

  // ----- splitting -----

  /** The pieces between the delimiters among the tokens. */
  function TokenPieces(pending: string, tokens: seq<Token>, delimiters: set<char>): seq<string>
    decreases |tokens|
  {
    if tokens == [] then Piece(pending)
    else if tokens[0].Plain? && tokens[0].c in delimiters then
      Piece(pending) + TokenPieces("", tokens[1..], delimiters)
    else TokenPieces(pending + TextOf(tokens[0]), tokens[1..], delimiters)
  }

  lemma {:induction false} PartsOfTokens(s: Scan, pending: string, tokens: seq<Token>, delimiters: set<char>)
    requires Calm(s) && TopLevel(s) && AllProper(tokens) && PlainDelimiters(delimiters)
    requires Clear(s.previous, TextOfAll(tokens))
    ensures Parts(s, pending, TextOfAll(tokens), delimiters) == TokenPieces(pending, tokens, delimiters)
    decreases |tokens|
  {
    if tokens != [] {
      var first, rest := TextOf(tokens[0]), TextOfAll(tokens[1..]);
      assert first[0] == (first + rest)[0];
      ReadToken(s, tokens[0], delimiters);
      if tokens[0].Plain? && tokens[0].c in delimiters {
        assert first == [tokens[0].c] && (first + rest)[1..] == rest;
        ReadOne(s, tokens[0].c, delimiters);
        PartsOfTokens(Observe(s, tokens[0].c), "", tokens[1..], delimiters);
      } else {
        ReadOver(s, pending, first, rest, delimiters);
        PartsOfTokens(ScanText(s, first), pending + first, tokens[1..], delimiters);
      }
    }
  }

  /** Text that is written as tokens splits exactly at the delimiters among them: not in
      comments, not in string literals and not between brackets. */
  lemma SplitsAtTokens(tokens: seq<Token>, delimiters: set<char>)
    requires AllProper(tokens) && PlainDelimiters(delimiters)
    ensures SplitTopLevel(TextOfAll(tokens), delimiters) == TokenPieces("", tokens, delimiters)
  {
    PartsOfTokens(INITIAL, "", tokens, delimiters);
  }

  // ----- the brace span -----

  /** The span that is found is the first group of braces that is in no other group, in
      no comment and in no string literal, whatever comes after it. */
  lemma SpanOfTokens(before: seq<Token>, inner: seq<Token>, rest: string)
    requires AllProper(before) && AllProper(inner) && NoBraces(before)
    ensures var open := |TextOfAll(before)|;
            FindSpan(TextOfAll(before) + (TextOf(Group(Curly, inner)) + rest)) ==
              Some(Braces(open, open + 1 + |TextOfAll(inner)|))
  {
    var a, b := TextOfAll(before), TextOfAll(inner);
    ReadTokens(INITIAL, before, {});
    StillQuiet(INITIAL, None, 0, a);
    BraceText(inner, rest);
    SpanConcat(INITIAL, None, 0, a, ['{'] + (b + ['}'] + rest));
    InsideSpan(ScanText(INITIAL, a), |a|, inner, rest);
  }

  lemma BraceText(inner: seq<Token>, rest: string)
    ensures TextOf(Group(Curly, inner)) + rest == ['{'] + (TextOfAll(inner) + ['}'] + rest)
  {
    GroupText(Curly, inner);
  }

  lemma InsideSpan(s: Scan, open: nat, inner: seq<Token>, rest: string)
    requires Calm(s) && TopLevel(s) && AllProper(inner)
    ensures Span(s, None, open, ['{'] + (TextOfAll(inner) + ['}'] + rest)) ==
            Some(Braces(open, open + 1 + |TextOfAll(inner)|))
  {
    var b := TextOfAll(inner);
    var inside, tail := Observe(s, '{'), ['}'] + rest;
    assert (['{'] + (b + ['}'] + rest))[1..] == b + ['}'] + rest == b + tail;
    ReadGroup(s, Curly, inner, {});
    ReadTokens(inside, inner, {});
    StillQuiet(inside, Some(open), open + 1, b);
    SpanConcat(inside, Some(open), open + 1, b, tail);
    assert tail[0] == '}';
  }
}
