/** JSON Schema documents as the exporter sees them: object members have no
    order, and a reference is a `$ref` member that holds a string, anywhere in
    the document. */
module Schema {
  import opened Common
  import opened PercentText
  import opened Strings

  datatype Value =
    | Null
    | Bool(bool)
    | Number(repr: string)
    | String(text: string)
    | Array(items: seq<Value>)
    | Object(fields: map<string, Value>)

  type Definitions = map<string, Value>

  const DEFINITIONS_PREFIX := "#/definitions/"
  const V2_PREFIX := "#/definitions/v2/"

  // ----- references -----

  /** The references an object itself holds. */
  function RefHere(fields: map<string, Value>): set<string> {
    if "$ref" in fields && fields["$ref"].String? then {fields["$ref"].text} else {}
  }

  /** Every reference in the document. */
  function Refs(v: Value): set<string> {
    match v
    case Object(fields) => RefHere(fields) + set k, r | k in fields && r in Refs(fields[k]) :: r
    case Array(items) => set i, r | 0 <= i < |items| && r in Refs(items[i]) :: r
    case _ => {}
  }

  /** The definition a reference names outside the v2 namespace. */
  function NonV2Name(reference: string): Option<string> {
    if DEFINITIONS_PREFIX <= reference && !(V2_PREFIX <= reference)
    then Some(reference[|DEFINITIONS_PREFIX|..]) else None
  }

  function NonV2Refs(v: Value): set<string> {
    set r | r in Refs(v) && NonV2Name(r).Some? :: NonV2Name(r).value
  }

  /** The top-level definition a reference goes through. */
  function LocalName(reference: string): Option<string> {
    if DEFINITIONS_PREFIX <= reference then Some(Split(reference[|DEFINITIONS_PREFIX|..], '/')[0]) else None
  }

  function LocalNames(refs: set<string>): set<string> {
    set r | r in refs && LocalName(r).Some? :: LocalName(r).value
  }

  // ----- JSON Pointer fragments, section 6 of RFC 6901 -----

  /** A reference token with `~1` read as a slash and `~0` as a tilde. */
  function DecodeToken(token: string): string {
    if token == "" then ""
    else if "~1" <= token then "/" + DecodeToken(token[2..])
    else if "~0" <= token then "~" + DecodeToken(token[2..])
    else [token[0]] + DecodeToken(token[1..])
  }

  function DecodeAll(tokens: seq<string>): (keys: seq<string>)
    ensures |keys| == |tokens| && forall i | 0 <= i < |tokens| :: keys[i] == DecodeToken(tokens[i])
  {
    seq(|tokens|, i requires 0 <= i < |tokens| => DecodeToken(tokens[i]))
  }

  /** The keys a local reference follows from the root of its document. */
  function Path(reference: string): Option<seq<string>> {
    if reference == "" || reference[0] != '#' then None
    else
      var pointer := Percent(reference[1..]);
      if pointer.None? then None else PointerPath(pointer.value)
  }

  function PointerPath(pointer: string): Option<seq<string>> {
    if pointer == "" then Some([])
    else if pointer[0] != '/' then None
    else Some(DecodeAll(Split(pointer[1..], '/')))
  }

  /** The position that a token stands for in an array: `0`, or digits that do not start
      with a zero. */
  function ArrayIndex(token: string): Option<nat> {
    if IsDecimal(token) then Some(DecimalValue(token)) else None
  }

  /** Every position has exactly one token. */
  lemma IndexIff(token: string, n: nat)
    ensures ArrayIndex(token) == Some(n) <==> token == Decimal(n)
  {
    DecimalReads(n);
    DecimalLeads(n);
    if IsDecimal(token) {
      DecimalUnique(token);
    }
  }

  /** What a value holds under a token: a member of an object or an element of an array. */
  function Child(v: Value, token: string): Option<Value> {
    match v
    case Object(fields) => if token in fields then Some(fields[token]) else None
    case Array(items) =>
      var i := ArrayIndex(token);
      if i.Some? && i.value < |items| then Some(items[i.value]) else None
    case _ => None
  }

  /** The part of a value a path leads to. */
  function Walk(v: Value, path: seq<string>): Option<Value>
    decreases |path|
  {
    if path == [] then Some(v)
    else
      var child := Child(v, path[0]);
      if child.None? then None else Walk(child.value, path[1..])
  }

  /** The part of the document a reference names. */
  function Resolve(document: Value, reference: string): Option<Value> {
    if Path(reference).None? then None else Walk(document, Path(reference).value)
  }

  /** The key that one reference token stands for. */
  function TokenName(token: string): Option<string> {
    var decoded := Percent(token);
    if decoded.None? || '/' in decoded.value then None else Some(DecodeToken(decoded.value))
  }

  /** A name that stands for itself in a reference. */
  predicate PlainName(name: string) {
    '/' !in name && '~' !in name && '%' !in name
  }

  lemma {:induction false} DecodePlain(token: string)
    requires '~' !in token
    ensures DecodeToken(token) == token
  {
    if token != "" {
      DecodePlain(token[1..]);
      assert token == [token[0]] + token[1..];
    }
  }

  lemma TokenPlain(name: string)
    requires PlainName(name)
    ensures TokenName(name) == Some(name)
  {
    PercentPlain(name, "");
    assert name + "" == name;
    DecodePlain(name);
  }

  function ChildOf(v: Option<Value>, token: string): Option<Value> {
    if v.None? then None else Child(v.value, token)
  }

  /** What the document's definitions hold under a token. */
  function DefinitionAt(document: Value, name: string): Option<Value> {
    ChildOf(Child(document, "definitions"), name)
  }

  /** A pointer that starts with a keyword goes on below it. */
  lemma PathStep(keyword: string, rest: string)
    requires '/' !in keyword && '~' !in keyword
    ensures DecodeAll(Split(keyword + "/" + rest, '/')) == [keyword] + DecodeAll(Split(rest, '/'))
  {
    SplitFirst(keyword, '/', rest);
    DecodePlain(keyword);
  }

  lemma WholeToken(token: string)
    requires '/' !in token
    ensures DecodeAll(Split(token, '/')) == [DecodeToken(token)]
  {
    SplitWhole(token, '/');
  }

  lemma SpelledPrefixes()
    ensures DEFINITIONS_PREFIX == "#" + ("/" + ("definitions" + "/"))
    ensures V2_PREFIX == "#" + ("/" + ("definitions" + "/" + ("v2" + "/")))
    ensures '%' !in "definitions" + "/" && '%' !in "definitions" + "/" + ("v2" + "/")
  {
  }

  lemma PathOfFragment(fragment: string)
    ensures Path("#" + fragment) == if Percent(fragment).None? then None else PointerPath(Percent(fragment).value)
  {
    assert ("#" + fragment)[1..] == fragment;
  }

  lemma PathOfPointer(rest: string)
    ensures PointerPath("/" + rest) == Some(DecodeAll(Split(rest, '/')))
  {
    assert ("/" + rest)[1..] == rest;
  }

  lemma PathOfPlain(front: string, token: string)
    requires '%' !in front && Percent(token).Some?
    ensures Path("#" + (front + token)) == PointerPath(front + Percent(token).value)
  {
    PathOfFragment(front + token);
    PercentPlain(front, token);
  }

  lemma Regroup(a: string, b: string, c: string)
    ensures a + b + c == a + (b + c)
  {
  }

  /** How a reference reads whose fragment is a slash, unescaped text and a token. */
  lemma PathOf(head: string, token: string)
    requires '%' !in head && TokenName(token).Some?
    ensures Path("#" + ("/" + head) + token) == Some(DecodeAll(Split(head + Percent(token).value, '/')))
  {
    Regroup("#", "/" + head, token);
    PathOfPlain("/" + head, token);
    Regroup("/", head, Percent(token).value);
    PathOfPointer(head + Percent(token).value);
  }

  lemma TwoKeys(first: string, token: string)
    requires '/' !in first && '~' !in first && '/' !in token
    ensures DecodeAll(Split(first + "/" + token, '/')) == [first, DecodeToken(token)]
  {
    WholeToken(token);
    PathStep(first, token);
  }

  lemma ThreeKeys(first: string, second: string, token: string)
    requires '/' !in first && '~' !in first && '/' !in second && '~' !in second && '/' !in token
    ensures DecodeAll(Split(first + "/" + (second + "/") + token, '/')) == [first, second, DecodeToken(token)]
  {
    TwoKeys(second, token);
    PathStep(first, second + "/" + token);
    assert first + "/" + (second + "/") + token == first + "/" + (second + "/" + token);
  }

  /** The keys that the two forms of reference follow. */
  lemma TokenPaths(token: string)
    requires TokenName(token).Some?
    ensures Path(DEFINITIONS_PREFIX + token) == Some(["definitions", TokenName(token).value])
    ensures Path(V2_PREFIX + token) == Some(["definitions", "v2", TokenName(token).value])
  {
    SpelledPrefixes();
    PathOf("definitions" + "/", token);
    PathOf("definitions" + "/" + ("v2" + "/"), token);
    TwoKeys("definitions", Percent(token).value);
    ThreeKeys("definitions", "v2", Percent(token).value);
  }

  lemma WalkStep(v: Value, key: string, rest: seq<string>)
    ensures Walk(v, [key] + rest) == if Child(v, key).None? then None else Walk(Child(v, key).value, rest)
  {
    assert ([key] + rest)[1..] == rest;
  }

  lemma WalkOne(v: Value, key: string)
    ensures Walk(v, [key]) == Child(v, key)
  {
    assert [key] + [] == [key];
    WalkStep(v, key, []);
  }

  lemma WalkTwo(v: Value, first: string, second: string)
    ensures Walk(v, [first, second]) == ChildOf(Child(v, first), second)
  {
    assert [first, second] == [first] + [second];
    WalkStep(v, first, [second]);
    if Child(v, first).Some? {
      WalkOne(Child(v, first).value, second);
    }
  }

  lemma WalkThree(v: Value, first: string, second: string, third: string)
    ensures Walk(v, [first, second, third]) == ChildOf(ChildOf(Child(v, first), second), third)
  {
    assert [first, second, third] == [first] + [second, third];
    WalkStep(v, first, [second, third]);
    if Child(v, first).Some? {
      WalkTwo(Child(v, first).value, second, third);
    }
  }

  /** `#/definitions/N` names the definition its token stands for. */
  lemma ResolveToken(document: Value, token: string)
    requires TokenName(token).Some?
    ensures Resolve(document, DEFINITIONS_PREFIX + token) == DefinitionAt(document, TokenName(token).value)
  {
    TokenPaths(token);
    WalkTwo(document, "definitions", TokenName(token).value);
  }

  /** `#/definitions/v2/N` names the definition of the v2 namespace its token stands for. */
  lemma ResolveV2Token(document: Value, token: string)
    requires TokenName(token).Some?
    ensures Resolve(document, V2_PREFIX + token) == ChildOf(DefinitionAt(document, "v2"), TokenName(token).value)
  {
    TokenPaths(token);
    WalkThree(document, "definitions", "v2", TokenName(token).value);
  }

  /** `a~0` stands for `a~`. */
  lemma EscapedToken()
    ensures TokenName("a~0") == Some("a~")
  {
    var token, tilde := "a~0", "~0";
    PercentPlain(token, "");
    assert token + "" == token;
    assert token[0] == 'a' && tilde[1] == '0';
    assert token[1..] == tilde && tilde[2..] == "";
    assert DecodeToken(tilde) == "~" + DecodeToken("");
    assert DecodeToken(token) == "a" + DecodeToken(tilde);
    assert "a" + ("~" + "") == "a~";
    assert Percent(token) == Some(token) && '/' !in token;
  }

  /** Every plain name but the empty one has another spelling, with each byte escaped. */
  lemma EscapedSpelling(name: string)
    requires PlainName(name)
    ensures TokenName(EscapeAll(name)) == Some(name) && '/' !in EscapeAll(name)
    ensures name != "" ==> EscapeAll(name) != name
  {
    PercentRoundTrip(name);
    DecodePlain(name);
    EscapesFree(name);
    if name != "" {
      assert EscapeAll(name)[0] == '%' && name[0] in name;
    }
  }

  // ----- rewriting references -----

  function RewriteRef(reference: string): string {
    ReplaceAll(reference, V2_PREFIX, DEFINITIONS_PREFIX)
  }

  /** The document with every reference into v2 pointed at the root definitions. */
  function Rewrite(v: Value): Value {
    match v
    case Object(fields) =>
      Object(map k | k in fields ::
               if k == "$ref" && fields[k].String? then String(RewriteRef(fields[k].text)) else Rewrite(fields[k]))
    case Array(items) => Array(seq(|items|, i requires 0 <= i < |items| => Rewrite(items[i])))
    case _ => v
  }

  /** The references of the rewritten document are the rewritten references. */
  lemma {:induction false} RefsOfRewrite(v: Value)
    ensures Refs(Rewrite(v)) == set r | r in Refs(v) :: RewriteRef(r)
  {
    match v
    case Object(fields) => RefsOfRewrittenObject(fields);
    case Array(items) => RefsOfRewrittenArray(items);
    case _ =>
  }

  /** The document with its references blanked out. */
  function Unreferenced(v: Value): Value {
    match v
    case Object(fields) =>
      Object(map k | k in fields ::
               if k == "$ref" && fields[k].String? then String("") else Unreferenced(fields[k]))
    case Array(items) => Array(seq(|items|, i requires 0 <= i < |items| => Unreferenced(items[i])))
    case _ => v
  }

  /** Rewriting changes references and nothing else. */
  lemma {:induction false} RewriteOnlyRefs(v: Value)
    ensures Unreferenced(Rewrite(v)) == Unreferenced(v)
  {
    match v
    case Object(fields) =>
      forall k | k in fields ensures Unreferenced(Rewrite(fields[k])) == Unreferenced(fields[k]) {
        RewriteOnlyRefs(fields[k]);
      }
      var after, blank := Rewrite(v).fields, Unreferenced(v).fields;
      forall k | k in fields ensures Unreferenced(Rewrite(v)).fields[k] == blank[k] {
        assert k in after && after[k].String? <==> fields[k].String?;
      }
      assert Unreferenced(Rewrite(v)).fields == blank;
    case Array(items) =>
      forall i | 0 <= i < |items| ensures Unreferenced(Rewrite(items[i])) == Unreferenced(items[i]) {
        RewriteOnlyRefs(items[i]);
      }
      assert Unreferenced(Rewrite(v)).items == Unreferenced(v).items;
    case _ =>
  }

  lemma {:induction false} RefsOfRewrittenArray(items: seq<Value>)
    ensures Refs(Rewrite(Array(items))) == set r | r in Refs(Array(items)) :: RewriteRef(r)
    decreases Array(items), 0
  {
    var v := Array(items);
    var images := Rewrite(v).items;
    forall i | 0 <= i < |items| ensures Refs(images[i]) == set r | r in Refs(items[i]) :: RewriteRef(r) {
      RefsOfRewrite(items[i]);
    }
    forall r | r in Refs(v) ensures RewriteRef(r) in Refs(Rewrite(v)) {
      var i :| 0 <= i < |items| && r in Refs(items[i]);
      assert RewriteRef(r) in Refs(images[i]);
    }
    forall q | q in Refs(Rewrite(v)) ensures exists r :: r in Refs(v) && q == RewriteRef(r) {
      var i :| 0 <= i < |images| && q in Refs(images[i]);
      var r :| r in Refs(items[i]) && q == RewriteRef(r);
      assert r in Refs(v);
    }
  }

  lemma RefHereOfRewrite(fields: map<string, Value>)
    ensures RefHere(Rewrite(Object(fields)).fields) ==
              if "$ref" in fields && fields["$ref"].String? then {RewriteRef(fields["$ref"].text)} else {}
  {
  }

  lemma {:induction false} RefsOfRewrittenObject(fields: map<string, Value>)
    ensures Refs(Rewrite(Object(fields))) == set r | r in Refs(Object(fields)) :: RewriteRef(r)
    decreases Object(fields), 0
  {
    var v := Object(fields);
    var images := Rewrite(v).fields;
    forall k | k in fields ensures Refs(images[k]) == set r | r in Refs(fields[k]) :: RewriteRef(r) {
      RefsOfRewrite(fields[k]);
    }
    RefHereOfRewrite(fields);
    forall r | r in Refs(v) ensures RewriteRef(r) in Refs(Rewrite(v)) {
      if r !in RefHere(fields) {
        var k :| k in fields && r in Refs(fields[k]);
        assert RewriteRef(r) in Refs(images[k]);
      }
    }
    forall q | q in Refs(Rewrite(v)) ensures exists r :: r in Refs(v) && q == RewriteRef(r) {
      if q in RefHere(images) {
        assert fields["$ref"].text in Refs(v);
      } else {
        var k :| k in images && q in Refs(images[k]);
        var r :| r in Refs(fields[k]) && q == RewriteRef(r);
        assert r in Refs(v);
      }
    }
  }

  /** A pattern that starts with `#/` does not occur in slash-free text. */
  lemma NoPatternInName(name: string)
    requires '/' !in name
    ensures RewriteRef(name) == name
  {
    forall i | 0 <= i < |name| ensures !(V2_PREFIX <= name[i..]) {
      assert V2_PREFIX[1] == '/';
      assert i + 1 < |name| ==> name[i..][1] == name[i + 1] && name[i + 1] in name;
    }
    ReplaceNothing(name, V2_PREFIX, DEFINITIONS_PREFIX);
  }

  /** A reference to a v2 definition loses its namespace. */
  lemma RewriteV2Ref(name: string)
    requires '/' !in name
    ensures RewriteRef(V2_PREFIX + name) == DEFINITIONS_PREFIX + name
  {
    assert (V2_PREFIX + name)[|V2_PREFIX|..] == name;
    NoPatternInName(name);
  }

  /** A reference to a root definition stays. */
  lemma RewriteRootRef(name: string)
    requires '/' !in name
    ensures RewriteRef(DEFINITIONS_PREFIX + name) == DEFINITIONS_PREFIX + name
  {
    var reference := DEFINITIONS_PREFIX + name;
    forall i | 0 <= i < |reference| ensures !(V2_PREFIX <= reference[i..]) {
      var rest := reference[i..];
      assert V2_PREFIX[0] == '#' && V2_PREFIX[1] == '/' && V2_PREFIX[16] == '/';
      assert 0 < i < 14 ==> rest[0] == DEFINITIONS_PREFIX[i];
      assert i == 0 && |rest| > 16 ==> rest[16] == name[2] && name[2] in name;
      assert i >= 14 && |rest| > 1 ==> rest[1] == name[i + 1 - 14] && name[i + 1 - 14] in name;
    }
    ReplaceNothing(reference, V2_PREFIX, DEFINITIONS_PREFIX);
  }
}
