/** References by the places where they stand in a document, and what the flat bundle
    is made of. */
module SchemaPlaces {
  import opened Common
  import opened Strings
  import opened TextSearch
  import opened RefGraph
  import opened Schema
  import opened FlatBundle
  import opened FlatMeaning
  import opened PruneDefinitions

  // ----- places -----

  /** The path leads to an object whose `$ref` is the string `r`. */
  predicate RefersAt(v: Value, path: seq<string>, r: string) {
    var place := Walk(v, path);
    place.Some? && place.value.Object? && "$ref" in place.value.fields && place.value.fields["$ref"] == String(r)
  }

  lemma RefersBelow(v: Value, key: string, rest: seq<string>, r: string)
    requires Child(v, key).Some?
    ensures RefersAt(v, [key] + rest, r) <==> RefersAt(Child(v, key).value, rest, r)
  {
    WalkStep(v, key, rest);
  }

  lemma ItemAt(items: seq<Value>, i: nat)
    requires i < |items|
    ensures Child(Array(items), Decimal(i)) == Some(items[i])
  {
    IndexIff(Decimal(i), i);
  }

  lemma {:induction false} RefPlace(v: Value, r: string) returns (path: seq<string>)
    requires r in Refs(v)
    ensures RefersAt(v, path, r)
  {
    match v
    case Object(fields) =>
      if r in RefHere(fields) {
        path := [];
      } else {
        var k :| k in fields && r in Refs(fields[k]);
        var rest := RefPlace(fields[k], r);
        RefersBelow(v, k, rest, r);
        path := [k] + rest;
      }
    case Array(items) =>
      var i :| 0 <= i < |items| && r in Refs(items[i]);
      var rest := RefPlace(items[i], r);
      ItemAt(items, i);
      RefersBelow(v, Decimal(i), rest, r);
      path := [Decimal(i)] + rest;
  }

  lemma {:induction false} PlaceRef(v: Value, path: seq<string>, r: string)
    requires RefersAt(v, path, r)
    ensures r in Refs(v)
    decreases |path|
  {
    if path != [] {
      var child := Child(v, path[0]);
      assert path == [path[0]] + path[1..];
      RefersBelow(v, path[0], path[1..], r);
      PlaceRef(child.value, path[1..], r);
    }
  }

  /** The references of a document are the `$ref` strings of its objects, wherever they
      stand. */
  lemma RefsIff(v: Value, r: string)
    ensures r in Refs(v) <==> exists path :: RefersAt(v, path, r)
  {
    if r in Refs(v) {
      var path := RefPlace(v, r);
    }
    if path :| RefersAt(v, path, r) {
      PlaceRef(v, path, r);
    }
  }

  /** The path enters no definition map. */
  predicate StaysOutside(path: seq<string>) {
    "definitions" !in path && "$defs" !in path
  }

  lemma {:induction false} OuterPlace(v: Value, r: string) returns (path: seq<string>)
    requires r in OuterRefs(v)
    ensures RefersAt(v, path, r) && StaysOutside(path)
  {
    match v
    case Object(fields) =>
      if r in RefHere(fields) {
        path := [];
      } else {
        var k :| k in fields && !IsDefinitionMap(k) && r in OuterRefs(fields[k]);
        var rest := OuterPlace(fields[k], r);
        RefersBelow(v, k, rest, r);
        path := [k] + rest;
      }
    case Array(items) =>
      var i :| 0 <= i < |items| && r in OuterRefs(items[i]);
      var rest := OuterPlace(items[i], r);
      ItemAt(items, i);
      RefersBelow(v, Decimal(i), rest, r);
      path := [Decimal(i)] + rest;
      assert IsDigit(Decimal(i)[0]);
  }

  lemma {:induction false} PlaceOuter(v: Value, path: seq<string>, r: string)
    requires RefersAt(v, path, r) && StaysOutside(path)
    ensures r in OuterRefs(v)
    decreases |path|
  {
    if path != [] {
      var child := Child(v, path[0]);
      assert path == [path[0]] + path[1..];
      RefersBelow(v, path[0], path[1..], r);
      PlaceOuter(child.value, path[1..], r);
    }
  }

  /** The references that pruning starts from stand where no key on the way is
      `definitions` or `$defs`. */
  lemma OuterIff(v: Value, r: string)
    ensures r in OuterRefs(v) <==> exists path :: RefersAt(v, path, r) && StaysOutside(path)
  {
    if r in OuterRefs(v) {
      var path := OuterPlace(v, r);
    }
    if path :| RefersAt(v, path, r) && StaysOutside(path) {
      PlaceOuter(v, path, r);
    }
  }

  /** The text between `#/definitions/` and the next slash. */
  predicate Through(r: string, n: string) {
    && '/' !in n && DEFINITIONS_PREFIX + n <= r
    && (|r| > |DEFINITIONS_PREFIX + n| ==> r[|DEFINITIONS_PREFIX + n|] == '/')
  }

  /** A reference goes through the definition that this text names. */
  lemma LocalNameIff(r: string, n: string)
    ensures LocalName(r) == Some(n) <==> Through(r, n)
  {
    PrefixSplits(DEFINITIONS_PREFIX, n, r);
    if DEFINITIONS_PREFIX <= r {
      FirstPart(r[|DEFINITIONS_PREFIX|..], n);
    }
  }

  lemma PrefixSplits(a: string, b: string, s: string)
    ensures a + b <= s <==> a <= s && b <= s[|a|..]
  {
    if a <= s && b <= s[|a|..] {
      assert s == a + s[|a|..];
    }
    if a + b <= s {
      assert (a + b)[..|a|] == a && (a + b)[|a|..] == b;
    }
  }

  lemma {:induction false} FirstPart(s: string, n: string)
    ensures Split(s, '/')[0] == n <==> '/' !in n && n <= s && (|s| > |n| ==> s[|n|] == '/')
    decreases |s|
  {
    if n != "" {
      assert n == [n[0]] + n[1..];
      if s != "" {
        FirstPart(s[1..], n[1..]);
        assert n <= s <==> n[0] == s[0] && n[1..] <= s[1..];
        assert Split(s, '/')[0] == if s[0] == '/' then "" else [s[0]] + Split(s[1..], '/')[0];
      }
    } else if s != "" && s[0] != '/' {
      assert Split(s, '/')[0][0] == s[0];
    }
  }

  // ----- rewriting in place -----

  /** Replacing turns the first occurrence into the replacement and goes on behind it. */
  lemma {:induction false} ReplaceFirst(head: string, pattern: string, rest: string, replacement: string)
    requires pattern != "" && Find(head + (pattern + rest), pattern) == Some(|head|)
    ensures ReplaceAll(head + (pattern + rest), pattern, replacement) ==
            head + (replacement + ReplaceAll(rest, pattern, replacement))
  {
    if head == "" {
      assert head + (pattern + rest) == pattern + rest && (pattern + rest)[|pattern|..] == rest;
      assert head + (replacement + ReplaceAll(rest, pattern, replacement)) ==
             replacement + ReplaceAll(rest, pattern, replacement);
    } else {
      DropHead(head, pattern + rest);
      FindStep(head + (pattern + rest), pattern);
      ReplaceFirst(head[1..], pattern, rest, replacement);
      ReplaceStep(head + (pattern + rest), pattern, replacement);
      DropHead(head, replacement + ReplaceAll(rest, pattern, replacement));
    }
  }

  lemma DropHead(head: string, rest: string)
    requires head != ""
    ensures (head + rest)[0] == head[0] && (head + rest)[1..] == head[1..] + rest
    ensures [head[0]] + (head[1..] + rest) == head + rest
  {
    assert head == [head[0]] + head[1..];
  }

  lemma ReplaceStep(s: string, pattern: string, replacement: string)
    requires pattern != "" && s != "" && !(pattern <= s)
    ensures ReplaceAll(s, pattern, replacement) == [s[0]] + ReplaceAll(s[1..], pattern, replacement)
  {
  }

  lemma WalkText(v: Value, path: seq<string>)
    requires Walk(v, path).Some?
    ensures v.String? ==> Walk(v, path) == Some(v)
  {
  }

  /** Rewriting leaves every part where it is. */
  lemma {:induction false} RewriteWalk(v: Value, path: seq<string>)
    requires Walk(v, path).Some? && !Walk(v, path).value.String?
    ensures Walk(Rewrite(v), path) == Some(Rewrite(Walk(v, path).value))
    decreases |path|
  {
    if path != [] {
      var child := Child(v, path[0]).value;
      WalkText(child, path[1..]);
      RewriteWalk(child, path[1..]);
      assert Child(Rewrite(v), path[0]) == Some(Rewrite(child));
    }
  }

  /** Every reference stays where it stands. */
  lemma RewriteAt(v: Value, path: seq<string>, r: string)
    requires RefersAt(v, path, r)
    ensures RefersAt(Rewrite(v), path, RewriteRef(r))
  {
    RewriteWalk(v, path);
  }

  lemma {:induction false} RewriteFree(v: Value)
    requires Refs(v) == {}
    ensures Rewrite(v) == v
  {
    match v
    case Object(fields) =>
      forall k | k in fields ensures Rewrite(fields[k]) == fields[k] {
        assert forall r :: r in Refs(fields[k]) ==> r in Refs(v);
        RewriteFree(fields[k]);
      }
      assert RefHere(fields) == {};
      assert Rewrite(v).fields == fields;
    case Array(items) =>
      forall i | 0 <= i < |items| ensures Rewrite(items[i]) == items[i] {
        assert forall r :: r in Refs(items[i]) ==> r in Refs(v);
        RewriteFree(items[i]);
      }
      assert Rewrite(v).items == items;
    case _ =>
  }

  // ----- the members of the flat bundle -----

  lemma UntouchedMember(root: map<string, Value>, kept: Definitions, k: string)
    requires Refs(Object(root - {"definitions"})) == {} && k in root && k != "definitions" && k != "title"
    ensures k in Flat(root, kept).fields && Flat(root, kept).fields[k] == root[k]
  {
    var rest := root - {"definitions"};
    assert k in rest && rest[k] == root[k];
    assert forall r :: r in Refs(root[k]) ==> r in Refs(Object(rest));
    RewriteFree(root[k]);
    assert RefHere(rest) == {};
    assert FlatRoot(root, kept)[k] == root[k];
  }

  /** The flat document of a bundle: its title has `V2` behind it, its definitions are the
      kept ones rewritten, and its other members are those of the bundle as they were. */
  lemma FlatMembers(root: map<string, Value>, definitions: Definitions, v2: Definitions)
    requires Exportable(root, definitions, v2) && Flattened(Object(root)).Ok?
    ensures var kept, flat := KeptIn(definitions, v2), Flattened(Object(root)).value;
            && flat.Object? && flat.fields.Keys == root.Keys + {"title"}
            && (forall k | k in root && k != "title" && k != "definitions" :: flat.fields[k] == root[k])
            && flat.fields["title"] ==
               String((if "title" in root && root["title"].String? then root["title"].text
                       else "CodexAppServerProtocol") + "V2")
            && flat.fields["definitions"].Object? && flat.fields["definitions"].fields.Keys == kept.Keys
            && (forall n | n in kept :: flat.fields["definitions"].fields[n] == Rewrite(kept[n]))
  {
    var kept := KeptIn(definitions, v2);
    FlattenSucceeds(root, definitions, v2);
    ChangedMembers(root, kept);
    forall k | k in root && k != "title" && k != "definitions" ensures Flat(root, kept).fields[k] == root[k] {
      UntouchedMember(root, kept, k);
    }
  }

  lemma ChangedMembers(root: map<string, Value>, kept: Definitions)
    requires RefHere(kept) == {}
    ensures Flat(root, kept).Object? && Flat(root, kept).fields.Keys == root.Keys + {"title", "definitions"}
    ensures Flat(root, kept).fields["title"] ==
            String((if "title" in root && root["title"].String? then root["title"].text
                    else "CodexAppServerProtocol") + "V2")
    ensures var flat := Flat(root, kept).fields["definitions"];
            flat.Object? && flat.fields.Keys == kept.Keys && forall n | n in kept :: flat.fields[n] == Rewrite(kept[n])
  {
    var flat := FlatRoot(root, kept);
    assert flat.Keys == root.Keys + {"title", "definitions"};
    assert flat["definitions"] == Object(kept);
    assert Rewrite(Object(flat)).fields["title"] == Rewrite(flat["title"]) by {
      assert "title" != "$ref";
    }
    assert flat["title"] == String(Title(root) + "V2");
    assert Rewrite(Object(flat)).fields["definitions"] == Rewrite(Object(kept));
  }

  // ----- the kept definitions -----

  /** One definition refers to another one outside v2. */
  predicate RefersTo(definitions: Definitions, from: string, to: string) {
    from in definitions && DEFINITIONS_PREFIX + to in Refs(definitions[from]) && !("v2/" <= to)
  }

  /** A way along such references from the schemas of client requests or server
      notifications. */
  ghost predicate LeadsTo(definitions: Definitions, path: seq<string>, n: string) {
    && |path| > 1 && path[0] in {"ClientRequest", "ServerNotification"} && path[|path| - 1] == n
    && (forall i | 0 <= i < |path| - 1 :: RefersTo(definitions, path[i], path[i + 1]))
  }

  lemma NonV2Iff(definitions: Definitions, from: string, to: string)
    requires from in definitions
    ensures to in NonV2Refs(definitions[from]) <==> RefersTo(definitions, from, to)
  {
    var r := DEFINITIONS_PREFIX + to;
    assert r[|DEFINITIONS_PREFIX|..] == to;
    assert V2_PREFIX == DEFINITIONS_PREFIX + "v2/";
    assert V2_PREFIX <= r <==> "v2/" <= to;
    forall q | q in Refs(definitions[from]) && NonV2Name(q) == Some(to) ensures q == r {
      assert q == DEFINITIONS_PREFIX + q[|DEFINITIONS_PREFIX|..];
    }
    assert r in Refs(definitions[from]) && NonV2Name(r).Some? ==> NonV2Name(r).value in NonV2Refs(definitions[from]);
  }

  lemma DependencyLeads(definitions: Definitions, n: string) returns (path: seq<string>)
    requires n in Dependencies(definitions)
    ensures LeadsTo(definitions, path, n)
  {
    var g, seeds := DependencyGraph(definitions), SharedRefs(definitions);
    ClosureIsLeast(g, seeds);
    var tail :| Chain(g, seeds, tail, n);
    var shared :| shared in SHARED && shared in definitions && tail[0] in NonV2Refs(definitions[shared]);
    path := [shared] + tail;
    forall i | 0 <= i < |path| - 1 ensures RefersTo(definitions, path[i], path[i + 1]) {
      NonV2Iff(definitions, shared, path[i + 1]);
      if i > 0 {
        assert path[i] == tail[i - 1] && path[i + 1] == tail[i - 1 + 1];
        NonV2Iff(definitions, path[i], path[i + 1]);
      }
    }
  }

  lemma LeadsDependency(definitions: Definitions, path: seq<string>, n: string)
    requires LeadsTo(definitions, path, n)
    ensures n in Dependencies(definitions)
  {
    var g, seeds, tail := DependencyGraph(definitions), SharedRefs(definitions), path[1..];
    ClosureIsLeast(g, seeds);
    assert RefersTo(definitions, path[0], path[0 + 1]);
    NonV2Iff(definitions, path[0], path[1]);
    assert path[0] in SHARED;
    forall i | 0 <= i < |tail| - 1 ensures tail[i + 1] in Next(g, tail[i]) {
      assert RefersTo(definitions, path[i + 1], path[i + 1 + 1]);
      NonV2Iff(definitions, tail[i], tail[i + 1]);
    }
    assert Chain(g, seeds, tail, n);
    ChainStays(g, seeds, tail, n, Closure(g, seeds));
  }

  /** Kept are all of v2, the shared schemas, and the definitions that references outside
      v2 lead to from them; a shared schema wins over v2, and v2 over the others. */
  lemma KeptExactly(definitions: Definitions, v2: Definitions, n: string)
    ensures var kept := KeptIn(definitions, v2);
            var shared := n in {"ClientRequest", "ServerNotification"} && n in definitions;
            && (n in kept <==>
                  n in v2 || shared || (n in definitions && n != "v2" && exists path :: LeadsTo(definitions, path, n)))
            && (n in kept ==> kept[n] == if n in v2 && !shared then v2[n] else definitions[n])
  {
    assert n in SHARED <==> n in {"ClientRequest", "ServerNotification"};
    if n in Dependencies(definitions) {
      var path := DependencyLeads(definitions, n);
    }
    if path :| LeadsTo(definitions, path, n) {
      LeadsDependency(definitions, path, n);
    }
  }

  // ----- what the flattening refuses -----

  /** A reference that starts with `#/definitions/v2/` stands somewhere. */
  ghost predicate Namespaced(v: Value) {
    exists path, rest :: RefersAt(v, path, V2_PREFIX + rest)
  }

  /** A reference that goes through the definition stands somewhere. */
  ghost predicate GoesThrough(v: Value, n: string) {
    exists path, r :: RefersAt(v, path, r) && Through(r, n)
  }

  lemma NamespacedIff(v: Value)
    ensures (exists r | r in Refs(v) :: V2_PREFIX <= r) <==> Namespaced(v)
  {
    if r :| r in Refs(v) && V2_PREFIX <= r {
      var path := RefPlace(v, r);
      assert r == V2_PREFIX + r[|V2_PREFIX|..];
      assert RefersAt(v, path, V2_PREFIX + r[|V2_PREFIX|..]);
    }
    if path, rest :| RefersAt(v, path, V2_PREFIX + rest) {
      PlaceRef(v, path, V2_PREFIX + rest);
      assert V2_PREFIX <= V2_PREFIX + rest;
    }
  }

  lemma ThroughIff(v: Value, n: string)
    ensures n in LocalNames(Refs(v)) <==> GoesThrough(v, n)
  {
    if n in LocalNames(Refs(v)) {
      var r :| r in Refs(v) && LocalName(r) == Some(n);
      LocalNameIff(r, n);
      var path := RefPlace(v, r);
      assert RefersAt(v, path, r) && Through(r, n);
    }
    if path, r :| RefersAt(v, path, r) && Through(r, n) {
      PlaceRef(v, path, r);
      LocalNameIff(r, n);
      assert LocalName(r).value in LocalNames(Refs(v));
    }
  }

  lemma Refuses(flat: Value, kept: Definitions)
    ensures var result := Checked(flat, kept);
            && (result == Err(StillNamespaced) <==> Namespaced(flat))
            && (result.Ok? ==> result.value == flat && forall n | GoesThrough(flat, n) :: n in kept)
            && (result.Err? && result.error != StillNamespaced ==>
                  && result.error.MissingDefinitions? && result.error.names != {}
                  && forall n :: n in result.error.names <==> n !in kept && GoesThrough(flat, n))
  {
    var missing := LocalNames(Refs(flat)) - kept.Keys;
    forall n ensures n in missing <==> n !in kept && GoesThrough(flat, n) {
      ThroughIff(flat, n);
    }
    NamespacedIff(flat);
    if Namespaced(flat) {
      var r :| r in Refs(flat) && V2_PREFIX <= r;
    } else {
      assert forall r | r in Refs(flat) :: !(V2_PREFIX <= r);
      assert Checked(flat, kept) == if missing != {} then Err(MissingDefinitions(missing)) else Ok(flat);
    }
  }

  /** A bundle is refused for a reference that still starts with `#/definitions/v2/`
      wherever it stands, and otherwise for exactly the names that references go through
      but no kept definition has. */
  lemma FlattenRefuses(root: map<string, Value>, definitions: Definitions, v2: Definitions)
    requires ObjectAt(root, "definitions") == Some(definitions) && ObjectAt(definitions, "v2") == Some(v2)
    ensures var kept, result := KeptIn(definitions, v2), Flattened(Object(root));
            var flat := Flat(root, kept);
            && (result == Err(StillNamespaced) <==> Namespaced(flat))
            && (result.Ok? ==> result.value == flat && forall n | GoesThrough(flat, n) :: n in kept)
            && (result.Err? && result.error != StillNamespaced ==>
                  && result.error.MissingDefinitions? && result.error.names != {}
                  && forall n :: n in result.error.names <==> n !in kept && GoesThrough(flat, n))
  {
    var kept := KeptIn(definitions, v2);
    Refuses(Flat(root, kept), kept);
  }
}
