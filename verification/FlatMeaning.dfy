/** When flattening a bundle succeeds, and when every reference of the flat document
    names what it named in the bundle. */
module FlatMeaning {
  import opened Common
  import opened Strings
  import opened RefGraph
  import opened Schema
  import opened FlatBundle

  // ----- bundles -----

  /** `#/definitions/N` for one token N that is not `v2`. */
  predicate RootForm(r: string) {
    DEFINITIONS_PREFIX <= r &&
    var token := r[|DEFINITIONS_PREFIX|..];
    '/' !in token && token != "v2" && TokenName(token).Some?
  }

  /** `#/definitions/v2/N` for one token N. */
  predicate V2Form(r: string) {
    V2_PREFIX <= r &&
    var token := r[|V2_PREFIX|..];
    '/' !in token && TokenName(token).Some?
  }

  function TokenOf(r: string): string
    requires RootForm(r) || V2Form(r)
  {
    if V2Form(r) then r[|V2_PREFIX|..] else r[|DEFINITIONS_PREFIX|..]
  }

  /** The name that the reference's token stands for. */
  function NameOf(r: string): string
    requires RootForm(r) || V2Form(r)
  {
    TokenName(TokenOf(r)).value
  }

  /** References occur only inside definitions, name a definition directly and resolve. */
  ghost predicate Exportable(root: map<string, Value>, definitions: Definitions, v2: Definitions) {
    && ObjectAt(root, "definitions") == Some(definitions)
    && ObjectAt(definitions, "v2") == Some(v2)
    && Refs(Object(root - {"definitions"})) == {}
    && RefHere(definitions) == {} && RefHere(v2) == {}
    && (forall r | r in Refs(Object(definitions)) ::
          if V2Form(r) then NameOf(r) in v2 else RootForm(r) && NameOf(r) in definitions)
  }

  ghost function KeptIn(definitions: Definitions, v2: Definitions): Definitions {
    Kept(definitions, v2, Dependencies(definitions))
  }

  function Flat(root: map<string, Value>, kept: Definitions): Value {
    Rewrite(Object(FlatRoot(root, kept)))
  }

  // ----- kept references -----

  lemma PrefixesDiffer(name: string)
    requires '/' !in name
    ensures NonV2Name(DEFINITIONS_PREFIX + name) == Some(name)
    ensures LocalName(DEFINITIONS_PREFIX + name) == Some(name)
    ensures !(V2_PREFIX <= DEFINITIONS_PREFIX + name)
  {
    var r := DEFINITIONS_PREFIX + name;
    assert r[|DEFINITIONS_PREFIX|..] == name;
    assert V2_PREFIX[16] == '/';
    assert |r| > 16 ==> r[16] == name[2] && name[2] in name;
    SplitWhole(name, '/');
  }

  /** A reference of one of the two forms is its prefix and its token, and the rewrite
      gives both the root prefix. */
  lemma Forms(r: string)
    requires RootForm(r) || V2Form(r)
    ensures '/' !in TokenOf(r) && TokenName(TokenOf(r)).Some?
    ensures r == (if V2Form(r) then V2_PREFIX else DEFINITIONS_PREFIX) + TokenOf(r)
    ensures RewriteRef(r) == DEFINITIONS_PREFIX + TokenOf(r)
  {
    RewriteV2Ref(TokenOf(r));
    RewriteRootRef(TokenOf(r));
  }

  /** Where a kept reference comes from. */
  lemma KeptRefs(definitions: Definitions, v2: Definitions, dependencies: set<string>, r: string)
    requires RefHere(definitions) == {} && RefHere(v2) == {}
    requires r in Refs(Object(Kept(definitions, v2, dependencies)))
    ensures r in Refs(Object(v2)) ||
            exists n :: n in definitions && (n in dependencies || n in SHARED) && r in Refs(definitions[n])
  {
    var kept := Kept(definitions, v2, dependencies);
    assert RefHere(kept) == {};
    var k :| k in kept && r in Refs(kept[k]);
    if k in v2 && k !in SharedDefinitions(definitions) {
      assert kept[k] == v2[k];
    } else {
      assert kept[k] == definitions[k];
    }
  }

  /** What a shared definition or a dependency refers to is a dependency. */
  lemma DependencyTarget(definitions: Definitions, n: string, m: string)
    requires n in definitions && (n in Dependencies(definitions) || n in SHARED)
    requires '/' !in m && DEFINITIONS_PREFIX + m in Refs(definitions[n])
    ensures m in Dependencies(definitions)
  {
    var g := DependencyGraph(definitions);
    ClosureIsLeast(g, SharedRefs(definitions));
    PrefixesDiffer(m);
    assert m in NonV2Refs(definitions[n]);
    if n in SHARED {
      assert m in SharedRefs(definitions);
    } else {
      assert m in Next(g, n);
    }
  }

  /** Every kept reference is one of the bundle's, and a root reference that is not
      made in v2 is spelled like a dependency. */
  lemma KeptTargets(root: map<string, Value>, definitions: Definitions, v2: Definitions, r: string)
    requires Exportable(root, definitions, v2) && r in Refs(Object(KeptIn(definitions, v2)))
    ensures r in Refs(Object(definitions))
    ensures V2Form(r) || (RootForm(r) && (TokenOf(r) in Dependencies(definitions) || r in Refs(Object(v2))))
  {
    KeptRefs(definitions, v2, Dependencies(definitions), r);
    if r in Refs(Object(v2)) {
      assert definitions["v2"] == Object(v2);
    } else {
      var n :| n in definitions && (n in Dependencies(definitions) || n in SHARED) && r in Refs(definitions[n]);
      assert r in Refs(Object(definitions));
      if !V2Form(r) {
        Forms(r);
        DependencyTarget(definitions, n, TokenOf(r));
      }
    }
  }

  // ----- the flat document -----

  lemma OutsideRefs(root: map<string, Value>, kept: Definitions, k: string)
    requires Refs(Object(root - {"definitions"})) == {} && k in FlatRoot(root, kept) && k != "definitions"
    ensures Refs(FlatRoot(root, kept)[k]) == {}
  {
    var rest := root - {"definitions"};
    if k != "title" {
      assert k in rest && rest[k] == FlatRoot(root, kept)[k];
      assert Refs(rest[k]) <= Refs(Object(rest));
    }
  }

  lemma FlatRootRefs(root: map<string, Value>, kept: Definitions)
    requires Refs(Object(root - {"definitions"})) == {}
    ensures Refs(Object(FlatRoot(root, kept))) == Refs(Object(kept))
  {
    var flat := FlatRoot(root, kept);
    assert RefHere(flat) == RefHere(root - {"definitions"}) == {};
    forall k | k in flat && k != "definitions" ensures Refs(flat[k]) == {} {
      OutsideRefs(root, kept, k);
    }
    assert flat["definitions"] == Object(kept);
  }

  /** The only references of the flat document are the kept ones, rewritten. */
  lemma FlatRefs(root: map<string, Value>, kept: Definitions)
    requires Refs(Object(root - {"definitions"})) == {}
    ensures Refs(Flat(root, kept)) == set r | r in Refs(Object(kept)) :: RewriteRef(r)
  {
    FlatRootRefs(root, kept);
    RefsOfRewrite(Object(FlatRoot(root, kept)));
  }

  /** The definitions of the flat document are rewritten copies of the kept ones. */
  lemma FlatDefinition(root: map<string, Value>, kept: Definitions, name: string)
    requires RefHere(kept) == {}
    ensures DefinitionAt(Flat(root, kept), name) == if name in kept then Some(Rewrite(kept[name])) else None
  {
    var flat := Flat(root, kept);
    assert flat.fields["definitions"] == Rewrite(Object(kept));
    if name in kept {
      assert Rewrite(Object(kept)).fields[name] == Rewrite(kept[name]);
    }
  }

  // ----- success -----

  /** Every kept reference is spelled like a kept definition. */
  ghost predicate Spelled(kept: Definitions) {
    forall r | r in Refs(Object(kept)) :: (RootForm(r) || V2Form(r)) && TokenOf(r) in kept
  }

  lemma RewrittenForm(r: string)
    requires RootForm(r) || V2Form(r)
    ensures LocalName(RewriteRef(r)) == Some(TokenOf(r)) && !(V2_PREFIX <= RewriteRef(r))
  {
    Forms(r);
    PrefixesDiffer(TokenOf(r));
  }

  lemma RewrittenNames(refs: set<string>, rewritten: set<string>)
    requires rewritten == set r | r in refs :: RewriteRef(r)
    requires forall r | r in refs :: RootForm(r) || V2Form(r)
    ensures forall q | q in rewritten :: !(V2_PREFIX <= q)
    ensures LocalNames(rewritten) == set r | r in refs :: TokenOf(r)
  {
    forall r | r in refs ensures LocalName(RewriteRef(r)) == Some(TokenOf(r)) && !(V2_PREFIX <= RewriteRef(r)) {
      RewrittenForm(r);
    }
    forall r | r in refs ensures TokenOf(r) in LocalNames(rewritten) {
      assert RewriteRef(r) in rewritten;
    }
  }

  /** What the two final checks make of the rewritten references. */
  lemma CheckedIff(flat: Value, kept: Definitions, refs: set<string>)
    requires Refs(flat) == set r | r in refs :: RewriteRef(r)
    requires forall r | r in refs :: RootForm(r) || V2Form(r)
    ensures Checked(flat, kept) == Ok(flat) || Checked(flat, kept).Err?
    ensures Checked(flat, kept).Ok? <==> forall r | r in refs :: TokenOf(r) in kept
  {
    RewrittenNames(refs, Refs(flat));
    var missing := LocalNames(Refs(flat)) - kept.Keys;
    if missing != {} {
      var name :| name in missing;
      assert name in LocalNames(Refs(flat));
    }
    forall r | r in refs && TokenOf(r) !in kept ensures missing != {} {
      assert TokenOf(r) in missing;
    }
  }

  /** Flattening an exportable bundle succeeds if and only if every kept reference is
      spelled like a kept definition. */
  lemma FlattenSucceeds(root: map<string, Value>, definitions: Definitions, v2: Definitions)
    requires Exportable(root, definitions, v2)
    ensures var kept, result := KeptIn(definitions, v2), Flattened(Object(root));
            && (result.Ok? <==> Spelled(kept)) && (result.Ok? ==> result.value == Flat(root, kept))
  {
    var kept := KeptIn(definitions, v2);
    FlatRefs(root, kept);
    forall r | r in Refs(Object(kept)) ensures RootForm(r) || V2Form(r) {
      KeptTargets(root, definitions, v2, r);
    }
    CheckedIff(Flat(root, kept), kept, Refs(Object(kept)));
  }

  // ----- meaning -----

  /** The definitions a reference is about. */
  function SourceOf(definitions: Definitions, v2: Definitions, r: string): Definitions {
    if V2Form(r) then v2 else definitions
  }

  /** Every reference that is kept names, in the flat document, the rewritten copy
      of what it named in the bundle. */
  ghost predicate MeaningPreserved(bundle: Value, flat: Value, kept: Definitions) {
    forall r | r in Refs(Object(kept)) ::
      Resolve(bundle, r).Some? && Resolve(flat, RewriteRef(r)) == Some(Rewrite(Resolve(bundle, r).value))
  }

  /** The name that a reference stands for is kept, with the same schema once rewritten. */
  predicate SameSchema(definitions: Definitions, v2: Definitions, kept: Definitions, r: string) {
    (RootForm(r) || V2Form(r)) &&
    var name, source := NameOf(r), SourceOf(definitions, v2, r);
    name in source && name in kept && Rewrite(kept[name]) == Rewrite(source[name])
  }

  ghost predicate SchemasAgree(definitions: Definitions, v2: Definitions, kept: Definitions) {
    forall r | r in Refs(Object(kept)) :: SameSchema(definitions, v2, kept, r)
  }

  /** What a kept reference names before and after. */
  lemma KeptMeaning(root: map<string, Value>, definitions: Definitions, v2: Definitions, r: string)
    requires Exportable(root, definitions, v2) && r in Refs(Object(KeptIn(definitions, v2)))
    ensures RootForm(r) || V2Form(r)
    ensures NameOf(r) in SourceOf(definitions, v2, r)
    ensures Resolve(Object(root), r) == Some(SourceOf(definitions, v2, r)[NameOf(r)])
    ensures var kept := KeptIn(definitions, v2);
            Resolve(Flat(root, kept), RewriteRef(r)) ==
              if NameOf(r) in kept then Some(Rewrite(kept[NameOf(r)])) else None
  {
    var kept := KeptIn(definitions, v2);
    KeptTargets(root, definitions, v2, r);
    Forms(r);
    assert RefHere(kept) == {};
    ResolveToken(Object(root), TokenOf(r));
    ResolveV2Token(Object(root), TokenOf(r));
    ResolveToken(Flat(root, kept), TokenOf(r));
    FlatDefinition(root, kept, NameOf(r));
  }

  lemma MeaningIff(root: map<string, Value>, definitions: Definitions, v2: Definitions)
    requires Exportable(root, definitions, v2)
    ensures var kept := KeptIn(definitions, v2);
            MeaningPreserved(Object(root), Flat(root, kept), kept) <==> SchemasAgree(definitions, v2, kept)
  {
    var kept := KeptIn(definitions, v2);
    forall r | r in Refs(Object(kept))
      ensures Resolve(Object(root), r).Some?
      ensures Resolve(Flat(root, kept), RewriteRef(r)) == Some(Rewrite(Resolve(Object(root), r).value)) <==>
              SameSchema(definitions, v2, kept, r)
    {
      KeptMeaning(root, definitions, v2, r);
    }
  }

  /** Flattening an exportable bundle succeeds if and only if every kept reference is
      spelled like a kept definition. When it does, its references are the kept ones
      rewritten, and they keep their meaning if and only if the name that each stands
      for is kept with the same schema. */
  lemma FlattenPreservesMeaning(root: map<string, Value>, definitions: Definitions, v2: Definitions)
    requires Exportable(root, definitions, v2)
    ensures var kept, result := KeptIn(definitions, v2), Flattened(Object(root));
            && (result.Ok? <==> Spelled(kept))
            && (result.Ok? ==>
                  && Refs(result.value) == (set r | r in Refs(Object(kept)) :: RewriteRef(r))
                  && (MeaningPreserved(Object(root), result.value, kept) <==> SchemasAgree(definitions, v2, kept)))
  {
    FlattenSucceeds(root, definitions, v2);
    FlatRefs(root, KeptIn(definitions, v2));
    MeaningIff(root, definitions, v2);
  }

  // ----- names that clash -----

  /** A reference to a name that both have names the loser in the bundle and the winner
      in the flat document. */
  lemma ClashResolves(root: map<string, Value>, definitions: Definitions, v2: Definitions, token: string)
    requires ObjectAt(root, "definitions") == Some(definitions) && ObjectAt(definitions, "v2") == Some(v2)
    requires RefHere(definitions) == {} && RefHere(v2) == {} && '/' !in token && TokenName(token).Some?
    requires TokenName(token).value in v2 && TokenName(token).value in definitions
    ensures var name, kept := TokenName(token).value, KeptIn(definitions, v2);
            var loser := (if name in SHARED then V2_PREFIX else DEFINITIONS_PREFIX) + token;
            && Resolve(Object(root), loser) == Some(if name in SHARED then v2[name] else definitions[name])
            && Resolve(Flat(root, kept), RewriteRef(loser)) ==
                 Some(Rewrite(if name in SHARED then definitions[name] else v2[name]))
  {
    var name, kept := TokenName(token).value, KeptIn(definitions, v2);
    assert RefHere(kept) == {};
    assert kept[name] == if name in SHARED then definitions[name] else v2[name];
    RewriteV2Ref(token);
    RewriteRootRef(token);
    ResolveToken(Object(root), token);
    ResolveV2Token(Object(root), token);
    ResolveToken(Flat(root, kept), token);
    FlatDefinition(root, kept, name);
  }

  /** The reference's token stands for itself, and v2 does not look outside with it. */
  predicate Direct(v2: Definitions, r: string) {
    (V2Form(r) || (RootForm(r) && r !in Refs(Object(v2)))) && NameOf(r) == TokenOf(r)
  }

  /** If the reference names the definition that lost its name to another one, the two
      read the same once rewritten. */
  predicate ClashAgrees(definitions: Definitions, v2: Definitions, r: string) {
    (RootForm(r) || V2Form(r)) &&
    var name := NameOf(r);
    name in v2 && name in definitions && (V2Form(r) <==> name in SHARED) ==>
      Rewrite(v2[name]) == Rewrite(definitions[name])
  }

  lemma WhichIsKept(definitions: Definitions, v2: Definitions, dependencies: set<string>, name: string)
    requires name in v2 || (name in dependencies && name in definitions && name != "v2")
    ensures var kept := Kept(definitions, v2, dependencies);
            && name in kept
            && kept[name] == if name in SHARED && name in definitions then definitions[name]
                             else if name in v2 then v2[name] else definitions[name]
  {
  }

  /** A direct kept reference is spelled like a kept definition, and agrees unless it
      names the loser of a clash that differs from the winner. */
  lemma DirectAgrees(root: map<string, Value>, definitions: Definitions, v2: Definitions, r: string)
    requires Exportable(root, definitions, v2) && r in Refs(Object(KeptIn(definitions, v2))) && Direct(v2, r)
    ensures TokenOf(r) in KeptIn(definitions, v2)
    ensures SameSchema(definitions, v2, KeptIn(definitions, v2), r) <==> ClashAgrees(definitions, v2, r)
  {
    KeptTargets(root, definitions, v2, r);
    WhichIsKept(definitions, v2, Dependencies(definitions), NameOf(r));
  }

  /** When all kept references are direct, flattening succeeds, and meaning is kept if and
      only if definitions that clash agree wherever the loser is named. */
  lemma FlattenDirect(root: map<string, Value>, definitions: Definitions, v2: Definitions)
    requires Exportable(root, definitions, v2)
    requires forall r | r in Refs(Object(KeptIn(definitions, v2))) :: Direct(v2, r)
    ensures var kept, result := KeptIn(definitions, v2), Flattened(Object(root));
            && result.Ok?
            && (MeaningPreserved(Object(root), result.value, kept) <==>
                forall r | r in Refs(Object(kept)) :: ClashAgrees(definitions, v2, r))
  {
    var kept := KeptIn(definitions, v2);
    forall r | r in Refs(Object(kept))
      ensures TokenOf(r) in kept && (SameSchema(definitions, v2, kept, r) <==> ClashAgrees(definitions, v2, r))
    {
      DirectAgrees(root, definitions, v2, r);
    }
    FlattenPreservesMeaning(root, definitions, v2);
  }

  /** When no v2 definition shares its name with a shared definition or one of its
      dependencies, flattening succeeds and keeps the meaning of every reference if and
      only if each kept reference that is not direct is spelled like a kept definition and
      stands for one with the same schema. */
  lemma FlattenDisjoint(root: map<string, Value>, definitions: Definitions, v2: Definitions)
    requires Exportable(root, definitions, v2)
    requires forall n | n in v2 :: n !in SHARED && n !in Dependencies(definitions)
    ensures var kept, result := KeptIn(definitions, v2), Flattened(Object(root));
            (result.Ok? && MeaningPreserved(Object(root), result.value, kept)) <==>
            forall r | r in Refs(Object(kept)) && !Direct(v2, r) ::
              (RootForm(r) || V2Form(r)) && TokenOf(r) in kept && SameSchema(definitions, v2, kept, r)
  {
    var kept := KeptIn(definitions, v2);
    forall r | r in Refs(Object(kept))
      ensures RootForm(r) || V2Form(r)
      ensures Direct(v2, r) ==> TokenOf(r) in kept && SameSchema(definitions, v2, kept, r)
    {
      KeptTargets(root, definitions, v2, r);
      if Direct(v2, r) {
        DirectAgrees(root, definitions, v2, r);
      }
    }
    FlattenPreservesMeaning(root, definitions, v2);
  }

  // ----- bundles that fail -----

  function RefTo(r: string): Value {
    Object(map["$ref" := String(r)])
  }

  /** A bundle whose only reference is that of its requests to `#/definitions/token`. */
  function Sample(token: string, name: string, definition: Value, v2: Definitions): Definitions {
    map[name := definition]["ClientRequest" := RefTo(DEFINITIONS_PREFIX + token)]["v2" := Object(v2)]
  }

  predicate Ordinary(name: string) {
    name != "v2" && name != "$ref" && name !in SHARED
  }

  predicate Sampled(token: string, name: string, definition: Value, v2: Definitions) {
    && '/' !in token && Ordinary(token) && Ordinary(name) && TokenName(token) == Some(name)
    && Refs(definition) == {} && Refs(Object(v2)) == {}
  }

  lemma SampleRefs(token: string, name: string, definition: Value, v2: Definitions)
    requires Sampled(token, name, definition, v2)
    ensures RefHere(Sample(token, name, definition, v2)) == {}
    ensures Refs(Object(Sample(token, name, definition, v2))) == {DEFINITIONS_PREFIX + token}
  {
    var definitions, request := Sample(token, name, definition, v2), RefTo(DEFINITIONS_PREFIX + token);
    assert Refs(request) == {DEFINITIONS_PREFIX + token} by {
      assert forall k | k in request.fields :: Refs(request.fields[k]) == {};
    }
    assert "ClientRequest" in SHARED && definitions["ClientRequest"] == request;
    assert forall k | k in definitions :: k == name || k == "ClientRequest" || k == "v2";
    assert definitions[name] == definition && definitions["v2"] == Object(v2);
  }

  lemma RootFormOf(token: string)
    requires '/' !in token && token != "v2" && TokenName(token).Some?
    ensures var r := DEFINITIONS_PREFIX + token;
            RootForm(r) && !V2Form(r) && TokenOf(r) == token && NameOf(r) == TokenName(token).value
  {
    var r := DEFINITIONS_PREFIX + token;
    assert r[|DEFINITIONS_PREFIX|..] == token;
    PrefixesDiffer(token);
  }

  lemma SampleExportable(token: string, name: string, definition: Value, v2: Definitions)
    requires Sampled(token, name, definition, v2)
    ensures var definitions := Sample(token, name, definition, v2);
            && Exportable(map["definitions" := Object(definitions)], definitions, v2)
            && DEFINITIONS_PREFIX + token in Refs(Object(KeptIn(definitions, v2)))
  {
    var definitions, r := Sample(token, name, definition, v2), DEFINITIONS_PREFIX + token;
    SampleRefs(token, name, definition, v2);
    RootFormOf(token);
    assert map["definitions" := Object(definitions)] - {"definitions"} == map[];
    SampleKept(token, name, definition, v2, Dependencies(definitions));
  }

  lemma SampleKept(token: string, name: string, definition: Value, v2: Definitions, dependencies: set<string>)
    requires Sampled(token, name, definition, v2)
    ensures var definitions := Sample(token, name, definition, v2);
            DEFINITIONS_PREFIX + token in Refs(Object(Kept(definitions, v2, dependencies)))
  {
    var definitions := Sample(token, name, definition, v2);
    var kept, r := Kept(definitions, v2, dependencies), DEFINITIONS_PREFIX + token;
    assert "ClientRequest" in SHARED && kept["ClientRequest"] == definitions["ClientRequest"] == RefTo(r);
    assert r in Refs(kept["ClientRequest"]);
  }

  /** A reference whose token stands for another name resolves, yet flattening fails:
      no definition is spelled like the token. */
  lemma EscapedNameFails(token: string, name: string, definition: Value)
    requires Sampled(token, name, definition, map[]) && token != name
    ensures var definitions := Sample(token, name, definition, map[]);
            var root := map["definitions" := Object(definitions)];
            && Exportable(root, definitions, map[])
            && Resolve(Object(root), DEFINITIONS_PREFIX + token) == Some(definition)
            && Flattened(Object(root)).Err?
  {
    var definitions := Sample(token, name, definition, map[]);
    SampleExportable(token, name, definition, map[]);
    ResolveToken(Object(map["definitions" := Object(definitions)]), token);
    NameAt(definitions, name);
    SampleFails(token, name, definition, map["definitions" := Object(definitions)], definitions);
  }

  lemma NameAt(definitions: Definitions, name: string)
    requires name in definitions
    ensures DefinitionAt(Object(map["definitions" := Object(definitions)]), name) == Some(definitions[name])
  {
  }

  lemma SampleFails(token: string, name: string, definition: Value, root: map<string, Value>,
                    definitions: Definitions)
    requires Sampled(token, name, definition, map[]) && token != name
    requires definitions == Sample(token, name, definition, map[]) && Exportable(root, definitions, map[])
    ensures Flattened(Object(root)).Err?
  {
    RootFormOf(token);
    FlattenSucceeds(root, definitions, map[]);
    SampleKept(token, name, definition, map[], Dependencies(definitions));
    TokenNotKept(token, name, definition, Dependencies(definitions));
    Misspelt(KeptIn(definitions, map[]), DEFINITIONS_PREFIX + token);
  }

  lemma TokenNotKept(token: string, name: string, definition: Value, dependencies: set<string>)
    requires Sampled(token, name, definition, map[]) && token != name
    ensures token !in Kept(Sample(token, name, definition, map[]), map[], dependencies)
  {
  }

  lemma Misspelt(kept: Definitions, r: string)
    requires r in Refs(Object(kept)) && (RootForm(r) || V2Form(r)) && TokenOf(r) !in kept
    ensures !Spelled(kept)
  {
  }

  /** `#/definitions/a~0` names the definition `a~`, and flattening a bundle that uses it fails. */
  lemma TildeFails(root: map<string, Value>, definitions: Definitions, definition: Value)
    requires definitions == Sample("a~0", "a~", definition, map[]) && Refs(definition) == {}
    requires root == map["definitions" := Object(definitions)]
    ensures Exportable(root, definitions, map[])
            && Resolve(Object(root), DEFINITIONS_PREFIX + "a~0") == Some(definition)
    ensures Flattened(Object(root)).Err?
  {
    EscapedToken();
    assert Refs(Object(map[])) == {};
    EscapedNameFails("a~0", "a~", definition);
  }

  /** For any two definitions that differ and share a name, a bundle whose requests refer
      to the root one flattens to a document where the reference names the other. */
  lemma ClashChangesMeaning(name: string, ours: Value, theirs: Value)
    requires PlainName(name) && Sampled(name, name, ours, map[name := theirs]) && Rewrite(ours) != Rewrite(theirs)
    ensures var definitions, v2 := Sample(name, name, ours, map[name := theirs]), map[name := theirs];
            var bundle := Object(map["definitions" := Object(definitions)]);
            Flattened(bundle).Ok? && !MeaningPreserved(bundle, Flattened(bundle).value, KeptIn(definitions, v2))
  {
    var definitions, v2 := Sample(name, name, ours, map[name := theirs]), map[name := theirs];
    var root, r, kept := map["definitions" := Object(definitions)], DEFINITIONS_PREFIX + name, KeptIn(definitions, v2);
    SampleExportable(name, name, ours, v2);
    SampleRefs(name, name, ours, v2);
    RootFormOf(name);
    forall q | q in Refs(Object(kept)) ensures Direct(v2, q) {
      KeptTargets(root, definitions, v2, q);
    }
    FlattenDirect(root, definitions, v2);
    assert !ClashAgrees(definitions, v2, r);
  }
}
