/** What pruning does to the references that are left: whether they still resolve, as
    JSON Pointers, to what they named before. */
module PruneMeaning {
  import opened Common
  import opened PercentText
  import opened RefGraph
  import opened Schema
  import opened Strings
  import opened PruneDefinitions

  predicate HasUnion(schema: Value) {
    schema.Object? && "oneOf" in schema.fields && schema.fields["oneOf"].Array?
  }

  function VariantsOf(schema: Value): seq<Value>
    requires HasUnion(schema)
  {
    schema.fields["oneOf"].items
  }

  /** The schema has a union to strip and definitions to prune. */
  predicate Prunable(schema: Value) {
    HasUnion(schema) && "definitions" in schema.fields && schema.fields["definitions"].Object?
  }

  function RootOf(schema: Value, methods: set<string>): map<string, Value>
    requires Prunable(schema)
  {
    Stripped(schema.fields, methods)
  }

  function DefinitionsOf(schema: Value): Definitions
    requires Prunable(schema)
  {
    schema.fields["definitions"].fields
  }

  ghost function KeptOf(schema: Value, methods: set<string>): Definitions
    requires Prunable(schema)
  {
    Retained(DefinitionsOf(schema), ReachableFrom(RootOf(schema, methods), DefinitionsOf(schema)))
  }

  lemma PrunedIs(schema: Value, methods: set<string>)
    requires Prunable(schema)
    ensures Pruned(schema, methods) == Object(RootOf(schema, methods)["definitions" := Object(KeptOf(schema, methods))])
  {
  }

  // ----- which references are left -----

  /** The reference is left after pruning: it is outside the definitions or in one that
      is reachable. A definition called `$ref` that is a string counts as a reference. */
  ghost predicate Survives(root: map<string, Value>, definitions: Definitions, r: string) {
    || r in RestRefs(root)
    || (exists d :: d in definitions && ReachableName(root, definitions, d) && r in Refs(definitions[d]))
    || (r in RefHere(definitions) && ReachableName(root, definitions, "$ref"))
  }

  lemma RefsOfRoot(root: map<string, Value>, definitions: Definitions, r: string)
    ensures r in Refs(Object(root["definitions" := Object(definitions)])) <==>
            r in RestRefs(root) || r in Refs(Object(definitions))
  {
    var whole, rest := root["definitions" := Object(definitions)], root - {"definitions"};
    assert RefHere(whole) == RefHere(rest);
    assert whole["definitions"] == Object(definitions);
    assert forall k :: k in rest <==> k in whole && k != "definitions";
    assert forall k | k in rest :: whole[k] == rest[k];
  }

  lemma SurvivesIff(schema: Value, methods: set<string>, r: string)
    requires Prunable(schema)
    ensures r in Refs(Pruned(schema, methods)) <==> Survives(RootOf(schema, methods), DefinitionsOf(schema), r)
  {
    var root, definitions, kept := RootOf(schema, methods), DefinitionsOf(schema), KeptOf(schema, methods);
    PrunedIs(schema, methods);
    RefsOfRoot(root, kept, r);
    forall d ensures d in kept <==> d in definitions && ReachableName(root, definitions, d) {
      PruneKeepsReachable(root, definitions, d);
    }
    assert r in RefHere(kept) <==> r in RefHere(definitions) && "$ref" in kept;
    assert r in Refs(Object(kept)) <==> r in RefHere(kept) || exists d :: d in kept && r in Refs(kept[d]);
  }

  // ----- where references lead -----

  /** The reference leads to the definition or to a place inside it. */
  predicate LeadsInto(r: string, n: string) {
    Path(r).Some? && |Path(r).value| >= 2 && Path(r).value[0] == "definitions" && Path(r).value[1] == n
  }

  /** The reference leads to a position of the root union or to a place inside it. */
  predicate LeadsToVariant(r: string, i: nat) {
    && Path(r).Some? && |Path(r).value| >= 2 && Path(r).value[0] == "oneOf"
    && ArrayIndex(Path(r).value[1]) == Some(i)
  }

  /** Two steps of a walk from an object. */
  lemma WalkTwice(fields: map<string, Value>, path: seq<string>)
    requires |path| >= 2 && path[0] in fields
    ensures Walk(Object(fields), path) ==
            var child := Child(fields[path[0]], path[1]);
            if child.None? then None else Walk(child.value, path[2..])
  {
    assert path[1..][0] == path[1] && path[1..][1..] == path[2..];
  }

  /** A walk does not see changes elsewhere in the root. */
  lemma WalkElsewhere(before: map<string, Value>, after: map<string, Value>, path: seq<string>)
    requires before.Keys == after.Keys
    requires |path| >= 2 && path[0] in before ==> before[path[0]] == after[path[0]]
    ensures Walk(Object(before), path).Some? <==> Walk(Object(after), path).Some?
  {
  }

  /** What stripping and pruning do to the members of the root. */
  lemma PrunedRoot(schema: Value, methods: set<string>)
    requires HasUnion(schema)
    ensures var fields, after := schema.fields, Pruned(schema, methods);
            && after.Object? && after.fields.Keys == fields.Keys
            && after.fields["oneOf"] == Array(WithoutVariants(VariantsOf(schema), methods))
            && (forall k | k in fields && k != "oneOf" && (k != "definitions" || !Prunable(schema)) ::
                  after.fields[k] == fields[k])
  {
  }

  /** A reference into a definition resolves to the same as before if the definition is
      reachable, and to nothing otherwise. */
  lemma ResolveInto(schema: Value, methods: set<string>, r: string, n: string)
    requires Prunable(schema) && LeadsInto(r, n)
    ensures Resolve(Pruned(schema, methods), r) ==
            if ReachableName(RootOf(schema, methods), DefinitionsOf(schema), n) then Resolve(schema, r) else None
  {
    var path, definitions := Path(r).value, DefinitionsOf(schema);
    PrunedIs(schema, methods);
    WalkTwice(schema.fields, path);
    WalkTwice(Pruned(schema, methods).fields, path);
    PruneKeepsReachable(RootOf(schema, methods), definitions, n);
  }

  /** A reference to a position of the union resolves in the variant that is there. */
  lemma ResolveVariant(schema: Value, methods: set<string>, r: string, i: nat)
    requires HasUnion(schema) && LeadsToVariant(r, i)
    ensures var variants, rest := VariantsOf(schema), Path(r).value[2..];
            var kept := WithoutVariants(variants, methods);
            && Resolve(schema, r) == (if i < |variants| then Walk(variants[i], rest) else None)
            && Resolve(Pruned(schema, methods), r) == (if i < |kept| then Walk(kept[i], rest) else None)
  {
    var path := Path(r).value;
    PrunedRoot(schema, methods);
    WalkTwice(schema.fields, path);
    WalkTwice(Pruned(schema, methods).fields, path);
  }

  /** References that lead neither into a definition nor to a variant keep resolving. */
  lemma ResolveElsewhere(schema: Value, methods: set<string>, r: string)
    requires HasUnion(schema) && (forall i :: !LeadsToVariant(r, i))
    requires Prunable(schema) ==> forall n :: !LeadsInto(r, n)
    ensures Resolve(schema, r).Some? <==> Resolve(Pruned(schema, methods), r).Some?
  {
    PrunedRoot(schema, methods);
    var fields, after := schema.fields, Pruned(schema, methods).fields;
    if Path(r).Some? {
      var path := Path(r).value;
      if |path| >= 2 && path[0] == "oneOf" {
        WalkTwice(fields, path);
        WalkTwice(after, path);
        assert ArrayIndex(path[1]).Some? ==> LeadsToVariant(r, ArrayIndex(path[1]).value);
      } else {
        assert |path| >= 2 && path[0] == "definitions" ==> LeadsInto(r, path[1]);
        WalkElsewhere(fields, after, path);
      }
    }
  }

  // ----- where variants go -----

  /** How many of the variants before a position are left. */
  function Ahead(variants: seq<Value>, methods: set<string>, j: nat): nat
    requires j <= |variants|
  {
    |WithoutVariants(variants[..j], methods)|
  }

  /** A variant that is left moves to the place that those left before it leave it. */
  lemma {:induction false} VariantMoves(variants: seq<Value>, methods: set<string>, j: nat)
    requires j < |variants| && !IsMethodVariant(variants[j], methods)
    ensures var kept := WithoutVariants(variants, methods);
            Ahead(variants, methods, j) < |kept| && kept[Ahead(variants, methods, j)] == variants[j]
  {
    var init := variants[..|variants| - 1];
    if j < |init| {
      VariantMoves(init, methods, j);
      assert init[..j] == variants[..j];
    }
  }

  lemma {:induction false} VariantFrom(variants: seq<Value>, methods: set<string>, i: nat) returns (j: nat)
    requires i < |WithoutVariants(variants, methods)|
    ensures j < |variants| && !IsMethodVariant(variants[j], methods) && Ahead(variants, methods, j) == i
  {
    var init := variants[..|variants| - 1];
    if i < |WithoutVariants(init, methods)| {
      j := VariantFrom(init, methods, i);
      assert init[..j] == variants[..j];
    } else {
      j := |variants| - 1;
    }
  }

  predicate NoneRemoved(variants: seq<Value>, methods: set<string>) {
    forall k | 0 <= k < |variants| :: !IsMethodVariant(variants[k], methods)
  }

  lemma {:induction false} AllLeft(variants: seq<Value>, methods: set<string>)
    ensures |WithoutVariants(variants, methods)| <= |variants|
    ensures |WithoutVariants(variants, methods)| == |variants| <==> NoneRemoved(variants, methods)
  {
    if variants != [] {
      var init, last := variants[..|variants| - 1], variants[|variants| - 1];
      AllLeft(init, methods);
      assert variants == init + [last];
      assert NoneRemoved(variants, methods) <==> NoneRemoved(init, methods) && !IsMethodVariant(last, methods);
    }
  }

  /** A position names the same variant as before if and only if neither that nor one
      before it is removed. */
  lemma VariantInPlace(variants: seq<Value>, methods: set<string>, i: nat)
    requires i < |variants|
    ensures !IsMethodVariant(variants[i], methods) && Ahead(variants, methods, i) == i <==>
            NoneRemoved(variants[..i + 1], methods)
  {
    AllLeft(variants[..i], methods);
    assert variants[..i + 1] == variants[..i] + [variants[i]];
  }

  /** The variant that moves to the position has what the rest of the path leads to. */
  predicate VariantStays(variants: seq<Value>, methods: set<string>, i: nat, rest: seq<string>) {
    exists j: nat | j < |variants| ::
      !IsMethodVariant(variants[j], methods) && Ahead(variants, methods, j) == i && Walk(variants[j], rest).Some?
  }

  lemma StaysIff(variants: seq<Value>, methods: set<string>, i: nat, rest: seq<string>)
    ensures var kept := WithoutVariants(variants, methods);
            VariantStays(variants, methods, i, rest) <==> i < |kept| && Walk(kept[i], rest).Some?
  {
    var kept := WithoutVariants(variants, methods);
    if VariantStays(variants, methods, i, rest) {
      var j: nat :| j < |variants| && !IsMethodVariant(variants[j], methods) && Ahead(variants, methods, j) == i
                    && Walk(variants[j], rest).Some?;
      VariantMoves(variants, methods, j);
    }
    if i < |kept| && Walk(kept[i], rest).Some? {
      var j := VariantFrom(variants, methods, i);
      VariantMoves(variants, methods, j);
    }
  }

  // ----- dangling references -----

  /** A reference that is left after pruning resolved before and does not any more. */
  ghost predicate Dangles(schema: Value, methods: set<string>, r: string) {
    && r in Refs(Pruned(schema, methods))
    && Resolve(schema, r).Some? && Resolve(Pruned(schema, methods), r).None?
  }

  /** Pruning reads the reference when it looks for what is reachable. */
  ghost predicate Followed(root: map<string, Value>, definitions: Definitions, r: string) {
    || r in OuterRefs(Object(root))
    || exists d :: d in definitions && ReachableName(root, definitions, d) && r in Refs(definitions[d])
  }

  /** The name that a reference is spelled with is reachable if the reference is followed. */
  lemma FollowedReachable(root: map<string, Value>, definitions: Definitions, r: string)
    requires Followed(root, definitions, r) && LocalName(r).Some?
    ensures ReachableName(root, definitions, LocalName(r).value)
  {
    var g, seeds, n := LocalGraph(definitions), LocalNames(OuterRefs(Object(root))), LocalName(r).value;
    ClosureIsLeast(g, seeds);
    if r in OuterRefs(Object(root)) {
      assert n in seeds;
    } else {
      var d :| d in definitions && ReachableName(root, definitions, d) && r in Refs(definitions[d]);
      assert n in Next(g, d);
      PruneKeepsReachable(root, definitions, d);
    }
    assert n in Closure(g, seeds);
  }

  /** The definition that the reference leads into is not reachable. */
  ghost predicate LosesDefinition(schema: Value, methods: set<string>, r: string)
    requires Prunable(schema)
  {
    && Resolve(schema, r).Some?
    && exists n :: LeadsInto(r, n) && !ReachableName(RootOf(schema, methods), DefinitionsOf(schema), n)
  }

  /** The reference leads to a position of the union that no variant moves to which has
      what the reference names. */
  ghost predicate LosesVariant(schema: Value, methods: set<string>, r: string)
    requires HasUnion(schema)
  {
    && Resolve(schema, r).Some?
    && exists i :: LeadsToVariant(r, i) && !VariantStays(VariantsOf(schema), methods, i, Path(r).value[2..])
  }

  lemma VariantLost(schema: Value, methods: set<string>, r: string, i: nat)
    requires HasUnion(schema) && LeadsToVariant(r, i) && Resolve(schema, r).Some?
    ensures LosesVariant(schema, methods, r) <==> Resolve(Pruned(schema, methods), r).None?
  {
    ResolveVariant(schema, methods, r, i);
    StaysIff(VariantsOf(schema), methods, i, Path(r).value[2..]);
    assert forall k | LeadsToVariant(r, k) :: k == i;
  }

  /** One reference: it dangles if and only if it survives and loses what it leads into. */
  lemma DanglesIff(schema: Value, methods: set<string>, r: string)
    requires Prunable(schema)
    ensures Dangles(schema, methods, r) <==>
            && Survives(RootOf(schema, methods), DefinitionsOf(schema), r)
            && (LosesDefinition(schema, methods, r) || LosesVariant(schema, methods, r))
  {
    SurvivesIff(schema, methods, r);
    if Resolve(schema, r).Some? {
      if n :| LeadsInto(r, n) {
        ResolveInto(schema, methods, r, n);
        assert forall m | LeadsInto(r, m) :: m == n;
        assert forall i :: !LeadsToVariant(r, i);
      } else if i :| LeadsToVariant(r, i) {
        VariantLost(schema, methods, r, i);
      } else {
        ResolveElsewhere(schema, methods, r);
      }
    }
  }

  /** The definition that a surviving reference leads into is in danger: pruning did
      not see the reference, or read another name in it. */
  ghost predicate Overlooked(schema: Value, methods: set<string>, r: string, n: string)
    requires Prunable(schema)
  {
    var root, definitions := RootOf(schema, methods), DefinitionsOf(schema);
    && Survives(root, definitions, r) && LeadsInto(r, n) && Resolve(schema, r).Some?
    && !(Followed(root, definitions, r) && LocalName(r) == Some(n))
  }

  /** Pruning leaves no reference dangling if and only if every definition is reachable
      that a surviving reference leads into from a nested definition map or under
      another spelling than its name, and every surviving reference to a position of the
      union still finds what it names in the variant that moves there. */
  lemma PruneDangling(schema: Value, methods: set<string>)
    requires Prunable(schema)
    ensures (forall r :: !Dangles(schema, methods, r)) <==>
            && (forall r, n | Overlooked(schema, methods, r, n) ::
                  ReachableName(RootOf(schema, methods), DefinitionsOf(schema), n))
            && (forall r | Survives(RootOf(schema, methods), DefinitionsOf(schema), r) ::
                  !LosesVariant(schema, methods, r))
  {
    var root, definitions := RootOf(schema, methods), DefinitionsOf(schema);
    forall r
      ensures Dangles(schema, methods, r) <==>
              && Survives(root, definitions, r)
              && (LosesDefinition(schema, methods, r) || LosesVariant(schema, methods, r))
      ensures Survives(root, definitions, r) && LosesDefinition(schema, methods, r) <==>
              exists n :: Overlooked(schema, methods, r, n) && !ReachableName(root, definitions, n)
    {
      DanglesIff(schema, methods, r);
      OverlookedIff(schema, methods, r);
    }
  }

  /** What a surviving reference loses was overlooked. */
  lemma OverlookedIff(schema: Value, methods: set<string>, r: string)
    requires Prunable(schema)
    ensures Survives(RootOf(schema, methods), DefinitionsOf(schema), r) && LosesDefinition(schema, methods, r) <==>
            exists n :: Overlooked(schema, methods, r, n) &&
                        !ReachableName(RootOf(schema, methods), DefinitionsOf(schema), n)
  {
    var root, definitions := RootOf(schema, methods), DefinitionsOf(schema);
    if Survives(root, definitions, r) && LosesDefinition(schema, methods, r) {
      var n :| LeadsInto(r, n) && !ReachableName(root, definitions, n);
      if !Overlooked(schema, methods, r, n) {
        FollowedReachable(root, definitions, r);
      }
    }
  }

  /** A schema without definitions to prune leaves nothing dangling if and only if it has
      no union, or every reference left to a position of the union still finds what it
      names in the variant that moves there. */
  lemma UnprunedKeeps(schema: Value, methods: set<string>)
    requires !Prunable(schema)
    ensures (forall r :: !Dangles(schema, methods, r)) <==>
            HasUnion(schema) ==>
              forall r | r in Refs(Object(Stripped(schema.fields, methods))) :: !LosesVariant(schema, methods, r)
  {
    if HasUnion(schema) {
      assert Pruned(schema, methods) == Object(Stripped(schema.fields, methods));
      forall r
        ensures Dangles(schema, methods, r) <==> r in Refs(Pruned(schema, methods)) && LosesVariant(schema, methods, r)
      {
        if i :| LeadsToVariant(r, i) {
          if Resolve(schema, r).Some? {
            VariantLost(schema, methods, r, i);
          }
        } else {
          ResolveElsewhere(schema, methods, r);
        }
      }
    }
  }

  /** When the only definition map is the top-level one, the definitions that survive
      are exactly those the rest of the stripped schema reaches. Nothing is left
      dangling if and only if every surviving reference into a definition leads into the
      one it is spelled with, or into another one that is reachable too, and every
      surviving reference to a position of the union finds what it names in the variant
      that moves there. */
  lemma PruneExact(schema: Value, methods: set<string>)
    requires Prunable(schema) && RefHere(DefinitionsOf(schema)) == {}
    requires NoMaps(Object(RootOf(schema, methods) - {"definitions"}))
    ensures var root, definitions := RootOf(schema, methods), DefinitionsOf(schema);
            && (forall n :: n in KeptOf(schema, methods) <==>
                  n in definitions && Reachable(LocalGraph(definitions), LocalNames(RestRefs(root)), n))
            && ((forall r :: !Dangles(schema, methods, r)) <==>
                && (forall r, n | Survives(root, definitions, r) && LeadsInto(r, n) && Resolve(schema, r).Some?
                                  && LocalName(r) != Some(n) :: ReachableName(root, definitions, n))
                && (forall r | Survives(root, definitions, r) :: !LosesVariant(schema, methods, r)))
  {
    var root, definitions := RootOf(schema, methods), DefinitionsOf(schema);
    OuterIsRest(root);
    forall n ensures n in KeptOf(schema, methods) <==>
                     n in definitions && Reachable(LocalGraph(definitions), LocalNames(RestRefs(root)), n)
    {
      PruneKeepsReachable(root, definitions, n);
    }
    forall r, n ensures Overlooked(schema, methods, r, n) <==>
                        Survives(root, definitions, r) && LeadsInto(r, n) && Resolve(schema, r).Some?
                        && LocalName(r) != Some(n)
    {
    }
    PruneDangling(schema, methods);
  }

  /** In particular nothing dangles when the followed references need no escapes. */
  lemma PlainPruneExact(schema: Value, methods: set<string>)
    requires Prunable(schema) && RefHere(DefinitionsOf(schema)) == {}
    requires NoMaps(Object(RootOf(schema, methods) - {"definitions"}))
    requires forall r | Survives(RootOf(schema, methods), DefinitionsOf(schema), r) ::
               exists n :: PlainName(n) && r == DEFINITIONS_PREFIX + n
    ensures forall r :: !Dangles(schema, methods, r)
  {
    PruneExact(schema, methods);
    forall r, n | Survives(RootOf(schema, methods), DefinitionsOf(schema), r) && LeadsInto(r, n)
      ensures LocalName(r) == Some(n)
    {
      var m :| PlainName(m) && r == DEFINITIONS_PREFIX + m;
      TokenPlain(m);
      TokenPaths(m);
      LocalNameOf(m);
    }
    forall r | Survives(RootOf(schema, methods), DefinitionsOf(schema), r)
      ensures !LosesVariant(schema, methods, r)
    {
      var m :| PlainName(m) && r == DEFINITIONS_PREFIX + m;
      TokenPlain(m);
      TokenPaths(m);
    }
  }

  lemma LocalNameOf(n: string)
    requires '/' !in n
    ensures LocalName(DEFINITIONS_PREFIX + n) == Some(n)
  {
    assert (DEFINITIONS_PREFIX + n)[|DEFINITIONS_PREFIX|..] == n;
    SplitWhole(n, '/');
  }

  // ----- schemas that dangle -----

  /** A stripped schema with one other member and one definition. */
  function Sample(member: Value, name: string, definition: Value): Value {
    Object(map["oneOf" := Array([]), "not" := member, "definitions" := Object(map[name := definition])])
  }

  lemma SampleRoot(member: Value, name: string, definition: Value, methods: set<string>)
    ensures var schema := Sample(member, name, definition);
            && Prunable(schema) && DefinitionsOf(schema) == map[name := definition]
            && RootOf(schema, methods) == schema.fields
  {
    var fields := Sample(member, name, definition).fields;
    assert WithoutVariants([], methods) == [];
    assert fields["oneOf" := Array([])] == fields;
  }

  lemma SampleOuterRefs(member: Value, name: string, definition: Value)
    ensures OuterRefs(Sample(member, name, definition)) == OuterRefs(member)
  {
    var fields := Sample(member, name, definition).fields;
    assert RefHere(fields) == {} && OuterRefs(fields["oneOf"]) == {} && fields["not"] == member;
    assert forall k | k in fields && !IsDefinitionMap(k) :: k == "oneOf" || k == "not";
  }

  lemma SampleRestRefs(member: Value, name: string, definition: Value)
    ensures RestRefs(Sample(member, name, definition).fields) == Refs(member)
  {
    var rest := Sample(member, name, definition).fields - {"definitions"};
    assert RefHere(rest) == {} && Refs(rest["oneOf"]) == {} && rest["not"] == member;
    assert forall k | k in rest :: k == "oneOf" || k == "not";
  }

  /** What is not reachable by name from the only followed references is lost. */
  lemma SampleDangles(member: Value, name: string, definition: Value, methods: set<string>, r: string, token: string)
    requires r in Refs(member) && LeadsInto(r, name) && Resolve(Sample(member, name, definition), r).Some?
    requires OuterRefs(member) == {} || (OuterRefs(member) == {r} && LocalName(r) == Some(token) && token != name)
    ensures name !in KeptOf(Sample(member, name, definition), methods)
    ensures Dangles(Sample(member, name, definition), methods, r)
  {
    var schema := Sample(member, name, definition);
    SampleRoot(member, name, definition, methods);
    SampleOuterRefs(member, name, definition);
    SampleRestRefs(member, name, definition);
    var root, definitions := RootOf(schema, methods), DefinitionsOf(schema);
    var g, seeds := LocalGraph(definitions), LocalNames(OuterRefs(Object(root)));
    assert Closed(g, seeds) && name !in seeds;
    if ReachableName(root, definitions, name) {
      var path :| Chain(g, seeds, path, name);
      ChainStays(g, seeds, path, name, seeds);
    }
    PruneKeepsReachable(root, definitions, name);
    SurvivesIff(schema, methods, r);
    ResolveInto(schema, methods, r, name);
  }

  lemma SampleResolves(member: Value, name: string, definition: Value, token: string)
    requires TokenName(token) == Some(name)
    ensures LeadsInto(DEFINITIONS_PREFIX + token, name)
    ensures Resolve(Sample(member, name, definition), DEFINITIONS_PREFIX + token) == Some(definition)
  {
    TokenPaths(token);
    ResolveToken(Sample(member, name, definition), token);
  }

  function RefTo(r: string): Value {
    Object(map["$ref" := String(r)])
  }

  lemma RefToRefs(r: string)
    ensures Refs(RefTo(r)) == {r} && OuterRefs(RefTo(r)) == {r}
  {
    var fields := RefTo(r).fields;
    assert RefHere(fields) == {r} && forall k | k in fields :: Refs(fields[k]) == {} && OuterRefs(fields[k]) == {};
  }

  /** A reference inside a nested definition map does not save the definition it names,
      and is left dangling. */
  lemma HiddenRefDangles(n: string, definition: Value, methods: set<string>)
    requires PlainName(n)
    ensures var hidden := Object(map["$defs" := Object(map["x" := RefTo(DEFINITIONS_PREFIX + n)])]);
            var schema := Sample(hidden, n, definition);
            && Resolve(schema, DEFINITIONS_PREFIX + n) == Some(definition)
            && n !in KeptOf(schema, methods) && Dangles(schema, methods, DEFINITIONS_PREFIX + n)
  {
    var r := DEFINITIONS_PREFIX + n;
    var inner := Object(map["x" := RefTo(r)]);
    var member := Object(map["$defs" := inner]);
    RefToRefs(r);
    assert inner.fields["x"] == RefTo(r) && member.fields["$defs"] == inner;
    assert r in Refs(inner);
    assert r in Refs(member);
    assert OuterRefs(member) == {};
    TokenPlain(n);
    SampleResolves(member, n, definition, n);
    SampleDangles(member, n, definition, methods, r, n);
  }

  /** A reference whose token stands for another name does not save the definition it
      names, and is left dangling. */
  lemma EscapedRefDangles(token: string, name: string, definition: Value, methods: set<string>)
    requires '/' !in token && TokenName(token) == Some(name) && token != name
    ensures var schema := Sample(RefTo(DEFINITIONS_PREFIX + token), name, definition);
            && Resolve(schema, DEFINITIONS_PREFIX + token) == Some(definition)
            && name !in KeptOf(schema, methods) && Dangles(schema, methods, DEFINITIONS_PREFIX + token)
  {
    var r := DEFINITIONS_PREFIX + token;
    var member := RefTo(r);
    RefToRefs(r);
    LocalNameOf(token);
    SampleResolves(member, name, definition, token);
    SampleDangles(member, name, definition, methods, r, token);
  }

  /** `#/definitions/a~0` names the definition `a~`, which pruning removes. */
  lemma TildeDangles(schema: Value, definition: Value, methods: set<string>)
    requires schema == Sample(RefTo("#/definitions/a~0"), "a~", definition)
    ensures Dangles(schema, methods, "#/definitions/a~0")
  {
    var token := "a~0";
    EscapedToken();
    assert DEFINITIONS_PREFIX + token == "#/definitions/a~0";
    EscapedRefDangles(token, "a~", definition, methods);
  }

  /** So does every definition with a plain name that is referred to with its bytes escaped. */
  lemma PercentRefDangles(name: string, definition: Value, methods: set<string>)
    requires PlainName(name) && name != ""
    ensures var r := DEFINITIONS_PREFIX + EscapeAll(name);
            var schema := Sample(RefTo(r), name, definition);
            Resolve(schema, r) == Some(definition) && Dangles(schema, methods, r)
  {
    EscapedSpelling(name);
    EscapedRefDangles(EscapeAll(name), name, definition, methods);
  }

  /** A schema whose union loses a variant, and with a reference to the last position. */
  function UnionSample(removed: Value, kept: Value): Value {
    Object(map["oneOf" := Array([removed, kept]), "not" := RefTo("#/oneOf/1"), "definitions" := Object(map[])])
  }

  lemma UnionSpelled()
    ensures "#" + ("/" + ("oneOf" + "/")) + "1" == "#/oneOf/1" && '%' !in "oneOf" + "/"
  {
  }

  /** The token of the second position. */
  lemma SecondToken(token: string)
    requires token == Decimal(1)
    ensures PlainName(token) && Percent(token) == Some(token) && DecodeToken(token) == token
    ensures ArrayIndex(token) == Some(1)
  {
    IndexIff(token, 1);
    assert |token| == 1 && token[0] == '1';
    PercentPlain(token, "");
    assert token + "" == token;
    DecodePlain(token);
  }

  lemma UnionPath()
    ensures Path("#/oneOf/1") == Some(["oneOf", Decimal(1)]) && ArrayIndex(Decimal(1)) == Some(1)
  {
    var token := Decimal(1);
    assert token == "1";
    SecondToken(token);
    TokenPlain(token);
    UnionSpelled();
    PathOf("oneOf" + "/", token);
    TwoKeys("oneOf", token);
  }

  lemma StripPair(removed: Value, kept: Value, methods: set<string>)
    requires IsMethodVariant(removed, methods) && !IsMethodVariant(kept, methods)
    ensures WithoutVariants([removed, kept], methods) == [kept]
  {
    var one, two := [removed], [removed, kept];
    assert one[..|one| - 1] == [] && two[..|two| - 1] == one;
    assert WithoutVariants([], methods) == [];
    assert WithoutVariants(one, methods) == [];
  }

  /** Removing a variant leaves the last position of the union empty, and a reference to
      it dangling. */
  lemma UnionRefDangles(removed: Value, kept: Value, methods: set<string>)
    requires IsMethodVariant(removed, methods) && !IsMethodVariant(kept, methods)
    ensures Resolve(UnionSample(removed, kept), "#/oneOf/1") == Some(kept)
    ensures Dangles(UnionSample(removed, kept), methods, "#/oneOf/1")
  {
    var schema, r := UnionSample(removed, kept), "#/oneOf/1";
    StripPair(removed, kept, methods);
    UnionPath();
    assert LeadsToVariant(r, 1) && Path(r).value[2..] == [];
    ResolveVariant(schema, methods, r, 1);
    PrunedIs(schema, methods);
    RefToRefs(r);
    assert Pruned(schema, methods).fields["not"] == RefTo(r);
    assert r in Refs(Pruned(schema, methods));
  }

  /** A variant for one method. */
  function MethodVariant(name: string): Value {
    Object(map["properties" := Object(map["method" := Object(map["const" := String(name)])])])
  }

  /** Removing `m` from a union of `m` and `k` breaks the reference to `k`. */
  lemma MethodRefDangles()
    ensures Dangles(UnionSample(MethodVariant("m"), MethodVariant("k")), {"m"}, "#/oneOf/1")
  {
    assert IsMethodVariant(MethodVariant("m"), {"m"}) && !IsMethodVariant(MethodVariant("k"), {"m"});
    UnionRefDangles(MethodVariant("m"), MethodVariant("k"), {"m"});
  }
}
