/** Flattening the v2 namespace of a schema bundle into its root definitions. */
module FlatBundle {
  import opened Common
  import opened RefGraph
  import opened Schema

  const SHARED := ["ClientRequest", "ServerNotification"]

  // ----- dependency closure -----

  function DependencyGraph(definitions: Definitions): Graph {
    map n | n in definitions :: NonV2Refs(definitions[n])
  }

  /** The references that still have to be visited. */
  method Unseen(refs: set<string>, seen: set<string>) returns (more: seq<string>)
    ensures Elements(more) == refs - seen
  {
    more := [];
    var deps := ListSet(refs);
    for i := 0 to |deps|
      invariant Elements(more) == Elements(deps[..i]) - seen
    {
      assert deps[..i + 1] == deps[..i] + [deps[i]];
      assert Elements(deps[..i + 1]) == Elements(deps[..i]) + {deps[i]};
      if deps[i] !in seen {
        assert Elements(more + [deps[i]]) == Elements(more) + {deps[i]};
        more := more + [deps[i]];
      }
    }
    assert deps[..|deps|] == deps;
  }

  /** The names reached from `names` through references outside v2. Names are
      listed and popped in no particular order, and may have no definition. */
  method CollectDefinitionDependencies(definitions: Definitions, names: set<string>) returns (seen: set<string>)
    ensures LeastClosed(DependencyGraph(definitions), names, seen)
    ensures seen == Closure(DependencyGraph(definitions), names)
  {
    ghost var g := DependencyGraph(definitions);
    seen := {};
    var toProcess := ListSet(names);
    while toProcess != []
      invariant Exploring(g, names, seen, toProcess)
      decreases |Universe(g, names) - seen|, |toProcess|
    {
      var name := toProcess[|toProcess| - 1];
      ghost var before := toProcess;
      toProcess := toProcess[..|toProcess| - 1];
      if name in seen {
        ExploreSkip(g, names, seen, before);
        continue;
      }
      assert name in Elements(before);
      ghost var seenBefore := seen;
      seen := seen + {name};
      FewerLeft(Universe(g, names), seenBefore, seen);
      var more: seq<string> := [];
      if name in definitions {
        more := Unseen(NonV2Refs(definitions[name]), seen);
      }
      ExploreStep(g, names, seenBefore, before, more);
      toProcess := toProcess + more;
    }
    ExploredAll(g, names, seen);
    ClosureIsLeast(g, names);
    LeastClosedUnique(g, names, seen, Closure(g, names));
  }

  // ----- flattening -----

  datatype Error =
    | NotAnObject
    | NoDefinitions
    | NoV2Namespace
    | StillNamespaced
    | MissingDefinitions(names: set<string>)

  function ObjectAt(fields: map<string, Value>, key: string): Option<map<string, Value>> {
    if key in fields && fields[key].Object? then Some(fields[key].fields) else None
  }

  /** The root schemas that stay in the flat bundle whatever they refer to. */
  function SharedDefinitions(definitions: Definitions): Definitions {
    map n | n in SHARED && n in definitions :: definitions[n]
  }

  function SharedRefs(definitions: Definitions): set<string> {
    set n, r | n in SHARED && n in definitions && r in NonV2Refs(definitions[n]) :: r
  }

  ghost function Dependencies(definitions: Definitions): set<string> {
    Closure(DependencyGraph(definitions), SharedRefs(definitions))
  }

  /** v2 definitions, then dependencies under names v2 does not use, then shared
      definitions over both. */
  function Kept(definitions: Definitions, v2: Definitions, dependencies: set<string>): Definitions {
    v2
    + (map n | n in dependencies && n in definitions && n != "v2" && n !in v2 :: definitions[n])
    + SharedDefinitions(definitions)
  }

  function Title(root: map<string, Value>): string {
    if "title" in root && root["title"].String? then root["title"].text else "CodexAppServerProtocol"
  }

  function FlatRoot(root: map<string, Value>, kept: Definitions): map<string, Value> {
    root["title" := String(Title(root) + "V2")]["definitions" := Object(kept)]
  }

  /** The flat document is refused if a reference into v2 is left or a referenced
      definition is missing. */
  function Checked(flat: Value, definitions: Definitions): Result<Value, Error> {
    var missing := LocalNames(Refs(flat)) - definitions.Keys;
    if exists r | r in Refs(flat) :: V2_PREFIX <= r then Err(StillNamespaced)
    else if missing != {} then Err(MissingDefinitions(missing))
    else Ok(flat)
  }

  ghost function Flattened(bundle: Value): Result<Value, Error> {
    if !bundle.Object? then Err(NotAnObject)
    else
      var definitions := ObjectAt(bundle.fields, "definitions");
      if definitions.None? then Err(NoDefinitions)
      else
        var v2 := ObjectAt(definitions.value, "v2");
        if v2.None? then Err(NoV2Namespace)
        else
          var kept := Kept(definitions.value, v2.value, Dependencies(definitions.value));
          Checked(Rewrite(Object(FlatRoot(bundle.fields, kept))), kept)
  }

  method BuildFlatV2Schema(bundle: Value) returns (r: Result<Value, Error>)
    ensures r == Flattened(bundle)
  {
    if !bundle.Object? {
      return Err(NotAnObject);
    }
    var root := bundle.fields;
    var definitions := ObjectAt(root, "definitions");
    if definitions.None? {
      return Err(NoDefinitions);
    }
    var v2 := ObjectAt(definitions.value, "v2");
    if v2.None? {
      return Err(NoV2Namespace);
    }
    var shared, refs := CollectShared(definitions.value);
    var names := CollectDefinitionDependencies(definitions.value, refs);
    var flat := AddDependencies(definitions.value, v2.value, names);
    flat := flat + shared;
    assert flat == Kept(definitions.value, v2.value, names);
    r := Checked(Rewrite(Object(FlatRoot(root, flat))), flat);
  }

  method CollectShared(definitions: Definitions) returns (shared: Definitions, refs: set<string>)
    ensures shared == SharedDefinitions(definitions)
    ensures refs == SharedRefs(definitions)
  {
    shared, refs := map[], {};
    for i := 0 to |SHARED|
      invariant shared == map n | n in SHARED[..i] && n in definitions :: definitions[n]
      invariant refs == set n, r | n in SHARED[..i] && n in definitions && r in NonV2Refs(definitions[n]) :: r
    {
      var name := SHARED[i];
      assert SHARED[..i + 1] == SHARED[..i] + [name];
      assert name !in SHARED[..i];
      if name in definitions {
        refs := refs + NonV2Refs(definitions[name]);
        shared := shared[name := definitions[name]];
      }
      assert forall n :: n in SHARED[..i + 1] <==> n in SHARED[..i] || n == name;
    }
    assert SHARED[..|SHARED|] == SHARED;
  }

  method AddDependencies(definitions: Definitions, v2: Definitions, names: set<string>) returns (flat: Definitions)
    ensures flat == v2 + (map n | n in names && n in definitions && n != "v2" && n !in v2 :: definitions[n])
  {
    flat := v2;
    var listed := ListSet(names);
    for i := 0 to |listed|
      invariant flat == v2 +
                (map n | n in Elements(listed[..i]) && n in definitions && n != "v2" && n !in v2 :: definitions[n])
    {
      var name := listed[i];
      assert listed[..i + 1] == listed[..i] + [name];
      assert Elements(listed[..i + 1]) == Elements(listed[..i]) + {name};
      if name == "v2" || name in flat {
        continue;
      }
      if name in definitions {
        flat := flat[name := definitions[name]];
      }
    }
    assert listed[..|listed|] == listed;
  }
}
