/** Removing method variants from a schema's union and pruning the definitions
    that nothing refers to any more. */
module PruneDefinitions {
  import opened Common
  import opened RefGraph
  import opened Schema

  // ----- method variants -----

  function Member(v: Value, key: string): Option<Value> {
    if v.Object? && key in v.fields then Some(v.fields[key]) else None
  }

  /** The string a schema pins its value to: `const`, or the first `enum` entry. */
  function StringLiteral(v: Value): Option<string> {
    match Member(v, "const")
    case Some(String(text)) => Some(text)
    case _ =>
      match Member(v, "enum")
      case Some(Array(items)) => if items != [] && items[0].String? then Some(items[0].text) else None
      case _ => None
  }

  predicate IsMethodVariant(v: Value, methods: set<string>) {
    var properties := Member(v, "properties");
    properties.Some? && properties.value.Object? &&
    var method_ := Member(properties.value, "method");
    method_.Some? &&
    var literal := StringLiteral(method_.value);
    literal.Some? && literal.value in methods
  }

  function WithoutVariants(variants: seq<Value>, methods: set<string>): seq<Value> {
    if variants == [] then []
    else
      var last := variants[|variants| - 1];
      WithoutVariants(variants[..|variants| - 1], methods) + (if IsMethodVariant(last, methods) then [] else [last])
  }

  /** The variant's `method` is pinned to the name: by a string `const`, or without one by
      an `enum` that starts with it. */
  predicate Pins(v: Value, name: string) {
    && v.Object? && "properties" in v.fields && v.fields["properties"].Object?
    && var properties := v.fields["properties"].fields;
    && "method" in properties && properties["method"].Object?
    && var method_ := properties["method"].fields;
    || ("const" in method_ && method_["const"] == String(name))
    || (!("const" in method_ && method_["const"].String?) && "enum" in method_ && method_["enum"].Array? &&
        method_["enum"].items != [] && method_["enum"].items[0] == String(name))
  }

  /** A variant is removed if and only if it is pinned to a name in the set. */
  lemma RemovedIff(v: Value, methods: set<string>)
    ensures IsMethodVariant(v, methods) <==> exists name :: Pins(v, name) && name in methods
  {
    var properties := Member(v, "properties");
    if properties.Some? && properties.value.Object? {
      var method_ := Member(properties.value, "method");
      if method_.Some? {
        LiteralIff(method_.value);
        var literal := StringLiteral(method_.value);
        assert forall name :: Pins(v, name) <==> literal == Some(name);
      }
    }
  }

  lemma LiteralIff(v: Value)
    ensures forall name :: StringLiteral(v) == Some(name) <==>
              && v.Object?
              && (|| ("const" in v.fields && v.fields["const"] == String(name))
                  || (!("const" in v.fields && v.fields["const"].String?) && "enum" in v.fields &&
                      v.fields["enum"].Array? && v.fields["enum"].items != [] &&
                      v.fields["enum"].items[0] == String(name)))
  {
  }

  /** Exactly the variants are left that are pinned to no name in the set. */
  lemma {:induction false} VariantsLeft(variants: seq<Value>, methods: set<string>, v: Value)
    ensures v in WithoutVariants(variants, methods) <==>
            v in variants && forall name | Pins(v, name) :: name !in methods
  {
    if variants != [] {
      var init, last := variants[..|variants| - 1], variants[|variants| - 1];
      assert variants == init + [last];
      VariantsLeft(init, methods, v);
      RemovedIff(last, methods);
    }
  }

  // ----- reachable definitions -----

  predicate IsDefinitionMap(key: string) {
    key == "definitions" || key == "$defs"
  }

  /** The references outside every definition map, at any depth. */
  function OuterRefs(v: Value): set<string> {
    match v
    case Object(fields) =>
      RefHere(fields) + set k, r | k in fields && !IsDefinitionMap(k) && r in OuterRefs(fields[k]) :: r
    case Array(items) => set i, r | 0 <= i < |items| && r in OuterRefs(items[i]) :: r
    case _ => {}
  }

  function LocalGraph(definitions: Definitions): Graph {
    map n | n in definitions :: LocalNames(Refs(definitions[n]))
  }

  /** What a worklist that marks names when it queues them has established. */
  ghost predicate Marking(g: Graph, seeds: set<string>, reachable: set<string>, queue: seq<string>) {
    && seeds <= reachable && Elements(queue) <= reachable
    && (forall n | n in reachable && n !in queue :: Next(g, n) <= reachable)
    && (forall t | seeds <= t && Closed(g, t) :: reachable <= t)
    && reachable <= Universe(g, seeds)
  }

  lemma MarkStep(g: Graph, seeds: set<string>, reachable: set<string>, queue: seq<string>, fresh_: seq<string>)
    requires queue != [] && Marking(g, seeds, reachable, queue)
    requires Elements(fresh_) == Next(g, queue[|queue| - 1]) - reachable
    ensures Marking(g, seeds, reachable + Elements(fresh_), queue[..|queue| - 1] + fresh_)
  {
    var name, rest := queue[|queue| - 1], queue[..|queue| - 1];
    var marked, queued := reachable + Elements(fresh_), rest + fresh_;
    assert queue == rest + [name];
    assert name in Elements(queue);
    assert Elements(queued) == Elements(rest) + Elements(fresh_);
    forall t | seeds <= t && Closed(g, t) ensures marked <= t {
      assert name in t;
    }
    forall n | n in marked && n !in queued ensures Next(g, n) <= marked {
      assert n !in Elements(fresh_);
      assert n != name ==> n !in queue;
    }
  }

  lemma MarkStart(g: Graph, seeds: set<string>, queue: seq<string>)
    requires Elements(queue) == seeds
    ensures Marking(g, seeds, seeds, queue)
  {
    forall n | n in seeds ensures n in queue {
      assert n in Elements(queue);
    }
  }

  lemma MarkedAll(g: Graph, seeds: set<string>, reachable: set<string>)
    requires Marking(g, seeds, reachable, [])
    ensures reachable == Closure(g, seeds)
  {
    ClosureIsLeast(g, seeds);
    LeastClosedUnique(g, seeds, reachable, Closure(g, seeds));
  }

  lemma MarkMeasure(g: Graph, seeds: set<string>, before: set<string>, found: seq<string>)
    requires before + Elements(found) <= Universe(g, seeds) && Elements(found) !! before
    ensures found == [] ==> before + Elements(found) == before
    ensures found != [] ==> |Universe(g, seeds) - (before + Elements(found))| < |Universe(g, seeds) - before|
  {
    if found != [] {
      assert found[0] in Elements(found);
      FewerLeft(Universe(g, seeds), before, before + Elements(found));
    }
  }

  /** The top-level definitions that can be reached from outside the definition maps. */
  method ReachableLocalDefinitions(root: map<string, Value>, definitions: Definitions) returns (reachable: set<string>)
    ensures reachable == Closure(LocalGraph(definitions), LocalNames(OuterRefs(Object(root))))
  {
    ghost var g := LocalGraph(definitions);
    var seeds := LocalNames(OuterRefs(Object(root)));
    var queue := ListSet(seeds);
    reachable := seeds;
    MarkStart(g, seeds, queue);
    while queue != []
      invariant Marking(g, seeds, reachable, queue)
      decreases |Universe(g, seeds) - reachable|, |queue|
    {
      var name := queue[|queue| - 1];
      ghost var before := queue;
      queue := queue[..|queue| - 1];
      var found := QueueRefs(definitions, name, reachable);
      MarkStep(g, seeds, reachable, before, found);
      MarkMeasure(g, seeds, reachable, found);
      reachable := reachable + Elements(found);
      queue := queue + found;
    }
    MarkedAll(g, seeds, reachable);
  }

  /** The names a definition refers to that are not marked yet. */
  method QueueRefs(definitions: Definitions, name: string, reachable: set<string>) returns (found: seq<string>)
    ensures Elements(found) == Next(LocalGraph(definitions), name) - reachable
  {
    found := [];
    if name in definitions {
      found := ListSet(LocalNames(Refs(definitions[name])) - reachable);
    }
  }

  // ----- pruning -----

  /** The root once the method variants are gone; nothing happens without a
      `oneOf` array. */
  function Stripped(root: map<string, Value>, methods: set<string>): map<string, Value>
    requires "oneOf" in root && root["oneOf"].Array?
  {
    root["oneOf" := Array(WithoutVariants(root["oneOf"].items, methods))]
  }

  ghost function ReachableFrom(root: map<string, Value>, definitions: Definitions): set<string> {
    Closure(LocalGraph(definitions), LocalNames(OuterRefs(Object(root))))
  }

  function Retained(definitions: Definitions, names: set<string>): Definitions {
    map n | n in definitions && n in names :: definitions[n]
  }

  ghost function Pruned(schema: Value, methods: set<string>): Value {
    if !schema.Object? || "oneOf" !in schema.fields || !schema.fields["oneOf"].Array? then schema
    else
      var root := Stripped(schema.fields, methods);
      if "definitions" !in root || !root["definitions"].Object? then Object(root)
      else
        var definitions := root["definitions"].fields;
        Object(root["definitions" := Object(Retained(definitions, ReachableFrom(root, definitions)))])
  }

  method StripMethodVariants(schema: Value, methods: set<string>) returns (r: Value)
    ensures r == Pruned(schema, methods)
  {
    if !schema.Object? {
      return schema;
    }
    var root := schema.fields;
    if "oneOf" !in root || !root["oneOf"].Array? {
      return schema;
    }
    var variants := root["oneOf"].items;
    var kept: seq<Value> := [];
    for i := 0 to |variants|
      invariant kept == WithoutVariants(variants[..i], methods)
    {
      assert variants[..i + 1][..i] == variants[..i];
      if !IsMethodVariant(variants[i], methods) {
        kept := kept + [variants[i]];
      }
    }
    assert variants[..|variants|] == variants;
    root := root["oneOf" := Array(kept)];
    if "definitions" in root && root["definitions"].Object? {
      var definitions := root["definitions"].fields;
      var reachable := ReachableLocalDefinitions(root, definitions);
      root := root["definitions" := Object(Retained(definitions, reachable))];
    }
    r := Object(root);
  }

  /** The references of a root outside its top-level definitions. */
  function RestRefs(root: map<string, Value>): set<string> {
    Refs(Object(root - {"definitions"}))
  }

  /** A chain of references, read as they are spelled, leads to the name from outside
      the definition maps. */
  ghost predicate ReachableName(root: map<string, Value>, definitions: Definitions, n: string) {
    Reachable(LocalGraph(definitions), LocalNames(OuterRefs(Object(root))), n)
  }

  /** A definition survives exactly when a chain of references leads to it from
      outside the definition maps. */
  lemma PruneKeepsReachable(root: map<string, Value>, definitions: Definitions, n: string)
    ensures n in Retained(definitions, ReachableFrom(root, definitions)) <==>
            n in definitions && ReachableName(root, definitions, n)
  {
    var g, seeds := LocalGraph(definitions), LocalNames(OuterRefs(Object(root)));
    ClosureIsLeast(g, seeds);
    if Reachable(g, seeds, n) {
      var path :| Chain(g, seeds, path, n);
      ChainStays(g, seeds, path, n, Closure(g, seeds));
    }
  }

  /** No definition map is nested anywhere. */
  predicate NoMaps(v: Value) {
    match v
    case Object(fields) => forall k | k in fields :: !IsDefinitionMap(k) && NoMaps(fields[k])
    case Array(items) => forall i | 0 <= i < |items| :: NoMaps(items[i])
    case _ => true
  }

  lemma {:induction false} OuterRefsAll(v: Value)
    requires NoMaps(v)
    ensures OuterRefs(v) == Refs(v)
  {
    match v
    case Object(fields) =>
      forall k | k in fields ensures OuterRefs(fields[k]) == Refs(fields[k]) {
        OuterRefsAll(fields[k]);
      }
    case Array(items) =>
      forall i | 0 <= i < |items| ensures OuterRefs(items[i]) == Refs(items[i]) {
        OuterRefsAll(items[i]);
      }
    case _ =>
  }

  lemma OuterIsRest(root: map<string, Value>)
    requires NoMaps(Object(root - {"definitions"}))
    ensures OuterRefs(Object(root)) == RestRefs(root)
  {
    var rest := root - {"definitions"};
    OuterRefsAll(Object(rest));
    assert RefHere(root) == RefHere(rest);
    assert forall k :: k in root && !IsDefinitionMap(k) <==> k in rest && !IsDefinitionMap(k);
  }
}
