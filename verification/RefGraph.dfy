/** Names that refer to names: the least set that contains given seeds and is
    closed under references, on graphs that may have cycles and missing names. */
module RefGraph {

  type Graph = map<string, set<string>>

  function Next(g: Graph, name: string): set<string> {
    if name in g then g[name] else {}
  }

  predicate Closed(g: Graph, s: set<string>) {
    forall n | n in s :: Next(g, n) <= s
  }

  ghost predicate LeastClosed(g: Graph, seeds: set<string>, s: set<string>) {
    && seeds <= s && Closed(g, s)
    && (forall t | seeds <= t && Closed(g, t) :: s <= t)
  }

  /** Every name that can turn up. */
  function Universe(g: Graph, seeds: set<string>): set<string> {
    seeds + set n, d | n in g && d in g[n] :: d
  }

  lemma LeastClosedUnique(g: Graph, seeds: set<string>, s: set<string>, t: set<string>)
    requires LeastClosed(g, seeds, s) && LeastClosed(g, seeds, t)
    ensures s == t
  {
    assert s <= t && t <= s;
  }

  // ----- the closure as reachability -----

  /** A walk along references that starts at a seed and ends at `name`. */
  ghost predicate Chain(g: Graph, seeds: set<string>, path: seq<string>, name: string) {
    && path != [] && path[0] in seeds && path[|path| - 1] == name
    && (forall i | 0 <= i < |path| - 1 :: path[i + 1] in Next(g, path[i]))
  }

  ghost predicate Reachable(g: Graph, seeds: set<string>, name: string) {
    exists path :: Chain(g, seeds, path, name)
  }

  lemma {:induction false} ChainStays(g: Graph, seeds: set<string>, path: seq<string>, name: string, s: set<string>)
    requires seeds <= s && Closed(g, s) && Chain(g, seeds, path, name)
    ensures name in s
  {
    if |path| > 1 {
      var shorter := path[..|path| - 1];
      assert Chain(g, seeds, shorter, path[|path| - 2]);
      ChainStays(g, seeds, shorter, path[|path| - 2], s);
      assert path[|path| - 2 + 1] in Next(g, path[|path| - 2]);
    }
  }

  ghost function Closure(g: Graph, seeds: set<string>): set<string> {
    set n | n in Universe(g, seeds) && Reachable(g, seeds, n)
  }

  lemma ExtendChain(g: Graph, seeds: set<string>, path: seq<string>, name: string, next: string)
    requires Chain(g, seeds, path, name) && next in Next(g, name)
    ensures Chain(g, seeds, path + [next], next)
  {
    var longer := path + [next];
    forall i | 0 <= i < |longer| - 1 ensures longer[i + 1] in Next(g, longer[i]) {
      if i < |path| - 1 {
        assert path[i + 1] in Next(g, path[i]);
      }
    }
  }

  /** Every graph has a least closed set, and it is the set of reachable names. */
  lemma ClosureIsLeast(g: Graph, seeds: set<string>)
    ensures LeastClosed(g, seeds, Closure(g, seeds))
  {
    var s := Closure(g, seeds);
    forall n | n in seeds ensures n in s {
      assert Chain(g, seeds, [n], n);
    }
    forall n, d | n in s && d in Next(g, n) ensures d in s {
      var path :| Chain(g, seeds, path, n);
      ExtendChain(g, seeds, path, n, d);
    }
    forall t, n | seeds <= t && Closed(g, t) && n in s ensures n in t {
      var path :| Chain(g, seeds, path, n);
      ChainStays(g, seeds, path, n, t);
    }
  }

  // ----- worklists -----

  /** What a worklist that still has to visit `todo` has established. */
  ghost predicate Exploring(g: Graph, seeds: set<string>, seen: set<string>, todo: seq<string>) {
    && seeds <= seen + Elements(todo)
    && (forall n | n in seen :: Next(g, n) <= seen + Elements(todo))
    && (forall t | seeds <= t && Closed(g, t) :: seen + Elements(todo) <= t)
    && seen + Elements(todo) <= Universe(g, seeds)
  }

  function Elements(s: seq<string>): set<string> {
    set n | n in s
  }

  lemma ExploredAll(g: Graph, seeds: set<string>, seen: set<string>)
    requires Exploring(g, seeds, seen, [])
    ensures LeastClosed(g, seeds, seen)
  {
    assert seen + Elements([]) == seen;
  }

  /** Visiting the last pending name: it is seen, and what it refers to is seen or pending. */
  lemma ExploreStep(g: Graph, seeds: set<string>, seen: set<string>, todo: seq<string>, more: seq<string>)
    requires todo != [] && Exploring(g, seeds, seen, todo)
    requires var name := todo[|todo| - 1];
             Elements(more) <= Next(g, name) <= seen + {name} + Elements(more)
    ensures Exploring(g, seeds, seen + {todo[|todo| - 1]}, todo[..|todo| - 1] + more)
  {
    var name, rest := todo[|todo| - 1], todo[..|todo| - 1];
    assert todo == rest + [name];
    var seen', todo' := seen + {name}, rest + more;
    assert Elements(todo) == Elements(rest) + {name};
    assert Elements(todo') == Elements(rest) + Elements(more);
    forall t | seeds <= t && Closed(g, t) ensures seen' + Elements(todo') <= t {
      assert name in t;
    }
    assert Next(g, name) <= Universe(g, seeds);
  }

  /** Dropping a pending name that was already seen. */
  lemma ExploreSkip(g: Graph, seeds: set<string>, seen: set<string>, todo: seq<string>)
    requires todo != [] && Exploring(g, seeds, seen, todo) && todo[|todo| - 1] in seen
    ensures Exploring(g, seeds, seen, todo[..|todo| - 1])
  {
    var name, rest := todo[|todo| - 1], todo[..|todo| - 1];
    assert todo == rest + [name];
    assert Elements(todo) == Elements(rest) + {name};
  }

  lemma FewerLeft(universe: set<string>, before: set<string>, after: set<string>)
    requires before < after <= universe
    ensures |universe - after| < |universe - before|
  {
    assert universe - before == (universe - after) + (after - before);
    assert (universe - after) !! (after - before);
    var x :| x in after - before;
    assert |after - before| > 0;
  }

  /** Lists a set in some order. */
  method ListSet(s: set<string>) returns (r: seq<string>)
    ensures Elements(r) == s
  {
    r := [];
    var rest := s;
    while rest != {}
      invariant Elements(r) + rest == s
      decreases rest
    {
      var x :| x in rest;
      assert Elements(r + [x]) == Elements(r) + {x};
      r := r + [x];
      rest := rest - {x};
    }
  }
}
