/** The loops that walk a configuration tree with a cursor: the cursor is the path
    walked so far, and what it points at is replaced in the tree. */
module ConfigWalk {
  import opened Common
  import opened ConfigTree

  // ----- the cursor -----

  /** The tree with what the path leads to through tables replaced. */
  function Put(root: Toml, path: seq<string>, value: Toml): Toml
    requires TableWalk(root, path).Some?
    decreases |path|
  {
    if path == [] then value
    else Table(root.entries[path[0] := Put(root.entries[path[0]], path[1..], value)])
  }

  /** Replacing and walking: the cursor reads what was put, and the last put counts. */
  lemma {:induction false} PutLaws(root: Toml, path: seq<string>, value: Toml, later: Toml)
    requires TableWalk(root, path).Some?
    ensures Put(root, path, TableWalk(root, path).value) == root
    ensures TableWalk(Put(root, path, value), path) == Some(value)
    ensures Put(Put(root, path, value), path, later) == Put(root, path, later)
    decreases |path|
  {
    if path != [] {
      var key := path[0];
      PutLaws(root.entries[key], path[1..], value, later);
      assert root.entries[key := root.entries[key]] == root.entries;
      var once := Put(root.entries[key], path[1..], value);
      assert root.entries[key := once][key := Put(once, path[1..], later)] ==
          root.entries[key := Put(once, path[1..], later)];
    }
  }

  lemma {:induction false} WalkOn(root: Toml, path: seq<string>, key: string)
    requires TableWalk(root, path).Some?
    ensures var here := TableWalk(root, path).value;
            TableWalk(root, path + [key]) == if here.Table? && key in here.entries then Some(here.entries[key])
                else None
    decreases |path|
  {
    if path == [] {
      assert path + [key] == [key] && [key][1..] == [];
    } else {
      assert (path + [key])[1..] == path[1..] + [key];
      WalkOn(root.entries[path[0]], path[1..], key);
    }
  }

  /** Setting below the cursor sets what the cursor points at. */
  lemma {:induction false} SetBelow(root: Toml, path: seq<string>, rest: seq<string>, value: Toml, strategy: Strategy,
                                    merge: Merger)
    requires TableWalk(root, path).Some? && rest != []
    ensures var below := SetAt(TableWalk(root, path).value, rest, value, strategy, merge);
            SetAt(root, path + rest, value, strategy, merge) == Outcome(Put(root, path, below.root), below.result)
    decreases |path|
  {
    if path == [] {
      assert path + rest == rest;
    } else {
      assert (path + rest)[1..] == path[1..] + rest;
      SetBelow(root.entries[path[0]], path[1..], rest, value, strategy, merge);
    }
  }

  lemma {:induction false} ClearBelow(root: Toml, path: seq<string>, rest: seq<string>)
    requires TableWalk(root, path).Some? && rest != []
    ensures var below := ClearAt(TableWalk(root, path).value, rest);
            ClearAt(root, path + rest) == Outcome(Put(root, path, below.root), below.result)
    decreases |path|
  {
    if path == [] {
      assert path + rest == rest;
    } else {
      assert (path + rest)[1..] == path[1..] + rest;
      ClearBelow(root.entries[path[0]], path[1..], rest);
    }
  }

  /** Replacing what the cursor points at by something that is set alike below
      changes nothing about the outcome. */
  lemma SetAlike(root: Toml, path: seq<string>, rest: seq<string>, here: Toml, value: Toml, strategy: Strategy,
                 merge: Merger)
    requires TableWalk(root, path).Some? && rest != []
    requires SetAt(here, rest, value, strategy, merge) ==
             SetAt(TableWalk(root, path).value, rest, value, strategy, merge)
    ensures SetAt(Put(root, path, here), path + rest, value, strategy, merge) ==
            SetAt(root, path + rest, value, strategy, merge)
  {
    var below := SetAt(here, rest, value, strategy, merge);
    PutLaws(root, path, here, below.root);
    SetBelow(root, path, rest, value, strategy, merge);
    SetBelow(Put(root, path, here), path, rest, value, strategy, merge);
  }

  // ----- one step down -----

  /** What the walk of a set makes of the value it stands at before it steps down:
      a table with that entry. */
  function Prepared(here: Toml, key: string): Toml {
    var entries := if here.Table? then here.entries else map[];
    if key in entries then Table(entries) else Table(entries[key := Table(map[])])
  }

  lemma PreparedAlike(here: Toml, rest: seq<string>, value: Toml, strategy: Strategy, merge: Merger)
    requires |rest| >= 2
    ensures SetAt(Prepared(here, rest[0]), rest, value, strategy, merge) == SetAt(here, rest, value, strategy, merge)
  {
    var entries := if here.Table? then here.entries else map[];
    var below := SetAt(Prepared(here, rest[0]).entries[rest[0]], rest[1..], value, strategy, merge);
    assert Prepared(here, rest[0]).entries[rest[0] := below.root] == entries[rest[0] := below.root];
  }

  /** Stepping down leaves the outcome as it was and the cursor on the child. */
  lemma StepDown(root: Toml, segments: seq<string>, i: nat, value: Toml, strategy: Strategy, merge: Merger)
    requires i + 1 < |segments| && TableWalk(root, segments[..i]).Some?
    ensures var here := Prepared(TableWalk(root, segments[..i]).value, segments[i]);
            var after := Put(root, segments[..i], here);
            && SetAt(after, segments, value, strategy, merge) == SetAt(root, segments, value, strategy, merge)
            && TableWalk(after, segments[..i + 1]) == Some(here.entries[segments[i]])
  {
    var path, rest := segments[..i], segments[i..];
    var here := Prepared(TableWalk(root, path).value, segments[i]);
    assert segments == path + rest && segments[..i + 1] == path + [segments[i]];
    PreparedAlike(TableWalk(root, path).value, rest, value, strategy, merge);
    SetAlike(root, path, rest, here, value, strategy, merge);
    PutLaws(root, path, here, here);
    WalkOn(Put(root, path, here), path, segments[i]);
  }

  // ----- the procedures -----

  method SetPath(start: Toml, segments: seq<string>, value: Toml, strategy: Strategy, merge: Merger)
    returns (root: Toml, result: Result<bool, MergeError>)
    ensures Outcome(root, result) == SetAt(start, segments, value, strategy, merge)
  {
    root := start;
    if segments == [] {
      return root, Err(EmptyKeyPath);
    }
    var parents, last := segments[..|segments| - 1], segments[|segments| - 1];
    var current := root;
    var i := 0;
    assert segments[..0] == [];
    while i < |parents|
      invariant 0 <= i <= |parents| && TableWalk(root, segments[..i]) == Some(current)
      invariant SetAt(root, segments, value, strategy, merge) == SetAt(start, segments, value, strategy, merge)
    {
      var segment := segments[i];
      StepDown(root, segments, i, value, strategy, merge);
      ghost var before := current;
      if !current.Table? {
        current := Table(map[]);
      }
      if segment !in current.entries {
        current := Table(current.entries[segment := Table(map[])]);
      }
      assert current == Prepared(before, segment);
      root := Put(root, segments[..i], current);
      current := current.entries[segment];
      i := i + 1;
    }
    assert segments == parents + [last] && segments[..i] == parents;
    SetBelow(root, parents, [last], value, strategy, merge);
    if !current.Table? {
      PutLaws(root, parents, current, current);
      return root, Err(NonTableParent);
    }
    var table := current.entries;
    if strategy.Upsert? && last in table && table[last].Table? && value.Table? {
      root := Put(root, parents, Table(table[last := merge(table[last], value)]));
      return root, Ok(true);
    }
    var changed := !(last in table && table[last] == value);
    root := Put(root, parents, Table(table[last := value]));
    return root, Ok(changed);
  }

  method ClearPath(start: Toml, segments: seq<string>) returns (root: Toml, result: Result<bool, MergeError>)
    ensures Outcome(root, result) == ClearAt(start, segments)
  {
    root := start;
    if segments == [] {
      return root, Err(EmptyKeyPath);
    }
    var parents, last := segments[..|segments| - 1], segments[|segments| - 1];
    var current := root;
    assert segments[..0] == [];
    for i := 0 to |parents|
      invariant TableWalk(root, segments[..i]) == Some(current)
    {
      var segment := segments[i];
      assert segments == segments[..i] + segments[i..] && segments[..i + 1] == segments[..i] + [segment];
      ClearBelow(root, segments[..i], segments[i..]);
      PutLaws(root, segments[..i], current, current);
      if !current.Table? || segment !in current.entries {
        return root, Ok(false);
      }
      WalkOn(root, segments[..i], segment);
      current := current.entries[segment];
    }
    assert segments == parents + [last] && segments[..|parents|] == parents;
    ClearBelow(root, parents, [last]);
    PutLaws(root, parents, current, current);
    if !current.Table? {
      return root, Ok(false);
    }
    var found := last in current.entries;
    root := Put(root, parents, Table(current.entries - {last}));
    return root, Ok(found);
  }

  method ApplyMergeInPlace(start: Toml, segments: seq<string>, value: Option<Toml>, strategy: Strategy, merge: Merger)
    returns (root: Toml, result: Result<bool, MergeError>)
    ensures Outcome(root, result) == ApplyMerge(start, segments, value, strategy, merge)
  {
    if value.None? {
      root, result := ClearPath(start, segments);
    } else {
      root, result := SetPath(start, segments, value.value, strategy, merge);
    }
  }

  method ReadPath(root: Toml, segments: seq<string>) returns (r: Option<Toml>)
    ensures r == ValueAt(root, segments)
  {
    var current := root;
    assert segments[0..] == segments;
    for i := 0 to |segments|
      invariant ValueAt(current, segments[i..]) == ValueAt(root, segments)
    {
      var segment := segments[i];
      assert segments[i..][1..] == segments[i + 1..];
      match current {
        case Table(entries) =>
          if segment !in entries {
            return None;
          }
          current := entries[segment];
        case Array(items) =>
          var index := ParseIndex(segment);
          if index.None? || index.value >= |items| {
            return None;
          }
          current := items[index.value];
        case _ => return None;
      }
    }
    return Some(current);
  }
}
