/** A batch of configuration writes: the in-memory result that is validated, the
    log of path edits that is persisted, and when replaying the log on the
    document on disk reproduces the validated value. */
module ConfigEdits {
  import opened Common
  import opened ConfigTree
  import opened ConfigWalk
  import opened Strings

  // ----- key paths -----

  /** Only a path that is blank after trimming is refused. */
  function ParseKeyPath(path: string): Option<seq<string>> {
    if forall i | 0 <= i < |path| :: IsWhitespace(path[i]) then None else Some(Split(path, '.'))
  }

  /** A path parses to segments exactly when it is not blank and they are the
      dot-free pieces whose dotted join it is. */
  lemma KeyPathParses(path: string, segments: seq<string>)
    ensures ParseKeyPath(path) == Some(segments) <==>
            && segments != [] && (forall s | s in segments :: '.' !in s) && Join(segments, '.') == path
            && exists i :: 0 <= i < |path| && !IsWhitespace(path[i])
  {
    JoinSplit(path, '.');
    if segments != [] && forall s | s in segments :: '.' !in s {
      SplitJoin(segments, '.');
    }
  }

  // ----- the document on disk -----

  /** A document item. Plain arrays and inline tables are values; arrays written
      with `[[name]]` headers are a different kind of item. */
  datatype Item =
    | Value(value: Toml)
    | TableItem(entries: map<string, Item>)
    | ArrayOfTables(tables: seq<Toml>)

  type Document = map<string, Item>

  /** The value an item stands for, without its spelling. */
  function Plain(item: Item): Toml {
    match item
    case Value(v) => v
    case TableItem(entries) => Table(map k | k in entries :: Plain(entries[k]))
    case ArrayOfTables(tables) => Array(tables)
  }

  function PlainDocument(doc: Document): Toml {
    Plain(TableItem(doc))
  }

  /** The item a logged value is turned into: tables become explicit tables. */
  function ToItem(v: Toml): Item {
    match v
    case Table(entries) => TableItem(map k | k in entries :: ToItem(entries[k]))
    case _ => Value(v)
  }

  lemma {:induction false} PlainOfToItem(v: Toml)
    ensures Plain(ToItem(v)) == v
  {
    if v.Table? {
      forall k | k in v.entries
        ensures Plain(ToItem(v.entries[k])) == v.entries[k]
      {
        PlainOfToItem(v.entries[k]);
      }
      assert Plain(ToItem(v)).entries == v.entries;
    }
  }

  function InlineEntries(entries: map<string, Toml>): Document {
    map k | k in entries :: Value(entries[k])
  }

  /** The table an item offers for writing; only `[[name]]` arrays offer none. */
  function TableForWrite(item: Item): Option<Document> {
    match item
    case TableItem(entries) => Some(entries)
    case Value(v) => Some(if v.Table? then InlineEntries(v.entries) else map[])
    case ArrayOfTables(_) => None
  }

  function TableForRead(item: Item): Option<Document> {
    match item
    case TableItem(entries) => Some(entries)
    case Value(v) => if v.Table? then Some(InlineEntries(v.entries)) else None
    case ArrayOfTables(_) => None
  }

  /** Persists a value: missing parents are created and other values on the way
      become tables. When a `[[name]]` array is in the way nothing is stored. */
  function Insert(doc: Document, segments: seq<string>, item: Item): Document
    decreases |segments|
  {
    if segments == [] then doc
    else if |segments| == 1 then doc[segments[0] := item]
    else
      var next := if segments[0] in doc then doc[segments[0]] else TableItem(map[]);
      var table := TableForWrite(next);
      if table == None then doc
      else doc[segments[0] := TableItem(Insert(table.value, segments[1..], item))]
  }

  function Remove(doc: Document, segments: seq<string>): Document
    decreases |segments|
  {
    if segments == [] then doc
    else if |segments| == 1 then doc - {segments[0]}
    else if segments[0] !in doc then doc
    else
      var table := TableForRead(doc[segments[0]]);
      if table == None then doc
      else doc[segments[0] := TableItem(Remove(table.value, segments[1..]))]
  }

  datatype LogEntry = SetPath(segments: seq<string>, item: Item) | ClearPath(segments: seq<string>)

  function ApplyEntry(doc: Document, entry: LogEntry): Document {
    match entry
    case SetPath(segments, item) => Insert(doc, segments, item)
    case ClearPath(segments) => Remove(doc, segments)
  }

  function Replay(doc: Document, log: seq<LogEntry>): Document {
    if log == [] then doc else ApplyEntry(Replay(doc, log[..|log| - 1]), log[|log| - 1])
  }

  // ----- one edit -----

  /** The JSON value of an edit once converted: null clears, and some values
      have no TOML form. */
  datatype Payload = Clear | Set(value: Toml) | Unconvertible

  datatype Edit = Edit(keyPath: string, payload: Payload, strategy: Strategy)

  datatype EditError = BlankKeyPath | InvalidValue | Merge(error: MergeError)

  function PayloadValue(payload: Payload): Option<Toml>
    requires !payload.Unconvertible?
  {
    if payload.Clear? then None else Some(payload.value)
  }

  /** The entries recorded for an edit that took the tree from `before` to `after`:
      none when the value read at the path is the same. */
  function EntriesFor(before: Toml, after: Toml, segments: seq<string>): seq<LogEntry> {
    var original, updated := ValueAt(before, segments), ValueAt(after, segments);
    if original == updated then []
    else if updated.Some? then [SetPath(segments, ToItem(updated.value))]
    else [ClearPath(segments)]
  }

  datatype Progress = Progress(config: Toml, log: seq<LogEntry>)

  function EditStep(p: Progress, edit: Edit, merge: Merger): Result<Progress, EditError> {
    var segments := ParseKeyPath(edit.keyPath);
    if segments.None? then Err(BlankKeyPath)
    else if edit.payload.Unconvertible? then Err(InvalidValue)
    else
      var out := ApplyMerge(p.config, segments.value, PayloadValue(edit.payload), edit.strategy, merge);
      if out.result.Err? then Err(Merge(out.result.error))
      else Ok(Progress(out.root, p.log + EntriesFor(p.config, out.root, segments.value)))
  }

  /** The state after the first edits of a batch, or the first error. */
  function Progression(start: Toml, edits: seq<Edit>, merge: Merger): Result<Progress, EditError> {
    if edits == [] then Ok(Progress(start, []))
    else
      var before := Progression(start, edits[..|edits| - 1], merge);
      if before.Err? then before else EditStep(before.value, edits[|edits| - 1], merge)
  }

  /** An error ends the batch: later edits do not change the outcome. */
  lemma {:induction false} ErrorStays(start: Toml, edits: seq<Edit>, merge: Merger, n: nat)
    requires n <= |edits| && Progression(start, edits[..n], merge).Err?
    ensures Progression(start, edits, merge) == Progression(start, edits[..n], merge)
  {
    if n == |edits| {
      assert edits[..n] == edits;
    } else {
      assert edits[..|edits| - 1][..n] == edits[..n];
      ErrorStays(start, edits[..|edits| - 1], merge, n);
    }
  }

  /** Applies the edits in order, stopping at the first error. */
  method ApplyEdits(start: Toml, edits: seq<Edit>, merge: Merger) returns (r: Result<Progress, EditError>)
    ensures r == Progression(start, edits, merge)
  {
    var userConfig := start;
    var configEdits: seq<LogEntry> := [];
    var i := 0;
    while i < |edits|
      invariant 0 <= i <= |edits|
      invariant Progression(start, edits[..i], merge) == Ok(Progress(userConfig, configEdits))
    {
      var edit := edits[i];
      ghost var configBefore, logBefore := userConfig, configEdits;
      assert edits[..i + 1][..i] == edits[..i];
      assert Progression(start, edits[..i + 1], merge) == EditStep(Progress(userConfig, configEdits), edit, merge);
      if Progression(start, edits[..i + 1], merge).Err? {
        ErrorStays(start, edits, merge, i + 1);
      }
      var segments := ParseKeyPath(edit.keyPath);
      if segments.None? {
        return Err(BlankKeyPath);
      }
      var original := ReadPath(userConfig, segments.value);
      if edit.payload.Unconvertible? {
        return Err(InvalidValue);
      }
      var changed;
      userConfig, changed := ApplyMergeInPlace(userConfig, segments.value, PayloadValue(edit.payload), edit.strategy,
          merge);
      if changed.Err? {
        return Err(Merge(changed.error));
      }
      var updated := ReadPath(userConfig, segments.value);
      if original != updated {
        match updated {
          case Some(value) => configEdits := configEdits + [SetPath(segments.value, ToItem(value))];
          case None => configEdits := configEdits + [ClearPath(segments.value)];
        }
      }
      assert configEdits == logBefore + EntriesFor(configBefore, userConfig, segments.value);
      i := i + 1;
    }
    assert edits[..i] == edits;
    r := Ok(Progress(userConfig, configEdits));
  }

  // ----- replaying the log -----

  /** The array that a set on `segments` replaces is written with `[[name]]` headers. */
  predicate PassesArrayOfTables(doc: Document, segments: seq<string>)
    decreases |segments|
  {
    |segments| >= 3 && segments[0] in doc &&
    match doc[segments[0]]
    case ArrayOfTables(_) => true
    case item =>
      var table := TableForRead(item);
      table.Some? && PassesArrayOfTables(table.value, segments[1..])
  }

  lemma PlainInline(entries: map<string, Toml>)
    ensures PlainDocument(InlineEntries(entries)) == Table(entries)
  {
    PlainEntry(InlineEntries(entries));
    assert PlainDocument(InlineEntries(entries)).entries == entries;
  }

  /** A document stands for the table of what its entries stand for. */
  lemma PlainEntry(doc: Document)
    ensures PlainDocument(doc).Table?
    ensures PlainDocument(doc).entries.Keys == doc.Keys
    ensures forall k | k in doc :: PlainDocument(doc).entries[k] == Plain(doc[k])
  {}

  /** The table that inserting below `key` continues in stands for the table
      that setting below `key` continues in. */
  lemma InsertTable(doc: Document, key: string) returns (table: Document)
    requires key in doc ==> !doc[key].ArrayOfTables?
    ensures Some(table) == TableForWrite(if key in doc then doc[key] else TableItem(map[]))
    ensures PlainDocument(table) ==
              if key in doc && Plain(doc[key]).Table? then Plain(doc[key]) else Table(map[])
  {
    table := TableForWrite(if key in doc then doc[key] else TableItem(map[])).value;
    PlainEntry(table);
    if key in doc && doc[key].Value? && doc[key].value.Table? {
      PlainInline(doc[key].value.entries);
    } else if !(key in doc && doc[key].TableItem?) {
      assert PlainDocument(table).entries == map[];
    }
  }

  /** Storing a table item stores what it stands for. */
  lemma PlainStore(doc: Document, key: string, item: Item)
    ensures PlainDocument(doc[key := item]) == Table(PlainDocument(doc).entries[key := Plain(item)])
  {
    PlainEntry(doc);
    PlainEntry(doc[key := item]);
    assert PlainDocument(doc[key := item]).entries == PlainDocument(doc).entries[key := Plain(item)];
  }

  /** Unless a `[[name]]` array is in the way, inserting an item persists exactly
      what replacing the value does in memory; if one is, it persists nothing. */
  lemma {:induction false} InsertIsSet(doc: Document, segments: seq<string>, item: Item, merge: Merger)
    requires SetAt(PlainDocument(doc), segments, Plain(item), Replace, merge).result.Ok?
    ensures PassesArrayOfTables(doc, segments) ==> PlainDocument(Insert(doc, segments, item)) == PlainDocument(doc)
    ensures !PassesArrayOfTables(doc, segments) ==>
              PlainDocument(Insert(doc, segments, item)) ==
                  SetAt(PlainDocument(doc), segments, Plain(item), Replace, merge).root
    decreases |segments|
  {
    var root := PlainDocument(doc);
    PlainEntry(doc);
    if |segments| == 1 {
      PlainStore(doc, segments[0], item);
    } else {
      var key := segments[0];
      if key in doc && doc[key].ArrayOfTables? {
        assert |segments| >= 3;
      } else {
        var table := InsertTable(doc, key);
        InsertIsSet(table, segments[1..], item, merge);
        PlainStore(doc, key, TableItem(Insert(table, segments[1..], item)));
        if PassesArrayOfTables(doc, segments) {
          assert root.entries[key := root.entries[key]] == root.entries;
        }
      }
    }
  }

  /** Removing an item persists exactly what clearing the path does in memory. */
  lemma {:induction false} RemoveIsClear(doc: Document, segments: seq<string>)
    ensures PlainDocument(Remove(doc, segments)) == ClearAt(PlainDocument(doc), segments).root
    decreases |segments|
  {
    var root, after := PlainDocument(doc), Remove(doc, segments);
    PlainEntry(doc);
    PlainEntry(after);
    if |segments| == 1 {
      assert PlainDocument(after).entries == root.entries - {segments[0]};
    } else if |segments| >= 2 && segments[0] in doc {
      var key := segments[0];
      var table := TableForRead(doc[key]);
      if table.Some? {
        if doc[key].Value? {
          PlainInline(doc[key].value.entries);
        }
        RemoveIsClear(table.value, segments[1..]);
        assert PlainDocument(after).entries == root.entries[key := PlainDocument(Remove(table.value, segments[1..]))];
      } else {
        assert root.entries[key := root.entries[key]] == root.entries;
      }
    }
  }

  /** The edit rewrites an array in memory but the document does not follow:
      either the path already reads the value through the array, so nothing is
      logged, or the array is a `[[name]]` array, which persisting refuses to
      replace. */
  predicate LosesArrayRewrite(doc: Document, config: Toml, segments: seq<string>, payload: Payload) {
    payload.Set? && PassesArray(config, segments) &&
    (ValueAt(config, segments) == Some(payload.value) || PassesArrayOfTables(doc, segments))
  }

  /** Replacing an array leaves no trace of it, so the tree is a different one. */
  lemma {:induction false} ArrayRewriteChanges(root: Toml, segments: seq<string>, value: Toml, strategy: Strategy,
                                               merge: Merger)
    requires PassesArray(root, segments)
    ensures SetAt(root, segments, value, strategy, merge).root != root
    ensures SetAt(root, segments, value, strategy, merge).result.Ok? ==> TableWalk(root, segments) == None
    decreases |segments|
  {
    if root.Table? {
      ArrayRewriteChanges(root.entries[segments[0]], segments[1..], value, strategy, merge);
    }
  }

  /** Storing what is already there in nested tables changes nothing. */
  lemma {:induction false} SetSameIsNoop(root: Toml, segments: seq<string>, value: Toml, strategy: Strategy,
                                         merge: Merger)
    requires SetAt(root, segments, value, strategy, merge).result.Ok?
    requires TableWalk(root, segments) == Some(Stored(TableWalk(root, segments), value, strategy, merge))
    ensures SetAt(root, segments, value, strategy, merge).root == root
    decreases |segments|
  {
    var key := segments[0];
    assert key in root.entries;
    if |segments| >= 2 {
      SetSameIsNoop(root.entries[key], segments[1..], value, strategy, merge);
    } else {
      assert TableWalk(root, segments) == TableWalk(root.entries[key], segments[1..]);
    }
    assert root.entries[key := root.entries[key]] == root.entries;
  }

  /** Off arrays, reading a path and walking tables agree for every path that can be set. */
  lemma {:induction false} ReadIsWalk(root: Toml, segments: seq<string>, value: Toml, strategy: Strategy, merge: Merger)
    requires !PassesArray(root, segments)
    requires SetAt(root, segments, value, strategy, merge).result.Ok?
    ensures ValueAt(root, segments) == TableWalk(root, segments)
    decreases |segments|
  {
    if |segments| == 1 {
      if segments[0] in root.entries {
        assert segments[1..] == [];
      }
    } else if root.Table? && segments[0] in root.entries {
      ReadIsWalk(root.entries[segments[0]], segments[1..], value, strategy, merge);
    }
  }

  /** Merging at a path is the same as replacing the path by the merged value. */
  lemma {:induction false} UpsertIsReplace(root: Toml, segments: seq<string>, value: Toml, strategy: Strategy,
                                           merge: Merger)
    requires SetAt(root, segments, value, strategy, merge).result.Ok?
    ensures var stored := Stored(TableWalk(root, segments), value, strategy, merge);
            && SetAt(root, segments, stored, Replace, merge).root == SetAt(root, segments, value, strategy, merge).root
            && SetAt(root, segments, stored, Replace, merge).result.Ok?
    decreases |segments|
  {
    if |segments| == 1 {
      if segments[0] in root.entries {
        assert TableWalk(root, segments) == TableWalk(root.entries[segments[0]], segments[1..]);
      }
    } else {
      var t := if root.Table? then root.entries else map[];
      var child := if segments[0] in t then t[segments[0]] else Table(map[]);
      UpsertIsReplace(child, segments[1..], value, strategy, merge);
      if segments[0] !in t {
        assert TableWalk(child, segments[1..]) == None;
      }
    }
  }

  /** A set edit, applied to memory and to a document that agrees with it. */
  lemma SetEditFaithful(doc: Document, segments: seq<string>, value: Toml, strategy: Strategy, merge: Merger)
    requires SetAt(PlainDocument(doc), segments, value, strategy, merge).result.Ok?
    ensures var config := PlainDocument(doc);
            var after := SetAt(config, segments, value, strategy, merge).root;
            PlainDocument(Replay(doc, EntriesFor(config, after, segments))) == after
            <==> !LosesArrayRewrite(doc, config, segments, Set(value))
  {
    var config := PlainDocument(doc);
    var after := SetAt(config, segments, value, strategy, merge).root;
    var walk := TableWalk(config, segments);
    var stored := Stored(walk, value, strategy, merge);
    SetReadsBack(config, segments, value, strategy, merge);
    UpsertIsReplace(config, segments, value, strategy, merge);
    PlainOfToItem(stored);
    InsertIsSet(doc, segments, ToItem(stored), merge);
    var log := EntriesFor(config, after, segments);
    if PassesArray(config, segments) {
      ArrayRewriteChanges(config, segments, value, strategy, merge);
    } else {
      NoArrayOfTables(doc, segments);
      ReadIsWalk(config, segments, value, strategy, merge);
      if log == [] {
        SetSameIsNoop(config, segments, value, strategy, merge);
      }
    }
    ReplayOne(doc, log);
  }

  lemma {:induction false} NoArrayOfTables(doc: Document, segments: seq<string>)
    requires !PassesArray(PlainDocument(doc), segments)
    ensures !PassesArrayOfTables(doc, segments)
    decreases |segments|
  {
    if |segments| >= 3 && segments[0] in doc {
      var item := doc[segments[0]];
      assert PlainDocument(doc).entries[segments[0]] == Plain(item);
      var table := TableForRead(item);
      if table.Some? {
        if item.Value? {
          PlainInline(item.value.entries);
        }
        NoArrayOfTables(table.value, segments[1..]);
      }
    }
  }

  lemma ReplayOne(doc: Document, log: seq<LogEntry>)
    requires |log| <= 1
    ensures Replay(doc, log) == if log == [] then doc else ApplyEntry(doc, log[0])
  {
    if |log| == 1 {
      assert log[..0] == [];
    }
  }

  /** A clear edit, applied to memory and to a document that agrees with it. */
  lemma ClearEditFaithful(doc: Document, segments: seq<string>)
    requires segments != []
    ensures var config := PlainDocument(doc);
            var after := ClearAt(config, segments).root;
            PlainDocument(Replay(doc, EntriesFor(config, after, segments))) == after
  {
    var config := PlainDocument(doc);
    var after := ClearAt(config, segments).root;
    ClearLaws(config, segments);
    WalkIsRead(config, segments);
    RemoveIsClear(doc, segments);
    ReplayOne(doc, EntriesFor(config, after, segments));
  }

  lemma {:induction false} ReplayAppend(doc: Document, log: seq<LogEntry>, more: seq<LogEntry>)
    ensures Replay(doc, log + more) == Replay(Replay(doc, log), more)
    decreases |more|
  {
    if more == [] {
      assert log + more == log;
    } else {
      assert (log + more)[..|log + more| - 1] == log + more[..|more| - 1];
      ReplayAppend(doc, log, more[..|more| - 1]);
    }
  }

  /** The persisted document stands for the in-memory value after `n` edits. */
  ghost predicate Follows(doc: Document, edits: seq<Edit>, merge: Merger, n: nat)
    requires n <= |edits|
  {
    var p := Progression(PlainDocument(doc), edits[..n], merge);
    p.Ok? && PlainDocument(Replay(doc, p.value.log)) == p.value.config
  }

  /** Edit `n` is one whose array rewrite the document does not follow. */
  ghost predicate LosesAt(doc: Document, edits: seq<Edit>, merge: Merger, n: nat)
    requires n < |edits|
  {
    var p := Progression(PlainDocument(doc), edits[..n], merge);
    var segments := ParseKeyPath(edits[n].keyPath);
    p.Ok? && segments.Some? &&
    LosesArrayRewrite(Replay(doc, p.value.log), p.value.config, segments.value, edits[n].payload)
  }

  lemma StepFollows(doc: Document, edits: seq<Edit>, merge: Merger, n: nat)
    requires n < |edits| && Follows(doc, edits, merge, n)
    requires Progression(PlainDocument(doc), edits[..n + 1], merge).Ok?
    ensures Follows(doc, edits, merge, n + 1) <==> !LosesAt(doc, edits, merge, n)
  {
    assert edits[..n + 1][..n] == edits[..n];
    var p := Progression(PlainDocument(doc), edits[..n], merge).value;
    var now := Replay(doc, p.log);
    var segments := ParseKeyPath(edits[n].keyPath).value;
    var after := ApplyMerge(p.config, segments, PayloadValue(edits[n].payload), edits[n].strategy, merge).root;
    ReplayAppend(doc, p.log, EntriesFor(p.config, after, segments));
    if edits[n].payload.Set? {
      SetEditFaithful(now, segments, edits[n].payload.value, edits[n].strategy, merge);
    } else {
      ClearEditFaithful(now, segments);
    }
  }

  lemma {:induction false} ProgressionPrefix(start: Toml, edits: seq<Edit>, merge: Merger, n: nat)
    requires n <= |edits| && Progression(start, edits, merge).Ok?
    ensures Progression(start, edits[..n], merge).Ok?
    decreases |edits|
  {
    if n == |edits| {
      assert edits[..n] == edits;
    } else {
      assert edits[..|edits| - 1][..n] == edits[..n];
      ProgressionPrefix(start, edits[..|edits| - 1], merge, n);
    }
  }

  lemma {:induction false} FollowsUntilLoss(doc: Document, edits: seq<Edit>, merge: Merger, n: nat)
    requires n <= |edits| && Progression(PlainDocument(doc), edits, merge).Ok?
    requires forall k | 0 <= k < n :: !LosesAt(doc, edits, merge, k)
    ensures Follows(doc, edits, merge, n)
  {
    if n == 0 {
      assert edits[..0] == [];
    } else {
      FollowsUntilLoss(doc, edits, merge, n - 1);
      ProgressionPrefix(PlainDocument(doc), edits, merge, n);
      StepFollows(doc, edits, merge, n - 1);
    }
  }

  /** Over any accepted batch, replaying the recorded edits follows the validated
      value after every edit if and only if no edit is one that silently loses an
      array rewrite. */
  lemma ReplayFollows(doc: Document, edits: seq<Edit>, merge: Merger)
    requires Progression(PlainDocument(doc), edits, merge).Ok?
    ensures (forall n: nat | n <= |edits| :: Follows(doc, edits, merge, n))
       <==> (forall n: nat | n < |edits| :: !LosesAt(doc, edits, merge, n))
  {
    if forall n: nat | n < |edits| :: !LosesAt(doc, edits, merge, n) {
      forall n: nat | n <= |edits| ensures Follows(doc, edits, merge, n) {
        FollowsUntilLoss(doc, edits, merge, n);
      }
    }
    if forall n: nat | n <= |edits| :: Follows(doc, edits, merge, n) {
      forall n: nat | n < |edits| ensures !LosesAt(doc, edits, merge, n) {
        assert Follows(doc, edits, merge, n + 1);
        StepFollows(doc, edits, merge, n);
      }
    }
  }

  /** Edit `n` sets a path that walks into an array of the value at that point. */
  ghost predicate WalksIntoArray(doc: Document, edits: seq<Edit>, merge: Merger, n: nat)
    requires n < |edits|
  {
    var p := Progression(PlainDocument(doc), edits[..n], merge);
    var segments := ParseKeyPath(edits[n].keyPath);
    edits[n].payload.Set? && p.Ok? && segments.Some? && PassesArray(p.value.config, segments.value)
  }

  /** A batch whose sets never walk into an array is persisted exactly. */
  lemma ReplayExact(doc: Document, edits: seq<Edit>, merge: Merger)
    requires Progression(PlainDocument(doc), edits, merge).Ok?
    requires forall n: nat | n < |edits| :: !WalksIntoArray(doc, edits, merge, n)
    ensures var p := Progression(PlainDocument(doc), edits, merge).value;
            PlainDocument(Replay(doc, p.log)) == p.config
  {
    forall n: nat | n < |edits| ensures !LosesAt(doc, edits, merge, n) {
      assert !WalksIntoArray(doc, edits, merge, n);
    }
    FollowsUntilLoss(doc, edits, merge, |edits|);
    assert edits[..|edits|] == edits;
  }

  // ----- both ways to lose an array rewrite -----

  /** A batch of one accepted edit that loses an array rewrite is not followed. */
  lemma OneEditLoses(doc: Document, edit: Edit, segments: seq<string>, merge: Merger)
    requires ParseKeyPath(edit.keyPath) == Some(segments) && edit.payload.Set?
    requires SetAt(PlainDocument(doc), segments, edit.payload.value, edit.strategy, merge).result.Ok?
    requires LosesArrayRewrite(doc, PlainDocument(doc), segments, edit.payload)
    ensures Progression(PlainDocument(doc), [edit], merge).Ok?
    ensures Follows(doc, [edit], merge, 0) && !Follows(doc, [edit], merge, 1)
  {
    var edits := [edit];
    assert edits[..0] == [] && edits[..1] == edits;
    StepFollows(doc, edits, merge, 0);
  }

  /** The path to the entry `b` of the first element of the array `a`. */
  const PATH := ["a", "0", "b"]

  lemma PathParses()
    ensures ParseKeyPath("a.0.b") == Some(PATH)
  {
    var path, segments := "a.0.b", PATH;
    assert segments[1..] == ["0", "b"] && ["0", "b"][1..] == ["b"];
    assert Join(["0", "b"], '.') == "0.b";
    assert Join(segments, '.') == path;
    assert !IsWhitespace(path[0]);
    KeyPathParses(path, segments);
  }

  /** Reading and setting that path in a table whose only entry is such an array. */
  lemma PathThroughArray(config: Toml, items: seq<Toml>, value: Toml, merge: Merger)
    requires config == Table(map["a" := Array(items)]) && items != [] && items[0].Table? && "b" in items[0].entries
    ensures PassesArray(config, PATH) && ValueAt(config, PATH) == Some(items[0].entries["b"])
    ensures SetAt(config, PATH, value, Replace, merge).result.Ok?
  {
    var segments := PATH;
    assert segments[1..] == ["0", "b"] && ["0", "b"][1..] == ["b"] && ["b"][1..] == [];
    assert ParseIndex("0") == Some(0) by {
      assert DecimalValue("0") == 0;
    }
    assert PassesArray(Array(items), ["0", "b"]);
    assert segments[..2] == ["a", "0"] && ["a", "0"][1..] == ["0"];
    assert TableWalk(Array(items), ["0"]) == None;
    SetFailure(config, segments, value, Replace, merge);
  }

  function Entry(n: int): seq<Toml> {
    [Table(map["b" := Integer(n)])]
  }

  /** Writing `1` to `a.0.b` when `a` is `[{ b = 1 }]` turns the array into a table in
      memory and records nothing. */
  lemma UnloggedRewriteLost(doc: Document, edit: Edit, merge: Merger)
    requires doc == map["a" := Value(Array(Entry(1)))] && edit == Edit("a.0.b", Set(Integer(1)), Replace)
    ensures Progression(PlainDocument(doc), [edit], merge).Ok?
    ensures Follows(doc, [edit], merge, 0) && !Follows(doc, [edit], merge, 1)
  {
    PathParses();
    PlainEntry(doc);
    assert PlainDocument(doc).entries == map["a" := Array(Entry(1))];
    PathThroughArray(PlainDocument(doc), Entry(1), Integer(1), merge);
    OneEditLoses(doc, edit, PATH, merge);
  }

  /** Writing `2` to `a.0.b` when the document holds `b = 1` under a `[[a]]` header
      records the edit, but persisting it changes nothing. */
  lemma HeaderRewriteLost(doc: Document, edit: Edit, merge: Merger)
    requires doc == map["a" := ArrayOfTables(Entry(1))] && edit == Edit("a.0.b", Set(Integer(2)), Replace)
    ensures Progression(PlainDocument(doc), [edit], merge).Ok?
    ensures Progression(PlainDocument(doc), [edit], merge).value.log == [SetPath(PATH, ToItem(Integer(2)))]
    ensures Follows(doc, [edit], merge, 0) && !Follows(doc, [edit], merge, 1)
  {
    PathParses();
    PlainEntry(doc);
    var config := PlainDocument(doc);
    assert config.entries == map["a" := Array(Entry(1))];
    PathThroughArray(config, Entry(1), Integer(2), merge);
    OneEditLoses(doc, edit, PATH, merge);
    OneEditLogged(config, edit, PATH, merge);
    SetReadsBack(config, PATH, Integer(2), Replace, merge);
  }

  lemma OneEditLogged(config: Toml, edit: Edit, segments: seq<string>, merge: Merger)
    requires ParseKeyPath(edit.keyPath) == Some(segments) && edit.payload.Set?
    requires SetAt(config, segments, edit.payload.value, edit.strategy, merge).result.Ok?
    ensures Progression(config, [edit], merge).Ok?
    ensures Progression(config, [edit], merge).value.log ==
            EntriesFor(config, SetAt(config, segments, edit.payload.value, edit.strategy, merge).root, segments)
  {
    assert [edit][..0] == [];
  }
}
