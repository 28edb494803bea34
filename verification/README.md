# Verified models of the Codex app server

This project models the parts of the Codex app server workspace that hold its
hardest logic, and proves what they promise over every input, every run or every
reachable state. `dafny verify dfyconfig.toml` checks the whole project.

These components are modelled.

- **Configuration writes** (`ConfigTree`, `ConfigWalk`, `ConfigEdits`). Setting, merging and
  clearing paths in nested tables, the edit loop, and the log of path edits that is
  replayed on the document on disk.
- **Schema canonicaliser** (`Sorting`, `JsonText`, `JsonGrammar`, `Canonical`,
  `CanonicalOrder`). The normal form that makes schema fixtures comparable,
  what it ignores, and the text that breaks ties.
- **Schema bundles** (`PercentText`, `Schema`, `RefGraph`, `FlatBundle`,
  `FlatMeaning`, `PruneDefinitions`, `PruneMeaning`, `SchemaPlaces`). Flattening the v2 namespace,
  dependency closures on cyclic reference graphs, and pruning to reachable
  definitions. What a reference means is what it resolves to as a JSON Pointer
  fragment (section 6 of RFC 6901), with its escapes decoded and arrays indexed.
- **TypeScript scanner** (`Strings`, `TextSearch`, `TsScanner`, `TsTokens`, `TsFields`,
  `TsImports`). The character scanner and the tokens it reads, splitting at top-level delimiters, the brace span of a type
  body, dropping unused imports, and what filtering a file twice does.
- **Remote client** (`RemoteWorker`, `RemoteAnswers`, `RemoteClient`, `RemoteStream`).
  The handshake, the worker that routes requests and responses, and the event stream that
  `next_event` yields while the worker runs.
- **In-process event forwarder** (`EventForwarder`, `EventFates`). The bounded queue with lossless
  and best-effort events, lag markers and rejected requests.
- **Command sessions** (`CommandSessions`, `CommandStarts`, `CommandControls`,
  `CommandManager`, `CommandOutput`). The shared table of running commands and the controls sent to
  them under every interleaving, and the output collector with its cap.
- **Turn analytics** (`TurnAnalytics`, `TurnLaws`, `TurnJoin`, `TurnHistory`,
  `AnalyticsReducer`). The reducer that joins facts arriving in any order into events.

Code that changes state is a class or a method with loops, proved equal to a
function on values; the laws are lemmas about that function. Each class has a
method that drives a new object through any sequence of steps and is proved equal
to the run, so laws about runs hold of the objects. Concurrent code is a state
machine whose steps end wherever the source can wait: drawing an id and inserting a
session are two steps, and so are looking up a session and sending it a control. A
law about runs thus covers every interleaving. The environment is a parameter:
whether a write succeeds, what the consumer of a queue takes before an operation,
how many output chunks are ready, and when a timeout strikes.

Some promises do not hold as they stand. Each has a counterexample and the exact
condition under which it holds:

- A set keeps all diverging paths exactly when it replaces no nonempty array
  (`ConfigTree.SetFrame`, `ConfigTree.ReplacedArrayWitness`).
- Replaying the recorded edits follows the validated configuration after every edit
  exactly when no edit loses an array rewrite: reading a path indexes arrays, setting it replaces
  them, and persisting refuses to replace `[[name]]` arrays (`ConfigEdits.ReplayFollows`,
  `ConfigEdits.UnloggedRewriteLost`, `ConfigEdits.HeaderRewriteLost`).
- Flattening succeeds exactly when kept references are spelled like kept definitions,
  and keeps meaning exactly when the names they stand for are kept with the same
  schema. Escapes and clashing names break one or the other
  (`FlatMeaning.FlattenPreservesMeaning`, `FlatMeaning.TildeFails`,
  `FlatMeaning.ClashChangesMeaning`).
- Pruning leaves nothing dangling exactly when whatever a surviving reference leads
  into from a nested definition map, or under another spelling, is reachable too, and
  references to positions of the stripped union find what they name in the variants
  that move there (`PruneMeaning.PruneDangling`, `PruneMeaning.HiddenRefDangles`,
  `PruneMeaning.TildeDangles`, `PruneMeaning.MethodRefDangles`).
- Joined parts split into the same parts exactly when none but the last ends inside
  a line comment (`TsScanner.Resplit`, `TsScanner.CommentedArms`).
- Every event is delivered, or counted and if it is a request rejected, exactly until
  one meets a consumer that has left (`EventForwarder.NothingLost`,
  `EventForwarder.RequestAbandoned`).
- Closed connections have no sessions exactly when no start that was under way
  registers after the close (`CommandSessions.ClosedStayEmpty`,
  `CommandControls.StartInFlightSurvives`, `CommandControls.StartInFlightNeverTold`).
- A command that ends removes another command's table entry exactly when it had lost
  its own, on a connection that was closed, and its process id was registered again
  (`CommandSessions.RemovalsHitTheirOwn`, `CommandControls.RestartAfterCloseSteals`).

## Model

| member | source | states |
|---|---|---|
| ConfigTree.SetFailure | codex-rs/app-server/src/config_manager_service.rs:415-470 | Setting a path fails exactly when the path is empty or its parent is an existing non-table reached through tables; a failing set leaves the whole tree as it was, although it creates tables while walking |
| ConfigTree.SetReadsBack | codex-rs/app-server/src/config_manager_service.rs:415-470 | After a successful set the path reads the written value (or, for an upsert of a table onto a table, the merged one), and a change is reported exactly when nested tables did not already hold the value or two tables were merged |
| ConfigTree.SetKeepsDiverging | codex-rs/app-server/src/config_manager_service.rs:415-470 | Every path that diverges from the written one reads as before unless the walk replaces a nonempty array |
| ConfigTree.ReplacedArrayWitness | codex-rs/app-server/src/config_manager_service.rs:440-447 | When the walk replaces a nonempty array, gives a diverging path that was readable and is not any more |
| ConfigTree.SetFrame | codex-rs/app-server/src/config_manager_service.rs:415-470 | A successful set keeps all diverging paths if and only if the walk replaces no nonempty array |
| ConfigTree.ClearLaws | codex-rs/app-server/src/config_manager_service.rs:472-497 | Clearing reports whether nested tables held the path, makes it unreadable when they did, changes nothing when they did not, and keeps every diverging path |
| ConfigTree.ClearTwice | codex-rs/app-server/src/config_manager_service.rs:472-497 | Clearing the same path again reports false and changes nothing |
| ConfigTree.WalkIsRead | codex-rs/app-server/src/config_manager_service.rs:546-562 | Whatever a walk through tables finds, the read that also indexes arrays finds too |
| ConfigTree.IndexReads | codex-rs/app-server/src/config_manager_service.rs:553-557 | Every array element whose position fits the index type is read under its position written in decimal |
| ConfigTree.IndexIff | codex-rs/app-server/src/config_manager_service.rs:553-557 | A segment is read as a position exactly when it is the position in decimal behind any zeros, with a plus sign or without, or zero with a minus sign, and the position fits in 64 bits with a sign |
| ConfigWalk.SetBelow | codex-rs/app-server/src/config_manager_service.rs:433-449 | Setting a path below a cursor that walked through tables is setting what the cursor points at, in place |
| ConfigWalk.ClearBelow | codex-rs/app-server/src/config_manager_service.rs:480-491 | Clearing below such a cursor is clearing what it points at, in place |
| ConfigWalk.StepDown | codex-rs/app-server/src/config_manager_service.rs:433-449 | One step of the walk, which may create a table or overwrite a value, leaves the outcome of the whole set as it was |
| ConfigWalk.SetPath | codex-rs/app-server/src/config_manager_service.rs:425-470 | The loop that updates the tree while it walks leaves the tree and result of the set, on failure too |
| ConfigWalk.ClearPath | codex-rs/app-server/src/config_manager_service.rs:472-497 | The loop that walks down and removes the last segment leaves the tree and result of the clear |
| ConfigWalk.ApplyMergeInPlace | codex-rs/app-server/src/config_manager_service.rs:415-470 | An absent value clears the path, a present one is set or merged there |
| ConfigWalk.ReadPath | codex-rs/app-server/src/config_manager_service.rs:546-562 | The read-only walk through tables and array indices finds the value at the path |
| ConfigEdits.KeyPathParses | codex-rs/app-server/src/config_manager_service.rs:400-408 | A key path parses to segments if and only if it is not blank and the segments are dot-free pieces whose dotted join is the path |
| ConfigEdits.PlainOfToItem | codex-rs/app-server/src/config_manager_service.rs:499-511 | Turning a value into a document item and reading it back gives the value |
| ConfigEdits.ErrorStays | codex-rs/app-server/src/config_manager_service.rs:232-271 | The first error of a batch decides it: later edits do not change the outcome |
| ConfigEdits.ApplyEdits | codex-rs/app-server/src/config_manager_service.rs:232-271 | The loop computes the configuration and the log of path edits of the whole batch, or its first error |
| ConfigEdits.InsertIsSet | codex-rs/core/src/config/edit.rs:894-909 | Persisting a set of a path stores exactly what replacing the path does in memory, unless a `[[name]]` array is on the way, and then stores nothing |
| ConfigEdits.RemoveIsClear | codex-rs/core/src/config/edit.rs:911-921 | Persisting a removal stores exactly what clearing the path does in memory |
| ConfigEdits.ArrayRewriteChanges | codex-rs/app-server/src/config_manager_service.rs:440-447 | A set that walks into an array always changes the tree |
| ConfigEdits.SetSameIsNoop | codex-rs/app-server/src/config_manager_service.rs:464-469 | Storing what nested tables already hold changes nothing |
| ConfigEdits.ReadIsWalk | codex-rs/app-server/src/config_manager_service.rs:546-562 | For a settable path that meets no array, reading by path and walking tables agree |
| ConfigEdits.UpsertIsReplace | codex-rs/app-server/src/config_manager_service.rs:455-462 | Merging at a path is replacing the path by the merged value |
| ConfigEdits.SetEditFaithful | codex-rs/app-server/src/config_manager_service.rs:248-271 | The log entry of one set edit reproduces the validated tree on the document if and only if the edit does not lose an array rewrite |
| ConfigEdits.ClearEditFaithful | codex-rs/app-server/src/config_manager_service.rs:248-271 | The log entry of a clear edit always reproduces the validated tree |
| ConfigEdits.ReplayAppend | codex-rs/core/src/config/edit.rs:639-640 | Replaying two logs one after the other is replaying their concatenation |
| ConfigEdits.ReplayFollows | codex-rs/app-server/src/config_manager_service.rs:232-271 | Over every accepted batch, replay follows the validated tree after every edit if and only if no edit silently loses an array rewrite, a condition on the state before the edit |
| ConfigEdits.ReplayExact | codex-rs/app-server/src/config_manager_service.rs:232-271 | A batch whose sets never walk into an array is persisted exactly: replaying the log on the original document gives the validated tree |
| ConfigEdits.OneEditLoses | codex-rs/app-server/src/config_manager_service.rs:232-271 | Every accepted batch of one set that loses an array rewrite is not followed by replay |
| ConfigEdits.UnloggedRewriteLost | codex-rs/app-server/src/config_manager_service.rs:255-269 | Writing `1` to `a.0.b` over `a = [{ b = 1 }]` is an accepted batch that records nothing, so replay does not reach the validated tree |
| ConfigEdits.HeaderRewriteLost | codex-rs/app-server/src/config_manager_service.rs:232-271 | Writing `2` to `a.0.b` when `b = 1` is under a `[[a]]` header is an accepted batch that is recorded, and still replay does not reach the validated tree |
| JsonText.TextDecodes | codex-rs/app-server-protocol/src/schema_fixtures.rs:180-186 | The compact text of a value can be told apart from whatever follows it, and no other value has the same text |
| JsonText.TextInjective | codex-rs/app-server-protocol/src/schema_fixtures.rs:180-186 | The text used to break ties determines the document |
| Canonical.CanonKeepsSortKey | codex-rs/app-server-protocol/src/schema_fixtures.rs:210-227 | Canonicalising an element does not change its sort key |
| Canonical.CanonWellFormed | codex-rs/app-server-protocol/src/schema_fixtures.rs:152-208 | The canonical form of a document without repeated keys has none either |
| Canonical.CanonicalForm | codex-rs/app-server-protocol/src/schema_fixtures.rs:152-208 | Two documents have the same canonical form if and only if they differ only by reordering object members and arrays whose every element has a sort key, at any depth |
| Canonical.CanonIdempotent | codex-rs/app-server-protocol/src/schema_fixtures.rs:152-208 | Canonicalising twice is canonicalising once |
| Canonical.CanonOnlyReorders | codex-rs/app-server-protocol/src/schema_fixtures.rs:152-208 | The canonical form is itself such a reordering of the document, so nothing is added, dropped or changed |
| Canonical.Arrange | codex-rs/app-server-protocol/src/schema_fixtures.rs:175-195 | The pass over the elements sorts them by key and text if all have a key and leaves them alone otherwise |
| Canonical.Canonicalize | codex-rs/app-server-protocol/src/schema_fixtures.rs:152-208 | The recursive procedure with its local vectors and sorts computes the canonical form |
| Canonical.CanonicalizeItems | codex-rs/app-server-protocol/src/schema_fixtures.rs:174 | The elements are canonicalised in order before anything is sorted |
| Canonical.CanonicalizeEntries | codex-rs/app-server-protocol/src/schema_fixtures.rs:197-204 | The sorted entries are canonicalised one by one under their keys |
| CanonicalOrder.LabelIff | codex-rs/app-server-protocol/src/schema_fixtures.rs:210-227 | The sort key of an element, spelled out on its members: `null`, `b:` `n:` or `s:` with the value, `ref:` with a string `$ref`, or without one `title:` with a string `title` |
| CanonicalOrder.OrderIgnored | codex-rs/app-server-protocol/src/schema_fixtures.rs:152-227 | An array of nulls, booleans, numbers, strings and objects with a string `$ref` or `title` has the same canonical form as each permutation of it |
| CanonicalOrder.OrderKept | codex-rs/app-server-protocol/src/schema_fixtures.rs:152-227 | An array with any other element keeps its order: its canonical form has the canonical forms of its elements, position by position |
| CanonicalOrder.ElementsAscend | codex-rs/app-server-protocol/src/schema_fixtures.rs:152-227 | The elements of a sorted array are the canonical forms of its elements, ascending by their labels and, where those are equal, by their JSON text |
| CanonicalOrder.MembersAscend | codex-rs/app-server-protocol/src/schema_fixtures.rs:197-204 | The members of an object come in ascending order of their keys; none is lost |
| CanonicalOrder.StringLeAscends | codex-rs/app-server-protocol/src/schema_fixtures.rs:186-200 | The order of texts: one starts the other, or the first different code point decides |
| JsonGrammar.TextSpells | codex-rs/app-server-protocol/src/schema_fixtures.rs:180 | The text that breaks ties is a JSON text of the element by the grammar of RFC 8259, without white space |
| Schema.RefsOfRewrite | codex-rs/app-server-protocol/src/export.rs:1175-1192 | The references of the rewritten document are exactly the rewritten references |
| Schema.RewriteOnlyRefs | codex-rs/app-server-protocol/src/export.rs:1175-1192 | The rewrite changes references and nothing else in the document |
| Schema.RewriteV2Ref | codex-rs/app-server-protocol/src/export.rs:1175-1192 | A reference into v2 loses its namespace |
| Schema.RewriteRootRef | codex-rs/app-server-protocol/src/export.rs:1175-1192 | A reference to a root definition is not touched by the rewrite |
| SchemaPlaces.RefsIff | codex-rs/app-server-protocol/src/export.rs:1125-1152 | The references that are collected are exactly the string `$ref` members of objects, wherever in the document a path leads to one |
| SchemaPlaces.ReplaceFirst | codex-rs/app-server-protocol/src/export.rs:1176-1192 | Replacing a prefix in a reference turns its first occurrence into the replacement and goes on behind it |
| SchemaPlaces.RewriteWalk | codex-rs/app-server-protocol/src/export.rs:1176-1192 | Rewriting leaves every part of the document where it is |
| SchemaPlaces.RewriteAt | codex-rs/app-server-protocol/src/export.rs:1176-1192 | A reference at a path becomes the rewritten reference at the same path |
| SchemaPlaces.LocalNameIff | codex-rs/app-server-protocol/src/export.rs:1241-1265 | A reference goes through the definition that the text between `#/definitions/` and the next slash names |
| PercentText.PercentRoundTrip | codex-rs/app-server-protocol/src/export.rs:1481-1501 | Text whose every UTF-8 byte is percent-escaped is decoded to the text again, whatever its characters |
| Schema.IndexIff | codex-rs/app-server-protocol/src/export.rs:1381-1399 | In a reference every array position has exactly one token, its decimal digits without leading zeros (section 4 of RFC 6901) |
| Schema.ResolveToken | codex-rs/app-server-protocol/src/export.rs:1481-1501 | `#/definitions/N` resolves, by section 6 of RFC 6901, to what the definitions hold under the name that N stands for once percent escapes, `~1` and `~0` are decoded |
| Schema.ResolveV2Token | codex-rs/app-server-protocol/src/export.rs:1075-1123 | `#/definitions/v2/N` resolves to the definition of the v2 namespace that the token stands for |
| Schema.EscapedToken | codex-rs/app-server-protocol/src/export.rs:1481-1501 | A token may stand for another name: `a~0` stands for `a~` |
| Schema.EscapedSpelling | codex-rs/app-server-protocol/src/export.rs:1481-1501 | Every plain name but the empty one has another spelling, with its bytes escaped |
| RefGraph.LeastClosedUnique | codex-rs/app-server-protocol/src/export.rs:1153-1173 | There is only one least set that holds the seeds and is closed under references |
| RefGraph.ClosureIsLeast | codex-rs/app-server-protocol/src/export.rs:1153-1173 | The names reachable by chains of references are that least closed set, on every finite graph, cycles included |
| RefGraph.ChainStays | codex-rs/app-server-protocol/src/export.rs:1153-1173 | A chain of references never leaves a closed set that holds its start |
| FlatBundle.Unseen | codex-rs/app-server-protocol/src/export.rs:1166-1170 | The references pushed on the worklist are exactly those not seen yet |
| FlatBundle.CollectDefinitionDependencies | codex-rs/app-server-protocol/src/export.rs:1153-1173 | The worklist terminates on every graph and returns the least set that holds the seeds and is closed under references outside v2, whatever the order |
| FlatBundle.CollectShared | codex-rs/app-server-protocol/src/export.rs:1097-1104 | Collects the shared root schemas that exist and all names they refer to outside v2 |
| FlatBundle.AddDependencies | codex-rs/app-server-protocol/src/export.rs:1106-1113 | Adds the dependencies under names v2 does not use, and never the namespace itself |
| FlatBundle.BuildFlatV2Schema | codex-rs/app-server-protocol/src/export.rs:1075-1123 | The procedure returns the flat bundle, or the error of the first check that fails |
| FlatMeaning.KeptRefs | codex-rs/app-server-protocol/src/export.rs:1097-1115 | Every reference of the kept definitions comes from v2, a shared schema or a dependency |
| FlatMeaning.DependencyTarget | codex-rs/app-server-protocol/src/export.rs:1125-1173 | What a shared schema or a dependency refers to outside v2 is a dependency |
| FlatMeaning.KeptTargets | codex-rs/app-server-protocol/src/export.rs:1075-1123 | Every kept reference is one of the bundle's, and one that is neither into v2 nor made in v2 is spelled like a dependency |
| FlatMeaning.FlatRefs | codex-rs/app-server-protocol/src/export.rs:1115-1119 | The references of the flat document are exactly the kept ones, rewritten |
| FlatMeaning.FlatDefinition | codex-rs/app-server-protocol/src/export.rs:1115-1119 | The definitions of the flat document are exactly the rewritten copies of the kept ones |
| FlatMeaning.CheckedIff | codex-rs/app-server-protocol/src/export.rs:1194-1265 | The two final checks accept rewritten references if and only if each token is spelled like a kept definition |
| FlatMeaning.FlattenSucceeds | codex-rs/app-server-protocol/src/export.rs:1194-1265 | Flattening a bundle whose references are slash-free and resolve succeeds if and only if every kept reference is spelled like a kept definition |
| FlatMeaning.KeptMeaning | codex-rs/app-server-protocol/src/export.rs:1075-1123 | What a kept reference names in the bundle, by its decoded name, and what its rewritten form names in the flat document |
| FlatMeaning.FlattenPreservesMeaning | codex-rs/app-server-protocol/src/export.rs:1075-1265 | On every such bundle, escaped names included, flattening succeeds if and only if every kept reference is spelled like a kept definition; then every reference resolves to the rewritten copy of what it named before if and only if the name it stands for is kept with the same schema |
| FlatMeaning.FlattenDirect | codex-rs/app-server-protocol/src/export.rs:1075-1265 | When kept references stand for themselves and v2 refers only to v2, flattening succeeds, and meaning is kept if and only if definitions that clash by name agree wherever the loser is named |
| FlatMeaning.FlattenDisjoint | codex-rs/app-server-protocol/src/export.rs:1075-1265 | When v2 shares no name with the shared schemas and their dependency closure, flattening succeeds and keeps every meaning if and only if each kept reference that is escaped, or that v2 makes outside v2, is spelled like a kept definition and stands for one with the same schema |
| FlatMeaning.ClashResolves | codex-rs/app-server-protocol/src/export.rs:1106-1115 | A reference to a clashing name, however it is escaped, resolves to the loser before flattening and to the winner after it |
| FlatMeaning.ClashChangesMeaning | codex-rs/app-server-protocol/src/export.rs:1106-1115 | For any two definitions that differ and share a name, a bundle whose request refers to the root one flattens to a document where the reference names the other |
| FlatMeaning.EscapedNameFails | codex-rs/app-server-protocol/src/export.rs:1221-1265 | For every token that stands for another name, a bundle in which a request's reference to it resolves, yet flattening fails, because names are compared as spelled |
| FlatMeaning.TildeFails | codex-rs/app-server-protocol/src/export.rs:1221-1265 | One such bundle: `#/definitions/a~0` resolves to the definition `a~`, and flattening fails |
| SchemaPlaces.KeptExactly | codex-rs/app-server-protocol/src/export.rs:1094-1115 | Kept are all of v2, the request and notification schemas, and exactly the definitions that chains of references outside v2 lead to from these two; they win over v2, and v2 over the rest |
| SchemaPlaces.FlatMembers | codex-rs/app-server-protocol/src/export.rs:1086-1122 | The flat document has the bundle's title, or the default one, with `V2` behind it, the kept definitions rewritten, and every other member of the bundle as it was |
| SchemaPlaces.FlattenRefuses | codex-rs/app-server-protocol/src/export.rs:1194-1265 | A bundle is refused exactly when a reference still starts with `#/definitions/v2/`, wherever it stands, or else for exactly the names that references go through and no kept definition has |
| PruneDefinitions.ReachableLocalDefinitions | codex-rs/app-server-protocol/src/export.rs:1417-1432 | The queue that marks names when they are queued terminates and returns exactly the names reachable from references outside definition maps |
| PruneDefinitions.QueueRefs | codex-rs/app-server-protocol/src/export.rs:1426-1430 | Queues exactly the names a definition refers to that are not marked yet |
| PruneDefinitions.StripMethodVariants | codex-rs/app-server-protocol/src/export.rs:1381-1399 | Removes the variants of the given methods and then every definition that is not reachable; does nothing without a `oneOf` array |
| PruneDefinitions.RemovedIff | codex-rs/app-server-protocol/src/export.rs:1401-1415 | A variant is removed exactly when its `properties` pin `method` to a removed name: by a string `const`, or without one by an `enum` whose first entry is the name |
| PruneDefinitions.VariantsLeft | codex-rs/app-server-protocol/src/export.rs:1381-1415 | Exactly the variants are left whose `method` is pinned to no removed name |
| SchemaPlaces.OuterIff | codex-rs/app-server-protocol/src/export.rs:1434-1457 | Pruning starts from exactly the references at paths on which no key is `definitions` or `$defs` |
| PruneDefinitions.PruneKeepsReachable | codex-rs/app-server-protocol/src/export.rs:1381-1432 | A definition survives if and only if a chain of references leads to it from outside the definition maps |
| PruneDefinitions.OuterRefsAll | codex-rs/app-server-protocol/src/export.rs:1434-1457 | Without nested definition maps the collector that skips them sees every reference |
| PruneMeaning.SurvivesIff | codex-rs/app-server-protocol/src/export.rs:1381-1432 | A reference is in the pruned schema if and only if it is outside the definitions or in a definition that is reachable |
| PruneMeaning.ResolveInto | codex-rs/app-server-protocol/src/export.rs:1381-1432 | After pruning a reference into a definition resolves as before if the definition is reachable and to nothing otherwise |
| PruneMeaning.ResolveVariant | codex-rs/app-server-protocol/src/export.rs:1381-1399 | After stripping a reference to a position of the union resolves in the variant that is there now, or to nothing |
| PruneMeaning.ResolveElsewhere | codex-rs/app-server-protocol/src/export.rs:1381-1399 | References that lead neither into a definition nor to a variant keep resolving |
| PruneMeaning.VariantMoves | codex-rs/app-server-protocol/src/export.rs:1381-1399 | A variant that is not removed moves to the position given by the number of such variants before it |
| PruneMeaning.VariantInPlace | codex-rs/app-server-protocol/src/export.rs:1381-1399 | A position of the union names the same variant as before if and only if neither that nor one before it is removed |
| PruneMeaning.DanglesIff | codex-rs/app-server-protocol/src/export.rs:1381-1501 | One reference is left dangling if and only if it survives and either leads into a definition that is not reachable or to a position of the union that no variant moves to which has what it names |
| PruneMeaning.PruneDangling | codex-rs/app-server-protocol/src/export.rs:1381-1501 | No reference of the pruned schema is left dangling if and only if every definition is reachable that a surviving reference leads into from a nested definition map or under another spelling than its name, and every surviving reference to a position of the union finds what it names in the variant that moves there |
| PruneMeaning.UnprunedKeeps | codex-rs/app-server-protocol/src/export.rs:1381-1399 | A schema without definitions to prune leaves nothing dangling if and only if it has no union or every reference left to a position of it finds what it names in the variant that moves there |
| PruneMeaning.PruneExact | codex-rs/app-server-protocol/src/export.rs:1381-1501 | When the only definition map is the top-level one, exactly the definitions survive that the rest of the stripped schema reaches, and nothing dangles if and only if every surviving reference into a definition leads into the one it is spelled with or another that is reachable, and every one to a position of the union finds what it names in the variant that moves there |
| PruneMeaning.PlainPruneExact | codex-rs/app-server-protocol/src/export.rs:1381-1501 | In particular nothing dangles when the surviving references need no escapes |
| PruneMeaning.HiddenRefDangles | codex-rs/app-server-protocol/src/export.rs:1434-1457 | For every definition, a schema with a union whose only reference to it sits in a nested definition map: the reference resolves, pruning drops the definition, and the reference dangles |
| PruneMeaning.EscapedRefDangles | codex-rs/app-server-protocol/src/export.rs:1481-1501 | For every token that stands for another name, a schema with a union whose only reference is spelled with it: it resolves, pruning drops the definition, and the reference dangles |
| PruneMeaning.TildeDangles | codex-rs/app-server-protocol/src/export.rs:1481-1501 | One such schema: `#/definitions/a~0` next to the definition `a~` |
| PruneMeaning.PercentRefDangles | codex-rs/app-server-protocol/src/export.rs:1481-1501 | So does a reference to any definition with a plain name that spells it with its bytes escaped |
| PruneMeaning.UnionRefDangles | codex-rs/app-server-protocol/src/export.rs:1381-1399 | For every variant that is removed and every one that is not, a union of the two with a reference to the second: it resolves, and stripping leaves it dangling |
| PruneMeaning.MethodRefDangles | codex-rs/app-server-protocol/src/export.rs:1381-1399 | One such schema: `#/oneOf/1` in a union of `m` and `k` from which `m` is removed |
| TsScanner.ScanState.constructor | codex-rs/app-server-protocol/src/export.rs:880-888 | A new scanner is at top level, outside strings and comments |
| TsScanner.ScanState.ObserveChar | codex-rs/app-server-protocol/src/export.rs:890-959 | Updating the fields for one character is one step of the scanner, nothing else |
| TsScanner.SplitTopLevelMulti | codex-rs/app-server-protocol/src/export.rs:758-777 | The index loop computes the trimmed nonblank pieces between top-level delimiters |
| TsTokens.BlockIgnored | codex-rs/app-server-protocol/src/export.rs:890-978 | A block comment has no split point and opens no brace, whatever is in it, and the scanner goes on as before behind it |
| TsTokens.LineIgnored | codex-rs/app-server-protocol/src/export.rs:890-978 | So has a line comment up to its line feed |
| TsTokens.QuoteIgnored | codex-rs/app-server-protocol/src/export.rs:890-978 | So has a string literal in either kind of quotes, with escaped quotes and backslashes in it |
| TsTokens.ReadGroup | codex-rs/app-server-protocol/src/export.rs:890-978 | What is between curly, square, round or angle brackets, nested in any way, has no split point, and the closing bracket restores the depth |
| TsTokens.SplitsAtTokens | codex-rs/app-server-protocol/src/export.rs:758-777 | Text that is written as characters, comments, string literals and bracketed groups splits exactly at the delimiters among its top-level characters |
| TsTokens.SpanOfTokens | codex-rs/app-server-protocol/src/export.rs:735-752 | The brace span that is found is the first group of curly brackets that is in no other group, comment or string literal, whatever comes after it |
| TsScanner.FreshAfter | codex-rs/app-server-protocol/src/export.rs:890-978 | After a plain delimiter or white space at top level the scanner behaves like a new one |
| TsScanner.PieceScan | codex-rs/app-server-protocol/src/export.rs:758-777 | Trimming a piece keeps it free of split points, balanced, and free of line comments |
| TsScanner.SplitPartition | codex-rs/app-server-protocol/src/export.rs:758-777 | Splitting any text gives trimmed parts without split points inside, all balanced but perhaps the last |
| TsScanner.SplitFirstPart | codex-rs/app-server-protocol/src/export.rs:758-777 | A balanced part followed by a separator is split off as it is |
| TsScanner.SwallowedSeparator | codex-rs/app-server-protocol/src/export.rs:758-777 | A part that ends inside a line comment swallows the separator that follows it |
| TsScanner.Resplit | codex-rs/app-server-protocol/src/export.rs:305-328 | Splitting the joined parts gives exactly those parts if and only if no part but the last ends inside a line comment |
| TsScanner.CommentedBody | codex-rs/app-server-protocol/src/export.rs:758-777 | For every part that ends in a line comment and is followed by a line feed and a delimiter, a body whose parts, once joined, do not split into the same parts |
| TsScanner.CommentedArms | codex-rs/app-server-protocol/src/export.rs:305-328 | One such body: `a//` and `b` on two lines are two arms and, once joined, one |
| TsScanner.FilterPartition | codex-rs/app-server-protocol/src/export.rs:305-328 | Dropping parts keeps the shape of a split |
| TsScanner.FilterTwice | codex-rs/app-server-protocol/src/export.rs:305-328 | Filtering a list of parts twice is filtering it once |
| TsScanner.FilterBodyTwice | codex-rs/app-server-protocol/src/export.rs:305-328 | Splitting a written body finds the surviving parts again if and only if none but the last ends inside a line comment, and then filtering it again changes nothing |
| TsScanner.FilterIdempotent | codex-rs/app-server-protocol/src/export.rs:305-395 | On text that never enters a line comment, filtering arms or fields is idempotent and re-splitting gives exactly the surviving parts in order |
| TsScanner.ExporterSeparators | codex-rs/app-server-protocol/src/export.rs:305-395 | The separators the exporter joins with suit the delimiters it splits at |
| TsScanner.SplitAliasText | codex-rs/app-server-protocol/src/export.rs:706-716 | The three pieces of a type alias concatenate to the file |
| TsScanner.AliasFrame | codex-rs/app-server-protocol/src/export.rs:706-716 | Replacing the aliased type leaves the first `=` and the last `;` of the file where they frame it |
| TsFields.FindTopLevelBraceSpan | codex-rs/app-server-protocol/src/export.rs:735-752 | The index loop finds the same braces as the scan over the remaining text |
| TsFields.SpanOpens | codex-rs/app-server-protocol/src/export.rs:735-752 | A span found opens at a brace at top level, closes at a brace that leads back to the top level, and lies inside the text |
| TsFields.SpanReplaced | codex-rs/app-server-protocol/src/export.rs:735-752 | Replacing what is between the braces by balanced text that closes no foreign brace moves only the closing brace |
| TsFields.SpanWhole | codex-rs/app-server-protocol/src/export.rs:735-752 | What a span encloses is balanced, if it closes no brace it did not open and has no line comment |
| TsFields.PartsWhole | codex-rs/app-server-protocol/src/export.rs:758-777 | Every part of such a body is such a text itself |
| TsFields.JoinWhole | codex-rs/app-server-protocol/src/export.rs:387 | Joining such parts gives such a text |
| TsFields.BodySpanKept | codex-rs/app-server-protocol/src/export.rs:718-733 | Putting such a body between the braces keeps the place where the body is looked for and its opening brace, in alias and interface files |
| TsFields.FieldsFoundAgain | codex-rs/app-server-protocol/src/export.rs:370-390 | The surviving fields are found again between the braces where they were written, in alias and interface files, and filtering them again changes nothing |
| TsImports.ImportRead | codex-rs/app-server-protocol/src/export.rs:670-679 | A line that imports one type gives its name, however it is padded; with several, a renamed one or none it gives nothing |
| TsImports.PruneUnusedTypeImports | codex-rs/app-server-protocol/src/export.rs:651-668 | The loop over the lines drops exactly the imports of types that the scope does not mention, and keeps the final line end |
| TsImports.AliasBehind | codex-rs/app-server-protocol/src/export.rs:706-716 | What a file aliases does not depend on the lines before its `=` |
| TsImports.SpanBehind | codex-rs/app-server-protocol/src/export.rs:718-752 | Nor does where the braces of its body are, but for the distance, on the lines before its `=` or, without one, its keywords |
| TsImports.FilteredUnionFirst | codex-rs/app-server-protocol/src/export.rs:305-323 | Filtering a union creates no import and no line end after the lines before its `=`, and leaves those alone |
| TsImports.FilteredFieldsFirst | codex-rs/app-server-protocol/src/export.rs:370-390 | So it is for filtering fields |
| TsImports.FilterUnionFileIdempotent | codex-rs/app-server-protocol/src/export.rs:305-328 | Filtering a whole union file, unused imports included, a second time changes nothing, when its body has no line comment, its imports come before its `=` and its lines end with line feeds alone |
| TsImports.FilterFieldsFileIdempotent | codex-rs/app-server-protocol/src/export.rs:370-395 | So it is for the fields of a whole type alias or interface file, when the body closes no brace it did not open either |
| TsImports.ReturnsGoOneByOne | codex-rs/app-server-protocol/src/export.rs:651-668 | Dropping lines takes one return off before each line feed, so with two returns a second time does change the file |
| RemoteWorker.StepAccounted | codex-rs/app-server-client/src/remote.rs:212-468 | Every step keeps the books: each dequeued command has exactly one answer, or none and waits under its own id |
| RemoteWorker.RunAccounted | codex-rs/app-server-client/src/remote.rs:212-468 | So does every interleaving of commands, messages and the consumer leaving |
| RemoteWorker.ExactlyOneAnswer | codex-rs/app-server-client/src/remote.rs:212-468 | Over every run a dequeued command has at most one answer, none exactly while it waits, and exactly one once the worker has exited for any reason |
| RemoteWorker.DuplicateRefused | codex-rs/app-server-client/src/remote.rs:224-232 | A duplicate id is refused at once and the original caller keeps waiting, untouched |
| RemoteWorker.SettleOthers | codex-rs/app-server-client/src/remote.rs:316-325 | A response or error reaches only the caller registered under its id |
| RemoteWorker.AnswerStaysForever | codex-rs/app-server-client/src/remote.rs:212-468 | A caller that has its answer is never written to again |
| RemoteWorker.ReceivesFirstAnswer | codex-rs/app-server-client/src/remote.rs:212-468 | Over every run a waiting caller receives exactly the first message for its id, or else the reason the worker exits |
| RemoteWorker.RunFaithful | codex-rs/app-server-client/src/remote.rs:312-455 | Over every run, while the consumer listens, exactly the events of the messages read have been passed on, plus at most a final disconnect notice |
| RemoteWorker.OrderedStream | codex-rs/app-server-client/src/remote.rs:312-455 | In a run whose consumer never leaves nothing is lost, duplicated or reordered, and a disconnect notice can only be the very last event |
| RemoteWorker.UnknownRefusedOnce | codex-rs/app-server-client/src/remote.rs:338-383 | Over every run the refusals sent are exactly the unknown requests read, in order and once each, if and only if no refusal failed to be written; when one did, it alone is missing, it was the last, and the worker has exited |
| RemoteAnswers.RunShows | codex-rs/app-server-client/src/remote.rs:212-468 | Read off the steps alone: as long as none of them ends the worker, the pending ids are exactly those of requests written and not settled since, and the consumer is listening unless it left |
| RemoteAnswers.EndsForReason | codex-rs/app-server-client/src/remote.rs:212-468 | The worker ends with the first step that ends it, for that step's own kind of error, and a listening consumer has the events of the messages read and then, for ends that are announced, the disconnect notice |
| RemoteAnswers.AnsweredAtOnce | codex-rs/app-server-client/src/remote.rs:212-310 | Over every run a notification, a resolution, a rejection or a shutdown gets the result of its write or close, a duplicate request is refused as invalid input, and a request that cannot be written fails, exactly once each |
| RemoteAnswers.StillWaits | codex-rs/app-server-client/src/remote.rs:221-260 | Until its id is settled or the worker ends, the caller of a request that was written waits under its id and has heard nothing |
| RemoteAnswers.AnsweredLater | codex-rs/app-server-client/src/remote.rs:212-468 | Over every run such a caller then gets exactly the result, the server's error, or the kind of error that ended the worker |
| RemoteClient.WorkerLoop.HandleCommand | codex-rs/app-server-client/src/remote.rs:218-310 | The command branch updates the waiter map, answers and exit error as one step of the protocol |
| RemoteClient.WorkerLoop.HandleMessage | codex-rs/app-server-client/src/remote.rs:312-455 | The message branch does so for every kind of message and failure |
| RemoteClient.WorkerLoop.Advance | codex-rs/app-server-client/src/remote.rs:212-468 | One round of the loop, with the drain when it is left, is one step of the protocol |
| RemoteClient.WorkerLoop.Drain | codex-rs/app-server-client/src/remote.rs:459-467 | Leaving the loop answers everyone who waits with the exit error and forgets them |
| RemoteClient.TellAll | codex-rs/app-server-client/src/remote.rs:465-467 | In whatever order the waiters are drained, each is told once and nobody else |
| RemoteClient.Serve | codex-rs/app-server-client/src/remote.rs:212-468 | The loop over any sequence of steps computes the run of the protocol, so every law about runs holds of the worker object |
| RemoteClient.ExitedStays | codex-rs/app-server-client/src/remote.rs:212-468 | After an exit nothing changes any more |
| RemoteClient.InitializeConnection | codex-rs/app-server-client/src/remote.rs:680-803 | The handshake loop is decided by the first item that does not let it go on, with the error that item stands for, or times out |
| RemoteClient.HandshakeSucceeds | codex-rs/app-server-client/src/remote.rs:680-803 | The handshake succeeds if and only if the reply comes before anything that ends it and the acknowledgement is written; it then holds the events and refusals of everything read, in order |
| RemoteClient.HandshakeDecided | codex-rs/app-server-client/src/remote.rs:680-803 | The first item that is not harmless decides the handshake, each kind in its own way: the reply, the rejection, an unreadable message, a close, a transport error, the end, or a refusal or acknowledgement that cannot be written; without one the time runs out |
| RemoteStream.SessionStreams | codex-rs/app-server-client/src/remote.rs:470-607 | Over every interleaving of worker and caller, what was yielded and what is undelivered are together the handshake events and the events of the worker, and the end is seen only when the worker is gone and nothing is undelivered |
| RemoteStream.SessionWorker | codex-rs/app-server-client/src/remote.rs:212-607 | Asking for events does not disturb the worker |
| RemoteStream.AskStreams | codex-rs/app-server-client/src/remote.rs:602-607 | A poll yields the oldest undelivered event, the end if there is none and the worker is gone, and waits otherwise |
| RemoteStream.HandshakeThenWorker | codex-rs/app-server-client/src/remote.rs:312-803 | The events of a handshake followed by those of a worker that is listened to are the events of everything read, in wire order |
| RemoteStream.OneOrderedStream | codex-rs/app-server-client/src/remote.rs:312-803 | After every handshake that succeeds and over every interleaving with a caller that stays, what `next_event` has yielded and has yet to yield is exactly the events of the wire in order, with a disconnect notice at most once and only at the end; it yields the end only after the worker is gone and everything was yielded |
| RemoteStream.Client.NextEvent | codex-rs/app-server-client/src/remote.rs:602-607 | One poll of the client object: handshake events first, then the channel, then waiting until the worker is gone |
| RemoteStream.Converse | codex-rs/app-server-client/src/remote.rs:470-607 | The worker object and the client object, driven in any interleaving, yield what the session yields |
| EventForwarder.SendAttempted | codex-rs/app-server-client/src/lib.rs:208-274 | A send changes only the queue; lossless events never find it full; it stays within capacity and loses nothing it accepted |
| EventForwarder.ForwardEffect | codex-rs/app-server-client/src/lib.rs:208-274 | What one forward adds to the history for every outcome and every behaviour of the consumer |
| EventForwarder.RunInvariant | codex-rs/app-server-client/src/lib.rs:208-274 | Over every run the queue is bounded, fates and deliveries match, and no handled event is missing from the count |
| EventForwarder.LagAccounting | codex-rs/app-server-client/src/lib.rs:208-274 | Before each delivered event, delivered events and lag markers add up to exactly the events that came before it; at the end delivered, marked and unreported add up to all; the queue never exceeds its capacity |
| EventForwarder.HandledAll | codex-rs/app-server-client/src/lib.rs:548-595 | Over every run the events forwarded are the inputs in order but for the auth refreshes, and every refresh is answered without being forwarded: all of them while the stream is enabled, and those before the one that met the closed consumer once it is not |
| EventForwarder.NothingLost | codex-rs/app-server-client/src/lib.rs:153-274 | Over every run the queue has carried exactly the delivered events in order, every lossless event handled among them, and every dropped request was rejected exactly once, in order; the event that meets a closed consumer, and whatever comes after it, is neither delivered nor rejected |
| EventFates.LosslessIff | codex-rs/app-server-client/src/lib.rs:153-206 | Exactly completed turns and items and the deltas of messages, plans, reasoning and its summary must be delivered |
| EventFates.EachFate | codex-rs/app-server-client/src/lib.rs:208-274 | Over every run each event was put on the queue as often as it was handled and delivered, each request rejected as often as it was handled and dropped, nothing else rejected, and those events always delivered |
| EventFates.RequestOnce | codex-rs/app-server-client/src/lib.rs:208-274 | A request that comes once is rejected exactly once if it was dropped and on the queue exactly once if it was delivered |
| EventFates.FullQueue | codex-rs/app-server-client/src/lib.rs:208-274 | On a full queue with an idle consumer only those events wait for room; every other is dropped and counted at once, and a dropped request rejected |
| EventFates.RoomDelivers | codex-rs/app-server-client/src/lib.rs:208-274 | With room for a pending lag marker and the event, the marker and then the event are put on the queue and the count starts again |
| EventForwarder.RequestAbandoned | codex-rs/app-server-client/src/lib.rs:208-274 | A request that meets a consumer that has left is neither delivered nor rejected |
| EventForwarder.EventPump.Receive | codex-rs/app-server-client/src/lib.rs:208-274 | The consumer's loop takes the oldest items, up to a number or until the queue is empty |
| EventForwarder.EventPump.ForwardInProcessEvent | codex-rs/app-server-client/src/lib.rs:208-274 | Flushing a pending lag marker and sending the event updates the pump as one forward |
| EventForwarder.EventPump.HandleEvent | codex-rs/app-server-client/src/lib.rs:548-595 | The event branch of the loop: refreshes are answered, others forwarded, a closed consumer disables the stream |
| EventForwarder.Pump | codex-rs/app-server-client/src/lib.rs:488-595 | A new pump has the requested capacity or one, and fed any sequence of events it is in the state of the run, so every law about runs holds of it |
| CommandSessions.ToI64Injective | codex-rs/app-server/src/command_exec.rs:163-171 | The 64-bit counter gives different ids until it has gone all the way round |
| CommandSessions.GeneratedUnique | codex-rs/app-server/src/command_exec.rs:163-171 | No two runs share a generated id |
| CommandStarts.Refused | codex-rs/app-server/src/command_exec.rs:159-252 | Which starts are refused, for which of the four reasons, and whether they use up a generated id; nothing else changes |
| CommandStarts.Accepted | codex-rs/app-server/src/command_exec.rs:159-252 | Any other start adds one run under the client's process id or the next generated one, waiting for the lock, or under way at once on Windows without a client's id |
| CommandStarts.NextIsFree | codex-rs/app-server/src/command_exec.rs:163-171 | No entry has the next generated id |
| CommandStarts.Inserting | codex-rs/app-server/src/command_exec.rs:189-265 | A start that gets the lock registers its key if it is free and otherwise ends, leaving every entry and run as it was |
| CommandStarts.StartRuns | codex-rs/app-server/src/command_exec.rs:143-265 | From the request to the running command: with a free key, as every generated one is, the run is under way and has the entry |
| CommandStarts.Ending | codex-rs/app-server/src/command_exec.rs:289-305 | A command that ends on its own is over and has no entry any more; while it had its entry, no other run or entry changes |
| CommandStarts.Failing | codex-rs/app-server/src/command_exec.rs:282-288 | So is one that cannot be spawned |
| CommandStarts.Paying | codex-rs/app-server/src/command_exec.rs:375-402 | A Terminate stays owed only while a listening command has no room for it; otherwise it is in the mailbox, or there is nobody left to tell |
| CommandStarts.NeverToldTwice | codex-rs/app-server/src/command_exec.rs:375-402 | In every interleaving no command gets more than one Terminate for the close of its connection, and none that did not lose its entry gets one |
| CommandSessions.InsertOwned | codex-rs/app-server/src/command_exec.rs:189-265 | Inserting a session, however long after its id was drawn, keeps the table honest |
| CommandSessions.RemoveOwned | codex-rs/app-server/src/command_exec.rs:282-305 | So does ending a run, even when it takes away another run's entry |
| CommandSessions.CloseOwned | codex-rs/app-server/src/command_exec.rs:375-402 | So does a close, which leaves no entry on its connection |
| CommandSessions.StepOwned | codex-rs/app-server/src/command_exec.rs:143-439 | Every step keeps the table honest: entries point at live runs with that key, and live registered runs that have not lost their entry have it |
| CommandSessions.AfterOwned | codex-rs/app-server/src/command_exec.rs:143-439 | So does every interleaving of drawing ids, inserting, spawning, ending, closing, looking up and sending, until the counter wraps |
| CommandSessions.StealsIff | codex-rs/app-server/src/command_exec.rs:282-305 | A run's clean-up takes away another run's entry if and only if it had lost its own and its key was registered again; only runs of closed connections lose theirs, and runs never inserted cannot take one |
| CommandSessions.RemovalsHitTheirOwn | codex-rs/app-server/src/command_exec.rs:143-306 | In every interleaving a finishing or failed run takes away another run's entry if and only if it had lost its own and its key was registered since, which never happens on a connection that was not closed |
| CommandSessions.ClosedStayEmpty | codex-rs/app-server/src/command_exec.rs:143-402 | Closed connections have no entries at any point of an interleaving if and only if no insert registers a key on a connection that is closed by then |
| CommandSessions.SessionOwnership | codex-rs/app-server/src/command_exec.rs:143-402 | In every such interleaving no two live runs share a key, no run takes away another's entry, closed connections have no entries, and every evicted run is owed a Terminate, was sent one or no longer listens |
| CommandSessions.ClosedRunsTold | codex-rs/app-server/src/command_exec.rs:375-402 | Once a close has sent what it owes, every run it evicted was told to terminate or no longer listens |
| CommandControls.StartInFlightSurvives | codex-rs/app-server/src/command_exec.rs:163-266 | For every plain request, a start that has drawn its id when its connection closes and inserts afterwards leaves an entry on the closed connection, and its run is listening, not told to terminate, and nobody owes it that |
| CommandControls.StartInFlightNeverTold | codex-rs/app-server/src/command_exec.rs:163-402 | However things go on without another close of that connection, such a run is never told to terminate |
| CommandControls.RestartAfterCloseSteals | codex-rs/app-server/src/command_exec.rs:143-402 | For every plain request, starting the same process id again after a close lets the first run's clean-up remove the second run's entry |
| CommandControls.ControlsReachTheirRun | codex-rs/app-server/src/command_exec.rs:404-439 | In every interleaving a control is queued at most once and only in the mailbox of the run found when it was looked up, and no mailbox holds anything else but Terminates |
| CommandControls.ControlStep | codex-rs/app-server/src/command_exec.rs:428-439 | A control that was looked up waits while that run's mailbox is full, fails once the run no longer listens, and is queued otherwise, whatever has become of the table |
| CommandControls.FoundStays | codex-rs/app-server/src/command_exec.rs:404-439 | The run a control was found for stays the same to the end, and a control that was queued or failed stays so |
| CommandControls.LookUpFindsOwner | codex-rs/app-server/src/command_exec.rs:404-427 | In every interleaving in which nothing registers on a closed connection, a control finds a command if and only if a run holds the key, and then it is the only live run with that key |
| CommandManager.CommandExecManager.EnterStart | codex-rs/app-server/src/command_exec.rs:143-252 | The first section of a start: the checks in order with their errors, and the id that is used up |
| CommandManager.CommandExecManager.InsertSession | codex-rs/app-server/src/command_exec.rs:189-265 | The section under the lock: a taken key is refused, a free one registered |
| CommandManager.CommandExecManager.ConnectionClosed | codex-rs/app-server/src/command_exec.rs:375-402 | Removing entries one by one leaves exactly those of other connections and owes a Terminate to every active run removed |
| CommandManager.CommandExecManager.FindSession | codex-rs/app-server/src/command_exec.rs:404-427 | The section that looks a session up, with the errors for missing and Windows sessions |
| CommandManager.CommandExecManager.Take | codex-rs/app-server/src/command_exec.rs:143-439 | Every section of the object is one step of the state machine |
| CommandManager.Drive | codex-rs/app-server/src/command_exec.rs:143-439 | A new manager driven through any interleaving has the table of that interleaving, so every law above holds of it |
| CommandOutput.MergeReady | codex-rs/app-server/src/command_exec.rs:578-583 | Merging ready chunks takes a nonempty run of them in order |
| CommandOutput.CapChunk | codex-rs/app-server/src/command_exec.rs:584-594 | The capped chunk is a prefix, the count never exceeds the cap, and the cap is reached exactly when the bytes seen reach it |
| CommandOutput.ReachedCap | codex-rs/app-server/src/command_exec.rs:584-594 | The bytes up to the cap do not depend on what follows |
| CommandOutput.CollectOutput | codex-rs/app-server/src/command_exec.rs:556-618 | However chunks are merged, buffer or notifications carry exactly the capped concatenation of the output, and only the last notification says that the cap was reached, if it was |
| TurnAnalytics.IngestContextual | codex-rs/analytics/src/reducer.rs:222-309 | Every fact keeps the invariant that known threads have metadata and only registered connections |
| TurnAnalytics.RunContextual | codex-rs/analytics/src/reducer.rs:222-309 | So does every run |
| TurnLaws.DropsOnlyWithoutConnection | codex-rs/analytics/src/reducer.rs:924-960 | In every reachable state a thread-scoped event is emitted, with the client and the metadata, if and only if the thread has a connection: the other two reasons to drop it never arise |
| TurnLaws.IngestTurn | codex-rs/analytics/src/reducer.rs:876-922 | Everything ingesting a fact does to one turn: it reports it and forgets it, or adds what the fact says |
| TurnLaws.StepConserves | codex-rs/analytics/src/reducer.rs:419-441 | One fact spends, holds or replaces what it brings for a turn |
| TurnLaws.TurnConservation | codex-rs/analytics/src/reducer.rs:876-922 | Over every run and for every turn, each completion, resolved config and matched start response is spent on one event, still held, or replaced by a later one: an exact equation |
| TurnLaws.SteerAccounting | codex-rs/analytics/src/reducer.rs:811-834 | Over every run the steers reported for a turn plus those still counted are exactly the accepted steers that named it while it was known |
| TurnLaws.SteerRequestsSpentOnce | codex-rs/analytics/src/reducer.rs:637-685 | Over every run each steer request gave one steer event, still waits, or was lost: replaced by a request with its id, answered as a start, or answered without a registered connection or metadata of its thread; the numbers add up exactly |
| TurnHistory.PendingByHistory | codex-rs/analytics/src/reducer.rs:388-417 | The pending requests are exactly those asked and neither answered nor replaced since, with the thread, expected turn, images and time they were asked with |
| TurnHistory.RegisteredByHistory | codex-rs/analytics/src/reducer.rs:311-334 | A connection's client is the one its last initialization names |
| TurnHistory.SteerReported | codex-rs/analytics/src/reducer.rs:637-874 | Over every run the response or error that answers a pending steer gives exactly one event with what was asked, the accepted turn or the reason it was rejected, the client and the thread's metadata |
| TurnHistory.ImagesCounted | codex-rs/analytics/src/reducer.rs:1139-1144 | Images are counted whether remote or local, and nothing else is |
| TurnHistory.ThreadAnnounced | codex-rs/analytics/src/reducer.rs:746-788 | A thread has the connection and metadata of the last response about it on a registered connection |
| TurnHistory.ThreadStarted | codex-rs/analytics/src/reducer.rs:336-364 | Without such a response a thread has the metadata of its first start as a sub-agent |
| TurnHistory.ThreadUnknown | codex-rs/analytics/src/reducer.rs:336-364 | Without either it is not known |
| TurnHistory.ThreadReported | codex-rs/analytics/src/reducer.rs:336-788 | What a response about a thread and the start of a sub-agent report, read off the facts before them |
| TurnJoin.AsideStep | codex-rs/analytics/src/reducer.rs:876-922 | Any fact but the three a turn needs, its own usage, start and steers included, gives no event and leaves the turn waiting for the same of the three |
| TurnJoin.CoreStep | codex-rs/analytics/src/reducer.rs:876-922 | Each of the three but the last gives no event and adds to what is known |
| TurnJoin.LastStep | codex-rs/analytics/src/reducer.rs:876-922 | The last of the three gives the event and forgets the turn |
| TurnJoin.AfterLast | codex-rs/analytics/src/reducer.rs:876-922 | A turn without configuration gives no event before one is resolved, whatever is ingested |
| TurnJoin.OneTurnEvent | codex-rs/analytics/src/reducer.rs:419-462 | Whatever the order of the three facts and whatever comes between and after them, the turn gives exactly one event; the step that ingests the last of the three gives it, with the usage, start time and accepted steers reported by then |
| TurnJoin.OrderIndependence | codex-rs/analytics/src/reducer.rs:419-462 | Any two such runs that report the same usage, start time and steers before the last of the three give the same event |
| AnalyticsReducer.IngestAll | codex-rs/analytics/src/reducer.rs:222-309 | A new reducer fed any sequence of facts has the state and has pushed the events of the run, so every law above holds of it |
| AnalyticsReducer.Reducer.IngestFact | codex-rs/analytics/src/reducer.rs:222-309 | Dispatching a fact updates the four maps and pushes the events as one step of the reducer |
| AnalyticsReducer.Reducer.MaybeEmitTurnEvent | codex-rs/analytics/src/reducer.rs:876-922 | Reports a complete turn whose connection and thread are known, once, and forgets it |
| AnalyticsReducer.Reducer.IngestTurnStartResponse | codex-rs/analytics/src/reducer.rs:602-626 | Takes the matching request, updates the turn from it and reports the turn if it is complete |
| AnalyticsReducer.Reducer.IngestTurnSteerResponse | codex-rs/analytics/src/reducer.rs:811-834 | Takes the matching request, counts the steer if the turn is known, and emits the accepted steer |
| AnalyticsReducer.Reducer.IngestErrorResponse | codex-rs/analytics/src/reducer.rs:637-685 | Takes the matching request and emits a rejected steer if it was one |
| AnalyticsReducer.Reducer.EmitThreadInitialized | codex-rs/analytics/src/reducer.rs:746-788 | Records a thread's connection and metadata and reports it, for a registered connection |
| AnalyticsReducer.Reducer.IngestSubAgentStarted | codex-rs/analytics/src/reducer.rs:336-364 | Records a sub-agent thread, which inherits its parent's connection unless it has its own |
| AnalyticsReducer.CountImages | codex-rs/analytics/src/reducer.rs:1139-1144 | Counts exactly the images, remote and local |

## Left out

- FlatMeaning.FlattenPreservesMeaning: covers bundles whose references are inside definitions, resolve, and have no `/` in their token.
- TsImports.FilterUnionFileIdempotent: does not cover files whose lines end with a return and a line feed, which the exporter does not write; with two returns it would be false, as `ReturnsGoOneByOne` shows. Which arms survive is an arbitrary predicate, so reading method names is not modelled.
- TsImports.FilterFieldsFileIdempotent: leaves out such files too, and says nothing about bodies that close a brace they did not open, which are not well-formed TypeScript; which fields survive is an arbitrary predicate.
- References with anything before their `#`, which name parts of other documents.
- EventForwarder.LagAccounting: holds for runs of up to 2^64 - 1 events, where the counter does not saturate.
- CommandSessions.SessionOwnership: holds until the counter of generated ids wraps after 2^64 starts.
- CommandStarts.NeverToldTwice: holds until then, too.
- CommandStarts.StartRuns: is about commands outside Windows; on Windows `Accepted` and `Inserting` describe the whole start.
- EventForwarder.SendAttempted: a full queue on a waiting send makes the consumer take items at once; how long the wait lasts is not modelled.
- The mutable reference that `apply_merge` and `clear_path` walk with is a cursor path into a value, so aliasing is not captured; rewriting references and dropping definitions in a schema, also done in place, are functions on values.
- The merge of two tables on upsert is an arbitrary function.
- Conversion of a request's JSON value to TOML is an input that may fail; floating-point values are `real`, without NaN and negative zero.
- Reading, validating, locking and rendering the configuration file, its comments and formatting, version conflicts, layers and override messages.
- Positions in TypeScript text count characters, not bytes.
- `build_schema_bundle`, namespacing of references, variant titles and annotation, and the filters on JSON schemas for experimental fields and methods.
- The order of object members in schema bundles, which flattening and pruning keep but never depend on.
- Websocket transport, TLS and authentication of the remote client; error texts; the abort of a worker that does not shut down in time.
- Requests and notifications of the in-process client, which are passed on unchanged.
- The loop of a running command that applies writes, resizes and the time limit to the process, its replies to controls, and its exit code.
- Base64 and the decoding of collected bytes to text.
- Skill invocations, whose ids need hashing and repository look-ups, and the fields of analytics events that are copied from their facts.
- The rest of the workspace: the core agent, terminal interface, sandboxes, execution policy and command line.
