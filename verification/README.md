# Verified models of Overcast's generators, orchestrator and release tooling

Overcast is a local AWS emulator. This project models, in Dafny 4.11, the parts
of its repository that hold real algorithms or protocols, and proves what those
parts are for. `dafny verify dfyconfig.toml` checks all of it.

**The operation index compiler** (`RestUri`, `RestTrie`, `RestTables`,
`RestCompiler`, `RestMatcher`, `RestText`, `RestCollisions`, `IndexTables`,
`Inventory`).
`awsmodelgen` turns a list of modeled operations into a REST path trie, flattened
breadth-first into arrays of nodes, edges, entries and candidates, and into
sorted target, query and RPC tables. The main results: walking the emitted tables
by any path and binding gives exactly what the operation list declares there, and
the tables hold nothing else; the registry's request matcher, applied to those
tables, answers a request exactly when some operation serves it, where serving is
read off the URI text (one segment for each `{n}`, one or more for each `{n+}`,
and every part of the query), and which row answers is settled: of all declared patterns and all ways of laying them over the
path, the one that at the first difference has the more specific step, or the
same greedy label taking fewer segments, and there the first row that accepts the
request; the run-length tables hold each key once and
name a service exactly when only one declares the key; and the inventory and the
trie disagree about a REST binding exactly when URIs differ in the slashes that
the trie trims.

**The shape pruner** (`ShapeGraph`, `ShapePruner`). The recursive walk over a
cyclic shape graph emits exactly the reachable shapes, fails exactly when a
reachable shape cannot be emitted, and gives one result whatever order maps are
iterated in. Every emitted shape says what the raw shape says, role by role under
the names of the snapshot, and no reference in the snapshot dangles.

**The suite orchestrator** (`Suite`, `SuiteRuns`, `SuiteConservation`,
`SuiteSending`, `Watchdog`). One atomic step per lock region of a suite, over every
interleaving. No test is covered by two tracked batches; every accepted batch is
in exactly one place at every moment, is sent at most once, in queue order, and
never comes back once flushed or retired; the watchdog cancels only a suite that
stayed silent through a ping, and answers silence in bounded time;
and over every run from a fresh start it is settled when it kills: exactly when a
monitored suite has a cancel older than the grace that no check replaced or
cleared. While checks are at most 2.5 s apart that takes a check that found the
suite not monitored, so it is a suite that outlived its cancel that is killed. A
suite is killed as never ready exactly when it is building and its last line, of
this process or the one before, is older than the build timeout.

**The event stream** (`EventStream`). Replay buffer plus live channels: a client
gets its snapshot and every later event once and in order, or a subsequence if
its channel overflowed.

**Release tags** (`SemVer`, `ReleaseTags`). Version keys order versions as
section 11 of Semantic Versioning 2.0.0 does, and over every release history
each floating tag points at the newest release of its class; it is settled which
releases move `:latest`, and which move it back.

**The compat baseline** (`Baseline`). Comparing, ratcheting and linting, with
the law that no chain of lint-clean edits launders a failure in, except by
emptying the baseline when the registry expects none of it.

**The changelog** (`TextLines`, `EntryGrammar`, `ChangelogParser`,
`ChangelogSound`, `ChangelogLines`, `ChangelogRoundTrip`, `ChangelogMeaning`,
`ChangelogReading` for fragments; `BulletLists`, `ChangelogFold`,
`ChangelogRelease`, `ChangelogLayout`, `ChangelogCells`, `ChangelogBullets`,
`ChangelogFolding` for the release section). The entries of a fragment and every
problem reported for it are exactly what its lines say, and parsing printed
entries gives them back. A folded entry can be read back from its bullet. Folding entries into a release section, however often,
keeps every bullet in its order and every block of one area in one piece, adds
exactly the new bullets and missing categories, leaves all other text of the
section and of the file as it was except text before the first bullet of a
category that gets more, and does not pile up empty lines.

`Order`, `Text` and `Wrappers` hold sorting, string and option helpers.

Modelling conventions:

- State that the source updates in place under a lock or through closures is a
  class (`SuiteProcess`, `Server`, `Pruner`) whose methods are tied to functions
  on values; the laws over whole runs are proved about those functions.
- Clocks, map iteration order, the success of sends and the lines a suite prints
  are inputs. `sort.Slice` is any sorted permutation, so nothing rests on the
  order of equal elements. Trie nodes are identified by their path.
- Regular expressions are written out as functions; `ENTRY_LINE` is proved to
  find exactly the matches of its pattern, area group first. `breaking_hint`,
  `bullet_area`, the registry scope, closed parity debt, candidate groups and
  JSON re-encoding are arbitrary functions.
- CHANGELOG.md is held as the list of its lines, so every string of an entry is a
  single line there.

Where the code and its comments part, the model follows the code:

- compat/orchestrator.go:212-216 describes a ping, cancel, kill escalation. The
  timers re-arm before the kill grace is over (`Watchdog.RearmedInTime`), and at
  the watchdog's own cadence only a stale cancel kills
  (`Watchdog.KillsExactly`, `Watchdog.KillNeedsLapse`,
  `Watchdog.HealthySuiteKilled`).
- compat/orchestrator.go:216 says that a suite is killed when it stays in the
  building state beyond the build timeout. A start does not reset the time that
  is compared, so what counts is the last line read
  (`Watchdog.BuildKillsExactly`): a suite reloaded after five quiet minutes is
  killed by the next check (`Watchdog.ReloadedSuiteKilled`).
- CancelTests takes a group and a test, but they filter only what it reports:
  matching batches are dropped whole (`SuiteRuns.FiltersDropNothing`). A filtered
  cancel takes only what it asks for exactly when every batch it matches lies
  within the filter (`SuiteRuns.CancelTakesOnlyAsked`); `SuiteRuns.CancelDropsUnasked`
  is a run in which one does not. The test filters no whole group, so a request
  for one test is told of those (`SuiteRuns.ReportedIsAsked`).
- The rows of a node are sorted so that a literal query comes before none
  (cmd/awsmodelgen/main.go:638-642), which holds
  (`RestMatcher.LiteralQueryFirst`); among literal queries the greater text comes
  first, so `?b` answers a request for `a&b` that `?a&b` accepts too
  (`RestMatcher.GreaterQueryFirst`).
- The inventory's REST key keeps slashes that the trie trims, at the end of a path
  and at its start, so `/a`, `/a/` and `a` are one binding in the trie and three
  in the inventory (`Inventory.BindingsExact`, `Inventory.SlashesDisagree`).
- Entry prose that starts as the breaking flag does cannot be told from the flag in
  a bullet (`ChangelogBullets.BulletReadBack`).
- The baseline lint ranks a status it does not know below a failure
  (`Baseline.LaundersExactly`), and an update can record more than the run's last
  result (`Baseline.UpdateCleanExactly`). That seeding cannot be abused
  (cmd/compat/baseline.go:667-672) holds but for one case: a baseline of which the
  registry expects nothing can be emptied and seeded with any failure
  (`Baseline.FailsOnlyBySeeding`, `Baseline.EmptiedExactly`,
  `Baseline.SeedingLaunders`).
- A prerelease of a channel named `latest` takes that tag, before and after the
  first stable release, and pulls it back if it is older; later a stable release
  may pull it back from such a prerelease (`ReleaseTags.LatestFallsExactly`,
  `ReleaseTags.LatestFallsWhen`, `ReleaseTags.LatestDoesFall`).
- The replay buffer's cap holds for broadcasts only; each partial reset may add
  one more (`EventStream.BufferBoundReached`).
- The fold promises that curation survives (scripts/changelog.py:745-754), yet
  text between a category heading and its first bullet is dropped when the
  category already has bullets (`ChangelogLayout.LeadSurvives`).
- A migration note spread over several lines is printed on one, which the parser
  may then reject as too long (`ChangelogRoundTrip.JoinedNotesOverflow`).

## Model

| member | source | states |
|---|---|---|
| `RestUri.SplitUri` | cmd/awsmodelgen/main.go:699-704 | The path holds no `?`, and path, `?` and query make up the URI again. |
| `RestUri.WrittenPath` | cmd/awsmodelgen/main.go:546-579 | A URI made of words, `{n}` and `{n+}` between slashes, with or without outer slashes and a query, is filed under exactly those words, labels and greedy labels and that query. |
| `RestUri.EveryUriIsWritten` | cmd/awsmodelgen/main.go:699-733 | Every URI is such a text. |
| `RestTrie.BuildTrie` | cmd/awsmodelgen/main.go:543-580 | The built tree has a node for every prefix of a declared path and no other, child links that agree with the nodes, and at each node exactly the operations declared there. |
| `RestTrie.Flatten` | cmd/awsmodelgen/main.go:582-599 | The loop that appends to the list it scans ends with every node listed exactly once, root first, each after its parent, level by level. |
| `RestTrie.PathIndexes` | cmd/awsmodelgen/main.go:600-603 | Every flattened node is mapped to its own position. |
| `RestTables.CollisionServices` | cmd/awsmodelgen/main.go:428-436 | On operations sorted by service, the result is the strictly increasing list of exactly their services. |
| `RestTables.EmitCandidates` | cmd/awsmodelgen/main.go:662-672 | The appended window lists each (service, name) pair of the group exactly once, in strictly increasing order. |
| `RestTables.EmitGroup` | cmd/awsmodelgen/main.go:647-675 | One entry per run of equal bindings: ambiguous exactly when two services declare it, with its candidate window; otherwise naming that service. |
| `RestTables.EmitEntries` | cmd/awsmodelgen/main.go:631-676 | A node's entries have strictly increasing bindings, cover exactly the declared ones, and each is exact for the operations that declare it. |
| `RestTables.TilesHoldOnce` | cmd/awsmodelgen/main.go:665-672 | Consecutive candidate windows hold each row of their range exactly once. |
| `RestCompiler.EmitTables` | cmd/awsmodelgen/main.go:606-678 | Every emitted row links and lists exactly what its node has; the edge and entry windows of the nodes and the candidate windows of the ambiguous entries follow one another and cover their tables. |
| `RestCompiler.WriteRestTrie` | cmd/awsmodelgen/main.go:543-697 | The emitted tables are compiled from the given operations, all windows consecutive and covering. |
| `RestCompiler.FollowExact` | cmd/awsmodelgen/main.go:613-630 | A literal, parameter or greedy slot is filled exactly when the tree has that child, and points at its row. |
| `RestCompiler.WalkExact` | cmd/awsmodelgen/main.go:582-678 | Walking the flattened tables by any list of steps is walking the tree. |
| `RestCompiler.LookupExact` | cmd/awsmodelgen/main.go:543-697 | For every path and binding, the tables hold nothing where nothing is declared and otherwise one entry that is exact for the operations declared there. |
| `RestCompiler.OperationFound` | cmd/awsmodelgen/main.go:543-697 | Every input operation is found under its own path, method and query: named (with its name when that is unique) if its service is alone there, a candidate of an ambiguous entry otherwise. |
| `RestCompiler.EntryDeclared` | cmd/awsmodelgen/main.go:647-676 | Every emitted entry is exact for the operations declared at some path. |
| `RestCompiler.CandidateDeclared` | cmd/awsmodelgen/main.go:659-672 | Every emitted candidate is an input operation with the binding of an ambiguous entry, and lies in the window of exactly one entry. |
| `RestCompiler.OneIncomingSlot` | cmd/awsmodelgen/main.go:582-630 | Every node but the root is the target of exactly one slot, in a row with a smaller index. |
| `RestMatcher.RawQueryContains` | internal/awsapi/registry.go:448-466 | True exactly when some part of the raw query satisfies the required literal. |
| `RestMatcher.RestOperationMatches` | internal/awsapi/registry.go:428-446 | True exactly when the method is the binding's and every required query literal is present. |
| `RestMatcher.RestLiteralNode` | internal/awsapi/registry.go:468-480 | The binary search finds the edge of the segment exactly when the window has one. |
| `RestMatcher.RestTrieMatch` | internal/awsapi/registry.go:377-426 | From any node, the matcher finds nothing only when no pattern below matches and accepts the request. Otherwise it finds the first accepting row of the node of the pattern and split that come first: at the first difference from any other that fits and accepts, the more specific step, or fewer segments for the same step. |
| `RestText.ClaimRest` | internal/awsapi/registry.go:260-281 | A request is answered exactly when the text of some declared operation serves it, by a row filed under such an operation that names its service unless it is ambiguous; every other serving pattern, and every other split of the same one, comes later, and every other accepting binding at that pattern was emitted later. |
| `RestText.ServesAsWritten` | cmd/awsmodelgen/main.go:546-579 | An operation serves exactly the requests of its method whose path is what its URI becomes with one segment put for each `{n}` and one or more for each `{n+}`, with or without a slash at the end, and whose query holds every part of the declared one. |
| `RestText.PatternFills` | internal/awsapi/registry.go:372-426 | Matching a pattern segment by segment is filling its template. |
| `RestText.AcceptsText` | internal/awsapi/registry.go:428-466 | A required query is met exactly when every part of it between ampersands stands in the raw query, one without `=` also with an empty value. |
| `RestText.FoundAsWritten` | cmd/awsmodelgen/main.go:543-697 | Every operation is found in the emitted tables under the words and labels of its URI text: named if its service is alone there, a candidate otherwise. |
| `RestText.EveryOperationIsWritten` | cmd/awsmodelgen/main.go:546-579 | The URI of every operation can be read as such a template. |
| `RestMatcher.FirstIsUnique` | internal/awsapi/registry.go:398-424 | Of any two patterns and splits that fit a path one comes first, and only equal ones come before each other, so the answer is determined. |
| `RestMatcher.ServesExactly` | internal/awsapi/registry.go:372-376 | A pattern serves a request exactly when some split of the path among its steps does, a greedy label taking one or more segments. |
| `RestMatcher.LiteralQueryFirst` | cmd/awsmodelgen/main.go:638-642 | A binding without a literal query is not chosen where one with a literal query accepts the request. |
| `RestMatcher.GreaterQueryFirst` | cmd/awsmodelgen/main.go:638-642 | Among literal queries the greater text is chosen: `?b` before `?a&b` for a request that both accept. |
| `RestCollisions.WriteRestCollisions` | cmd/awsmodelgen/main.go:613-676 | The REST collision table has one row for each path and binding that two or more services declare and no other, nodes in flattened order and bindings increasing within a node, spelled as an operation there spells it, with exactly those services sorted. |
| `RestCollisions.CollisionsAgree` | cmd/awsmodelgen/main.go:655-660 | For rooted paths without a trailing slash, the rows are exactly the inventory's REST collisions, no two with one key. |
| `IndexTables.WriteIndex` | cmd/awsmodelgen/main.go:320-342 | From sorted items: keys strictly increasing and once each, exactly the declared ones; a row is ambiguous exactly when two or more services share its key and otherwise names the one there is; the collision rows are the ambiguous keys with their sorted services. |
| `IndexTables.WriteRegistryIndexes` | cmd/awsmodelgen/main.go:235-273 | The target, query and RPC tables are each exact for the operations selected for them. |
| `IndexTables.SelectedExactly` | cmd/awsmodelgen/main.go:235-256 | The target, query and RPC tables are made from exactly one row for each operation and protocol that calls for one: JSON with a target prefix, Query first or in addition or SQS, and each RPC protocol spoken. |
| `IndexTables.SearchIndex` | internal/awsapi/registry.go:97-103 | Binary search finds a key exactly when some operation declares it, and then its exact row. |
| `IndexTables.JoinedKeysDiffer` | cmd/awsmodelgen/main.go:402-407 | With no NUL in a version, the joined query keys of two operations are equal exactly when versions and names are. |
| `Inventory.CollectGroups` | cmd/awsmodelgen/inventory.go:56-91 | There is a group for every declared key and no other, holding exactly the non-S3 services that declare it. |
| `Inventory.AddFallbackCoverage` | cmd/awsmodelgen/inventory.go:103-140 | One operation adds to one tier, the one its bindings call for, and to the count of every kind of binding it has. |
| `Inventory.BuildModelInventory` | cmd/awsmodelgen/inventory.go:51-101 | Claimable, ambiguous and uncovered operations add up to the non-S3 ones and are the counts of their tiers; uncovered labels are sorted; the collisions are exactly the keys two or more services declare, each once, with its sorted services, in key order. |
| `Inventory.ListCollisions` | cmd/awsmodelgen/inventory.go:150-168 | Exactly the groups of two or more services, each once as its sorted list, in the order of their keys. |
| `Inventory.TallyCounts` | cmd/awsmodelgen/inventory.go:92-94 | The coverage counters are the numbers of operations in each tier. |
| `Inventory.TiersAddUp` | cmd/awsmodelgen/inventory.go:131-139 | Every operation is in exactly one tier. |
| `Inventory.BindingsExact` | cmd/awsmodelgen/main.go:712-728 | For methods without a space, two normalised bindings are equal exactly when the trie files the operations under one path, method and query and their paths agree in starting with a slash and in ending in one that is trimmed. |
| `Inventory.BindingsAgree` | cmd/awsmodelgen/main.go:712-728 | So for rooted paths without a trailing slash, equal normalised bindings are one place in the trie. |
| `Inventory.SlashesDisagree` | cmd/awsmodelgen/main.go:546-555 | `/a`, `/a/` and `a` are one binding in the trie and differ in the inventory. |
| `Inventory.DeclaringExact` | cmd/awsmodelgen/inventory.go:82-84 | The inventory groups an operation with those at its place in the trie that share its slashes. |
| `Inventory.AmbiguityExact` | cmd/awsmodelgen/inventory.go:117-125 | The compiled trie calls an operation's binding ambiguous exactly when the inventory does or another service declares it with other slashes. |
| `Inventory.AmbiguityAgrees` | cmd/awsmodelgen/inventory.go:117-125 | For rooted paths without a trailing slash, inventory and trie agree on ambiguity. |
| `ShapeGraph.ClosedHoldsReachable` | cmd/awsmodelgen/shapes.go:351-360 | A set of shapes closed under references that holds the start holds everything reachable from it. |
| `ShapePruner.FilterTraits` | cmd/awsmodelgen/shapes.go:446-465 | Succeeds exactly when every allowlisted trait re-encodes, and then keeps exactly those, re-encoded. |
| `ShapePruner.TargetOrder` | cmd/awsmodelgen/shapes.go:312-350 | The walk's targets are exactly the references of the shape, whatever order its maps are ranged over. |
| `ShapePruner.WriteSnapshot` | cmd/awsmodelgen/shapes.go:362-430 | The snapshot has exactly the shape's references by relative name and its kept traits, or fails exactly when a kept trait does not re-encode. |
| `ShapePruner.EmittedMirrors` | cmd/awsmodelgen/shapes.go:312-430 | What is written for a shape has its kind and version, at each place the name of the shape referred to (without the namespace of the service, in full otherwise), lists sorted and each name once, absent roles empty, and exactly its allowlisted traits with their values re-encoded. |
| `ShapePruner.Pruner.Visit` | cmd/awsmodelgen/shapes.go:351-435 | The recursive visit terminates on any graph; what it adds is reachable from its start, a success covers the start, and a failure names a reachable shape that cannot be emitted. |
| `ShapePruner.Pruner.VisitAll` | cmd/awsmodelgen/shapes.go:312-350 | Visiting a list in turn covers all of it or fails at one that cannot be emitted. |
| `ShapePruner.PruneService` | cmd/awsmodelgen/shapes.go:291-438 | Fails exactly when a reachable non-prelude shape is undefined or holds a kept trait that does not re-encode; otherwise the result mirrors exactly the reachable non-prelude shapes under their names, and, the namespace being cut off the root's ID, every reference in it is a name in it or a prelude ID. |
| `ShapePruner.WellFormedStand` | cmd/awsmodelgen/shapes.go:303-308 | With well-formed IDs every kept shape stands under its own name as it is. |
| `ShapePruner.WalkIsClosure` | cmd/awsmodelgen/shapes.go:351-437 | The visited set is the reachable closure, and every emitted reference is a prelude shape or an emitted one. |
| `ShapePruner.RelativeCollision` | cmd/awsmodelgen/shapes.go:303-308 | Two IDs get one relative name exactly when they are equal or one is the other's bare name. |
| `ShapePruner.WellFormedNamesDiffer` | cmd/awsmodelgen/shapes.go:303-308 | IDs with exactly one `#` never share a relative name. |
| `ShapePruner.PruneIsDeterministic` | cmd/awsmodelgen/shapes.go:291-438 | With well-formed IDs, any two successful runs leave the same snapshot map. |
| `ShapePruner.OnlyAllowedTraits` | cmd/awsmodelgen/shapes.go:446-465 | Every trait left on an emitted shape or member is on the allowlist. |
| `Suite.SuiteProcess.FindDuplicate` | compat/orchestrator.go:1137-1165 | True exactly when the active batch or a queued one covers the test. |
| `Suite.SuiteProcess.SubmitTests` | compat/orchestrator.go:342-466 | The new state is the old one with the deduplicated batch placed by state; the batch to send, the entries reported as queued and the count of skipped duplicates are those of that batch. |
| `Suite.SuiteProcess.CancelTests` | compat/orchestrator.go:531-621 | Matching batches leave the queue and the active slot, nothing else changes, and the reported entries are their refs narrowed to the group and test asked for. |
| `Suite.SuiteProcess.ProcessQueue` | compat/orchestrator.go:1111-1120 | A batch is sent exactly when the suite is ready, nothing is active and something is queued; it is the first one queued and becomes active, and active batch and queue together stay as they were. |
| `Suite.SuiteProcess.SendFailed` | compat/orchestrator.go:1127-1132 | The active batch is dropped. |
| `Suite.SuiteProcess.SaveQueue` | compat/orchestrator.go:836-839 | The queue is handed over and left empty. |
| `Suite.SuiteProcess.RestoreSaved` | compat/orchestrator.go:848-856 | The saved batches are appended to the pending buffer in order. |
| `Suite.SuiteProcess.ResetOnStart` | compat/orchestrator.go:923-932 | The suite is building with nothing active; queue, buffer and timers stay. |
| `Suite.SuiteProcess.MarkStopped` | compat/orchestrator.go:1170-1179 | The suite is stopped and nothing else changes. |
| `Suite.SuiteProcess.MarkKilled` | compat/orchestrator.go:310-318 | The suite is in error and nothing else changes. |
| `Suite.SuiteProcess.ReachEof` | compat/orchestrator.go:1073-1078 | A suite that was not stopped is in error. |
| `Suite.SuiteProcess.ReadEvent` | compat/orchestrator.go:981-1070 | Each printed line changes state, active batch, pending buffer and timers as its handler says, and `ready` returns the flushed buffer. |
| `Suite.SuiteProcess.Check` | compat/orchestrator.go:229-299 | One watchdog check pings, cancels, kills or clears the timers as the elapsed times call for. |
| `SuiteRuns.RunsAreOrderly` | compat/orchestrator.go:345-463 | In every reachable state no test is covered by two tracked batches, and at most one run-all batch is tracked, active or at the head of the queue. |
| `SuiteRuns.SubmitAccounts` | compat/orchestrator.go:345-434 | What a submission reports as queued is, in order, each named test or whole group that clashes with no tracked batch, and every other one counts as skipped; a request naming nothing is queued exactly when nothing is tracked. |
| `SuiteRuns.QueuedExactly` | compat/orchestrator.go:380-434 | A test or whole group is reported as queued exactly when the request names it and it is no duplicate. |
| `SuiteRuns.FiltersDropNothing` | compat/orchestrator.go:534-571 | The group and test of a cancel request have no effect on what is dropped. |
| `SuiteRuns.CancelDropsMatches` | compat/orchestrator.go:534-613 | A cancel drops exactly the tracked batches it matches, whole. |
| `SuiteRuns.CancelTakesOnlyAsked` | compat/orchestrator.go:534-613 | A cancel takes away only tests within its group and test exactly when every batch it matches names only such tests. |
| `SuiteRuns.CancelReportsExactly` | compat/orchestrator.go:543-604 | A cancel reports exactly the refs of the batches it drops that pass its filter, queued or running: the group filters all, the test only refs that name tests. |
| `SuiteRuns.ReportedIsAsked` | compat/orchestrator.go:543-604 | All that is reported was asked for exactly when the request names no test or no batch it matches names a whole group that passes. |
| `SuiteRuns.CancelDropsUnasked` | compat/orchestrator.go:534-613 | From a fresh start, a suite can run a batch of two tests and a cancel of one of them drop the other too, without reporting it. |
| `SuiteConservation.EventBalances` | compat/orchestrator.go:334-469 | Every region moves batches between queue, active slot, pending buffer, saved queue, flushed and retired; only an accepted one comes in. |
| `SuiteConservation.BatchesConserved` | compat/orchestrator.go:828-859 | In every run each batch is in those places as often as it was accepted. |
| `SuiteConservation.ExactlyOnePlace` | compat/orchestrator.go:334-469 | With fresh batch IDs, every accepted batch is in exactly one place. |
| `SuiteConservation.GoneForGood` | compat/orchestrator.go:991-1044 | A batch flushed on `ready` or retired is never queued, active, buffered or saved again. |
| `SuiteSending.ActiveWasSent` | compat/orchestrator.go:436-463 | In every reachable state the active batch is the last one the process was sent. |
| `SuiteSending.TakenInOrder` | compat/orchestrator.go:1111-1125 | Over every run, what was taken off the queue and what is on it stand in the order in which they were put on it. |
| `SuiteSending.BufferInOrder` | compat/orchestrator.go:836-859 | Over every run, what was flushed on `ready` and what is pending is exactly what was accepted while building or saved by a reload, in order. |
| `SuiteSending.SentOnce` | compat/orchestrator.go:334-469 | With fresh batch IDs no batch is sent twice, at once, off the queue or from the buffer, and what waits has not been sent. |
| `SuiteSending.NothingSentWhileOut` | compat/orchestrator.go:436-463 | From an error event, the end of output, a kill, a stop or a start on, nothing is sent until the suite says that it is ready or done with a batch, or a cancel reaches it. |
| `Watchdog.CancelIsJustified` | compat/orchestrator.go:246-297 | Whatever the times, a watchdog cancel goes only to a busy interactive suite with that batch active, silent beyond the limit, whose ping is older than the timeout with no pong since. |
| `Watchdog.PingsExactly` | compat/orchestrator.go:262-270 | Over every run from a fresh start, a check pings exactly when it finds the suite monitored, its last line older than the limit, no ping recorded and no cancel older than the grace. |
| `Watchdog.SilenceIsAnswered` | compat/orchestrator.go:260-289 | A monitored suite that prints nothing is cancelled or killed: by the first check later than silence limit, ping timeout and one gap after its last line, if not before. |
| `Watchdog.RearmedInTime` | compat/orchestrator.go:246-297 | After a watchdog cancel, while checks find the suite monitored and are at most 2.5 s apart, the time tested against the kill grace never exceeds it. |
| `Watchdog.KillNeedsSlowChecks` | compat/orchestrator.go:188-210 | From a fresh start, a check can kill a suite that every check since the cancel found monitored, exactly when checks may be more than 2.5 s apart. |
| `Watchdog.KillsExactly` | compat/orchestrator.go:246-297 | Over every run from a fresh start, a check kills the suite as unresponsive exactly when it finds it monitored and a cancel more than the grace old stands: sent by an earlier check, and since then neither replaced nor cleared by a check that found the suite monitored, not silent and within the grace. |
| `Watchdog.KillNeedsLapse` | compat/orchestrator.go:246-297 | With each check at most 2.5 s after the one before, whenever the first comes, some check between that cancel and the kill found the suite not monitored. |
| `Watchdog.HealthySuiteKilled` | compat/orchestrator.go:254-258 | There is such a run with a check every 2 s: cancelled at 18 s, batch completed at 19 s, next batch started at 29 s, killed at 30 s. |
| `Watchdog.BuildKillsExactly` | compat/orchestrator.go:236-243 | Over every run from a fresh start, a check kills the suite as never ready exactly when it finds it building and the last line read in the run is older than the build timeout. |
| `Watchdog.ReloadedSuiteKilled` | compat/orchestrator.go:841-845 | With a check every 2 s, a suite that was ready and idle for 300 s and is then reloaded is killed by the first check after its start. |
| `EventStream.Server.Broadcast` | compat/server.go:131-148 | The buffer gains the event, losing its oldest when full, and every client channel with room gains it. |
| `EventStream.Server.ResetRun` | compat/server.go:86-126 | The buffer keeps the other suites' events (or none) and the marker, which every channel with room also gets. |
| `EventStream.ResetDropsSuites` | compat/server.go:96-112 | A partial reset takes exactly the events of the reset suites out of the buffer and keeps the others in order. |
| `EventStream.PushKeepsLatest` | compat/server.go:135-140 | A broadcast stands last in the buffer, and only the oldest event makes room for it, when there are ten thousand. |
| `EventStream.Server.Register` | compat/server.go:339-346 | The snapshot is the buffer and the client's channel starts empty, in one step. |
| `EventStream.Server.Receive` | compat/server.go:363-372 | The oldest event of the client's channel is taken from it and no other channel changes. |
| `EventStream.Server.Unregister` | compat/server.go:347-352 | The client's channel is removed and no other changes. |
| `EventStream.Server.ClearBuffer` | compat/server.go:633-635 | The buffer is emptied and clients are left alone. |
| `EventStream.StreamIsExact` | compat/server.go:86-148 | A client whose channel never fills gets every event published after it registered exactly once and in order. |
| `EventStream.ReplayThenLive` | compat/server.go:339-376 | What a client has been sent is a prefix of its registration snapshot followed by every later event, for every interleaving. |
| `EventStream.SlowClientGetsSubsequence` | compat/server.go:119-125 | A client that overflowed still gets a subsequence of that: nothing twice, nothing out of order. |
| `EventStream.BufferBounded` | compat/server.go:135-140 | The buffer never exceeds the cap plus the partial resets since it was last emptied. |
| `EventStream.BufferBoundReached` | compat/server.go:103-118 | That bound is reached: partial resets alone exceed the cap by any amount. |
| `SemVer.Precedence` | scripts/release-channel-tags.py:92-112 | The loop builds the key the ordering laws are about. |
| `SemVer.KeyIsPrecedence` | scripts/release-channel-tags.py:92-112 | Comparing two keys never raises, and orders versions exactly as section 11 of Semantic Versioning 2.0.0. |
| `SemVer.AtLeastIsTotalPreorder` | scripts/release-channel-tags.py:92-112 | Precedence is total, reflexive and transitive. |
| `ReleaseTags.FloatingTagsAreMoves` | scripts/release-channel-tags.py:154-199 | The returned tags are the names of exactly the slots whose peers are none newer than the version. |
| `ReleaseTags.SlotNamesDiffer` | scripts/release-channel-tags.py:75-90 | No channel, line, major or `latest` tag shares a name with another. |
| `ReleaseTags.DecimalExactly` | scripts/release-channel-tags.py:83-90 | A tag writes a number as its digits without an idle zero in front. |
| `ReleaseTags.ChannelsMeet` | scripts/release-channel-tags.py:75-81 | Two prereleases share a channel exactly when they have the same first identifier or both are numbered. |
| `ReleaseTags.TagsPointAtNewest` | scripts/release-channel-tags.py:148-199 | After every history, each tag points at a precedence-maximal release of its class. |
| `ReleaseTags.LatestIsNewest` | scripts/release-channel-tags.py:165-188 | `:latest` is the newest stable release once one exists and the newest prerelease before that. |
| `ReleaseTags.TagsNeverFall` | scripts/release-channel-tags.py:148-199 | No release moves a tag to a lower precedence, except `:latest` at the first stable release. |
| `ReleaseTags.LatestMovesExactly` | scripts/release-channel-tags.py:163-188 | Whatever was released before, a stable release moves `:latest` exactly when no stable one is newer, and a prerelease exactly when its channel is literally named `latest` and none of that channel is newer, or there is no stable release and nothing is newer. |
| `ReleaseTags.LatestFallsWhen` | scripts/release-channel-tags.py:163-188 | In every history `:latest` moves to an older version exactly at a release that moves it and precedes the version it points at. |
| `ReleaseTags.LatestFallsExactly` | scripts/release-channel-tags.py:163-188 | With no channel named `latest` so far, it does so exactly at a release older than the version it points at that is the first stable one or a prerelease of a channel named `latest`. |
| `ReleaseTags.StablePullsBack` | scripts/release-channel-tags.py:187-188 | Once a prerelease of a channel named `latest` has taken the tag, a stable release that precedes it and is newest among the stable ones pulls it back. |
| `ReleaseTags.LatestDoesFall` | scripts/release-channel-tags.py:163-188 | 1.0.0-latest after 2.0.0-alpha moves `:latest` back, and so does 1.0.1 after 1.0.0 and 2.0.0-latest. |
| `ReleaseTags.OrderAndRepublishIrrelevant` | scripts/release-channel-tags.py:154-160 | The tags depend only on which other versions were released, not on their order or on a republish. |
| `ReleaseTags.StableMovesNest` | scripts/release-channel-tags.py:187-199 | For a stable release, moving `:latest` implies moving the major tag, which implies moving the line tag. |
| `Baseline.BuildTable` | cmd/compat/baseline.go:797-803 | The table holds, for each key, the last entry with it. |
| `Baseline.WriteTable` | cmd/compat/baseline.go:805-818 | The entries of a table in increasing key order. |
| `Baseline.TableRoundTrip` | cmd/compat/baseline.go:797-818 | Writing a table and reading it back changes nothing, and written keys are unique. |
| `Baseline.CompareBaseline` | cmd/compat/baseline.go:538-577 | The findings are those of the two loops, entry by entry. |
| `Baseline.CompareClean` | cmd/compat/baseline.go:538-577 | A comparison is clean exactly when every gated expectation is met at its rank or above and every gated failure has a recorded key. |
| `Baseline.FindingsExactly` | cmd/compat/baseline.go:538-577 | For every key: as many missing results as gated expectations without a result, as many regressions as gated expectations with a worse one, as many new failures as gated failures the baseline does not know. |
| `Baseline.UpdateBaseline` | cmd/compat/baseline.go:593-610 | The updated baseline is the merge of the report into the table, in key order. |
| `Baseline.UpdateRatchets` | cmd/compat/baseline.go:593-610 | No key is dropped and no rank lowered, quarantined keys keep their entry, and what changes comes from the report outside candidate groups. |
| `Baseline.UpdateIdempotent` | cmd/compat/baseline.go:593-610 | Updating twice with one report is updating once. |
| `Baseline.UpdateCleanExactly` | cmd/compat/baseline.go:538-610 | When keys tell groups, a run that is clean against a baseline is clean against the baseline it updates exactly when the last result of every gated test is its best. |
| `Baseline.UpdateKeepsRunClean` | cmd/compat/baseline.go:538-610 | So with unique report keys it always is. |
| `Baseline.RepeatedKeyBreaksUpdate` | cmd/compat/baseline.go:593-610 | The smallest report that breaks it: a test that passes and then is skipped. |
| `Baseline.LintBaselineChange` | cmd/compat/baseline.go:637-691 | The issues and both kinds of notes are those of the loops, in order. |
| `Baseline.IssuesExactly` | cmd/compat/baseline.go:637-691 | For every key: one issue for each entry dropped while the registry asks for it, one for each entry lowered other than by closing debt, and, unless the old baseline was empty, one for each failure without an entry before. |
| `Baseline.UpdateLintsClean` | cmd/compat/baseline.go:637-691 | Linting an update reports new-fail lines at most. |
| `Baseline.CleanEditKeeps` | cmd/compat/baseline.go:640-660 | A lint-clean edit removes no expected key, and a status falls only from skip to unimplemented under closed debt. |
| `Baseline.NoLaundering` | cmd/compat/baseline.go:637-691 | Along any chain of lint-clean edits from a non-empty start with every key still expected, a key whose recorded statuses are known is not removed, does not become a failure and does not enter as one. |
| `Baseline.LinkHolds` | cmd/compat/baseline.go:637-691 | At each edit of such a chain, a key with a known status stays, changes only as the lint allows, and fails only if it failed before. |
| `Baseline.FailsOnlyBySeeding` | cmd/compat/baseline.go:667-677 | Along any chain of lint-clean edits, whatever the registry expects, a key whose recorded statuses are known turns into a failure only at an edit of an empty baseline. |
| `Baseline.EmptiedExactly` | cmd/compat/baseline.go:640-650 | Emptying a baseline lints clean exactly when the registry expects none of its tests. |
| `Baseline.SeedingLaunders` | cmd/compat/baseline.go:667-677 | Then any failure can be recorded in two lint-clean edits. |
| `Baseline.LaundersExactly` | cmd/compat/baseline.go:637-691 | With unique keys, all expected, a recorded test that does not fail can be turned into a failure by a lint-clean edit exactly when its status is not one of the five known ones. |
| `Baseline.UnknownStatusLaunders` | cmd/compat/baseline.go:824-837 | So some recorded test can be laundered exactly when some recorded status is unknown. |
| `TextLines.SplitUnlines` | scripts/changelog.py:323 | Splitting lines that were written out gives them back. |
| `TextLines.SplitAppended` | scripts/changelog.py:323 | Text appended after a final line feed adds its lines and disturbs none. |
| `EntryGrammar.MatchSound` | scripts/changelog.py:56-60 | What the entry line reader returns is a match of the pattern. |
| `EntryGrammar.MatchComplete` | scripts/changelog.py:56-60 | Every line the pattern matches is read; a match with an area list is the one returned. |
| `EntryGrammar.ParseAreas` | scripts/changelog.py:212-230 | Each part is kept or faulted as empty, malformed or repeated, in order. |
| `EntryGrammar.AreasAreGood` | scripts/changelog.py:212-230 | What is kept are distinct slugs, all of them when nothing was faulted. |
| `EntryGrammar.AreasRoundTrip` | scripts/changelog.py:212-230 | Joining distinct slugs and parsing them back gives the same areas without faults. |
| `EntryGrammar.ReviewRoundTrip` | scripts/changelog.py:105 | A written detail-review marker is read back with its reason. |
| `ChangelogParser.ParseEntries` | scripts/changelog.py:304-476 | Entries and problems are those of the line-by-line parser and the whole-entry checks, in order. |
| `ChangelogMeaning.KindExactly` | scripts/changelog.py:48-54 | A kind is one of a section exactly when it is its symbol or its word in any letter case. |
| `ChangelogMeaning.LineRead` | scripts/changelog.py:383-448 | An entry line gives an entry exactly when it has the form, a known kind, prose that starts with no bracket and no open question of breaking; the entry has the section of its kind, is breaking exactly when marked `!` or an unmarked removal, and has the stated areas and prose; and its faults are exactly those of the text. |
| `ChangelogReading.FragmentMeans` | scripts/changelog.py:304-476 | The entries of a fragment are those of the lines that give one, in order, each with the detail lines, migration note and marker that stand for it; and a problem is reported exactly when the lines have it, among them a breaking entry without a migration line, more than three detail lines without a marker, a summary wider than 160 and an unknown kind. |
| `ChangelogParser.RenderEntry` | scripts/changelog.py:780-798 | The printed text is the entry's marker, entry line, notes and migration line, each ended by a line feed. |
| `ChangelogParser.PrintEntries` | scripts/changelog.py:980 | The fragment body is the concatenated renderings. |
| `ChangelogSound.RunSound` | scripts/changelog.py:323-448 | As long as nothing is reported, every entry is well-formed: stripped single-line prose not starting with `[`, distinct slug areas, lengths within limits, notes that are neither markers nor migrations. |
| `ChangelogLines.EntryLineMatched` | scripts/changelog.py:780-793 | A printed entry line is matched with its own kind, marker, areas and prose. |
| `ChangelogRoundTrip.EntryReadBack` | scripts/changelog.py:323-448 | From any state with no marker open, the lines of a printed entry add that entry and at most a complaint about a long migration note. |
| `ChangelogRoundTrip.RoundTrip` | scripts/changelog.py:304-476 | For any text parsed without problems, parsing the printed entries gives the same entries up to line numbers; it is clean exactly when every joined migration note fits a line, and otherwise complains of nothing else. |
| `ChangelogRoundTrip.AppendRoundTrip` | scripts/changelog.py:980-994 | Appending printed entries to a clean fragment ending in a line feed keeps its entries and adds the printed ones. |
| `ChangelogRoundTrip.JoinedNotesOverflow` | scripts/changelog.py:370-381 | Two migration lines that each fit can be joined into a note that cannot be printed back. |
| `BulletLists.SplitIntoBullets` | scripts/changelog.py:715-721 | The bullets are the chunks from each dash line to the next, without trailing line feeds. |
| `BulletLists.SplitGivesItems` | scripts/changelog.py:715-721 | Each bullet starts with its only dash line and ends in text. |
| `BulletLists.SplitJoined` | scripts/changelog.py:715-742 | Splitting joined bullets recovers the list. |
| `BulletLists.PlaceBullets` | scripts/changelog.py:734-741 | Each new bullet goes after the last of its area, or at the end. |
| `BulletLists.PlacedIsAdditive` | scripts/changelog.py:724-742 | The old bullets are a subsequence of the new list, every run of bullets of one area is still one with what was put into it, and the multiset is the old one plus the new bullets. |
| `BulletLists.PlacedStaysTogether` | scripts/changelog.py:724-742 | If all bullets of an area stood together, they still do with the new ones, however other areas are scattered. |
| `BulletLists.PlacedStaysGrouped` | scripts/changelog.py:724-742 | So a list in which every area stands together stays one. |
| `ChangelogFold.NewTextSplits` | scripts/changelog.py:724-742 | The rewritten category text splits into the old bullets with the new ones folded in. |
| `ChangelogFold.RejoinKeeps` | scripts/changelog.py:763-776 | Rewriting one category leaves the text of every other as it was. |
| `ChangelogFold.InsertKeeps` | scripts/changelog.py:683-693 | Adding a category leaves the text of every other as it was, up to empty lines at its end. |
| `ChangelogFold.InsertFolds` | scripts/changelog.py:683-693 | The added category is found under its heading and holds exactly the new bullets. |
| `ChangelogRelease.CategoryFolded` | scripts/changelog.py:757-776 | Folding into a category folds the new bullets into its bullets. |
| `ChangelogRelease.OthersKept` | scripts/changelog.py:757-776 | Folding into a category keeps the text of every other. |
| `ChangelogRelease.SplicedFile` | scripts/changelog.py:660-667 | Splicing a body in changes only the section, and the section looked up again has that body. |
| `ChangelogRelease.FoldInPlace` | scripts/changelog.py:745-777 | A fold fails exactly when the section is missing; otherwise nothing outside the section changes, and the section is found again with its body folded. |
| `ChangelogRelease.FoldIsAdditive` | scripts/changelog.py:745-777 | Every category then has its new bullets folded in. |
| `ChangelogRelease.RepeatedFoldsAreAdditive` | scripts/changelog.py:745-777 | After any number of folds the old bullets are an unchanged subsequence, exactly the folded ones were added, every run of bullets of one area is still one, each area that stood together in a category with bullets still does, and the text outside is identical. |
| `ChangelogLayout.LeadSurvives` | scripts/changelog.py:731-742 | The text before a category's first bullet is dropped when bullets are added to some that are there, and is the same otherwise. |
| `ChangelogLayout.LeadAlong` | scripts/changelog.py:745-777 | Over any number of folds it is gone exactly from the first that adds to bullets already there. |
| `ChangelogLayout.FoldTidies` | scripts/changelog.py:724-776 | New bullets leave a category with one empty line after its heading, one between bullets and no other text exactly when it had bullets or no text. |
| `ChangelogLayout.FoldsStayTidy` | scripts/changelog.py:670-680 | It then stays so after any number of further folds: empty lines do not pile up. |
| `ChangelogCells.RepeatedFoldsKeepCells` | scripts/changelog.py:745-777 | After any number of folds the opening text of the section, categories of any other title and later ones of a repeated title are unchanged up to empty lines at their end, all categories stand in their old order under their old heading lines, and only categories of the six titles were added. |
| `ChangelogCells.CellHolds` | scripts/changelog.py:763-770 | The category a fold writes to is the first of its title, heading line and content. |
| `ChangelogCells.LeadAndBullets` | scripts/changelog.py:715-742 | The text of a category is the text before its first bullet followed by that of its bullets. |
| `ChangelogFolding.RenderedIsGood` | scripts/changelog.py:628-642 | Every entry renders as one list item that holds no heading line. |
| `ChangelogFolding.RenderedShows` | scripts/changelog.py:628-642 | The bullet of an entry is a dash, the flag if it is breaking, its areas in brackets and its prose, then its notes and its migration note, indented. |
| `ChangelogFolding.RenderedReadBack` | scripts/changelog.py:628-642 | So a rendered well-formed entry is read back whole, with that one exception. |
| `ChangelogBullets.BulletReadBack` | scripts/changelog.py:628-642 | From a bullet that shows a well-formed entry one reads back its flag, areas, prose, notes and migration note, exactly unless the entry is not breaking, has no areas and its prose starts as the flag does. |
| `ChangelogFolding.KeyLeIsTotalPreorder` | scripts/changelog.py:645-653 | The assembly key is a total preorder. |
| `ChangelogFolding.BreakingLeads` | scripts/changelog.py:645-653 | In that order breaking entries come first, and among breaking ones and among others those of one area stand together. |
| `ChangelogFolding.PickBullets` | scripts/changelog.py:758-762 | The bullets of a category are the renderings of exactly its entries, in the order of the assembly key. |
| `ChangelogFolding.FoldEntries` | scripts/changelog.py:745-777 | The result is the fold of exactly the entries' bullets, category by category, each in assembly order; it is there exactly when the section is, and every entry stands under its category in a bullet that shows it. |

## Left out

- Go source text printed by the generator: the tables are modelled as records.
- The model service and no-error-wrapping lists of cmd/awsmodelgen/main.go:288-318.
- The resolution of ambiguous claims, error profiles and the root catch-all rule of internal/awsapi: `RestMatcher` ends where the row is chosen.
- RestCollisions.WriteRestCollisions: its rows are written in a pass of their own, so which of several operations with one service, name and binding spells the key may differ from the one that names the entry.
- IndexTables.JoinedKeysDiffer: `writeQueryIndex` compares joined keys, and the index is modelled on the two parts; versions that hold a NUL are therefore outside the query index result.
- Inventory.BuildModelInventory: the sorted copy of the operation list is not modelled; neither are diffs and summaries of inventories.
- Inventory.BindingsExact: methods that hold a space, which no HTTP method does, are excluded.
- ShapePruner.PruneService: which of several failures is reported first is left open; snapshot files, digests and JSON encoding are not modelled.
- Suite.SuiteProcess.SubmitTests: one suite of a request is modelled; the choice of suites and the loop over them are not.
- Suite.SuiteProcess.CancelTests: one suite is modelled; the broadcast of cancelled events is not.
- Process spawning, pipes, signals and contexts in the orchestrator: starts, sends and printed lines are inputs that may succeed or fail at any point. Results, reports and the idle notification are not modelled.
- Timestamps injected into events, run reports and result files in compat/server.go.
- Parsing of version strings by pattern and reading of the release list in scripts/release-channel-tags.py: versions are taken as parsed.
- Messages, annotations and the sorting of findings in cmd/compat/baseline.go, the flaky-list lints and the loading of files: only which findings there are is modelled.
- Error texts, `elide`, fragment file names, prompts, `assemble`, `release` and the link updates of scripts/changelog.py.
- ChangelogLayout.FoldsStayTidy: the number of empty lines at the end of a category is fixed by the model but not stated as a law.
- cmd/capgen, sdkshapes, documentation scripts, benchmarks, MCP tools and CI-scope classifiers.
