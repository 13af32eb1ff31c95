# A verified model of cofounder's orchestration core

cofounder runs a generated application's build as a workflow. Units of work
are **nodes**. A node is a function wrapped with an input/output projection,
a concurrency queue and a retry loop. Nodes are composed into **sequences**:
a sequence lists its member ids and, for each member, its parents.
`cofounder/api/build.js` does three things:

- it compiles every sequence into an ordered list of **levels**, a
  breadth-first Kahn topological sort;
- it gives every compiled sequence a `run` closure. The closure skips the
  levels before `context.sequence.resume`, dispatches the members of each
  later level, and merges their responses into the data bag;
- it puts nodes and sequences into one registry, `system.nodes`.

`cofounder/api/server.js` wraps this in a web server. The parts modelled
here are:

- the project-name slug and the id choice for a new project;
- the flattening of a stored project into the flat key map that the client
  reads;
- the computation of the resume point over the hard-coded level table of
  the project sequence;
- the rewrite of dotted state keys in `streams.update`;
- the `subscriptions` and `projects` maps that the socket handlers
  maintain.

The model is written as follows.

- `Values.dfy` has the JavaScript values, JavaScript truthiness, `?.`,
  `x || null`, and the `Option` and `Result` wrappers.
- `Text.dfy` has the string primitives the source relies on: `startsWith`,
  `includes`, `split`/`join` on one character, `String()`, `parseInt`, and
  `Number()` on integer text. It proves the round trips between them.
- `NodeRuntime.dfy` has the node wrapper's projections (`Pick`,
  `ProjectInput`, `ProjectOutput`, `RunNode`) and the queue and retry
  settings (`ConfigOf`).
- `DagCompiler.dfy` has `makeDags` as imperative methods over the source's
  maps and queues:
  - `BuildGraph` builds the graph;
  - `DecrementChildren`, `PeelLevel` and `Kahn` peel off the frontiers;
  - `CompileDag` is the whole compiler.

  A successful compile is tied to `IsLevelPartition`. The levels partition
  the members, every resolved edge goes strictly forward, and every member
  sits at the length of its longest chain of parents. Failure is tied to
  `HasCycle`, in both directions.
- `SequenceRunner.dfy` has the `run` closure. The imperative `RunSequence`,
  `RunLevels` and `RunLevel` are proved equal to the functions `Run`,
  `RunFrom` and `MergeLevel`.
  Lemmas then state the resume, skip, dispatch and merge properties of
  `Run`.
- `Registry.dfy` has the composition of `system.nodes`.
- `Slug.dfy` has `_slugify` as its replacement chain, the slug invariant
  it establishes, its idempotence, and the id and error choice of
  `POST /api/projects/new`.
- `ProjectState.dfy` has three parts:
  - the nested loops of `load_project`, as methods over a typed `webapp`
    tree, proved against the `Loaded` relation;
  - the `resume_project` loop, proved against `IsResumeIndex`;
  - the cursor walk and the `Object.keys` loops of `streams.update`, proved
    against `RewriteUpdate`.
- `Server.dfy` has the class `ApiServer`. Its fields are `subscriptions`
  and `projects`. Its methods are the handlers that change or read them.

The loader, the sockets, the dispatcher `system.run` and the work functions
are parameters. An event the source emits is returned as a value; a
handler that throws returns an error and sends nothing.

Three details of the code that the model follows:

- `resume_at` is `context.sequence.resume` when that value is truthy and 0
  otherwise (build.js:199).
- A declared parent that is not a member is skipped with a warning and is
  not an error (build.js:159-163).
- The queue timeout is `parseInt(queue.timeout) || undefined` (build.js:76).

## Model

| member | source | states |
|---|---|---|
| Text.JoinSplit | cofounder/api/server.js:373 | joining the segments of `split(".")` gives back the key |
| Text.SplitJoin | cofounder/api/server.js:373 | splitting a join of dot-free segments gives back the segments |
| Text.ParseInt | cofounder/api/build.js:72-76 | `parseInt("")` is NaN |
| Text.ParseIntToString | cofounder/api/build.js:72 | `parseInt(String(i)) == i` for every integer |
| Text.StringToNumber | cofounder/api/build.js:203 | `Number("")` is 0, where `parseInt("")` is NaN |
| Text.NumberOfString | cofounder/api/build.js:203 | the text of an integer compares in `>=` as the integer itself |
| NodeRuntime.Pick | cofounder/api/build.js:89-92 | the reduce yields exactly the listed keys, each the source's value when truthy and null otherwise |
| NodeRuntime.ProjectInput | cofounder/api/build.js:88-93 | with a non-empty `in` list the work function gets exactly those keys (truthy value or null); without one it gets the bag unchanged |
| NodeRuntime.ProjectOutput | cofounder/api/build.js:96-103 | a falsy result becomes `{success: false}`; with `out` the result has exactly the `out` keys; otherwise the result is passed on |
| NodeRuntime.ErrorText | cofounder/api/build.js:106 | `String(error)`: a thrown `Error` reads as its name, then its message; any other thrown value reads as its usual text |
| NodeRuntime.RunNode | cofounder/api/build.js:79-116 | a node fails exactly when its work call throws, and then with the message of `new Error(error)`, which is `String(error)`; it never returns a falsy value |
| NodeRuntime.RethrowExample | cofounder/api/build.js:104-107 | a work function that throws `new Error("boom")` fails the node with "Error: boom"; one that throws the string "boom" fails it with "boom" |
| NodeRuntime.ProjectedValuesTruthyOrNull | cofounder/api/build.js:90 | no falsy value other than null survives a projection |
| NodeRuntime.NodeSeesOnlyItsInputs | cofounder/api/build.js:86-93 | two bags that agree on the `in` keys up to falsiness give the same node result |
| NodeRuntime.OutputKeysExactly | cofounder/api/build.js:98-102 | a node with `out` returns an object whose keys are exactly `out`, whatever the work function returns |
| NodeRuntime.DoublingExample | cofounder/api/build.js:86-103 | the worked example: `{x: 5, q: 7}` is seen as `{x: 5}`, and `{z: 10, w: 99}` becomes `{z: 10}` |
| NodeRuntime.IntOr | cofounder/api/build.js:75 | `parseInt(x) \|\| d` is never 0 when `d` is not, and is either `d` or the number `parseInt` read |
| NodeRuntime.LimitOf | cofounder/api/build.js:72-74 | `parseInt(x) \|\| Infinity` is never a limit of 0 |
| NodeRuntime.ConfigOf | cofounder/api/build.js:71-76 | no limit of 0, no timeout of 0 and no retry count of 0 can come out of a queue block |
| NodeRuntime.DefaultConfig | cofounder/api/build.js:71-76 | without a queue block: unbounded concurrency and rate, interval 0, no timeout, five retries |
| NodeRuntime.RetryDefaultsToFive | cofounder/api/build.js:110 | a retry setting that is absent, 0 or without digits gives five retries |
| NodeRuntime.ConcurrencyZeroIsUnbounded | cofounder/api/build.js:72 | a concurrency that is absent or 0 means unbounded |
| NodeRuntime.IntervalDefaults | cofounder/api/build.js:73-75 | an interval limit that is absent or 0 means unbounded, and an interval time that is absent or 0 gives 0, whatever else the block holds |
| NodeRuntime.TextAndNumberAgree | cofounder/api/build.js:72-76 | a number and its decimal text configure the queue alike |
| DagCompiler.Dedup | cofounder/api/build.js:138-155 | the keys of the `dag` object: the members, once each |
| DagCompiler.InitGraph | cofounder/api/build.js:152-155 | every member starts with in-degree 0 and no children |
| DagCompiler.AddParents | cofounder/api/build.js:157-168 | one member's declared parents add one in-degree per member parent and list the member once per declaration under each such parent; a non-member parent adds nothing |
| DagCompiler.BuildGraph | cofounder/api/build.js:135-169 | the in-degree of each member is the number of its declared parents that are members, with repeats; `adjList` holds, for each member, every child once per declaration; parents that are not members add nothing |
| DagCompiler.DecrementChildren | cofounder/api/build.js:177-179 | each child's in-degree drops by the number of times it is listed; the children pushed are exactly those that reach 0, once each |
| DagCompiler.PeelLevel | cofounder/api/build.js:174-180 | after a pass over the frontier, the visited set grows by the frontier, the in-degrees count only unvisited parents, and the next queue holds exactly the newly ready members, each with a parent in the frontier |
| DagCompiler.AppendLevel | cofounder/api/build.js:181 | pushing a frontier keeps the levels disjoint, complete for the visited set, edge-forward and tight |
| DagCompiler.ZeroDegree | cofounder/api/build.js:170 | the first frontier holds exactly the members with in-degree 0 |
| DagCompiler.Kahn | cofounder/api/build.js:170-182 | the levels are disjoint, cover exactly the visited members, point every edge forward and are tight; every unvisited member keeps an unvisited parent |
| DagCompiler.CycleFromBlocked | cofounder/api/build.js:183-186 | when unvisited members remain, each with an unvisited parent, the resolved edges contain a cycle |
| DagCompiler.NoCycleInLevels | cofounder/api/build.js:170-182 | levels that cover all members with every edge pointing forward rule out a cycle |
| DagCompiler.CompileDag | cofounder/api/build.js:131-186 | the compiler succeeds with a level partition of the members exactly when the resolved edges have no cycle, and otherwise fails with the cycle error |
| DagCompiler.LevelsUnique | cofounder/api/build.js:170-182 | any two level partitions of a sequence have the same levels as sets, so the compiled level structure is determined by the sequence |
| DagCompiler.SelfParentIsCycle | cofounder/api/build.js:158-166 | a member listed as its own parent is a cycle, so such a sequence fails to compile |
| DagCompiler.JoinLevels | cofounder/api/build.js:131-186 | `A`, `B` before their child `C` is a valid compile of the join sequence |
| DagCompiler.JoinExample | cofounder/api/build.js:131-186 | every compile of the join sequence is `{A, B}` then `{C}` |
| DagCompiler.UnknownParentExample | cofounder/api/build.js:159-163 | a parent that is not a member is skipped: `B` with parent `Z` sits in level 0 beside `A` |
| DagCompiler.MutualParentsAreCycle | cofounder/api/build.js:183-186 | two members that are each other's parent form a cycle |
| SequenceRunner.ResumeAt | cofounder/api/build.js:199-203 | a falsy or absent resume value gives threshold 0; a number is itself; an object never compares true |
| SequenceRunner.ResumeTextAgrees | cofounder/api/build.js:199-203 | a resume value written as text resumes at the same level as the number |
| SequenceRunner.Merge | cofounder/api/build.js:219 | the response's keys overwrite, the bag's other keys stay, and a non-object response changes nothing |
| SequenceRunner.MergeIdempotent | cofounder/api/build.js:219 | merging the same response twice is merging it once |
| SequenceRunner.MergeLevel | cofounder/api/build.js:212-221 | a level that succeeds keeps every key of the bag it started from |
| SequenceRunner.MergeLevelOutcome | cofounder/api/build.js:212-221 | a level fails iff one of its members fails, with the first failing member's error; otherwise no key of the bag is lost |
| SequenceRunner.RunFrom | cofounder/api/build.js:200-230 | from level `i` on, a run that fails has dispatched at least one level |
| SequenceRunner.Run | cofounder/api/build.js:195-236 | a failed run has dispatched at least one level |
| SequenceRunner.RunLevel | cofounder/api/build.js:212-221 | the loop over a level's members computes `MergeLevel` |
| SequenceRunner.RunLevels | cofounder/api/build.js:200-230 | the loop over `sequence.entries()` against a known threshold computes `RunFrom` from level 0, its result and its dispatched levels |
| SequenceRunner.RunSequence | cofounder/api/build.js:195-236 | reading `resume_at` and then running the levels gives exactly `Run`'s result and dispatched levels |
| SequenceRunner.FirstRun | cofounder/api/build.js:201-203 | the first level the threshold lets run |
| SequenceRunner.TraceShape | cofounder/api/build.js:201-221 | the dispatched levels are consecutive and in order, from the first admitted level to the end or to the failing level, each with its own members |
| SequenceRunner.TraceChain | cofounder/api/build.js:212-236 | each dispatched level sees the bag left by the previous one, and the run returns the last merge (or the initial bag) |
| SequenceRunner.NothingLeftToRun | cofounder/api/build.js:201-236 | a threshold at or past the last level dispatches nothing and returns the bag unchanged |
| SequenceRunner.ResumeDropsLevels | cofounder/api/build.js:199-203 | resuming at `k` is a run of the levels from `k` on |
| SequenceRunner.SkipToThreshold | cofounder/api/build.js:203 | the levels below the threshold are skipped without effect |
| SequenceRunner.ResumeIsSuffixRun | cofounder/api/build.js:199-236 | a run resumed at `k` returns what a fresh run of the remaining levels returns |
| SequenceRunner.ResumePastEnd | cofounder/api/build.js:199-236 | a resume value of at least the level count returns the bag untouched with nothing dispatched |
| SequenceRunner.FreshRunDispatchesAll | cofounder/api/build.js:199-236 | without a resume value a successful run dispatches every level, in order |
| Registry.NodeEntries | cofounder/api/build.js:66-70 | node entries exist exactly for the function ids that have a node declaration |
| Registry.CompileAll | cofounder/api/build.js:131-186 | every sequence compiles to a level partition, or the build fails with the cycle error exactly when some sequence has a cycle |
| Registry.Compose | cofounder/api/build.js:264-267 | the sequence entries override node entries of the same id; the other entries stay |
| Registry.BuildRegistry | cofounder/api/build.js:66-128 | the registry holds the functions with a declaration and every sequence, with sequences overriding; a cycle in any sequence fails the build |
| Slug.ToLower | cofounder/api/server.js:28 | ASCII lower-casing, character by character |
| Slug.DashSpaces | cofounder/api/server.js:29 | no character is added except dashes |
| Slug.DashSpacesKeeps | cofounder/api/server.js:29 | no white space is left, and every character that is neither white space nor a dash keeps its count |
| Slug.KeepWords | cofounder/api/server.js:30 | only word characters and dashes are kept, and nothing is added |
| Slug.KeepWordsKeeps | cofounder/api/server.js:30 | every word character and dash keeps its count, so only other characters are dropped |
| Slug.KeepWordsAppend | cofounder/api/server.js:30 | the filter works piecewise over a concatenation |
| Slug.DropDashes | cofounder/api/server.js:32 | the result is a suffix without a leading dash, and every character dropped is a dash |
| Slug.DropDashesKeeps | cofounder/api/server.js:32 | every character other than a dash keeps its count |
| Slug.CollapseDashes | cofounder/api/server.js:31 | collapsing dash runs adds no character that was not there |
| Slug.CollapseKeeps | cofounder/api/server.js:31 | every character other than a dash keeps its count |
| Slug.DropTrailingDashes | cofounder/api/server.js:33 | the result is a prefix without a trailing dash, and every character dropped is a dash |
| Slug.DropTrailingKeeps | cofounder/api/server.js:33 | every character other than a dash keeps its count |
| Slug.CollapseNoDouble | cofounder/api/server.js:31 | after collapsing no two dashes are adjacent |
| Slug.Slugify | cofounder/api/server.js:25-34 | the result of `_slugify` never starts or ends with a dash |
| Slug.SlugifyIsSlug | cofounder/api/server.js:25-34 | every slug has only `[a-z0-9_-]`, no `--`, and no dash at either end |
| Slug.SlugFixedIff | cofounder/api/server.js:25-34 | `_slugify(s) == s` exactly when `s` is a slug |
| Slug.SlugifyIdempotent | cofounder/api/server.js:25-34 | `_slugify(_slugify(s)) == _slugify(s)` |
| Slug.SlugifyKeepsWords | cofounder/api/server.js:25-34 | every letter, digit and `_` of the lower-cased input appears in the slug exactly as often as in the input |
| Slug.DashSpacesWords | cofounder/api/server.js:29 | the letters, digits and underscores stay in their order |
| Slug.KeepWordsOrder | cofounder/api/server.js:30 | without its dashes, the result is exactly the letters, digits and underscores of the text, in order |
| Slug.CollapseOrder | cofounder/api/server.js:31 | the characters other than dashes stay in their order |
| Slug.DropDashesOrder | cofounder/api/server.js:32 | the characters other than dashes stay in their order |
| Slug.DropTrailingOrder | cofounder/api/server.js:33 | the characters other than dashes stay in their order |
| Slug.SlugifyOrder | cofounder/api/server.js:25-34 | without its dashes, the slug is exactly the letters, digits and underscores of the lower-cased text, in order |
| Slug.SlugifyJoinsWords | cofounder/api/server.js:25-34 | two slugs separated by a run of white space become the two slugs joined by one dash |
| Slug.ProjectId | cofounder/api/server.js:208-214 | the id is always a slug with a letter or digit: the name's slug when the name is non-empty and its slug holds `[a-z0-9]`, `project-<timestamp>` otherwise |
| Slug.TimestampIsSlug | cofounder/api/server.js:213 | `project-<timestamp>` is a slug with a letter |
| Slug.SlugNameKept | cofounder/api/server.js:208-214 | a requested name that is already such a slug is kept as it is |
| Slug.BriefText | cofounder/api/server.js:222 | a named project's brief starts with `Project '<id>' :`, and a brief under the fallback id is the description alone |
| Slug.NewProject | cofounder/api/server.js:204-217 | an absent or empty description is the error answer, and otherwise the answer is the chosen id |
| ProjectState.FlatKey | cofounder/api/server.js:462 | every flat key starts with `webapp.` |
| ProjectState.CopyVersions | cofounder/api/server.js:464-469 | the version loop copies the versions exactly |
| ProjectState.CopyKept | cofounder/api/server.js:455-460 | exactly the keymap keys not under `webapp.` are copied, with their values |
| ProjectState.FlattenCategory | cofounder/api/server.js:460-471 | every id of the category gets an entry holding its versions, and earlier entries and keymap keys are kept |
| ProjectState.FlattenType | cofounder/api/server.js:458-472 | every artefact of the type gets its entry |
| ProjectState.FlattenWebapp | cofounder/api/server.js:456-474 | every artefact of the tree gets its entry |
| ProjectState.ProjectData | cofounder/api/server.js:453-481 | the stored map has exactly the kept keymap keys and the artefacts' flat keys; each kept key keeps its value; each artefact with a unique flat key maps to its versions, and any flat key holds the versions of an artefact with that key |
| ProjectState.LoadedDeterministic | cofounder/api/server.js:453-481 | without name collisions, the stored map is determined by the snapshot |
| ProjectState.DotFreeUnique | cofounder/api/server.js:462 | types and categories without dots never share a flat key |
| ProjectState.CollidingNames | cofounder/api/server.js:462 | `a.b`/`c` and `a`/`b.c` share a flat key |
| ProjectState.ResumeIndex | cofounder/api/server.js:514-534 | the loop returns the first step that has an entry no key starts with, or the last index when every step passes |
| ProjectState.ResumeIndexUnique | cofounder/api/server.js:514-534 | that index is unique |
| ProjectState.ResumeBounds | cofounder/api/server.js:490-534 | over the project table the index is between 1 and 14, never 0 and never the length |
| ProjectState.EmptyProjectResumesAtOne | cofounder/api/server.js:490-534 | a project with no keys resumes at step 1 |
| ProjectState.FinishedProjectResumesAtLast | cofounder/api/server.js:490-534 | a project holding every entry of the table resumes at 14, the last step |
| ProjectState.Entries | cofounder/api/server.js:393-397 | `Object.keys` fails for null, sees no key in a boolean or a number, and sees an object's own fields |
| ProjectState.RewriteUpdate | cofounder/api/server.js:370-404 | a key without `webapp.` goes out unchanged; a `webapp.` key not starting with the `webapp` segment throws; a two- or three-segment `webapp.` key with null data throws at `Object.keys(null)` |
| ProjectState.NestSegments | cofounder/api/server.js:372-382 | the cursor walk leaves the data nested under the key's segments, one object level per segment |
| ProjectState.ReadBack | cofounder/api/server.js:383-402 | the four `Object.keys` loops over the rebuilt object send the one artefact's flat key with a copy of its versions, or throw when the versions are null |
| ProjectState.RewriteKey | cofounder/api/server.js:370-404 | the cursor walk followed by the `Object.keys` loops computes `RewriteUpdate` |
| ProjectState.UpdateFiveSegments | cofounder/api/server.js:370-404 | `webapp.T.C.I.V` goes out as `webapp.T.C.I` with `{V: data}`, the entry `load_project` stores for that artefact |
| ProjectState.UpdateDeepKey | cofounder/api/server.js:370-404 | a longer key goes out under the flat key of its first four segments, with the rest nested under the fifth |
| Server.Without | cofounder/api/server.js:435-437 | the filtered list has no copy of the socket id and every other id as often as before |
| Server.WithoutAppend | cofounder/api/server.js:435-437 | filtering works piecewise, so the kept ids stay in their original order |
| Server.WithoutAbsent | cofounder/api/server.js:435-437 | a list without the socket id is left as it is |
| Server.SubscribeThenDisconnect | cofounder/api/server.js:418-437 | subscribing a socket and then disconnecting it leaves the list as before, without that socket |
| Server.ApiServer.LoadProject | cofounder/api/server.js:447-488 | a failing loader stores nothing; otherwise `projects[project]` is replaced by the flattened state, nothing else changes, and the loader's `state` object is returned |
| Server.ApiServer.Subscribe | cofounder/api/server.js:416-431 | the socket id is appended to the project's list, which is created when missing; a successful load sends the stored state to the whole list |
| Server.ApiServer.Disconnect | cofounder/api/server.js:432-438 | every project's list loses every copy of the socket id, and no project is added or dropped |
| Server.ApiServer.ResumeProject | cofounder/api/server.js:514-534 | after a successful load, the returned data is the loader's `state` object, and the resume point is the first step the stored keys do not cover, between 1 and 14 |
| Server.ApiServer.Update | cofounder/api/server.js:366-410 | nothing is sent for a project without a subscriber list; a key whose rewrite throws rejects the handler with that error and sends nothing; otherwise the rewritten key and data go to the list |
| Server.ResumeSkipsDoneSteps | cofounder/api/server.js:254-271 | the resume point handed to the project sequence makes its run equal a fresh run of the levels from that point on |

## Left out

- Queue and retry internals are not modelled. This covers p-queue admission, rate windows, timeouts and async-retry backoff (build.js 71-77, 81-112). They are concurrency and time in foreign libraries, so only the settings are derived (`ConfigOf`). A negative `concurrency` or `interval.limit` is truthy, so `parseInt(...) || Infinity` passes it on unchanged; p-queue then rejects it when the queue is made. The model derives the negative setting and does not model that throw.
- RunNode: the retry loop is not modelled. A failing work call fails the node at once, because retrying a deterministic work function cannot change its outcome. A node's error is the message of the `Error` it rejects with, and the wrapping `Error` object itself is not kept.
- Concurrent fan-out is not modelled. Members of a level run one after another: each is dispatched with the bag as it was when the level started, and responses are merged in list order. The first failure in list order is the level's error. In the source, responses merge in completion order and the first rejection to settle wins.
- Merge: lodash's deep `merge` is modelled as a right-biased shallow union. Nested objects, arrays and `undefined` are treated as if one level deep. A non-object response adds nothing. The sharing of the `data` object between siblings is not modelled.
- Events, triggers and logging are not modelled: the EventEmitter dispatch, the lifecycle emits and the console output (build.js 22-63, 190-249, 270-278). They carry no control flow that the modelled code depends on.
- File loading (build.js 284-321) and all server plumbing are not modelled. The plumbing covers Express routes, socket.io emits, the filesystem, audio, `open` and `setTimeout` (server.js 87-186, 254-272, 333-338). This is I/O.
- Emits to an empty room are not modelled. After the last socket of a project disconnects, `subscriptions[project]` is `[]`, which is truthy, so the streams keep emitting with `io.to([])`. Under socket.io's reading of an empty room list that may reach every connected client. The model returns the event with its empty list.
- The streams `start`, `write` and `end` are not modelled (server.js 343-365). Each only emits to the subscriber list when one exists.
- ApiServer.LoadProject: `utils.load.local` is foreign. Its answer is a parameter holding the `keymap`, the `webapp` tree and the whole `state` object, which is returned unread. The model does not tie the `webapp` field to the `webapp` member of `state`; both come from the loader. A state that is missing altogether, which throws in the source, is not represented.
- The action handlers `_updateProjectPreferences`, `_regenerateUiComponent` and `_iterateUiComponent` (server.js 540-697) are not modelled. They only build payloads for external calls.
- Context passing to nested calls and `system.run` itself are not modelled. The dispatcher is a parameter of the run.
- Slug.Slugify handles ASCII only. Unicode case mapping and Unicode white space are left out. Its own contract states only that no dash is left at either end. That every output is a slug is `SlugifyIsSlug`, that words keep their letters is `SlugifyKeepsWords` and `SlugifyOrder`, and a concrete input-output case is `SlugifyJoinsWords`.
- Server.ApiServer.Subscribe and Server.ApiServer.ResumeProject: interleaving across the `await load_project` is not modelled (server.js:423, server.js:515). In the source a `disconnect`, another `subscribe` or another load can run during that await, so the room that gets `state$load` and the state it gets are those when the load finishes. The contracts describe a handler that runs uninterrupted.
- ProjectState.NestSegments: the nested object is built from the innermost level out. The source walks down from the root through a cursor that aliases the object it fills; that aliasing is not modelled, and the result is the same object.
- ProjectState.ReadBack: the `Object.keys` loops are modelled over the object the cursor walk builds, with one key on each of the first four levels. They are not modelled over an arbitrary object.
- Object keys in the model: JavaScript lists integer-like keys first, and prototype names such as `constructor` or `__proto__` behave specially as ids and keys. Member order is first occurrence.
- Numbers are integers. Floats, `1e21` and beyond (where `String` uses exponents), and `Number()` forms other than plain decimal or `0x` integers are not modelled: fractions, exponents, `Infinity`, and `0o`/`0b` prefixes are treated as NaN. `fnresponse[inp]` on a string or array response reads no field.
- ProjectState.RewriteUpdate: for a `webapp.` key of two or three segments with data other than null, two things depend on the data's shape and key order: whether the handler throws, and what it emits (possibly under the key `undefined`). The model reports `DependsOnShape` for such a key. Null data always throws, and the model says so.
- ProjectState.ProjectData: when two artefacts share a flat key, the one enumerated last wins in the source. Its contract states only that the value belongs to one of them.
- Undefined globals that the shown files reference but never define are not modelled: `actionsKeys`, `new_project`, `timestamp`, `LOGS_ENABLED`, `functionsDir`, `unitsDir`.
