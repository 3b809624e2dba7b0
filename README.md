# Dev-mode rebuild loop of the wasmCloud `wash`-based developer tool, in Dafny

This project models the part of the developer tool that keeps a running
wasmCloud application in step with local source edits:

- **Component registry** (`ComponentData`): a class with three maps.
  Each `add_item` call files one `(component, claims)` pair under its name, its path and its id.
  Lookups return the pair last added under a key, and a missing key panics.
  `get_paths` lists every path ever added, once each.
  `get_components` returns one pair per name: the last one added under that name.
- **Manifest scan** (`setup_image_maping`).
  - Only components whose image starts with `file://` are kept.
  - Every `file://` is removed to get the artifact path that is inspected.
  - The path is then normalised to a source root. Actors lose the first match of `/build/([^/]+)\.wasm` and then the first match of `/build/([^/]+)\.par.gz`. Capability providers lose only the second.
  - The result is stored in the command's `state` map under that root. A later component with the same root replaces the earlier one.
  - The regular-expression replacement is proved against a declarative definition of a match: the leftmost match, with the longest end at that start.
  - In `.par.gz` the dot before `gz` is not escaped, so it matches any character except a newline. The model keeps this.
- **Affected roots of a batch of file events.** A registered root is affected when some path of some event starts with it, component by component as `Path::starts_with` compares. Paths are split into Unix path components.
- **Dispatch.**
  - An actor component with actor claims is built. It is stopped by its module id only when the build succeeds.
  - A capability component with provider claims is built. It is stopped by its service and contract id only when the build succeeds.
  - A component whose claims are of the other kind gets no action.
  - `initial_build` builds every matching entry once and ignores the outcomes.
  - `simple` exits with code 1 before any build when the scan found no local component. Otherwise it builds, puts and deploys the application, and then handles watcher messages.
- **Helpers.**
  - The two-variant claims type, whose accessors refuse the wrong variant.
  - The "messy vec" visitor: a comma-delimited string becomes its pieces, with a proved split/join round trip. A sequence is collected in order, or its error is passed on.

External operations are not executed: inspection results and build outcomes are parameters.
The builds, stops, `put_app` and `deploy_app` calls issued are recorded as a trace of `Action`s, and the properties are stated over that trace.
`HashMap`/`HashSet` iteration order is unspecified. Each method that iterates picks an arbitrary remaining element, returns the order it used as a ghost value, and its result is tied to a function of that order.

The scan does not compare the kind of the claims with the kind of the component (src/commands/dev.rs:163-214). It files a mismatched pair all the same, and the dispatcher then does nothing for it; `Dev.ScanKeepsMismatchedKinds` states this.
The scan fills `DevCommand::state`. `ComponentData` is a separate structure that the scan does not use; both are modelled as written.

Files: `manifest.dfy` (module `Manifest`), `helper.dfy` (`Helper`), `component_data.dfy` (`ComponentData`), `dev_paths.dfy` (`DevPaths`, image and path strings), `dev.dfy` (`Dev`, the command).

## Model

| member | source | states |
|---|---|---|
| Helper.ComponentClaims.GetActorClaims | src/helper.rs:138-143 | defined only on the `Actor` variant (the provider case panics); the result is the wrapped claims |
| Helper.ComponentClaims.GetProviderClaims | src/helper.rs:145-150 | defined only on the `Provider` variant (the actor case panics); the result is the wrapped claims |
| Helper.VisitStr | src/helper.rs:92-97 | the pieces joined with `,` give back the input; there is one more piece than there are commas, so `""` gives one empty piece; no piece holds a comma |
| Helper.JoinSplit | src/helper.rs:96 | joining the pieces of a split with the same separator restores the string, for any separator |
| Helper.SplitCount | src/helper.rs:96 | a split yields one more piece than there are separators |
| Helper.SplitPiecesFree | src/helper.rs:96 | no piece of a split contains the separator |
| Helper.SplitJoin | src/helper.rs:96 | the other round trip: splitting the join of one or more separator-free pieces gives back those pieces |
| Helper.SplitAppend | src/helper.rs:96 | splitting `a + sep + b` gives the pieces of `a` followed by those of `b` |
| Helper.VisitSeq | src/helper.rs:79-90 | when the access ends normally, the result is all elements in the order received; when it fails, the result is that error |
| ComponentData.ComponentData.constructor | src/commands/component_data.rs:15-21 | the three indices start empty and nothing has been added |
| ComponentData.ComponentData.AddItem | src/commands/component_data.rs:24-29 | each index changes at its own key only, to the new pair; the registry stays consistent with its history of additions |
| ComponentData.ComponentData.GetByName | src/commands/component_data.rs:32-35 | requires the name to be present (a missing key panics); returns the pair of the last addition under that name |
| ComponentData.ComponentData.GetByPath | src/commands/component_data.rs:38-41 | requires the path to be present; returns the pair of the last addition under that path |
| ComponentData.ComponentData.GetById | src/commands/component_data.rs:45-48 | requires the id to be present; returns the pair of the last addition under that id |
| ComponentData.ComponentData.IsEmpty | src/commands/component_data.rs:56-58 | true exactly when nothing was ever added: a new registry is empty, and one with any addition is not |
| ComponentData.ComponentData.GetPaths | src/commands/component_data.rs:60-62 | the result has no duplicates and holds exactly the paths of all additions |
| ComponentData.ComponentData.GetComponents | src/commands/component_data.rs:50-52 | one entry per distinct name ever added, and each entry is the pair last added under its name |
| ComponentData.IndexedKeys | src/commands/component_data.rs:26-28 | a key is in an index exactly when some addition was filed under it |
| ComponentData.IndexedLastWrite | src/commands/component_data.rs:26-28 | last write wins: the entry under a key is that of the last addition under it |
| ComponentData.LastAddedUnique | src/commands/component_data.rs:32-48 | the pair last added under a key is unique, so a lookup is determined by the history |
| ComponentData.AddedFoundUnderEachKey | src/commands/component_data.rs:24-48 | right after an addition, its pair is the one found under its name, its path and its id alike |
| ComponentData.IndexedEmpty | src/commands/component_data.rs:56-58 | an index is empty exactly when there were no additions |
| ComponentData.AdditionFrame | src/commands/component_data.rs:24-29 | an addition leaves presence and entry of every other key of an index unchanged |
| DevPaths.RemoveAllAbsent | src/commands/dev.rs:173 | a string with no `file://` is left as it is by the removal |
| DevPaths.RawArtifactPathOfLocal | src/commands/dev.rs:173 | `file://` followed by a path holding no further `file://` yields that path |
| DevPaths.RemoveAllMayLeaveScheme | src/commands/dev.rs:173 | the removal is one left-to-right pass, not a fixed point: `filfile://e://` becomes `file://` |
| DevPaths.MatchEndAt | src/commands/dev.rs:178-179 | at a given start it returns a match end exactly when a match exists there, and then the longest one (greedy `[^/]+` with backtracking) |
| DevPaths.FirstMatch | src/commands/dev.rs:180-181 | the result is a match, with no match starting earlier and the longest end at its start; `None` exactly when no match starts at or after the start position |
| DevPaths.ReplaceFirst | src/commands/dev.rs:180-181 | with no match the string is returned unchanged; otherwise exactly the leftmost match, with the longest end at that start, is removed |
| DevPaths.NoBuildDirNoMatch | src/commands/dev.rs:181 | a string with no `/build/` is not changed by either pattern |
| DevPaths.StripsBuildOutput | src/commands/dev.rs:178-181 | `<root>/build/<name><tail>` with a slash-free name and no `/build/` starting inside `root` is reduced to `root` |
| DevPaths.ActorSourceRoot | src/commands/dev.rs:172-181 | an actor image `file://<root>/build/<name>.wasm` normalises to its source root `root` |
| DevPaths.ProviderSourceRoot | src/commands/dev.rs:194-201 | a provider image `file://<root>/build/<name>.par<c>gz` normalises to `root` for every character `c` except a newline |
| DevPaths.UnderRoot | src/commands/dev.rs:86 | every path `<root>/<sub>` starts with `root`, so an event under the watched tree falls under its root |
| DevPaths.NotCharacterPrefix | src/commands/dev.rs:86 | prefixes are whole components: `/a/bc` does not start with `/a/b`, though it is a string prefix |
| Dev.ScanKeys | src/commands/dev.rs:163-214 | after the scan, a key is present exactly when it was before or some local component normalises to it |
| Dev.ScanLastWins | src/commands/dev.rs:184 | under a key, the scan keeps the last local component normalising to it, paired with the claims inspected at its artifact path |
| Dev.ScanFrame | src/commands/dev.rs:186-188 | a key that no local component normalises to keeps its entry; skipped components change nothing |
| Dev.ScanOnlyLocal | src/commands/dev.rs:172-184 | every entry of a fresh scan is a manifest component with a `file://` image, filed under its own root with its own claims |
| Dev.ScanEmpty | src/commands/dev.rs:44-46 | the scanned state is empty exactly when no component has a `file://` image |
| Dev.ScanKeepsMismatchedKinds | src/commands/dev.rs:175-184 | an actor whose claims come back as provider claims is filed all the same, as a mismatched pair |
| Dev.ManifestActors | src/commands/dev.rs:266-271 | the result holds exactly the actor components of the manifest, each as many times as the manifest lists it, and nothing else; with only actors it is the whole list |
| Dev.ManifestActorsAppend | src/commands/dev.rs:266-271 | the filter keeps manifest order: filtering a concatenation gives the filtered parts in the same order |
| Dev.AnyStartsWith | src/commands/dev.rs:86 | true exactly when some path of the event starts with the root |
| Dev.DispatchStepShape | src/commands/dev.rs:98-131 | one root gives nothing for a mismatched pair; otherwise it gives its build, followed by its stop exactly when the build succeeded |
| Dev.DispatchPairsBuildsAndStops | src/commands/dev.rs:92-134 | in a batch trace, every stop directly follows the successful build of the same component, with that component's module id, or its service and contract id; a build is followed by a stop exactly when it succeeded, so a failed build stops nothing, and later roots are still dispatched |
| Dev.DispatchStepBuilds | src/commands/dev.rs:98-131 | one dispatch step builds only its own root, once, and only for a matching pair |
| Dev.DispatchBuildsOnce | src/commands/dev.rs:92-134 | over a batch of distinct roots, each root is built once if it holds a matching actor or provider pair, and otherwise never |
| Dev.InitialBuildsAreDispatchWithoutStops | src/commands/dev.rs:143-161 | the initial build issues the same builds that the dispatcher issues when every build fails |
| Dev.InitialBuildsOnlyBuild | src/commands/dev.rs:143-161 | the initial build issues builds only, never a stop |
| Dev.InitialBuildOncePerMatchingEntry | src/commands/dev.rs:143-161 | over all entries, each entry with a matching pair is built exactly once, whatever the earlier outcomes; every other entry is never built |
| Dev.DevCommand.constructor | src/commands/dev.rs:239-248 | the state starts empty and holds the given manifest |
| Dev.DevCommand.SetupImageMapping | src/commands/dev.rs:163-214 | the new state is the in-order scan of the manifest's components over the old state |
| Dev.DevCommand.AffectedPaths | src/commands/dev.rs:83-90 | a root is in the result exactly when it is registered and some path of some event starts with it |
| Dev.DevCommand.DispatchBatch | src/commands/dev.rs:92-134 | the trace is the dispatch of one order listing every affected root once; each affected root is built once if it holds a matching pair and never otherwise; every stop directly follows the successful build of its component, and a build is followed by a stop exactly when it succeeded |
| Dev.DevCommand.InitialBuild | src/commands/dev.rs:143-161 | the trace is the initial build of one order listing every state key once; it holds builds only, and each entry with a matching pair is built exactly once, every other entry never |
| Dev.DevCommand.HandleMessage | src/commands/dev.rs:81-137 | a message of watch errors issues nothing; a batch of events issues the dispatch of an enumeration of exactly its affected roots |
| Dev.DevCommand.ListenForChanges | src/commands/dev.rs:80-139 | each received message contributes its trace, in order: nothing for watcher errors, and otherwise the dispatch of an enumeration of its affected roots |
| Dev.DevCommand.Simple | src/commands/dev.rs:39-55 | the state is the scan; with an empty state the exit code is 1 and nothing is issued; otherwise the trace is the initial builds, then put and deploy, then the traces of the received messages |

## Left out

- `build_actor` and `build_provider` (src/helper.rs:305-340) are modelled by their boolean result only. A build command that runs and fails returns false, so the dispatch and the watch loop carry on after a failed build.
- A build command that cannot be started panics: `.output().expect(..)` (src/helper.rs:307-309, 325-326) fails when `wash` or `make` is missing or the working directory does not exist or is a file, for instance the root `/p/actor.wasm` of an image outside the `build/` convention. On the main thread (`initial_build` at src/commands/dev.rs:151 and 156, the provider dispatch at src/commands/dev.rs:127) this ends the process; on an actor rebuild thread it ends that thread. The model does not capture this panic: every build returns a success or a failure.
- Subprocess calls (`wash inspect/build/stop/app`, `make`) are not executed. Their results are parameters: the inspection is a function from artifact path to claims, and build success is a set of roots per received message. Stops, `put_app` and `deploy_app` are recorded actions.
- Process exits inside those calls are not modelled. This covers a failed inspection, a failed `put_app` or `deploy_app`, and a `wash` binary that cannot be started for an inspection or a stop. A stop whose command runs and fails only logs and returns (src/helper.rs:403-409, 418-424), which the model reflects by recording the stop and going on.
- Because the inspection is a function, inspecting the same path twice is assumed to give the same claims.
- serde, JSON and YAML decoding are not modelled. This covers the untagged resolution between the two claims variants and the choice, by `deserialize_any`, between `visit_str` and `visit_seq`. This is library behaviour.
- The debouncer's 500 ms window, the file watcher and the channel are not modelled. Watcher messages arrive as an input sequence, and the endless receive loop is modelled over a finite prefix of it. The watch registration on `<root>/src` is reflected only in `DevPaths.UnderRoot`.
- Actor rebuilds run on spawned threads. The model runs them in sequence, as a build followed by a conditional stop.
- The Ctrl-C handler, `cleanup` and all logging and printing are I/O and are not modelled.
- The actual order of `HashMap`/`HashSet` iteration is not modelled. The model fixes one arbitrary order as a ghost value, and properties hold for every such order.
- `DevCommand::new` fetching hosts and inventory is not modelled. Neither are `get_hosts`, `get_host_inventory`, `get_actors`, `get_host`, `get_manifest_path`, `get_manifest_components`, `compound` and `start`. They are remote data fetches or one-line glue.
- Paths follow Unix component rules only. The panic of `to_str().unwrap()` on a path that is not UTF-8 is not modelled, because strings here are always valid text.
- Only the two regular expressions used by the scan are modelled, not a general regex engine.
- `Arc` sharing between the three registry maps is modelled as value equality.
- DevPaths.RemoveAll: its own contract only bounds the length. What it removes is stated by `DevPaths.RemoveAllAbsent`, `DevPaths.RawArtifactPathOfLocal` and `DevPaths.RemoveAllMayLeaveScheme`, not by a full characterisation of `str::replace`.
- DevPaths.ActorSourceRoot / DevPaths.ProviderSourceRoot: stated for images that follow the build-output convention and have no `/build/` inside the root. Other images are covered only by `DevPaths.ReplaceFirst`'s general contract.
