# A verified model of the manifest generator

A ManifestGenerator names source artifacts, values, a data-shaping pipeline and a
list of artifacts to render. Its controller fetches the sources, merges the
values, runs the pipeline, renders every artifact's templates into a staging
directory, publishes the result as ExternalArtifacts and keeps an inventory of
what it published. This project models that controller in Dafny and proves what
its code and documentation promise. `dafny verify dfyconfig.toml` checks it all.

| component | modules |
|---|---|
| trees, merging, values | `ValueTree`, `MergeLaws`, `MergeWork`, `HeapMerge`, `Values`, `ValuesLaws` |
| pipeline | `Templates`, `SourceRefs`, `Pipeline`, `SpecLaws`, `PipelineEval`, `PipelineRuns`, `PipelineLaws`, `CollectionLaws`, `Texts`, `StepLaws` |
| artifact builder | `DestPath`, `Partials`, `Staging`, `ExactStaging`, `Builder`, `BuilderLaws` |
| controller | `Validation`, `ValidationLaws`, `Generation`, `ScopeLaws`, `NameSoundness`, `Conditions`, `Reconciler`, `ReconcilerRuns`, `Ownership`, `Stalling`, `DriftKey`, `Observation`, `SourceIndex` |

`Wrappers` and `Strings` hold result types and the standard-library operations
(splitting, joining, sorting) that the rest relies on.

Code that updates things step by step is modelled by methods with loops and, for
objects, by classes (the Go maps and slices of `HeapMerge`, the staging root, the
collision ledger, the cluster and the controller's working copy); each such method
is proved equal to a specification function, and the theorems are lemmas about
those functions. `SpecLaws`, `Texts`, `StepLaws`, `ValuesLaws`, `BuilderLaws`,
`ValidationLaws` and `ScopeLaws` say what the specification functions mean in terms
of the spec's own strings, the rendered texts and the decoded values, without the
functions the code is written with.

## Where the code and its documentation differ

The model follows the code.

- The finalizer is documented as removed only after orphan cleanup succeeds
  (`api/v1alpha1/manifestgenerator_types.go:36-37`). `finalize` removes it whatever
  the deletes did (`internal/controller/manifestgenerator_finalize.go:39-48`);
  `Ownership.FinalizerGoesRegardless`.
- An artifact published by a reconcile that later fails is in no inventory. If it is
  not published again, nothing ever deletes it; `Ownership.NothingLeaksExactly` gives
  the exact condition, `Ownership.FailedFirstRunLeaks` a run.
- `validateSpec` accepts the alias `artifact`, which `parseSourceRef` refuses, and an
  artifact named like an alias, whose staging directory then already holds that alias's
  sources; `NameSoundness.ClashesAreAccepted`.
- `optional` is documented as covering an absent object or key
  (`internal/values/values.go:114-117`). It also turns content
  that does not parse into a no-op: `Values.OptionalIsAsDocumentedExactly` gives the exact
  condition, `Values.OptionalHidesUndecodable` a reference, and `Values.NoOpEntryVanishes`
  the effect on the resolved tree.
- The drift key is documented as changing with every alias's revision
  (`internal/controller/manifestgenerator_controller.go:506-508`). A revision, which may
  be a branch name, can contain `,url=`, and then another artifact has the same key:
  `DriftKey.IdentifiedExactly` says exactly which observations are identified,
  `DriftKey.SeparatorsCanCollide` gives a pair.
- When the temporary directory cannot be created the reconcile is retried without any
  change to the conditions, so Ready=True may stay; `ReconcilerRuns.VerdictShows`.
- `renderDestPath` means to refuse paths that escape the staging root. It also refuses
  harmless ones whose first component merely starts with two dots, such as `..a/b`;
  `DestPath.AcceptedExactly` and `DestPath.HarmlessButRefused`.
- `deepMerge` is not associative: a later map can revive keys that a scalar in between
  had hidden; `MergeLaws.AssociateExactly` says exactly when it is.

## Model

| member | source | states |
|---|---|---|
| ValueTree.LastTouchWins | internal/pipeline/merge.go:59-100 | at every path a left fold of contributions shows the shape of the last contribution that touches it, and the start's shape if none does |
| ValueTree.ShapesDetermineTree | internal/pipeline/merge.go:82-100 | a tree is determined by its shapes at all paths, so the path-wise account is complete |
| ValueTree.MergeShape | internal/values/values.go:274-292 | one merge shows b where b touches the path and a elsewhere |
| ValueTree.FoldForgetsStart | internal/pipeline/merge.go:59-75 | where some contribution touches a path the start of the fold is invisible |
| ValueTree.PlaceAtRoundTrip | internal/values/values.go:219-239 | looking up the segments in the placed value gives the value back, null included |
| ValueTree.PlaceAtTouches | internal/values/values.go:219-239 | a placed value touches exactly the paths comparable with its target and touched by it |
| MergeLaws.EmptyMapIsIdentity | internal/pipeline/merge.go:82-100 | the empty map is a two-sided identity of merging on maps |
| MergeLaws.MergeIdempotent | internal/pipeline/merge.go:82-100 | merging the same tree in twice is merging it in once |
| MergeLaws.CommuteExactly | internal/pipeline/merge.go:82-100 | two contributions commute if and only if they agree wherever both touch |
| MergeLaws.IncomparablePlacementsAgree | internal/values/values.go:219-239 | values placed at segment-wise incomparable target paths agree |
| MergeLaws.AssociateExactly | internal/pipeline/merge.go:82-100 | for every left operand merging associates, if and only if the last operand has no map where the middle one has a non-map |
| MergeLaws.AssociateWithoutRevival | internal/pipeline/merge.go:82-100 | the sufficient direction for three given trees |
| MergeLaws.AssociativityFails | internal/pipeline/merge.go:82-100 | a map, a scalar and a map under one key give different results for the two bracketings |
| MergeLaws.RepeatsAreRedundant | internal/pipeline/merge.go:36-49 | dropping all but the last occurrence of each repeated contribution keeps the fold |
| MergeLaws.KeepLastExactly | internal/pipeline/merge.go:36-49 | what is kept are the contributions at exactly the positions after which they do not occur again, in order |
| MergeWork.WorkBound | internal/pipeline/merge.go:82-122 | despite cloning a and merging into the clones, deepMerge visits at most depth(a) * size(a) + size(b) nodes |
| HeapMerge.DeepClone | internal/pipeline/merge.go:105-122 | on heap objects: an equal tree whose maps and slices are all new, nothing that existed is written, and as many visits as nodes |
| HeapMerge.DeepMerge | internal/pipeline/merge.go:82-100 | on heap objects: denotes the functional merge for every map iteration order, shares no map or slice with its operands, writes nothing that existed, and its counted visits meet the bound |
| HeapMerge.EvalMerge | internal/pipeline/merge.go:59-75 | the merge step yields the fold as a wholly new tree, keeps what every earlier output denotes, and reports the first undefined or non-map source |
| Values.PlaceAtPath | internal/values/values.go:219-239 | succeeds exactly on paths without empty segments (and on maps at the root), and then the path leads back to the value |
| Values.SelectContent | internal/values/values.go:172-191 | every key as a string, or the decoded value of one key, or the error of a missing or malformed key |
| Values.ResolveOne | internal/values/values.go:118-165 | one reference contributes nothing, a map, or the error of the first check that fails |
| Values.Resolve | internal/values/values.go:85-112 | succeeds exactly when every layer resolves and then yields their fold; otherwise reports the first layer that does not |
| Values.InlineAlwaysWins | internal/values/values.go:85-112 | wherever spec.values has a say, the resolved tree shows exactly spec.values |
| ValuesLaws.ValuesShow | internal/values/values.go:85-112 | at every path: the map that spec.values decodes to if it touches the path, else the contribution of the last reference that does, else nothing |
| ValuesLaws.InlineFailsExactly | internal/values/values.go:198-211 | given that all references resolve, resolving fails exactly on a non-empty spec.values that does not decode, or decodes to neither a map nor null |
| ValuesLaws.ContributionIsMeant | internal/values/values.go:118-165 | kind, namespace, existence, key, decoding and placing decide in this order what a reference contributes, said of its fields and of what was read |
| ValuesLaws.RefusedExactly | internal/values/values.go:245-255 | a target path is refused exactly if it is not empty and starts or ends with a dot or holds two in a row |
| ValuesLaws.PlacedIsMeant | internal/values/values.go:219-239 | the root takes only maps, a malformed path is an error, and otherwise the tree has the value at the end of the dotted parts, maps on the way and nothing beside |
| ValuesLaws.DottedRoundTrip | internal/values/values.go:219-239 | for any non-empty list of non-empty, dot-free parts, placing at the parts joined with dots succeeds and looking up the parts gives the value back |
| ValuesLaws.TwoPartPath | internal/values/values.go:219-239 | placing at "a.b" gives exactly {a: {b: value}} |
| ValuesLaws.SwapBesides | internal/values/values.go:85-112 | adjacent references whose dotted parts are not prefixes of each other can be swapped |
| Values.TargetPathFrames | internal/values/values.go:152-164 | merging a placed contribution keeps every path beside its target path |
| Values.SwapIncomparable | internal/values/values.go:85-112 | adjacent valuesFrom entries with incomparable target paths can be swapped without changing the outcome |
| Values.AccessDeniedExactly | internal/values/values.go:127-138 | an access error is raised exactly for a reference into another namespace while those are switched off |
| Values.OptionalContributesNothingExactly | internal/values/values.go:118-165 | an optional entry is a no-op exactly when it may be read and its object or key is absent, its text does not decode, or it is null at the root |
| Values.OptionalIsAsDocumentedExactly | internal/values/values.go:114-117 | the documented no-ops, and no others, happen if and only if the selected key, when there is one, decodes |
| Values.OptionalHidesUndecodable | internal/values/values.go:144-150 | a reference to an existing key whose text is no YAML and which silently disappears |
| Values.NoOpEntryVanishes | internal/values/values.go:85-112 | an entry without a contribution can be removed: the values resolve as before and to the same tree |
| Templates.EvalFrame | internal/pipeline/template.go:109-119 | a fragment's value depends only on the names it mentions |
| SourceRefs.IndexOf | internal/pipeline/load.go:182-192 | the first position of a character, or none |
| SourceRefs.ParsersAgree | internal/builder/builder.go:424-436 | the builder's parser agrees with validation's on every reference, except that it refuses the alias "artifact" |
| SourceRefs.SplitMeaning | internal/controller/manifestgenerator_validation.go:152-162 | a reference parses as alias and path exactly when it is their spelling |
| Pipeline.CompileMerge | internal/pipeline/merge.go:36-49 | accepted exactly when every source is a distinct earlier step, else names one that is not earlier or one that occurs twice |
| Pipeline.CompileStep | internal/pipeline/pipeline.go:129-144 | compiles exactly the well-formed steps that are in scope, to a step that does not depend on the scope |
| Pipeline.Compile | internal/pipeline/pipeline.go:78-100 | succeeds exactly when every step compiles in the scope of the earlier ones; otherwise names the first that does not and why |
| SpecLaws.CompilesExactly | internal/pipeline/pipeline.go:78-144 | a pipeline compiles exactly when every step has a new name other than "values" and its first verb's references, formats and expressions denote something, said of the spec's strings |
| SpecLaws.ProgramDenotes | internal/pipeline/load.go:59-109 | the compiled program holds for every step of the spec what that step denotes |
| PipelineEval.WithOutputs | internal/pipeline/template.go:109-119 | item bindings over .values over the outputs |
| CollectionLaws.KeyMeaning | internal/pipeline/template.go:88-99 | a key exists exactly when the fragment renders more than white space, and is the rendering without the white space around it |
| PipelineEval.EvalFilter | internal/pipeline/filter.go:57-102 | the filter loop computes its specification, including the first failing item |
| PipelineEval.EvalMap | internal/pipeline/mapverb.go:59-100 | the map loops compute their specification, including the first failing item |
| PipelineEval.EvalGroup | internal/pipeline/group.go:55-77 | appending item by item forms the buckets of the specification |
| PipelineEval.EvalLoad | internal/pipeline/load.go:122-178 | single file, list or map of files, with every error path in order |
| PipelineEval.EvalMerge | internal/pipeline/merge.go:59-75 | the fold of the named outputs, or the first that is undefined or no map |
| PipelineEval.Run | internal/pipeline/pipeline.go:110-123 | the outputs of all steps, each evaluated on those before it, or the first failing step |
| StepLaws.EveryStepIsMeant | internal/pipeline/pipeline.go:110-123 | in a successful run every step has left under its name what its verb means for the outputs of the steps before it, and there are no other outputs |
| StepLaws.FirstFailureIsMeant | internal/pipeline/pipeline.go:110-123 | a failing run has done the steps before the one it names, and fails as that step's verb does on their outputs |
| StepLaws.FilterIsMeant | internal/pipeline/filter.go:57-102 | filter keeps exactly the items whose rendered text says yes, in order or under their keys, and fails as the first item that says neither yes nor no |
| StepLaws.MapIsMeant | internal/pipeline/mapverb.go:59-100 | map puts what an item's rendered text decodes to at the item's place, or fails as the first item |
| StepLaws.GroupIsMeant | internal/pipeline/group.go:55-77 | group has a bucket for exactly the trimmed texts of the items, each the subsequence of the items with that text, or fails as the first item without one |
| StepLaws.MergeIsMeant | internal/pipeline/merge.go:59-75 | at every path a merge shows the last of the named outputs that touches it, and fails as the first that is undefined or no map |
| StepLaws.LoadIsMeant | internal/pipeline/load.go:122-178 | load reads the one match of a plain path; of a glob every match, as a list in their order or under the keys of their paths; the first unreadable file, missing or repeated key stops it |
| Texts.TruthyExactly | internal/pipeline/filter.go:119-129 | a text keeps an item if and only if, without white space around it, it is 1, t, T, TRUE, true or True; drops it if and only if it is blank or 0, f, F, FALSE, false or False; any other is an error |
| PipelineRuns.DomainIsPrefix | internal/pipeline/pipeline.go:110-123 | after n steps the environment binds exactly the names of those steps |
| PipelineRuns.OutputsOnlyGrow | internal/pipeline/pipeline.go:110-123 | no binding ever changes: the environment after n steps is the final one restricted to their names |
| PipelineRuns.StepValueIsFinal | internal/pipeline/pipeline.go:110-123 | a step's output is what it evaluates to on the final environment restricted to the steps before it |
| PipelineRuns.ReorderedRuns | api/v1alpha1/manifestgenerator_types.go:124-126 | any rearrangement of a successful run that keeps data dependencies yields the same outputs |
| PipelineLaws.StepFrame | internal/pipeline/template.go:109-119 | a step's value depends only on the outputs it names |
| PipelineLaws.ReadsAtMost | internal/pipeline/template.go:109-119 | what a step reads besides its sources are fields occurring in its expression, and never an output called "values" |
| PipelineLaws.NeighboursSwap | internal/pipeline/pipeline.go:110-123 | two neighbouring steps neither of which reads the other's output can be swapped |
| PipelineLaws.CompiledIsWellScoped | internal/pipeline/pipeline.go:78-100 | compiled names are distinct and not "values", and every reference is to an earlier step or a declared alias |
| PipelineLaws.CompiledNeverUndefined | internal/pipeline/pipeline.go:78-123 | a compiled pipeline never fails on an undefined step or an alias without files |
| PipelineLaws.ReorderedCompiles | internal/pipeline/pipeline.go:78-100 | dependency-respecting rearrangements compile too |
| PipelineLaws.ReorderingInvariance | internal/pipeline/pipeline.go:78-123 | every dependency-respecting rearrangement compiles and runs to the same outputs |
| CollectionLaws.FilterListLaw | internal/pipeline/filter.go:57-102 | the result is the input's subsequence at exactly the positions that satisfy the predicate |
| CollectionLaws.FilterMapLaw | internal/pipeline/filter.go:57-102 | exactly the entries that satisfy the predicate, unchanged |
| CollectionLaws.MapListLaw | internal/pipeline/mapverb.go:59-100 | same length, item by item |
| CollectionLaws.MapMapLaw | internal/pipeline/mapverb.go:59-100 | same keys, entry by entry |
| CollectionLaws.GroupKeysLaw | internal/pipeline/group.go:55-77 | every item has a non-empty key, and the result has the buckets of those keys |
| CollectionLaws.BucketLaw | internal/pipeline/group.go:55-77 | a non-empty bucket for exactly the occurring keys, holding the items with that key in input order |
| CollectionLaws.GroupConserves | internal/pipeline/group.go:55-77 | together the buckets hold the input multiset |
| CollectionLaws.LoadAsMapIsBijection | internal/pipeline/load.go:158-170 | shaping as a map succeeds exactly when every key renders and no two coincide, and then pairs keys and files one to one |
| DestPath.CleanIsCanonical | internal/builder/builder.go:344-353 | two relative paths clean to the same string if and only if they lead to the same place |
| DestPath.AcceptedExactly | internal/builder/builder.go:326-354 | a rendered path is accepted exactly when it is relative, ends strictly below the root and does not start with two dots |
| DestPath.HarmlessButRefused | internal/builder/builder.go:344-353 | a path that leads below the root and is refused |
| DestPath.DestinationsAreCanonical | internal/builder/builder.go:326-354 | an accepted path is a non-empty list of ordinary components whose joining gives the path back, so equal keys mean equal locations |
| BuilderLaws.DestinationLeads | internal/builder/builder.go:326-354 | an accepted destination is the place to which the rendered text, without the white space around it, leads from the root |
| BuilderLaws.DestinationAccepted | internal/builder/builder.go:326-354 | conversely, a rendered text that leads strictly below the root is accepted unless its first component starts with two dots |
| Partials.PartialChainDirs | internal/builder/partials.go:118-138 | computes the chain of directories, root first |
| Partials.ChainListsAncestors | internal/builder/partials.go:118-138 | the chain lists every ancestor once, each a proper prefix of the next |
| Partials.TemplateAncestors | internal/builder/partials.go:65-112 | for a template path the chain runs from the source root to the template's own directory |
| Partials.DiscoverPartials | internal/builder/partials.go:65-112 | the readable partials along the chain in order, unless one is unusable |
| Partials.ParseAll | internal/render/gotemplate.go:77-91 | partials first and the main template last, each definition replacing the earlier one |
| Partials.LastSolidDefineWins | internal/render/gotemplate.go:77-91 | a name resolves to the last non-empty definition parsed |
| Partials.NearestPartialWins | internal/render/gotemplate.go:77-91 | include resolves to the main template's definition, else to the last partial of the chain that defines the name |
| Partials.NearestAncestorWins | internal/builder/partials.go:65-138 | for a template path that partial is the one in the template's deepest ancestor directory that defines the name |
| BuilderLaws.DiscoveredAbove | internal/builder/partials.go:65-112 | discovery finds exactly the readable _helpers.tpl files of the directories from the source root down to the file's own, unless one of them is unusable |
| BuilderLaws.IncludesResolve | internal/render/gotemplate.go:62-102 | for an engine that parses partials first, a name is in what is executed for a planned template the template's own definition, else that of the deepest _helpers.tpl above it that defines the name |
| Staging.StagingRoot.MkdirAll | internal/builder/builder.go:476-495 | terminates, succeeds exactly if no ancestor is a file, and then adds only the missing ancestors |
| Staging.StagingRoot.WriteStagedFile | internal/builder/builder.go:459-474 | succeeds exactly if the path is free to be a file, and then adds the file and its missing ancestors |
| ExactStaging.StagingFromEmpty | internal/builder/builder.go:145-183 | from an empty root staging succeeds exactly when no destination equals or lies below another, and leaves exactly the outputs and their directories |
| ExactStaging.ExactOverLeftovers | internal/builder/builder.go:93-106 | in a root that already holds something, the result is exact if and only if all of that is at or above an output |
| ExactStaging.DestinationsMatchPaths | internal/builder/builder.go:304-317 | the collision map's keys and the staged locations collide together |
| Builder.BuildIterations | internal/builder/builder.go:199-247 | one iteration per list item in order or per map key in ascending order, one in all without forEach |
| BuilderLaws.IterationsAreMeant | internal/builder/builder.go:199-247 | the label and the bindings of every iteration: index and value in list order, key and value in ascending key order, nothing without forEach; and the two errors |
| Builder.ApplyTemplate | internal/builder/builder.go:253-319 | stages the rendered template exactly when source, destination, collision check, rendering and write succeed, and otherwise changes nothing |
| BuilderLaws.PlannedIsRendered | internal/builder/builder.go:253-319 | a planned file: the engine was given the reference, the label, the text read at the alias, the scope and the helpers above the file, its answer is the content, and the place is where the destination's text leads |
| BuilderLaws.RenderedIsPlanned | internal/builder/builder.go:253-319 | conversely, whatever can be read and rendered and leads below the root is planned; only the alias "artifact" and a leading ".." are refused |
| Builder.ApplyArtifact | internal/builder/builder.go:145-183 | succeeds exactly when every template of every iteration can be rendered and staged in turn, and states the whole new tree |
| Builder.ExactlyRendered | internal/builder/builder.go:145-183 | from an empty root: iterations times templates files, each with the content rendered for its own pair, and nothing else |
| BuilderLaws.EveryFileIsItsOwn | internal/builder/builder.go:145-183 | output number i * templates + t is rendered from template t's source file in iteration i's scope and under its label |
| ScopeLaws.FileMeans | internal/builder/builder.go:145-183 | a built artifact holds, for every iteration and template, the text the engine made of that template's file in that scope, at the place its destination leads to |
| Validation.ValidateSpec | internal/controller/manifestgenerator_validation.go:38-146 | accepts exactly the specs without any of the defects, and otherwise reports the first in the order of the checks |
| Validation.DefectIsDetermined | internal/controller/manifestgenerator_validation.go:38-146 | the reported defect is determined by the spec: first in the order of the checks, down to the position in its list |
| ValidationLaws.AcceptedExactly | internal/controller/manifestgenerator_validation.go:38-146 | a spec is accepted exactly if, said of its strings: aliases and artifact names are distinct, namespaces are allowed, target paths well formed, spec.values is a map or null, the pipeline compiles, and every artifact's step, revisions (empty, a declared alias, or @ and one), sources and destinations are good |
| ValidationLaws.ReasonIsMeant | internal/controller/manifestgenerator_validation.go:38-146 | the reason is AccessDenied exactly if the first defect is a forbidden namespace, else ValidationFailed |
| Validation.ValidateSources | internal/controller/manifestgenerator_validation.go:39-52 | distinct aliases and no forbidden namespaces, or the first offender |
| Validation.ValidateArtifacts | internal/controller/manifestgenerator_validation.go:89-143 | distinct names, known forEach steps and aliases, parsable templates, or the first offender |
| Generation.RunPipeline | internal/controller/manifestgenerator_pipeline.go:40-62 | the pipeline's outputs, or why it does not compile or run |
| Generation.Generate | internal/controller/manifestgenerator_controller.go:182-223 | every artifact staged in the scope of the pipeline's outputs and values, or why not |
| NameSoundness.AcceptedNamesResolve | internal/controller/manifestgenerator_validation.go:38-146 | after acceptance the reconcile cannot fail on an undefined, malformed or forbidden name, the alias "artifact" excepted |
| NameSoundness.BuilderRefusesExactly | internal/builder/builder.go:424-436 | the exception is exact: a template source of an accepted spec is refused if and only if its alias is "artifact" |
| NameSoundness.ScopeNames | internal/controller/manifestgenerator_controller.go:201-205 | the template scope binds exactly the step names and "values" |
| ScopeLaws.ScopeMeans | internal/controller/manifestgenerator_controller.go:182-205 | from spec to scope: the name of every step stands for what the spec's verb means for the outputs of the earlier steps |
| NameSoundness.ValuesEverywhere | internal/controller/manifestgenerator_controller.go:201-205 | .values is the merged tree in every template of every iteration |
| NameSoundness.ValuesInExpressions | internal/pipeline/template.go:109-119 | no item binding hides .values |
| NameSoundness.StagedExactly | internal/builder/builder.go:93-106 | an artifact holds exactly its rendered files if and only if its staging directory held nothing else; a name that is no alias suffices |
| NameSoundness.ClashesAreAccepted | internal/controller/manifestgenerator_controller.go:363-386 | validation accepts an artifact named like an alias and an alias "artifact" |
| Conditions.SummaryIsCoherent | internal/controller/manifestgenerator_status.go:43-62 | summarizing makes conditions coherent and leaves coherent ones alone |
| Reconciler.FindOrphanedReferences | internal/controller/manifestgenerator_controller.go:468-480 | computes the orphans of the specification |
| Reconciler.FinalizeExternalArtifacts | internal/controller/manifestgenerator_finalize.go:52-75 | removes from the cluster exactly the references whose delete takes effect |
| Reconciler.PublishArtifacts | internal/controller/manifestgenerator_controller.go:207-235 | publishes the artifacts in order up to the first failure |
| Stalling.OnlyRejectionIsTerminal | internal/controller/manifestgenerator_values.go:66-78 | after acceptance handling a values error is never terminal: a reconcile ends terminally if and only if validation rejects the spec |
| Stalling.StalledWhileRejected | internal/controller/manifestgenerator_status.go:91-98 | on every run Stalled is shown exactly while the last judgement that reached the server was a rejection |
| Reconciler.ReconcileSpec | internal/controller/manifestgenerator_controller.go:140-262 | working copy, stored object, live artifacts and verdict after every stage's success or failure |
| Reconciler.Reconcile | internal/controller/manifestgenerator_controller.go:101-138 | the whole step of the state machine, with the deferred summary |
| ReconcilerRuns.ConditionsAlwaysCoherent | internal/controller/manifestgenerator_status.go:43-98 | on every run Stalled and Reconciling exclude each other, Ready=True excludes both, Stalled means Ready=False for the same reason, and any other Ready=False announces a retry |
| ReconcilerRuns.VerdictShows | internal/controller/manifestgenerator_controller.go:140-262 | ready exactly when everything was published, stalled exactly on a terminal failure, reconciling exactly when retrying; without a temporary directory, retried with the conditions as they were |
| ReconcilerRuns.ReasonShown | internal/controller/manifestgenerator_controller.go:140-262 | the Ready condition and its reason for every stage that can fail, and exactly which artifacts a failure has left live |
| Ownership.KeyTextIdentifies | internal/controller/manifestgenerator_controller.go:468-480 | comparing "namespace/name" strings identifies objects |
| Ownership.OrphansLaw | internal/controller/manifestgenerator_controller.go:468-480 | the orphans are the inventory entries that are no longer current |
| Ownership.AttemptEffect | internal/controller/manifestgenerator_controller.go:140-262 | what each outcome does to the live artifacts and the status |
| Ownership.InventoryIsLastSuccess | internal/controller/manifestgenerator_controller.go:237-253 | on every run the status, and with it the inventory, is that of the last recorded success |
| Ownership.OnlyOrphansAreDeleted | internal/controller/manifestgenerator_controller.go:237-239 | an artifact disappears only as an inventory entry the spec no longer lists, or when a deleted object is finalized; a failing reconcile deletes nothing |
| Ownership.NothingLeaksExactly | internal/controller/manifestgenerator_finalize.go:39-75 | over a whole run nothing leaks if and only if every settling reconcile's deletes take effect and the artifacts of unrecorded runs are still wanted or in the inventory |
| Ownership.ObservedMeansPublished | internal/controller/manifestgenerator_controller.go:251-253 | on every run a status that has observed the current generation lists exactly the spec's artifacts, and all are live |
| Ownership.FinalizerGoesRegardless | internal/controller/manifestgenerator_finalize.go:39-48 | the finalizer goes even if deletes fail, and then what was not deleted stays |
| Ownership.FailedFirstRunLeaks | internal/controller/manifestgenerator_finalize.go:39-75 | for an accepted spec: deleting the generator after a half-failed first run leaves an artifact behind although every delete works |
| DriftKey.HashedString | internal/controller/manifestgenerator_controller.go:509-517 | the hashed string does not depend on the map's iteration order |
| Strings.LessExactly | internal/pipeline/iter.go:42-49 | the order of sorted keys is lexicographic: decided by the first difference |
| DriftKey.PreImageIdentifies | internal/controller/manifestgenerator_controller.go:509-517 | two observations whose revisions do not contain ",url=" give the same string exactly when they agree on every alias, digest, revision and URL |
| DriftKey.IdentifiedExactly | internal/controller/manifestgenerator_controller.go:506-517 | the string of an observation is that of no other if and only if none of its revisions and URLs contains ",url=" |
| DriftKey.SeparatorsCanCollide | internal/controller/manifestgenerator_controller.go:509-517 | two different observations, with a digest of the prescribed form, that give the same string |
| Observation.ObserveSources | internal/controller/manifestgenerator_controller.go:281-359 | the artifacts by alias if all are available, otherwise the first reference that is not and why |
| Observation.ObservedExactly | internal/controller/manifestgenerator_controller.go:281-359 | a reference is observed exactly when its kind is one of the five and the object it names, in its own namespace or else the generator's, has an artifact |
| Observation.AliasesKeepTheirSource | internal/controller/manifestgenerator_controller.go:281-359 | with distinct aliases every reference is observed under its own alias |
| SourceIndex.IndexBySourceRef | internal/controller/manifestgenerator_manager.go:172-186 | one key per source, with the namespace defaulted |
| SourceIndex.IndexByValuesFromRef | internal/controller/manifestgenerator_manager.go:190-204 | one key per ConfigMap reference, with the namespace defaulted |
| SourceIndex.SourceKeyInjective | internal/controller/manifestgenerator_manager.go:172-186 | slash-free kinds, namespaces and names can be read back from a key |
| SourceIndex.RequestsForSourceChange | internal/controller/manifestgenerator_manager.go:138-168 | requests exactly the generators that name the changed source, after namespace defaulting |
| SourceIndex.RequestsForConfigMapChange | internal/controller/manifestgenerator_manager.go:208-224 | requests exactly the generators that name the changed ConfigMap, after namespace defaulting |
| Observation.UnnamedSourceIsIrrelevant | internal/controller/manifestgenerator_controller.go:281-359 | a generator that is not requested observes the same, or fails the same, whatever happened to the source |
| SourceIndex.RequestedSourceMatters | internal/controller/manifestgenerator_controller.go:281-359 | whether a requested generator can observe its sources does depend on the changed one |
| SourceIndex.NotRequestedIsUnaffected | internal/values/values.go:85-112 | a generator that is not requested resolves to the same values, or fails the same, whatever happened to the ConfigMap |
| SourceIndex.RequestedIsDependent | internal/values/values.go:118-165 | what an allowed reference contributes does depend on the ConfigMap it names |
| SourceIndex.RefusedIsIndependent | internal/values/values.go:123-138 | a reference that is not allowed is refused whatever the ConfigMap holds |
| SourceIndex.AcceptedRequestsAreReads | internal/controller/manifestgenerator_validation.go:54-71 | for an accepted spec every request is for a generator with an allowed reference to the changed ConfigMap |
| SourceIndex.RequestsMeaning | internal/controller/manifestgenerator_manager.go:138-168 | a request is made exactly for the generators that satisfy the condition |

## Left out

- Go templates and Sprig: pipeline fragments are written in a small expression language
  (fields, literals, equality, if, concatenation), and artifact templates and destination
  paths are rendered by an unspecified function. A fragment that ranges over the whole
  scope is therefore outside the frame and reordering theorems.
- The name under which the engine parses a main template is an unspecified function of its
  reference and label.
- What `revision` and `originRevision` put into the metadata of a published artifact
  (`internal/controller/manifestgenerator_controller.go:484-504`); only their validation is modelled.
- YAML and JSON decoding are unspecified functions from text to a value or an error.
- HeapMerge.DeepClone: the bytes of `format: raw` fall into deepClone's default branch and
  stay shared, so the freshness claim covers maps and `[]any` lists only.
- Files: globs are expanded, and files read, by unspecified functions; size caps, permission
  bits, symbolic links and directory traversal outside the roots are not modelled. A source
  directory is not re-read after an artifact of the same name has been staged into it.
- Path cleaning and the parent chain of a template are modelled on `/`-separated components;
  strings.TrimSpace on ASCII white space.
- Context cancellation, events, logging, jitter and requeue intervals.
- The Kubernetes API, HTTP fetching, archiving, hashing and the artifact storage answer
  through parameters: each call succeeds or fails, and a failed write may still have landed.
  Contents of published artifacts are not tracked by the controller model.
- Two generators publishing under one name: every ExternalArtifact name belongs to one
  generator, and nothing but the controller changes its finalizer, conditions or status.
- Ownership.ObservedMeansPublished: nobody but the controller deletes ExternalArtifacts.
- NameSoundness.StagedExactly: source files are read as they were fetched. Where an artifact is
  named like an alias, the code re-reads the directory it is writing to, so what is rendered,
  and whether it renders, may differ.
- DriftKey.PreImageIdentifies, DriftKey.IdentifiedExactly: aliases and digests follow the
  patterns of the custom resources, and revisions and URLs are single lines.
- Reconciler.ReconcileSpec: fetching, resolving, running and building are yes-or-no answers
  here; what they compute is modelled in Generation.Generate.
- SourceIndex.RequestsForSourceChange: requires slash-free names, which Kubernetes guarantees.
- The CRD's own admission rules (patterns, enumerations, exactly one verb per step).
- `lookupFile`, `required` and `toYaml`, deep-copy code and watch predicates would only add
  easy members.
