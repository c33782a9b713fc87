# Verified model of the build executor, the feature resolver and the exact rounding tools

This project models the parts of the repository whose correctness depends on more than one function at a
time, and proves what they promise.

* **Build executor** (`bin/cargo/tasks.go`). `TaskGraph` lists the tasks dependencies first, `TaskPriority`
  ranks them, `Scheduler` runs them. A run is a history of starts and received results; which running task
  answers next, and whether it failed, is up to the environment, so a lemma about legal histories speaks of
  every completion order. `Makespan` adds a clock and proves Graham's bound.
* **Content-addressed cache** (`bin/cargo/tasks.go`). `HashEncoding` and `TaskCache` model uids, manifests and
  the two-level store. `TaskProtocol` is a step system of any number of processes and goroutines with locks,
  failures, crashes and lost files; `TaskExecute` is one call of `execute` in its own form. `BuildRun` puts
  the scheduler and the store together: a build among other processes, every event of which is a step of
  `execute`.
* **Feature resolver** (`bin/cargo/resolve.go`). `FeatureRules` states what features demand as closed sets of
  facts. `Resolver` runs the worklist over mutable maps, with the revision strings of `FeatureRevision`, and
  is proved to terminate and to take one of the runs of `ResolveRuns`, in which only the order of Go maps is
  open. Every run ends in a closed set, and `ResolveEnds` shows that every graph has one. `LeastResult`,
  `OrderMatters` and `OrderExactly` say for which evaluators of target conditions that set is the least one,
  and for which the order does not matter; `TargetTables` and `NegatedFeature` apply this to the evaluator of
  `bin/cargo/cfg.go`. `FeatureText` and `ResolveMeaning` say what a run ends with in terms of the text of features
  and of the tables, without the rules it is computed by.
* **Exact floating point** (`dev/gen_float128_vectors.py`). `Rounding` and `RoundingTheorems` model
  `round_to_format` for any binary format over all rationals, `FloatVectors` the bit patterns and the fmod
  column, `DecimalFormat` and `DecimalUnique` the `%g` printer (with `Powers` below all of them). Arithmetic is over `real`.
* **Smaller cores.** `Placeholder` (`bin/cargo/build_script.go`), `CfgSyntax`, `CfgReading`, `CfgLanguage`,
  `CfgMeaning` and `CfgParser` (`bin/cargo/cfg.go`), `Brackets`, `Branches`, `CoverageRank` and `LambdaInCondition`
  (`dev/coverage_branches.py`), `PackageOrder`, `TreePrinter`, `TreeShape` and `TreeCommand` (`bin/cargo/tree.go`),
  `Semver`, `SemverText`, `SemverSpec` and `Requirements` (`bin/cargo/semver.go`).

Code that changes variables or fields step by step is a method, proved equal to a function or to a
declarative contract; the lemmas then speak of the function or the contract.

Where the code falls short of what it is for, the model keeps the code and says exactly when it holds:

* A text that itself contains the output-directory placeholder comes back from `makeBuildOutputPortable` and
  `resolveBuildOutputPath` changed, exactly when such a placeholder survives the first replacement
  (`Placeholder.RoundTripExactly`).
* The resolver's result is the least closed set, on all graphs and in all runs, exactly if no condition that
  holds with some features active is lost with more (`OrderExactly.RunsEndLeastExactly`,
  `LeastResult.LeastExactly`). The order of Go maps does not matter exactly if none is lost, or never two
  conditions hold together (`OrderExactly.OrderIsFreeExactly`). `not(feature = "...")` is a lost condition: for
  every target there is a package graph that two runs resolve to different packages
  (`NegatedFeature.OrderMattersUnderNot`).
* `coverage_branches.py` means a kept branch to subsume the dropped ones inside it. One that lies in the header
  of another, as a lambda in its condition does, is dropped although its lines are not counted; no line is lost
  exactly if each such branch with missed lines lies also in the body of one that stands in no header
  (`CoverageRank.NothingIsLostExactly`, `LambdaInCondition.InnerIsLost`).
* `=` with a full version accepts exactly the versions that tie with it, if and only if no dot stands in its
  prerelease or build metadata (`SemverSpec.EqualIsExact`). With a dot there are more than three parts, and any
  version is accepted, as by `=1.2.3-rc.1` (`SemverSpec.DottedAcceptsAll`); but if one of the dotted parts is a
  wildcard, as in `=1.2.3-rc.x`, any version of the same major number (`SemverSpec.WildAcceptsMajor`). Other
  operators keep the whole version in spite of dots, and only the major number with a wildcard
  (`Requirements.ComparatorReads`).
* Within `cfg(...)`, text after the closing parenthesis is not looked at: `cfg(unix) x` is answered like
  `cfg(unix)` (`CfgLanguage.AnythingMayFollow`, `CfgLanguage.TextAfterIsIgnored`).
* Equal uids mean the same work exactly if the sections of the field lists have the same sizes
  (`TaskCache.SameWorkExactly`). The sizes are not hashed: an output and two entries of
  the signature can make the same uid (`TaskCache.SectionsRunTogether`).
* Revisions tell feature sets apart if no name is empty or holds a NUL (`FeatureRevision.PlainRevisionsDiffer`);
  a NUL in a name can make one name look like two (`FeatureRevision.NulHidesNames`). A set and a larger one
  never share a revision, which is all the worklist needs (`FeatureRevision.RevisionSeesGrowth`).

## Model

| member | source | states |
|---|---|---|
| TaskGraph.TaskLister.Visit | bin/cargo/tasks.go:681-693 | the visit marks the task, leaves the open tasks as they were and appends tasks it leads to, each after its dependencies unless one of those waits for itself |
| TaskGraph.UniqueTasks | bin/cargo/tasks.go:677-700 | every task reachable from the roots is listed once, and nothing else; dependencies come first exactly when no reachable task waits for itself |
| TaskGraph.DepsFirstIffAcyclic | bin/cargo/tasks.go:677-700 | a depth-first listing is dependencies-first if and only if the graph below the roots is acyclic |
| TaskPriority.IndexDependents | bin/cargo/tasks.go:107-126 | a task is filed under a dependency as often as it lists it, and waits for as many results as it lists |
| TaskPriority.Ranker.Collect | bin/cargo/tasks.go:709-728 | the memoised collection returns exactly the listed tasks that wait, directly or not, for the given one |
| TaskPriority.TaskPriorities | bin/cargo/tasks.go:706-736 | the priority is one more than the number of transitive dependents |
| TaskPriority.RanksAboveItsDependents | bin/cargo/tasks.go:702-736 | a task ranks strictly above everything that waits for it |
| TaskPriority.SortTasks | bin/cargo/tasks.go:738-746 | a rearrangement of the tasks in which nobody stands before one of higher priority, or of equal priority and smaller key |
| TaskPriority.LaterStaysLater | bin/cargo/tasks.go:738-746 | the sorting order is a strict weak order |
| Scheduler.Run | bin/cargo/tasks.go:105-203 | for every graph: the missing-result error occurs exactly on cyclic graphs, the deadlock throw is unreachable, otherwise the run is a legal history that ends with nothing running, and either all reachable tasks succeeded or the earliest received error is thrown |
| Scheduler.RunLoop | bin/cargo/tasks.go:129-202 | whatever the environment answers, the loop makes legal events only, drains what runs, and ends in success of all tasks or with the first error |
| Scheduler.StartReady | bin/cargo/tasks.go:145-156 | work conservation: afterwards an error has come back, all slots are taken, or nothing is ready |
| Scheduler.Release | bin/cargo/tasks.go:180-186 | a success is counted down once for every entry, and exactly the tasks whose count reaches zero become ready, once |
| Scheduler.TakeResult | bin/cargo/tasks.go:166-188 | one result is counted, its error becomes the first one if there is none yet, and after a success what waits is counted down |
| Scheduler.Receive | bin/cargo/tasks.go:180-188 | after a success the counters, the ready list and its order agree again with what has happened |
| Scheduler.AssignUids | bin/cargo/tasks.go:110-126 | every uid is computed if and only if the list is dependencies-first |
| Scheduler.StartsOnce | bin/cargo/tasks.go:144-203 | corollary of `Run`, of every legal history: no task starts twice in any run |
| Scheduler.DependenciesSucceedFirst | bin/cargo/tasks.go:144-203 | corollary of `Run`, of every legal history: a task starts only after every dependency succeeded |
| Scheduler.NeverMoreThanJobs | bin/cargo/tasks.go:144-203 | corollary of `Run`, of every legal history: at most `jobs` tasks run at any moment |
| Scheduler.NothingStartsAfterAnError | bin/cargo/tasks.go:145-203 | corollary of `Run`, of every legal history: once an error was received nothing starts |
| Scheduler.FirstErrorIsEarliest | bin/cargo/tasks.go:170-202 | the error thrown is the earliest one received, drained results included |
| Scheduler.StartsTheFirstInOrder | bin/cargo/tasks.go:137-188 | corollary of `Run`, of every legal history: every task that starts has maximal priority among the ready ones |
| Scheduler.StartsTheMostNeeded | bin/cargo/tasks.go:137-188 | no task that could start instead has more tasks waiting for it, directly or not, or as many and an earlier key |
| Scheduler.SlotsAreUsed | bin/cargo/tasks.go:144-203 | while a task could start and no error was received, results are waited for only with all slots taken |
| Scheduler.NeverStuck | bin/cargo/tasks.go:158-164 | while work is left and nothing failed, something runs or is ready |
| Makespan.Tick | bin/cargo/tasks.go:144-188 | with unit tasks, every tick uses all slots or everything left waits for a task not started before the tick |
| Makespan.GrahamBound | bin/cargo/tasks.go:144-188 | n unit tasks with longest chain L finish at a time T with jobs * T <= n + (jobs - 1) * L |
| HashEncoding.FieldsSplit | bin/cargo/tasks.go:308-311 | a length-prefixed string says where it ends |
| HashEncoding.EncodeInjective | bin/cargo/tasks.go:271-311 | different lists of strings give different byte streams |
| TaskCache.SameUidSameOutputs | bin/cargo/tasks.go:271-306 | equal uids mean equal outputs, through all dependencies |
| TaskCache.FieldsDetermine | bin/cargo/tasks.go:271-306 | with sections of the same sizes, equal field lists come from the same description, outputs, dependency uids, and inputs with the same contents |
| TaskCache.UidExactly | bin/cargo/tasks.go:271-306 | two tasks have the same uid if and only if they are the same work, dependencies included, all the way down |
| TaskCache.SameWorkExactly | bin/cargo/tasks.go:271-306 | any two tasks are the same work if and only if their uids are equal and the sections hashed for them and their dependencies have the same sizes |
| TaskCache.SortInputsSorts | bin/cargo/tasks.go:290-291 | the inputs are hashed in the order of their paths, each as often as it is listed |
| TaskCache.SectionsRunTogether | bin/cargo/tasks.go:271-306 | two different tasks with the same uid |
| TaskCache.ReadBack | bin/cargo/tasks.go:340-376 | reading a stored manifest gives back the files it was made from |
| TaskExecute.TaskUid | bin/cargo/tasks.go:271-306 | writing field after field yields the hash of the whole field list |
| TaskExecute.Executor.StoreFile | bin/cargo/tasks.go:378-415 | the blob stands under the hash of its content, and no blob is changed |
| TaskExecute.Executor.StoreOutputs | bin/cargo/tasks.go:340-376 | the manifest of all outputs, every blob of which is stored |
| TaskExecute.Executor.LoadManifest | bin/cargo/tasks.go:417-443 | a manifest is accepted if and only if all its blobs are there |
| TaskExecute.Executor.Execute | bin/cargo/tasks.go:205-269 | a result is the clean manifest and loads from then on; there is none exactly if the cache cannot answer and the action or the storing throws, and then nothing is published; the cache answers exactly when the manifest loads, and then nothing changes; no other uid is touched |
| TaskProtocol.StepKeepsInv | bin/cargo/tasks.go:205-269 | every step of every worker keeps: blobs hold what they are named after, manifests are the clean ones, known results are readable |
| TaskProtocol.KnownIsClean | bin/cargo/tasks.go:205-269 | cache transparency: after any interleaving of runs, failures, crashes and losses, a result is the manifest of a build on an empty store |
| TaskProtocol.CacheTransparency | bin/cargo/tasks.go:205-269 | the same uid gets the same manifest in any two histories |
| TaskProtocol.MutualExclusion | bin/cargo/tasks.go:220-226 | two workers past the lock never have the same uid |
| TaskProtocol.ActionsFindTheirInputs | bin/cargo/tasks.go:205-258 | a running action always finds the results of its dependencies |
| TaskProtocol.ManifestsNameStoredBlobs | bin/cargo/tasks.go:340-453 | a published manifest names stored blobs with the right content, unless that blob was lost later |
| TaskProtocol.CompletesAtMostOnce | bin/cargo/tasks.go:220-258 | between two completions for one uid its manifest or one of its blobs was lost |
| TaskProtocol.NoLockIsStuck | bin/cargo/tasks.go:220-226 | a waiting worker can take the lock, or its holder can go on; failures and crashes leave no lock behind |
| BuildRun.LaunchMayBegin | bin/cargo/tasks.go:144-218 | when the scheduler starts a task, the results of its dependencies are known to its process, so `execute` may assume them |
| BuildRun.MoveKeepsStep | bin/cargo/tasks.go:105-269 | every step of any process and every scheduler event keeps history and store in step |
| BuildRun.BuildIsClean | bin/cargo/tasks.go:105-269 | from any store that runs, failures, crashes and losses can leave, and with other processes at work: every success of a build has its clean manifest, and a build that finishes has those of all reachable tasks |
| FeatureUniverse.EffectsInside | bin/cargo/resolve.go:115-201 | features demand only names that are parts of names written down, so there are finitely many |
| FeatureUniverse.EffectsOwned | bin/cargo/resolve.go:115-201 | the features of a package speak of that package and its own dependency entries only |
| FeatureRevision.SortedKeys | bin/cargo/resolve.go:326-338 | exactly the active features in strictly increasing byte order |
| FeatureRevision.RevisionSeesGrowth | bin/cargo/resolve.go:322-338 | for a set and a larger one the revisions are equal only if the sets are; the empty revision is that of the empty set |
| FeatureRevision.PlainRevisionsDiffer | bin/cargo/resolve.go:322-338 | for names that are not empty and hold no NUL, equal revisions mean equal sets |
| FeatureRevision.NulHidesNames | bin/cargo/resolve.go:322-324 | two sets with the same revision, one name holding a NUL |
| FeatureText.EffectsExactly | bin/cargo/resolve.go:115-230 | what an active feature demands, read off its text and the texts in its list: `dep:` and a key, a key and a slash with or without a question mark, or a name |
| FeatureText.AppliesExactly | bin/cargo/resolve.go:254-287 | which dependency entries stand in tables that apply: build ones with a build script, dev ones at the root of a build that uses them |
| FeatureText.ChildExactly | bin/cargo/resolve.go:101-113 | a dependency in use asks its package for the default feature, if wanted and declared, and for what is asked of it |
| FeatureText.RootExactly | bin/cargo/resolve.go:12-33 | the features that the command line asks of the root |
| FeatureState.ExpandedOwned | bin/cargo/resolve.go:115-156 | expanding a package adds facts about that package only, and only trimmed names |
| Resolver.Resolution.ActivateFeature | bin/cargo/resolve.go:81-99 | the trimmed name becomes active unless it is empty, and the flag tells whether that was new |
| Resolver.Resolution.EnableDependency | bin/cargo/resolve.go:207-218 | exactly the dependencies of that name become enabled, and the flag tells whether any was not |
| Resolver.Resolution.RequestDependencyFeature | bin/cargo/resolve.go:172-201 | exactly what `dep/feature` or `dep?/feature` demands is recorded |
| Resolver.Resolution.ExpandFeatures | bin/cargo/resolve.go:115-156 | the loop terminates in the least set that holds the old facts and everything the features of the package demand |
| Resolver.Resolution.RequestFeatures | bin/cargo/resolve.go:101-113 | exactly the default feature, if wanted and declared, and the features asked for become active |
| Resolver.Resolution.EnabledDependencies | bin/cargo/resolve.go:254-298 | a list of the dependencies in use: the package's own tables, then those of the target tables that apply, in some order of the map |
| Resolver.Resolution.RequestDependencies | bin/cargo/resolve.go:57-67 | the facts and the queue after asking the dependencies in the order of the list: a package is queued if it gained a feature or its revision is empty or missing |
| Resolver.Resolution.ResolveGraph | bin/cargo/resolve.go:8-79 | the worklist terminates and takes one of the runs; packages found and facts recorded are closed under all rules, and the least such set if no condition of the graph is lost |
| ResolveRuns.RunEndsClosed | bin/cargo/resolve.go:8-79 | every run, whatever the order of the maps, ends in a closed set, and in the least one if no condition of the graph is lost |
| ResolveRuns.WalkAllWalks | bin/cargo/resolve.go:57-67 | walking the dependencies records the same facts and reaches the same packages in any order of them |
| ResolveRuns.MonotoneRunsAgree | bin/cargo/resolve.go:8-79 | if no condition of the graph is lost, all runs have the same outcome |
| ResolveMeaning.EnabledExactly | bin/cargo/resolve.go:115-230 | at the end of every run an entry of a visited package is enabled if and only if an active feature is `dep:` and its key, or an active feature or an entry of one is its key, a slash and any text, with no question mark before the slash |
| ResolveMeaning.AskedExactly | bin/cargo/resolve.go:115-203 | a feature is asked of an entry if and only if the entry itself asks for it, or one of these texts is its key, a slash, with or without a question mark before it, and the feature |
| ResolveMeaning.ActiveExactly | bin/cargo/resolve.go:8-165 | a feature of a visited package is active if and only if the command line asks for it, an active feature of the package demands it, or a dependency that was in use at some moment of the run asked for it |
| ResolveMeaning.VisitedExactly | bin/cargo/resolve.go:35-78 | a package is visited if and only if it is the root or that of a dependency that was in use at some moment |
| ResolveMeaning.UsesAtTheEnd | bin/cargo/resolve.go:35-78 | if no condition is lost, a use at some moment is a use at the end, with the features active then |
| LeastResult.MonotoneHasLeast | bin/cargo/resolve.go:292-298 | if no condition of a graph is lost, a least closed set exists |
| LeastResult.LosingHasNoLeast | bin/cargo/resolve.go:292-298 | for every condition that is lost there is a graph without a least closed set |
| LeastResult.LeastExactly | bin/cargo/resolve.go:292-298 | every graph judged by an evaluator has a least closed set if and only if no condition is lost |
| OrderMatters.LosingRunsDiffer | bin/cargo/resolve.go:254-298 | for every condition that is lost, and any two that hold together, there is a graph whose result depends on the order in which two target tables are ranged over |
| ResolveEnds.RunExists | bin/cargo/resolve.go:35-78 | every package graph has a run that ends |
| OrderExactly.AloneRunsAgree | bin/cargo/resolve.go:254-298 | if never two conditions hold together, all runs of a graph have the same outcome, whatever is lost |
| OrderExactly.OrderIsFreeExactly | bin/cargo/resolve.go:8-79 | on every graph judged by an evaluator all runs agree, if and only if no condition is lost or never two conditions hold together |
| OrderExactly.RunsEndLeastExactly | bin/cargo/resolve.go:8-79 | on every graph judged by an evaluator every run ends with the least closed set, if and only if no condition is lost |
| ResolveProgress.ForeignKeepsClosed | bin/cargo/resolve.go:35-68 | a package stays closed while nothing about it is added |
| ResolveProgress.RoundKeepsProgress | bin/cargo/resolve.go:35-68 | one round leaves every visited package closed or queued |
| ResolveProgress.IdleRound | bin/cargo/resolve.go:42-47 | a round that ends at the same revision changes nothing |
| ResolveProgress.RoundIsNeeded | bin/cargo/resolve.go:35-68 | a round records nothing that a closed set could do without |
| ResolveProgress.SeenGrows | bin/cargo/resolve.go:42-53 | every other round uses up part of a finite universe, so the worklist ends in spite of empty revisions being queued again |
| NegatedFeature.NoLeastUnderNot | bin/cargo/resolve.go:292-298 | for the evaluator of every target there is a package graph without a least closed set |
| NegatedFeature.OrderMattersUnderNot | bin/cargo/resolve.go:254-298 | for the evaluator of every target there is a package graph that two runs resolve differently |
| TargetTables.PositiveIsMonotone | bin/cargo/resolve.go:292-298 | if no feature stands under an odd number of `not`s, conditions are monotone and the least set exists |
| TargetTables.OtherTablesNameTargets | bin/cargo/resolve.go:292-298 | a condition that is not `cfg(...)` holds exactly for the target of that name |
| Rounding.FindExponent | dev/gen_float128_vectors.py:31-35 | the two loops find the exponent of the power of two at or below the value |
| Rounding.RoundToFormat | dev/gen_float128_vectors.py:25-50 | the integer algorithm computes the rounding function for every nonzero rational and every format |
| RoundingTheorems.RoundsToNearestEven | dev/gen_float128_vectors.py:25-50 | no representable value is closer than the result, and a tie goes to the even fraction (section 4.3.1 of IEEE 754-2008) |
| RoundingTheorems.OverflowsExactlyFrom | dev/gen_float128_vectors.py:46-47 | infinity exactly from (2^(mant+1) - 1/2) * 2^(max_exp - mant) on, in either direction, and the sign is that of the value (section 7.4 of IEEE 754-2008) |
| RoundingTheorems.RoundingIsMonotone | dev/gen_float128_vectors.py:25-50 | a larger value never rounds to a smaller one |
| RoundingTheorems.RoundingIsExact | dev/gen_float128_vectors.py:25-50 | a representable value rounds to itself |
| FloatVectors.Bits | dev/gen_float128_vectors.py:53-77 | the encoders produce the bit pattern of the rounded value, or the signed zero or infinity |
| FloatVectors.FiniteIsNotSpecial | dev/gen_float128_vectors.py:62-77 | a finite rounding never has the exponent field of infinities |
| FloatVectors.BitsOfValue | dev/gen_float128_vectors.py:53-87 | encoding the decoded value of any pattern that is not special, with its sign, gives the pattern back |
| FloatVectors.BitsOfInfinity | dev/gen_float128_vectors.py:53-77 | what is too large is written with its sign, an exponent field of ones and no fraction |
| FloatVectors.FormatsAre | dev/gen_float128_vectors.py:53-77 | the fields of the three formats stand at the bits of binary128, binary64 and binary32 |
| FloatVectors.FmodIsRepresentable | dev/gen_float128_vectors.py:134-159 | a - b * trunc(a / b) is smaller than b, has the sign of a or is zero, and is representable |
| FloatVectors.FmodIsTheRemainder | dev/gen_float128_vectors.py:134-159 | it is the only number that differs from a by a multiple of b, is smaller than b, and has the sign of a or is zero |
| FloatVectors.BitsOfRepresentable | dev/gen_float128_vectors.py:53-87 | the pattern written for a number of the format decodes to it, with its sign or, for zero, the sign asked for |
| FloatVectors.FmodVectorIsExact | dev/gen_float128_vectors.py:134-159 | the pattern written for fmod decodes to the exact remainder, and its sign bit is set if and only if the dividend is below zero, a zero remainder included |
| FloatVectors.PatternIsRepresentable | dev/gen_float128_vectors.py:80-87 | every pattern that is not special decodes to a number of the format, whose sign is the sign bit unless it is zero |
| FloatVectors.FmodOfPatterns | dev/gen_float128_vectors.py:134-159 | for two patterns with a nonzero divisor fmod is exact, and carries the sign bit of the dividend if and only if the dividend is not the negative zero |
| DecimalFormat.DecimalExponent | dev/gen_float128_vectors.py:226-233 | the two loops find the decimal exponent |
| DecimalFormat.NearestDecimal | dev/gen_float128_vectors.py:234-238 | no decimal of so many digits is closer to the value than its rounding, ties going to an even last digit |
| DecimalFormat.RoundedExponentIsPlace | dev/gen_float128_vectors.py:239-242 | after a carry the exponent is that of the rounded value |
| DecimalFormat.LayoutMeans | dev/gen_float128_vectors.py:243-251 | every layout denotes the digits at their weight, with an exponent exactly if it is below -4 or not below the precision (section 7.21.6.1 of C11) |
| DecimalFormat.FormatG | dev/gen_float128_vectors.py:222-251 | the text is a numeral for exactly the value rounded half to even to n digits, in exponent form exactly in the %g cases, without superfluous zeros, points or exponent digits |
| DecimalUnique.ShortNumeralUnique | dev/gen_float128_vectors.py:240-251 | two such numerals with the same value, both with an exponent or both without, are the same text |
| DecimalUnique.PrintedTextIsUnique | dev/gen_float128_vectors.py:222-251 | what is promised of the printed text is true of one text only |
| DecimalUnique.ReadsNumeral | dev/gen_float128_vectors.py:240-251 | how a numeral with a sign, a point and an exponent is read |
| Placeholder.NoNewPlaceholder | bin/cargo/build_script.go:11-21 | replacing the directory creates no placeholder across a splice |
| Placeholder.RoundTripExactly | bin/cargo/build_script.go:11-29 | the text comes back if and only if no placeholder of its own survives the replacement |
| Placeholder.PlainRoundTrip | bin/cargo/build_script.go:11-29 | a text without the placeholder always comes back, and in another directory names that one instead |
| Placeholder.PlaceholderIsLost | bin/cargo/build_script.go:11-29 | a text that does not come back |
| CfgParser.Parser.Ident | bin/cargo/cfg.go:219-239 | reads the longest name after white space, or throws |
| CfgParser.Parser.Quoted | bin/cargo/cfg.go:241-266 | reads a quoted value, or throws |
| CfgParser.Parser.Expression | bin/cargo/cfg.go:158-217 | the descent at a moving position computes the value, the rest and the exception of the reading function |
| CfgParser.Matches | bin/cargo/cfg.go:135-156 | the method computes the reading function on every condition |
| CfgLanguage.ExpressionReads | bin/cargo/cfg.go:158-217 | every printed condition is read as its meaning, up to white space |
| CfgLanguage.ExpressionFound | bin/cargo/cfg.go:158-217 | whatever is read is a printed condition with that meaning |
| CfgLanguage.MatchesIsMeaning | bin/cargo/cfg.go:135-156 | a `cfg(` text is answered with a value if and only if it is a condition with that meaning, and throws otherwise |
| CfgLanguage.PrintedMatches | bin/cargo/cfg.go:135-296 | printed with any white space inside and around, a condition is answered with its meaning and never throws |
| CfgLanguage.AnythingMayFollow | bin/cargo/cfg.go:135-156 | a condition followed by any text at all is answered with its meaning |
| CfgLanguage.TextAfterIsIgnored | bin/cargo/cfg.go:135-156 | `cfg(unix) x` is answered as `cfg(unix)` is |
| CfgMeaning.FlagMatches | bin/cargo/cfg.go:158-217 | a name alone is answered with whether the target has the flag |
| CfgMeaning.FeatureMatches | bin/cargo/cfg.go:158-217 | `feature = "..."`, with quotes and backslashes escaped, is answered with whether the feature is active |
| CfgMeaning.ValueMatches | bin/cargo/cfg.go:158-217 | any other name and value with whether the compiler reports the value under the name |
| CfgMeaning.NotMatches | bin/cargo/cfg.go:158-217 | `not(...)` is answered with the opposite of the condition in it |
| CfgMeaning.AllMatches | bin/cargo/cfg.go:158-217 | `all(...)` of any number of conditions holds if and only if each does by itself |
| CfgMeaning.AnyMatches | bin/cargo/cfg.go:158-217 | `any(...)` holds if and only if one does by itself |
| Brackets.FindPairs | dev/coverage_branches.py:38-47 | the stack loop computes the pairing function |
| Brackets.PairsNeverCross | dev/coverage_branches.py:38-47 | for any tokens, pairs are fitting brackets in order, and two pairs are disjoint or nested |
| Brackets.PairsExactly | dev/coverage_branches.py:38-47 | for any tokens, a closing bracket is paired with the innermost open one if and only if that is of its kind |
| Brackets.BalancedIsPairedAsNested | dev/coverage_branches.py:38-47 | balanced text is paired exactly as it is nested |
| Branches.FindBranches | dev/coverage_branches.py:48-69 | exactly the keywords with a braced body, once each, in order |
| Branches.BranchesExactly | dev/coverage_branches.py:48-69 | what has a body: `else` and `do` before a brace, `if`, `if constexpr`, `switch`, `for` and `while` after a parenthesis, `case` and `default` after the first colon outside brackets, with no brace or semicolon before it |
| Branches.HeaderIsClosed | dev/coverage_branches.py:48-66 | braces that open between a keyword and its body close there |
| Branches.BranchesNest | dev/coverage_branches.py:38-69 | the bodies of two branches are disjoint, or the later one's lies in the earlier one's |
| CoverageRank.Candidates | dev/coverage_branches.py:113-132 | exactly the branches with enough missed and no covered lines, in order |
| CoverageRank.Rank | dev/coverage_branches.py:113-140 | one row for each candidate that no other one encloses, in order, with its lines |
| CoverageRank.ReportedMeans | dev/coverage_branches.py:100-140 | a branch is reported if and only if all measured lines strictly between those of its braces were missed, they are enough, and no other such branch begins before it and ends no earlier |
| CoverageRank.RowMeans | dev/coverage_branches.py:114-128 | the row of a branch has its line, the line of its end, how many lines were missed, and how many lines its body has |
| CoverageRank.LineNumberExactly | dev/coverage_branches.py:109-110 | the line of an offset is the one whose end is the first that does not come before it |
| CoverageRank.KeptShareNoLine | dev/coverage_branches.py:133-140 | reported branches have disjoint bodies and no missed line in common |
| CoverageRank.TotalCountsEachLineOnce | dev/coverage_branches.py:133-141 | the counts of the rows add up to the number of lines they speak of |
| CoverageRank.DroppedLiesInKept | dev/coverage_branches.py:133-140 | every candidate not reported lies between keyword and end of one that is |
| CoverageRank.CountedInKept | dev/coverage_branches.py:133-140 | a candidate's missed lines are all reported if and only if it has none or its body lies in a reported body |
| CoverageRank.FreeIsReported | dev/coverage_branches.py:133-140 | the body of a candidate that stands in no candidate's header lies in a reported body |
| CoverageRank.CountedExactly | dev/coverage_branches.py:133-140 | a candidate's missed lines are all reported if and only if it has none, or its body lies in that of a candidate that stands in no candidate's header |
| CoverageRank.NothingIsLostExactly | dev/coverage_branches.py:133-140 | every missed line of every candidate is reported if and only if each candidate with missed lines in another's header lies also in the body of one that stands in no header |
| LambdaInCondition.InnerIsLost | dev/coverage_branches.py:133-140 | a branch in a condition whose missed line is in no report |
| PackageOrder.UniquePackages | bin/cargo/tree.go:181-195 | the dropping loop and the sort compute the children function |
| PackageOrder.ChildrenWell | bin/cargo/tree.go:181-205 | every child once, ordered by name and version |
| PackageOrder.SortedCounts | bin/cargo/tree.go:197-205 | sorting keeps every package as often as it stands there |
| PackageOrder.NotAfterIsTotal | bin/cargo/tree.go:197-205 | the order of packages is a total preorder |
| PackageOrder.NotAfterMeans | bin/cargo/tree.go:197-205 | one package comes before another by dictionary order of the names, then by version |
| TreePrinter.Printer.PrintTreeNode | bin/cargo/tree.go:154-179 | the recursion terminates on any graph and prints the lines of the rendering function |
| TreePrinter.RenderCovers | bin/cargo/tree.go:154-179 | one call expands everything reachable that was not printed, each once, with one line for itself and one for each child of what it expands |
| TreePrinter.TreeShowsEverythingOnce | bin/cargo/tree.go:142-179 | on any graph: exactly the reachable packages are printed, each with children is expanded exactly once, and the lines are the roots plus the distinct children, and the separators |
| TreeShape.RenderShape | bin/cargo/tree.go:154-179 | read off the indentation: the lines one deeper below an expanded package are its distinct children in order, the last one with its own mark, under a bar or a blank as their ancestors go on or not |
| TreeShape.ForestShape | bin/cargo/tree.go:142-179 | the same for all trees: the roots stand at the margin in order, an empty line before each but the first |
| TreeShape.ForestRepeats | bin/cargo/tree.go:154-179 | a package with children is marked as repeated if and only if it was shown before |
| TreeCommand.CollectEdges | bin/cargo/tree.go:92-116 | the breadth-first walk reaches exactly the reachable packages; dependents are the transposed edges with their multiplicity |
| TreeCommand.SelectRoots | bin/cargo/tree.go:121-140 | every reached package as often as a specification names it; throws exactly if one names nothing and is not declared |
| TreeCommand.NamesMeans | bin/cargo/tree.go:121-132 | a specification names the packages of a name, or those of a name with the printed version behind an at sign |
| TreeCommand.InverseReaches | bin/cargo/tree.go:106-123 | following dependents leads exactly to what needs the start |
| TreeCommand.PrintTree | bin/cargo/tree.go:91-152 | the printed lines are the tree of the root, or over the transposed edges those of the named packages, each as often as it is named; with the shape of `TreeShape`; throws exactly if a specification names no reached package and no reached package declares it |
| TreeCommand.InvertedShowsDependents | bin/cargo/tree.go:118-152 | inverted trees show exactly the reached packages that need a named one |
| Semver.CompareVersion | bin/cargo/semver.go:57-84 | the comparison loop computes the order |
| Semver.OrderMeans | bin/cargo/semver.go:57-84 | a version stands below another by its numbers in dictionary order, or with the same numbers if it is a prerelease, of a release or with the earlier text |
| Semver.OrderIsTotal | bin/cargo/semver.go:57-84 | any two versions compare one way round, and ties agree on everything but build metadata |
| Semver.OrderIsTransitive | bin/cargo/semver.go:57-84 | the order is transitive, ties included |
| Semver.Accepts | bin/cargo/semver.go:166-209 | a requirement accepts what meets all its comparators |
| Semver.ThreePartsMean | bin/cargo/semver.go:144-196 | `>`, `>=`, `<`, `<=` and `=` with three numbers compare in the order of versions |
| Semver.TwoPartsMean | bin/cargo/semver.go:144-225 | with two numbers they, the wildcard and `^` compare these numbers |
| Semver.OnePartMeans | bin/cargo/semver.go:144-225 | with one number every operator compares the major number |
| Semver.ShortAreIntervals | bin/cargo/semver.go:144-225 | `^` and `=` with one or two numbers accept an interval, from the numbers with zeros for the rest to the next release that differs too much |
| Semver.MeetsExactly | bin/cargo/semver.go:166-209 | a comparator accepts what its operator allows of the written parts |
| Semver.BoundIsMonotone | bin/cargo/semver.go:144-164 | a later version never compares lower to a comparator, however many parts it writes |
| Semver.AcceptedIsConvex | bin/cargo/semver.go:144-225 | a version between two accepted ones is accepted |
| Semver.CaretIsInterval | bin/cargo/semver.go:201-225 | `^` with all parts accepts from the base up to the bump of its leftmost nonzero part, without the prereleases of the bump |
| Semver.CaretOnReleases | bin/cargo/semver.go:201-225 | on releases that is the half-open interval |
| Semver.TildeIsInterval | bin/cargo/semver.go:197-200 | `~` accepts from its floor, unwritten parts being zero, up to the next minor or major version without that one's prereleases; with one or two parts also the floor's own prereleases |
| Semver.TildeOnReleases | bin/cargo/semver.go:197-200 | on releases that is the half-open interval of the order |
| SemverText.ParseVersion | bin/cargo/semver.go:9-41 | the cutting and the loop over the parts compute the parsing function |
| SemverText.PrintedReadsBack | bin/cargo/semver.go:9-55 | parsing undoes printing if and only if the prerelease holds no `+` and the text does not end in white space |
| SemverText.AllowedReadsBack | bin/cargo/semver.go:9-55 | it does for every prerelease and build metadata allowed by sections 9 and 10 of SemVer 2.0.0 |
| SemverSpec.FullText | bin/cargo/semver.go:9-55 | a version with all its parts, as it is written and read |
| SemverSpec.ParseVersionSpec | bin/cargo/semver.go:86-138 | the loop over the comparators computes the reading function |
| SemverSpec.FullReads | bin/cargo/semver.go:95-134 | a version that reads back, after any operator, is read as that operator and version, with as many parts as its text has dots and one more; with a wildcard among these only its numbers are kept and the operator is dropped |
| SemverSpec.ExactBound | bin/cargo/semver.go:95-134 | the same for `=` and a printed version |
| SemverSpec.EqualIsExact | bin/cargo/semver.go:166-176 | for every version that reads back, `=` accepts exactly what ties with it if and only if no dot stands in prerelease or build metadata; else it accepts everything, or with a wildcard among the dotted parts everything of its major number |
| SemverSpec.DottedAcceptsAll | bin/cargo/semver.go:95-176 | `=1.2.3-rc.1` is read, and accepts every version |
| SemverSpec.WildAcceptsMajor | bin/cargo/semver.go:95-194 | `=1.2.3-rc.x` is read, and accepts exactly the versions with major number 1 |
| Requirements.ComparatorReads | bin/cargo/semver.go:95-209 | any operator or none, before a version, one to three numbers, or numbers and wildcards, with white space anywhere, is read as the set of versions it stands for |
| Requirements.RequirementReads | bin/cargo/semver.go:86-209 | a list of comparators with commas is read as the requirement that all of them are met |
| Requirements.OperatorsMean | bin/cargo/semver.go:86-209 | each operator text before a version without wildcards is read, and accepts what it should in the order of versions |
| Requirements.SplitOfJoin | bin/cargo/semver.go:95-126 | cutting undoes joining, if the character stands in no part |

## Left out

- Files, processes, `flock`, JSON and the network are abstract: a store of two maps, a lock with one holder, one atomic step for publishing a manifest. `storeFile`'s stat, copy and rename are one step, as is writing a manifest.
- SHA-256 is an arbitrary function assumed injective; its truncation to 16 bytes, the base64 text, the check of the hash length in `loadManifest` and the digest cache are not modelled.
- Cache theorems assume that actions are functions of the task description and the dependencies' outputs, that inputs do not change, and that equal field lists in `taskUID` are cut into sections alike (the list has no section counts). Blobs and manifests are lost only while no process runs.
- The mode of a blob shared by an executable and a plain output, stable and tree output materialisation, install modes, dry runs, `task.after` and progress printing.
- TaskExecute.Executor.Execute: one undisturbed call, without the lock; interleavings and the lock are in `TaskProtocol`.
- TaskPriority.SortTasks: which of two tasks with equal priority and key comes first is not stated, as `sort.Slice` does not promise it.
- PackageOrder.UniquePackages: the order of packages with equal name and version, which `sort.Slice` leaves open, is one possible choice.
- Makespan.GrahamBound: tasks take one time unit and the scheduler none.
- Resolver.Resolution.ResolveGraph: `Repository.resolve` is a fixed map from dependency to package and a condition a total function that never throws, false where `matches` would throw; the final sorting of the package list and the lock around activation are not modelled; `dep.features` are sets.
- White space and letters are the ASCII ones in trimming, the cfg parser and version text.
- RoundingTheorems.RoundingIsMonotone: stated where both results are finite; with `OverflowsExactlyFrom` it extends to infinities of the same sign.
- FloatVectors.Bits: patterns are integers, and shifts and ors are sums and products, since the fields do not overlap. Operand generation and table printing are left out.
- CoverageRank.Rank: the tokenizer, report reading, `--include-partial`, the final sort over files and the printed condition text are not modelled; the tokens are any sequence with increasing offsets.
- TreeCommand.PrintTree: the label's version and directory text is left out; a line is its lead, its package and its mark. Choosing vendored directories and writing to the terminal are not modelled.
- Requirements.RequirementReads: a prerelease or build metadata with a comma in it is cut there and not covered; neither is what else is read without error, such as numbers with leading zeros or more text after a wildcard.
- SemverText.ParseVersion: error texts are not modelled, only that it throws.
- Manifest and lock parsing, workspace discovery, build plan assembly, `bin/rustc`, and the text tools other than the coverage ranking.
