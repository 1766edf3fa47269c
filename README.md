# FeatureIDE configuration builder, implication analysis and JavaSMT solver wrapper

This project models three parts of FeatureIDE in Dafny and proves properties of the model.

- **ConfigurationBuilder** enumerates the valid configurations of a feature model. `buildAll` starts a depth-first walk from the root with an empty selection string. `build` and its three group cases decide, feature by feature, which children are taken:
  - `buildAnd`: every subset of the optional children, plus all the mandatory ones;
  - `buildOr`: every non-empty subset, or every subset when a child was dropped;
  - `buildAlternative`: exactly one child.

  A finished candidate goes to the build-order sorter with a consecutive ordinal, but only when the configuration object accepts it. Around the walk sit:
  - the buffer gate of `getConfiguration`;
  - the numbering of generator jobs;
  - the clean-up of covering-array solutions (`removeDuplicates`);
  - the duration strings of the status line and statistics;
  - the clamps on the counts the builder reports.
- **ImplicationAnalysis** finds false-optional pairs. It pushes the negations of a pair's literals onto an incremental solver, asks whether the model is still satisfiable, and records the pair when it is not. A ring of recent models lets it skip pairs that some recent model already refutes.
- **JavaSmtSatSolver** is the `ISolver` wrapper around a JavaSMT prover. It keeps:
  - a base clause list and the two node/formula maps;
  - a stack of pushed constraints.

  It maps the prover's answers, models and unsatisfiable cores back to the problem's terms.

## How the model is organised

Pure walks are total functions over an explicit state, and the objects are Dafny classes whose methods are proved to compute those functions.
- `Enumerator.Build`, `Complete`, `Expand` and `RunBranches` specify the walk. The state is a `BuildState`: the next ordinal, the monitor polls, the cancel flag, the last literal list and the sorter's buffer.
- The class `Builder.ConfigurationBuilder` holds those fields and runs the walk with loops, as the Java does.
  - Its methods `Build`, `BuildAnd`, `BuildOr` and `BuildAlternative` are proved to leave their object in exactly the state the functions give.
  - So what `EnumeratorFacts` proves about the functions holds of the object: soundness, consecutive ordinals, nothing after a cancel, and concrete scenarios.
- `Implication.AnalyzeSpec` specifies `analyze`. The class `Implication.ImplicationAnalysis` computes it over a `StackSolver`, a `Monitor` and a `RingList` of models.
- `JavaSmt.JavaSmtSatSolver` is a class with the same fields as the Java class.

The environment becomes oracles supplied as parameters or constant fields:
- the feature model's configuration object (`materialize`);
- the partial-selection SAT query (`partialSat`);
- the progress monitor (`canceled(k)` answers the k-th poll);
- the solver's answers in the implication analysis (functions of the current stack);
- the JavaSMT prover (functions of the back end and the asserted constraint list).

Java `int`/`long` behaviour is written out where it matters:
- `(int) Math.pow(2, n)` saturates at `Integer.MAX_VALUE` (`Masks.BranchBound`);
- `/` and `%` truncate toward zero (`Durations.JavaDiv`, `Durations.JavaRem`);
- `(int)` of a `long` keeps the low 32 bits (`Durations.ToInt`);
- `>>> 31` on an `int` (`Implication.TopBit`).

In source citations below:
- `ConfigurationBuilder.java` is `plugins/de.ovgu.featureide.ui/src/de/ovgu/featureide/ui/actions/generator/ConfigurationBuilder.java`;
- `ImplicationAnalysis.java` is `plugins/de.ovgu.featureide.fm.core/src/org/prop4j/analyses/impl/general/ImplicationAnalysis.java`;
- `JavaSmtSatSolver.java` is `plugins/de.ovgu.featureide.fm.core/src/org/prop4j/solvers/impl/javasmt/sat/JavaSmtSatSolver.java`.

The table uses the full paths.

### Behaviour of the code that the model keeps

- **Which pairs `analyze` examines.** A pair goes to the solver only when `pair[1]` occurs in *every* cached model (ImplicationAnalysis.java:75-81). The `continue pairLoop` fires on the first model that lacks it.
- **What `analyze` pushes.** It pushes the negation of *every* literal of the pair (lines 82-89), not only of the first one.
  - A push that raises a contradiction pushes nothing but still records the pair.
  - The pop loop (lines 100-102) pops as often as the pair is long. So each contradiction removes one entry that belonged to the caller, and the run can end by popping an empty stack (`Status.Underflow`).
- **Cancellation in `analyze`.** `checkCancel` throws, so a cancelled run returns no list to its caller. The model ends the run with `Status.Cancelled`; the result list it carries then holds the pairs recorded before the cancel, and a caller must not read it as the analysis result.
- **The buffer capacity of the enumerator is 500** (`MaxSize`). It is a constant, not a setting.

## Model

| member | source | states |
|---|---|---|
| Builder.ConfigurationBuilder.constructor | plugins/de.ovgu.featureide.ui/src/de/ovgu/featureide/ui/actions/generator/ConfigurationBuilder.java:175-176 | a new builder has no expected total, ordinal 1, no polls, an empty sorter, the gate closed, no jobs |
| Builder.ConfigurationBuilder.CountValidConfigurations | plugins/de.ovgu.featureide.ui/src/de/ovgu/featureide/ui/actions/generator/ConfigurationBuilder.java:244-256 | the counting job sets the total to the solver's count, or to Integer.MAX_VALUE when that count is negative |
| Builder.ConfigurationBuilder.Poll | plugins/de.ovgu.featureide.ui/src/de/ovgu/featureide/ui/actions/generator/ConfigurationBuilder.java:653 | `isCanceled` answers the monitor's answer to the current poll and counts one more poll |
| Builder.ConfigurationBuilder.GetConfiguration | plugins/de.ovgu.featureide.ui/src/de/ovgu/featureide/ui/actions/generator/ConfigurationBuilder.java:183-188 | nothing, and the sorter untouched, while buffer-first mode has not finished sorting; otherwise the oldest buffered configuration is removed and returned, or nothing when the buffer is empty |
| Builder.ConfigurationBuilder.AddConfiguration | plugins/de.ovgu.featureide.ui/src/de/ovgu/featureide/ui/actions/generator/ConfigurationBuilder.java:194-196 | the configuration is appended to the sorter's queue |
| Builder.ConfigurationBuilder.NewGeneratorJobs | plugins/de.ovgu.featureide.ui/src/de/ovgu/featureide/ui/actions/generator/ConfigurationBuilder.java:929-942 | the jobs appended are numbered as `GeneratorNumbers(count)`: none below 1, one job 0 for 1, else `count` down to 1 |
| Builder.ConfigurationBuilder.FinishWalk | plugins/de.ovgu.featureide.ui/src/de/ovgu/featureide/ui/actions/generator/ConfigurationBuilder.java:316-326 | in buffer-first mode one poll, the sorter's count replaces the total unless cancelled, and the gate opens; always `finish` is set |
| Builder.ConfigurationBuilder.BuildAll | plugins/de.ovgu.featureide.ui/src/de/ovgu/featureide/ui/actions/generator/ConfigurationBuilder.java:644-650 | the new state is the walk from `[root]` with an empty selection and ordinal 1; from a fresh builder every buffered configuration passes the three acceptance checks, and with a monotone monitor the ordinals are 1, 2, 3, ... |
| Builder.ConfigurationBuilder.Build | plugins/de.ovgu.featureide.ui/src/de/ovgu/featureide/ui/actions/generator/ConfigurationBuilder.java:652-760 | the object ends in exactly the state `Enumerator.Build` gives: cancel, total reached, unsatisfiable partial selection, finished candidate, or the group case |
| Builder.ConfigurationBuilder.Complete | plugins/de.ovgu.featureide.ui/src/de/ovgu/featureide/ui/actions/generator/ConfigurationBuilder.java:686-751 | the state of `Enumerator.Complete`: an accepted candidate is buffered with the current ordinal, the ordinal advances unless a cancel arrives while the buffer is full |
| Builder.ConfigurationBuilder.BuildAnd | plugins/de.ovgu.featureide.ui/src/de/ovgu/featureide/ui/actions/generator/ConfigurationBuilder.java:850-893 | the state of `Enumerator.Expand` for an AND feature: one build per optional-children mask, in mask order |
| Builder.ConfigurationBuilder.BuildOr | plugins/de.ovgu.featureide.ui/src/de/ovgu/featureide/ui/actions/generator/ConfigurationBuilder.java:810-848 | the state of `Enumerator.Expand` for an OR feature: one build per mask from the first mask on |
| Builder.ConfigurationBuilder.OrMasks | plugins/de.ovgu.featureide.ui/src/de/ovgu/featureide/ui/actions/generator/ConfigurationBuilder.java:836-847 | the mask loop from `lo` leaves the state of running every remaining branch in order |
| Builder.ConfigurationBuilder.OrMask | plugins/de.ovgu.featureide.ui/src/de/ovgu/featureide/ui/actions/generator/ConfigurationBuilder.java:837-846 | one iteration builds the subset mask `i2` selects, moving the run past branch `i2` |
| Builder.ConfigurationBuilder.RunBranch | plugins/de.ovgu.featureide.ui/src/de/ovgu/featureide/ui/actions/generator/ConfigurationBuilder.java:890 | one recursive build of a group loop is one step of the branch run |
| Builder.ConfigurationBuilder.BuildAlternative | plugins/de.ovgu.featureide.ui/src/de/ovgu/featureide/ui/actions/generator/ConfigurationBuilder.java:780-807 | the state of `Enumerator.Expand` for an alternative feature: one build per kept child, in child order |
| Builder.Partition | plugins/de.ovgu.featureide.ui/src/de/ovgu/featureide/ui/actions/generator/ConfigurationBuilder.java:871-878 | the kept children split into the mandatory and the optional ones, each in child order |
| Builder.SelectByMask | plugins/de.ovgu.featureide.ui/src/de/ovgu/featureide/ui/actions/generator/ConfigurationBuilder.java:881-888 | reading the mask with `% 2` and `/ 2` selects exactly `Subset(xs, mask)` |
| Builder.SelectedNames | plugins/de.ovgu.featureide.ui/src/de/ovgu/featureide/ui/actions/generator/ConfigurationBuilder.java:696-701 | the non-empty tokens of the selection string split at whitespace runs, in order |
| Builder.CoversSelection | plugins/de.ovgu.featureide.ui/src/de/ovgu/featureide/ui/actions/generator/ConfigurationBuilder.java:702-713 | true iff every selected concrete feature is named and every named feature is selected |
| Enumerator.CountOrMax | plugins/de.ovgu.featureide.ui/src/de/ovgu/featureide/ui/actions/generator/ConfigurationBuilder.java:248-252 | the total is never negative: a negative count (solver overflow) becomes Integer.MAX_VALUE, any other stays; `EnumeratorFacts.CountedTotalGate` says what the gate makes of it |
| Enumerator.Build | plugins/de.ovgu.featureide.ui/src/de/ovgu/featureide/ui/actions/generator/ConfigurationBuilder.java:652-760 | specification of `build`: cancel, total reached, unsatisfiable partial selection, finished candidate, or the group case; the facts are `EnumeratorFacts.BuildSound` and `EnumeratorFacts.BuildCounted` |
| Enumerator.Complete | plugins/de.ovgu.featureide.ui/src/de/ovgu/featureide/ui/actions/generator/ConfigurationBuilder.java:686-751 | specification of the finished-candidate case; the facts are `EnumeratorFacts.CompleteSound` and `EnumeratorFacts.CompleteCounted` |
| Enumerator.Expand | plugins/de.ovgu.featureide.ui/src/de/ovgu/featureide/ui/actions/generator/ConfigurationBuilder.java:753-759 | specification of the group dispatch: a leaf passes on its visited selection, other features run their branches; the facts are `Enumerator.ExpandLeaf` and `Enumerator.ExpandRuns` |
| Enumerator.AndBranches | plugins/de.ovgu.featureide.ui/src/de/ovgu/featureide/ui/actions/generator/ConfigurationBuilder.java:850-893 | the frontiers of an AND feature; `EnumeratorFacts.AndBranchesEnumerateSubsets` says which |
| Enumerator.OrBranches | plugins/de.ovgu.featureide.ui/src/de/ovgu/featureide/ui/actions/generator/ConfigurationBuilder.java:810-848 | the frontiers of an OR feature; `EnumeratorFacts.OrBranchesSubsets` says which |
| Enumerator.AlternativeBranches | plugins/de.ovgu.featureide.ui/src/de/ovgu/featureide/ui/actions/generator/ConfigurationBuilder.java:780-807 | the frontiers of an alternative feature; `EnumeratorFacts.AlternativeBranchesPerChild` says which |
| Enumerator.Visit | plugins/de.ovgu.featureide.ui/src/de/ovgu/featureide/ui/actions/generator/ConfigurationBuilder.java:785-789 | a concrete feature's name is appended to the selection, an abstract one leaves it; `Selection.AppendNameJoin` relates it to the name list |
| Enumerator.Accepted | plugins/de.ovgu.featureide.ui/src/de/ovgu/featureide/ui/actions/generator/ConfigurationBuilder.java:695-713 | the three acceptance checks of a finished candidate; `EnumeratorFacts.EmittedCandidatesAccepted` says every buffered candidate passes them |
| Enumerator.MandatoryOf | plugins/de.ovgu.featureide.ui/src/de/ovgu/featureide/ui/actions/generator/ConfigurationBuilder.java:872-878 | holds exactly the mandatory children |
| Enumerator.OptionalOf | plugins/de.ovgu.featureide.ui/src/de/ovgu/featureide/ui/actions/generator/ConfigurationBuilder.java:872-878 | holds exactly the non-mandatory children |
| Enumerator.MaskBranches | plugins/de.ovgu.featureide.ui/src/de/ovgu/featureide/ui/actions/generator/ConfigurationBuilder.java:880 | one branch per mask from `lo` below the saturated `(int) Math.pow(2, n)` |
| Enumerator.MaskBranchAt | plugins/de.ovgu.featureide.ui/src/de/ovgu/featureide/ui/actions/generator/ConfigurationBuilder.java:836-846 | branch `m` is the subset of mask `lo + m` followed by the rest of the frontier |
| Enumerator.MaskBranchesFrom | plugins/de.ovgu.featureide.ui/src/de/ovgu/featureide/ui/actions/generator/ConfigurationBuilder.java:831-836 | starting the mask loop at `lo` runs the tail of the full mask list |
| Enumerator.OrBranchesLength | plugins/de.ovgu.featureide.ui/src/de/ovgu/featureide/ui/actions/generator/ConfigurationBuilder.java:831-836 | an OR feature has one branch per mask from its first mask (0 or 1) below the mask bound |
| Enumerator.ExpandLeaf | plugins/de.ovgu.featureide.ui/src/de/ovgu/featureide/ui/actions/generator/ConfigurationBuilder.java:860-868 | a feature without children passes its visited selection to the rest of the frontier |
| Enumerator.ExpandRuns | plugins/de.ovgu.featureide.ui/src/de/ovgu/featureide/ui/actions/generator/ConfigurationBuilder.java:753-759 | a feature with children runs its group's branches in order, each on a smaller frontier |
| Enumerator.BranchesSmaller | plugins/de.ovgu.featureide.ui/src/de/ovgu/featureide/ui/actions/generator/ConfigurationBuilder.java:880-891 | every branch frontier weighs less than the frontier it replaces, so the walk terminates |
| Enumerator.OrMasksSmaller | plugins/de.ovgu.featureide.ui/src/de/ovgu/featureide/ui/actions/generator/ConfigurationBuilder.java:836-847 | every OR mask, 0 included, gives a smaller frontier |
| EnumeratorFacts.OptionalOfNone | plugins/de.ovgu.featureide.ui/src/de/ovgu/featureide/ui/actions/generator/ConfigurationBuilder.java:872-878 | with only mandatory children there are no optional ones |
| EnumeratorFacts.AndBranchesEnumerateSubsets | plugins/de.ovgu.featureide.ui/src/de/ovgu/featureide/ui/actions/generator/ConfigurationBuilder.java:880-891 | an AND feature has 2^k branches for k optional children, branch m is the subset of mask m, then the rest, then all mandatory children, and every choice of optional children is some branch |
| EnumeratorFacts.OrBranchesSubsets | plugins/de.ovgu.featureide.ui/src/de/ovgu/featureide/ui/actions/generator/ConfigurationBuilder.java:831-847 | with all children kept an OR feature tries the 2^k - 1 non-empty subsets, with a dropped child all 2^k subsets, each followed by the rest |
| EnumeratorFacts.AlternativeBranchesPerChild | plugins/de.ovgu.featureide.ui/src/de/ovgu/featureide/ui/actions/generator/ConfigurationBuilder.java:801-806 | one branch per kept child, that child first and then the rest, and every kept child has its branch |
| EnumeratorFacts.BuildSound | plugins/de.ovgu.featureide.ui/src/de/ovgu/featureide/ui/actions/generator/ConfigurationBuilder.java:652-760 | the walk only appends to the buffer, every appended candidate is accepted and within the known total, and it polls at least once |
| EnumeratorFacts.CompleteSound | plugins/de.ovgu.featureide.ui/src/de/ovgu/featureide/ui/actions/generator/ConfigurationBuilder.java:695-733 | a finished candidate is appended only when accepted and within the total |
| EnumeratorFacts.ExpandSound | plugins/de.ovgu.featureide.ui/src/de/ovgu/featureide/ui/actions/generator/ConfigurationBuilder.java:753-759 | the group cases only append accepted candidates within the total |
| EnumeratorFacts.RunBranchesSound | plugins/de.ovgu.featureide.ui/src/de/ovgu/featureide/ui/actions/generator/ConfigurationBuilder.java:880-891 | running the branches only appends accepted candidates within the total |
| EnumeratorFacts.EmittedCandidatesAccepted | plugins/de.ovgu.featureide.ui/src/de/ovgu/featureide/ui/actions/generator/ConfigurationBuilder.java:644-650 | everything a run from the root buffers passes the three acceptance checks and has an ordinal within the known total |
| EnumeratorFacts.BuildCounted | plugins/de.ovgu.featureide.ui/src/de/ovgu/featureide/ui/actions/generator/ConfigurationBuilder.java:652-760 | with a monotone monitor the buffered ordinals stay consecutive and `confs` is the next one (one less after a cancel while the buffer was full); once cancelled nothing more is buffered |
| EnumeratorFacts.CompleteCounted | plugins/de.ovgu.featureide.ui/src/de/ovgu/featureide/ui/actions/generator/ConfigurationBuilder.java:716-733 | a finished candidate takes the next ordinal and `confs++` follows unless the full-buffer wait is cancelled |
| EnumeratorFacts.ExpandCounted | plugins/de.ovgu.featureide.ui/src/de/ovgu/featureide/ui/actions/generator/ConfigurationBuilder.java:753-759 | the group cases keep the ordinals consecutive |
| EnumeratorFacts.RunBranchesCounted | plugins/de.ovgu.featureide.ui/src/de/ovgu/featureide/ui/actions/generator/ConfigurationBuilder.java:880-891 | running branches keeps the ordinals consecutive |
| EnumeratorFacts.EmittedIdsConsecutive | plugins/de.ovgu.featureide.ui/src/de/ovgu/featureide/ui/actions/generator/ConfigurationBuilder.java:716-733 | a run from the root buffers ordinals 1, 2, 3, ... |
| EnumeratorFacts.NothingAfterCancel | plugins/de.ovgu.featureide.ui/src/de/ovgu/featureide/ui/actions/generator/ConfigurationBuilder.java:653-656 | after the monitor reported a cancel no further configuration is buffered |
| EnumeratorFacts.CountedTotalGate | plugins/de.ovgu.featureide.ui/src/de/ovgu/featureide/ui/actions/generator/ConfigurationBuilder.java:658-660 | with the counted total, the gate stops a call iff the count is positive and the ordinal has passed it: an overflowed count lets every `int` ordinal through and 0 means unknown |
| EnumeratorFacts.NegativeTotalStopsAtRoot | plugins/de.ovgu.featureide.ui/src/de/ovgu/featureide/ui/actions/generator/ConfigurationBuilder.java:658-660 | an unclamped negative total would stop the walk at its first call |
| EnumeratorFacts.PermissiveBuild | plugins/de.ovgu.featureide.ui/src/de/ovgu/featureide/ui/actions/generator/ConfigurationBuilder.java:652-684 | with no cancel, no total and no unsatisfiable query, `build` goes straight to the candidate or the group case |
| EnumeratorFacts.PermissiveComplete | plugins/de.ovgu.featureide.ui/src/de/ovgu/featureide/ui/actions/generator/ConfigurationBuilder.java:716-733 | then a finished candidate is buffered with the current ordinal and the ordinal advances |
| EnumeratorFacts.MandatoryOnlyEmitsOne | plugins/de.ovgu.featureide.ui/src/de/ovgu/featureide/ui/actions/generator/ConfigurationBuilder.java:850-893 | a frontier of all-mandatory AND trees yields exactly one configuration |
| EnumeratorFacts.MandatoryExpandEmitsOne | plugins/de.ovgu.featureide.ui/src/de/ovgu/featureide/ui/actions/generator/ConfigurationBuilder.java:850-893 | expanding such a frontier yields exactly one configuration |
| EnumeratorFacts.MandatoryBranches | plugins/de.ovgu.featureide.ui/src/de/ovgu/featureide/ui/actions/generator/ConfigurationBuilder.java:872-891 | an all-mandatory AND feature has the single branch rest + kept children |
| EnumeratorFacts.KeptMandatory | plugins/de.ovgu.featureide.ui/src/de/ovgu/featureide/ui/actions/generator/ConfigurationBuilder.java:900-908 | the kept children of an all-mandatory tree are all-mandatory trees |
| EnumeratorFacts.LeafEmits | plugins/de.ovgu.featureide.ui/src/de/ovgu/featureide/ui/actions/generator/ConfigurationBuilder.java:784-799 | a concrete leaf alone yields one configuration named after it |
| EnumeratorFacts.AlternativeLeavesRun | plugins/de.ovgu.featureide.ui/src/de/ovgu/featureide/ui/actions/generator/ConfigurationBuilder.java:801-806 | running one branch per concrete leaf buffers one configuration per leaf, in order, with consecutive ordinals |
| EnumeratorFacts.AlternativeOfLeavesEmitsEach | plugins/de.ovgu.featureide.ui/src/de/ovgu/featureide/ui/actions/generator/ConfigurationBuilder.java:780-807 | an abstract alternative root over concrete leaves yields exactly one configuration per leaf, numbered 1 to n |
| EnumeratorFacts.KeptOfAll | plugins/de.ovgu.featureide.ui/src/de/ovgu/featureide/ui/actions/generator/ConfigurationBuilder.java:900-908 | concrete children are all kept |
| EnumeratorFacts.TwoLeavesEmit | plugins/de.ovgu.featureide.ui/src/de/ovgu/featureide/ui/actions/generator/ConfigurationBuilder.java:853-868 | two concrete leaves in a frontier yield one configuration naming both, space-separated |
| EnumeratorFacts.ScenarioBranches | plugins/de.ovgu.featureide.ui/src/de/ovgu/featureide/ui/actions/generator/ConfigurationBuilder.java:870-891 | a root with mandatory A and optional B branches into [A] and [B, A] |
| EnumeratorFacts.AndMandatoryOptionalScenario | plugins/de.ovgu.featureide.ui/src/de/ovgu/featureide/ui/actions/generator/ConfigurationBuilder.java:850-893 | that root yields exactly "A" (ordinal 1) and "B A" (ordinal 2) |
| FeatureTree.GetChildren | plugins/de.ovgu.featureide.ui/src/de/ovgu/featureide/ui/actions/generator/ConfigurationBuilder.java:900-908 | exactly the children that are concrete or have a layer child, in child order |
| FeatureTree.KeptOf | plugins/de.ovgu.featureide.ui/src/de/ovgu/featureide/ui/actions/generator/ConfigurationBuilder.java:902-906 | the filter keeps exactly the kept features, in order |
| FeatureTree.HasLayerChild | plugins/de.ovgu.featureide.ui/src/de/ovgu/featureide/ui/actions/generator/ConfigurationBuilder.java:914-923 | specification of `hasLayerChild`; `FeatureTree.HasLayerChildIffConcreteDescendant` says what it decides |
| FeatureTree.HasLayerChildIffConcreteDescendant | plugins/de.ovgu.featureide.ui/src/de/ovgu/featureide/ui/actions/generator/ConfigurationBuilder.java:914-923 | `hasLayerChild` holds iff some proper descendant is concrete |
| FeatureTree.AnyKeptIffConcrete | plugins/de.ovgu.featureide.ui/src/de/ovgu/featureide/ui/actions/generator/ConfigurationBuilder.java:915-920 | some child is kept iff some feature below the children is concrete |
| Masks.BranchBound | plugins/de.ovgu.featureide.ui/src/de/ovgu/featureide/ui/actions/generator/ConfigurationBuilder.java:880 | `(int) Math.pow(2, n)` is 2^n up to n = 30 and Integer.MAX_VALUE from 31 on |
| Masks.PowLimits | plugins/de.ovgu.featureide.ui/src/de/ovgu/featureide/ui/actions/generator/ConfigurationBuilder.java:836 | 2^30 fits in an `int`, 2^31 is one past Integer.MAX_VALUE |
| Masks.BitsRoundTrip | plugins/de.ovgu.featureide.ui/src/de/ovgu/featureide/ui/actions/generator/ConfigurationBuilder.java:881-888 | the n bits of a mask below 2^n give the mask back |
| Masks.FromBitsRoundTrip | plugins/de.ovgu.featureide.ui/src/de/ovgu/featureide/ui/actions/generator/ConfigurationBuilder.java:881-888 | every bit pattern is the bits of its number |
| Masks.MasksEnumerateChoices | plugins/de.ovgu.featureide.ui/src/de/ovgu/featureide/ui/actions/generator/ConfigurationBuilder.java:880-888 | masks 0 to 2^n - 1 and choices of n elements correspond one to one |
| Masks.SubsetIsPick | plugins/de.ovgu.featureide.ui/src/de/ovgu/featureide/ui/actions/generator/ConfigurationBuilder.java:883-888 | a mask selects exactly the elements whose bit is set |
| Masks.SubsetIsSubsequence | plugins/de.ovgu.featureide.ui/src/de/ovgu/featureide/ui/actions/generator/ConfigurationBuilder.java:839-844 | a mask selection keeps list order |
| Masks.SubsetEmptyIff | plugins/de.ovgu.featureide.ui/src/de/ovgu/featureide/ui/actions/generator/ConfigurationBuilder.java:831-835 | below 2^n only mask 0 selects nothing |
| Selection.FirstSpace | plugins/de.ovgu.featureide.ui/src/de/ovgu/featureide/ui/actions/generator/ConfigurationBuilder.java:674 | the first whitespace character of the string, with none before it, or the length when there is none |
| Selection.RunEnd | plugins/de.ovgu.featureide.ui/src/de/ovgu/featureide/ui/actions/generator/ConfigurationBuilder.java:674 | the end of a whitespace run: every character from the start up to it is whitespace, the one at it is not |
| Selection.Pieces | plugins/de.ovgu.featureide.ui/src/de/ovgu/featureide/ui/actions/generator/ConfigurationBuilder.java:674 | the pieces between maximal whitespace runs, at least one |
| Selection.PiecesHaveNoSpace | plugins/de.ovgu.featureide.ui/src/de/ovgu/featureide/ui/actions/generator/ConfigurationBuilder.java:674 | no piece contains whitespace |
| Selection.DropTrailingEmpty | plugins/de.ovgu.featureide.ui/src/de/ovgu/featureide/ui/actions/generator/ConfigurationBuilder.java:674 | removal of the trailing empty tokens; `Selection.DropTrailingEmptyShape` says what it keeps |
| Selection.DropTrailingEmptyShape | plugins/de.ovgu.featureide.ui/src/de/ovgu/featureide/ui/actions/generator/ConfigurationBuilder.java:674 | a prefix of the pieces whose last entry is non-empty, everything removed being empty |
| Selection.Split | plugins/de.ovgu.featureide.ui/src/de/ovgu/featureide/ui/actions/generator/ConfigurationBuilder.java:674 | `split("\\s+")`: the pieces between whitespace runs without the trailing empty ones, and the empty string for itself; `Selection.SplitTokens`, `Selection.SplitJoin` and the examples below say what it gives |
| Selection.SplitTokens | plugins/de.ovgu.featureide.ui/src/de/ovgu/featureide/ui/actions/generator/ConfigurationBuilder.java:674 | the tokens contain no whitespace, the last is non-empty unless the string is empty, and a string without whitespace is its only token |
| Selection.SplitTab | plugins/de.ovgu.featureide.ui/src/de/ovgu/featureide/ui/actions/generator/ConfigurationBuilder.java:674 | a tab separates tokens as a space does |
| Selection.SplitRun | plugins/de.ovgu.featureide.ui/src/de/ovgu/featureide/ui/actions/generator/ConfigurationBuilder.java:674 | a run of spaces is one separator |
| Selection.SplitEnds | plugins/de.ovgu.featureide.ui/src/de/ovgu/featureide/ui/actions/generator/ConfigurationBuilder.java:674 | leading whitespace gives an empty first token, trailing whitespace none |
| Selection.NonEmpty | plugins/de.ovgu.featureide.ui/src/de/ovgu/featureide/ui/actions/generator/ConfigurationBuilder.java:697-701 | keeps exactly the non-empty tokens |
| Selection.NonEmptySnoc | plugins/de.ovgu.featureide.ui/src/de/ovgu/featureide/ui/actions/generator/ConfigurationBuilder.java:697-701 | one more token is kept iff it is non-empty |
| Selection.JoinEmpty | plugins/de.ovgu.featureide.ui/src/de/ovgu/featureide/ui/actions/generator/ConfigurationBuilder.java:785-789 | the selection string is "" iff no feature was named |
| Selection.AppendNameJoin | plugins/de.ovgu.featureide.ui/src/de/ovgu/featureide/ui/actions/generator/ConfigurationBuilder.java:814-820 | appending a name as the group cases do gives the space-joined list extended by it |
| Selection.JoinHead | plugins/de.ovgu.featureide.ui/src/de/ovgu/featureide/ui/actions/generator/ConfigurationBuilder.java:785-789 | the selection string of a non-empty name list starts with the first name's first letter |
| Selection.PiecesJoin | plugins/de.ovgu.featureide.ui/src/de/ovgu/featureide/ui/actions/generator/ConfigurationBuilder.java:674-676 | cutting the joined names at whitespace runs gives the names back |
| Selection.SplitJoin | plugins/de.ovgu.featureide.ui/src/de/ovgu/featureide/ui/actions/generator/ConfigurationBuilder.java:674-676 | splitting the joined names, none containing whitespace, gives the names back |
| Selection.NonEmptyOfTokens | plugins/de.ovgu.featureide.ui/src/de/ovgu/featureide/ui/actions/generator/ConfigurationBuilder.java:697-701 | filtering drops nothing from a list of names |
| Selection.NamedFeaturesOfJoin | plugins/de.ovgu.featureide.ui/src/de/ovgu/featureide/ui/actions/generator/ConfigurationBuilder.java:696-701 | the names a built selection string mentions are exactly its names, in order |
| Generators.GeneratorNumbers | plugins/de.ovgu.featureide.ui/src/de/ovgu/featureide/ui/actions/generator/ConfigurationBuilder.java:929-942 | the numbers of the jobs `newgeneratorJobs` creates; `Generators.GeneratorNumbersAreDistinct` says what they are |
| Generators.Countdown | plugins/de.ovgu.featureide.ui/src/de/ovgu/featureide/ui/actions/generator/ConfigurationBuilder.java:939-941 | the loop numbers `count, count - 1, ..., 1` |
| Generators.GeneratorNumbersAreDistinct | plugins/de.ovgu.featureide.ui/src/de/ovgu/featureide/ui/actions/generator/ConfigurationBuilder.java:929-942 | `count` jobs (none below 1), pairwise distinct, decreasing; one job is number 0, otherwise exactly 1 to `count` |
| Generators.JobCount | plugins/de.ovgu.featureide.ui/src/de/ovgu/featureide/ui/actions/generator/ConfigurationBuilder.java:290-302 | the job count chosen before the walk; `Generators.JobsBoundedByConfigurations` bounds it |
| Generators.JobsBoundedByConfigurations | plugins/de.ovgu.featureide.ui/src/de/ovgu/featureide/ui/actions/generator/ConfigurationBuilder.java:290-302 | building the current configurations starts no more jobs than configurations, and at least one when there is a processor and a configuration |
| Durations.JavaDiv | plugins/de.ovgu.featureide.ui/src/de/ovgu/featureide/ui/actions/generator/ConfigurationBuilder.java:362-364 | Java's `/`, truncating toward zero; `Durations.JavaDivNonNegative` relates it to Dafny's |
| Durations.Fields | plugins/de.ovgu.featureide.ui/src/de/ovgu/featureide/ui/actions/generator/ConfigurationBuilder.java:362-364 | the hour, minute and second fields of a duration; `Durations.FieldsOfNonNegative` bounds them |
| Durations.Pad | plugins/de.ovgu.featureide.ui/src/de/ovgu/featureide/ui/actions/generator/ConfigurationBuilder.java:365 | the two-digit padding; `Durations.PadTwoDigits` and `Durations.PadExamples` say what it prints |
| Durations.FormatDuration | plugins/de.ovgu.featureide.ui/src/de/ovgu/featureide/ui/actions/generator/ConfigurationBuilder.java:360-365 | the time string of a duration; `Durations.FormatDurationRoundTrip` reads it back |
| Durations.JavaRem | plugins/de.ovgu.featureide.ui/src/de/ovgu/featureide/ui/actions/generator/ConfigurationBuilder.java:362-364 | Java's `%` is what the truncated quotient leaves |
| Durations.JavaDivNonNegative | plugins/de.ovgu.featureide.ui/src/de/ovgu/featureide/ui/actions/generator/ConfigurationBuilder.java:362-364 | on non-negative operands Java's and Dafny's division agree |
| Durations.PadTwoDigits | plugins/de.ovgu.featureide.ui/src/de/ovgu/featureide/ui/actions/generator/ConfigurationBuilder.java:365 | a value below 60 prints as exactly two digits reading back as itself |
| Durations.FieldsOfNonNegative | plugins/de.ovgu.featureide.ui/src/de/ovgu/featureide/ui/actions/generator/ConfigurationBuilder.java:362-364 | the fields are hours, minutes below 60 and seconds below 60 of the whole seconds |
| Durations.FormatFieldsRoundTrip | plugins/de.ovgu.featureide.ui/src/de/ovgu/featureide/ui/actions/generator/ConfigurationBuilder.java:365 | in-range fields print as a string reading back as their seconds |
| Durations.FormatDurationRoundTrip | plugins/de.ovgu.featureide.ui/src/de/ovgu/featureide/ui/actions/generator/ConfigurationBuilder.java:360-365 | a non-negative duration prints as a time string reading back as its whole seconds |
| Durations.PadExamples | plugins/de.ovgu.featureide.ui/src/de/ovgu/featureide/ui/actions/generator/ConfigurationBuilder.java:365 | the padding prefixes "0" to any value below 10, negative ones too |
| Durations.FieldsOfExample | plugins/de.ovgu.featureide.ui/src/de/ovgu/featureide/ui/actions/generator/ConfigurationBuilder.java:362-364 | -20333 ms gives 0 h, 0 min, -20 s |
| Durations.NegativeEstimateShowsMinus | plugins/de.ovgu.featureide.ui/src/de/ovgu/featureide/ui/actions/generator/ConfigurationBuilder.java:768-773 | a negative estimate prints with a minus sign inside the seconds field |
| Durations.NegativeEstimateUnreadable | plugins/de.ovgu.featureide.ui/src/de/ovgu/featureide/ui/actions/generator/ConfigurationBuilder.java:773 | and that string is not a well-formed time |
| Durations.RemainingTime | plugins/de.ovgu.featureide.ui/src/de/ovgu/featureide/ui/actions/generator/ConfigurationBuilder.java:769 | the estimate of the remaining time; `Durations.RemainingNonNegative` bounds it |
| Durations.TaskTime | plugins/de.ovgu.featureide.ui/src/de/ovgu/featureide/ui/actions/generator/ConfigurationBuilder.java:767-773 | the time part of the task name; `Durations.TaskTimeWellFormed` says what it prints |
| Durations.TaskTimeWellFormed | plugins/de.ovgu.featureide.ui/src/de/ovgu/featureide/ui/actions/generator/ConfigurationBuilder.java:767-773 | while no more than the total is built, the status line's estimate is a time string of the remaining time |
| Durations.RemainingNonNegative | plugins/de.ovgu.featureide.ui/src/de/ovgu/featureide/ui/actions/generator/ConfigurationBuilder.java:769 | the estimate is non-negative while at most the total is built |
| Durations.ToInt | plugins/de.ovgu.featureide.ui/src/de/ovgu/featureide/ui/actions/generator/ConfigurationBuilder.java:368 | the `(int)` cast lands in the `int` range and keeps values already in it |
| Durations.ClampBuilt | plugins/de.ovgu.featureide.ui/src/de/ovgu/featureide/ui/actions/generator/ConfigurationBuilder.java:367-368 | as written: the reported count is the smaller of count and total, also when the total is 0 |
| Durations.ClampBuiltZeroesUnknownTotal | plugins/de.ovgu.featureide.ui/src/de/ovgu/featureide/ui/actions/generator/ConfigurationBuilder.java:367-370 | 5 built with an unknown total are reported as 0 |
| Durations.ClampBuiltKnown | plugins/de.ovgu.featureide.ui/src/de/ovgu/featureide/ui/actions/generator/ConfigurationBuilder.java:367-370 | corrected: an unknown total leaves the count alone, a known one caps it |
| Duplicates.ConvertLiteral | plugins/de.ovgu.featureide.ui/src/de/ovgu/featureide/ui/actions/generator/ConfigurationBuilder.java:557-563 | a literal gives its feature's name iff it is positive and names an existing concrete feature, else nothing |
| Duplicates.ConvertedMembers | plugins/de.ovgu.featureide.ui/src/de/ovgu/featureide/ui/actions/generator/ConfigurationBuilder.java:555-564 | a name is in a converted solution iff one of its literals contributes it |
| Duplicates.ConvertAll | plugins/de.ovgu.featureide.ui/src/de/ovgu/featureide/ui/actions/generator/ConfigurationBuilder.java:554-568 | one converted list per solution; `Duplicates.ConvertAllMembers` says which |
| Duplicates.ConvertAllMembers | plugins/de.ovgu.featureide.ui/src/de/ovgu/featureide/ui/actions/generator/ConfigurationBuilder.java:554-568 | the converted lists are exactly the conversions of the solutions |
| Duplicates.Dedup | plugins/de.ovgu.featureide.ui/src/de/ovgu/featureide/ui/actions/generator/ConfigurationBuilder.java:565-567 | the `contains`/`add` filter; `Duplicates.DedupCorrect` says what it keeps |
| Duplicates.DedupCorrect | plugins/de.ovgu.featureide.ui/src/de/ovgu/featureide/ui/actions/generator/ConfigurationBuilder.java:565-567 | the `contains`/`add` list has no duplicates, the same members as the input, in first-occurrence order |
| Duplicates.RemoveDuplicatesSpec | plugins/de.ovgu.featureide.ui/src/de/ovgu/featureide/ui/actions/generator/ConfigurationBuilder.java:551-573 | specification of `removeDuplicates`; `Duplicates.RemoveDuplicatesCorrect` states its properties |
| Duplicates.RemoveDuplicatesCorrect | plugins/de.ovgu.featureide.ui/src/de/ovgu/featureide/ui/actions/generator/ConfigurationBuilder.java:551-573 | no two returned lists are equal, each is the conversion of a solution and each conversion is returned, in first-occurrence order, never more than the solutions |
| Duplicates.ConvertSolution | plugins/de.ovgu.featureide.ui/src/de/ovgu/featureide/ui/actions/generator/ConfigurationBuilder.java:555-564 | the inner loop computes the converted solution |
| Duplicates.RemoveDuplicates | plugins/de.ovgu.featureide.ui/src/de/ovgu/featureide/ui/actions/generator/ConfigurationBuilder.java:551-573 | the loop returns the duplicate-free conversions, no more than the solutions, holding exactly the conversions |
| RingLists.RingList.constructor | plugins/de.ovgu.featureide.fm.core/src/org/prop4j/analyses/impl/general/ImplicationAnalysis.java:66 | a new ring is empty with the given capacity |
| RingLists.RingList.Add | plugins/de.ovgu.featureide.fm.core/src/org/prop4j/analyses/impl/general/ImplicationAnalysis.java:97 | appends, dropping the oldest entry when full, and stays within capacity |
| RingLists.RingAdd | plugins/de.ovgu.featureide.fm.core/src/org/prop4j/analyses/impl/general/ImplicationAnalysis.java:97 | one addition to the ring of models; `RingLists.RingAddBounded` and `RingLists.RingFillKeepsNewest` say what it keeps |
| RingLists.RingAddBounded | plugins/de.ovgu.featureide.fm.core/src/org/prop4j/analyses/impl/general/ImplicationAnalysis.java:66-71 | the ring never exceeds its capacity and a ring with room has the new entry newest |
| RingLists.RingFillKeepsNewest | plugins/de.ovgu.featureide.fm.core/src/org/prop4j/analyses/impl/general/ImplicationAnalysis.java:66 | a ring holds exactly the last `capacity` entries added, oldest first |
| RingLists.RingEvictsFirst | plugins/de.ovgu.featureide.fm.core/src/org/prop4j/analyses/impl/general/ImplicationAnalysis.java:66 | `capacity + 1` additions evict the first entry |
| Implication.AnalyzeSpec | plugins/de.ovgu.featureide.fm.core/src/org/prop4j/analyses/impl/general/ImplicationAnalysis.java:59-106 | specification of `analyze`; the facts are `Implication.NullPairs`, `Implication.NoInitialModel`, `Implication.ResultInOrder`, `Implication.CacheBounded`, `Implication.CancelChecks` and `Implication.AnalyzeBalanced` |
| Implication.Loop | plugins/de.ovgu.featureide.fm.core/src/org/prop4j/analyses/impl/general/ImplicationAnalysis.java:73-103 | specification of the pair loop; the facts are `Implication.LoopStopped`, `Implication.LoopKeepsCache`, `Implication.LoopChecks`, `Implication.LoopRecords` and `Implication.LoopBalanced` |
| Implication.Step | plugins/de.ovgu.featureide.fm.core/src/org/prop4j/analyses/impl/general/ImplicationAnalysis.java:74-102 | one pair: check the monitor, skip on a cached model without `pair[1]`, else examine; the facts are `Implication.StepChecks`, `Implication.StepRecords` and `Implication.SkippedPairUnchanged` |
| Implication.Examine | plugins/de.ovgu.featureide.fm.core/src/org/prop4j/analyses/impl/general/ImplicationAnalysis.java:82-102 | push, ask, record or cache, pop; `Implication.ExamineEffect` states its effect |
| Implication.PushNegations | plugins/de.ovgu.featureide.fm.core/src/org/prop4j/analyses/impl/general/ImplicationAnalysis.java:82-89 | the push loop; `Implication.PushNegationsShape` states its effect |
| Implication.PopN | plugins/de.ovgu.featureide.fm.core/src/org/prop4j/analyses/impl/general/ImplicationAnalysis.java:100-102 | the pop loop; `Implication.PopNShape` states its effect |
| Implication.PushNegationsShape | plugins/de.ovgu.featureide.fm.core/src/org/prop4j/analyses/impl/general/ImplicationAnalysis.java:82-89 | the old stack stays below the pushed negations, one pair copy per contradiction, one entry fewer per contradiction |
| Implication.PopNShape | plugins/de.ovgu.featureide.fm.core/src/org/prop4j/analyses/impl/general/ImplicationAnalysis.java:100-102 | n pops remove the top n entries, or fail when fewer lie on the stack |
| Implication.ExamineEffect | plugins/de.ovgu.featureide.fm.core/src/org/prop4j/analyses/impl/general/ImplicationAnalysis.java:82-102 | the pair is recorded once per contradiction and once more exactly on FALSE, after the results of the pushes; the model of a TRUE answer goes into the ring, otherwise the ring is kept; the stack returns to its old depth minus the contradictions, and the run fails iff fewer entries lay below |
| Implication.SkippedPairUnchanged | plugins/de.ovgu.featureide.fm.core/src/org/prop4j/analyses/impl/general/ImplicationAnalysis.java:74-81 | a pair whose second literal is missing from a cached model costs one cancel check and nothing else |
| Implication.StepKeepsCache | plugins/de.ovgu.featureide.fm.core/src/org/prop4j/analyses/impl/general/ImplicationAnalysis.java:96-98 | a step keeps the ring within capacity and non-empty |
| Implication.StepChecks | plugins/de.ovgu.featureide.fm.core/src/org/prop4j/analyses/impl/general/ImplicationAnalysis.java:74 | a step checks the monitor once and is cancelled iff that check reports it |
| Implication.LoopStopped | plugins/de.ovgu.featureide.fm.core/src/org/prop4j/analyses/impl/general/ImplicationAnalysis.java:73-103 | after an exception the remaining pairs change nothing |
| Implication.LoopKeepsCache | plugins/de.ovgu.featureide.fm.core/src/org/prop4j/analyses/impl/general/ImplicationAnalysis.java:73-103 | the pair loop keeps the ring within capacity and non-empty |
| Implication.LoopChecks | plugins/de.ovgu.featureide.fm.core/src/org/prop4j/analyses/impl/general/ImplicationAnalysis.java:73-74 | one check per pair; a finished loop saw no cancel, a cancelled one saw it at its last check only |
| Implication.StepRecords | plugins/de.ovgu.featureide.fm.core/src/org/prop4j/analyses/impl/general/ImplicationAnalysis.java:82-99 | a step records only copies of its pair, at most one per literal plus one |
| Implication.LoopRecords | plugins/de.ovgu.featureide.fm.core/src/org/prop4j/analyses/impl/general/ImplicationAnalysis.java:73-103 | the result of a normal loop is each pair repeated a bounded number of times, in input order |
| Implication.ExpandedMembers | plugins/de.ovgu.featureide.fm.core/src/org/prop4j/analyses/impl/general/ImplicationAnalysis.java:73-103 | every recorded pair is an input pair |
| Implication.LoopBalanced | plugins/de.ovgu.featureide.fm.core/src/org/prop4j/analyses/impl/general/ImplicationAnalysis.java:82-102 | without contradictions every pair leaves the stack as it found it |
| Implication.NoContradictions | plugins/de.ovgu.featureide.fm.core/src/org/prop4j/analyses/impl/general/ImplicationAnalysis.java:82-89 | without contradictions the pushes record nothing |
| Implication.NullPairs | plugins/de.ovgu.featureide.fm.core/src/org/prop4j/analyses/impl/general/ImplicationAnalysis.java:62-64 | null pairs give an empty result, solver and monitor untouched |
| Implication.NoInitialModel | plugins/de.ovgu.featureide.fm.core/src/org/prop4j/analyses/impl/general/ImplicationAnalysis.java:66-70 | no first model: empty result, one check, nothing pushed |
| Implication.ResultInOrder | plugins/de.ovgu.featureide.fm.core/src/org/prop4j/analyses/impl/general/ImplicationAnalysis.java:59-106 | a normal run records input pairs only, in input order, each a bounded number of times |
| Implication.CacheBounded | plugins/de.ovgu.featureide.fm.core/src/org/prop4j/analyses/impl/general/ImplicationAnalysis.java:66-71 | the ring holds at most `min(pairs.size(), MAX_SOLUTION_BUFFER)` models, and at least one once seeded |
| Implication.CancelChecks | plugins/de.ovgu.featureide.fm.core/src/org/prop4j/analyses/impl/general/ImplicationAnalysis.java:67-74 | a normal run with a first model checks `1 + |pairs|` times; a cancelled one stops at the first check that reports it |
| Implication.AnalyzeBalanced | plugins/de.ovgu.featureide.fm.core/src/org/prop4j/analyses/impl/general/ImplicationAnalysis.java:82-102 | without contradictions the run leaves the solver stack as it found it |
| Implication.IsInSolution | plugins/de.ovgu.featureide.fm.core/src/org/prop4j/analyses/impl/general/ImplicationAnalysis.java:116-123 | true iff the value occurs in the model |
| Implication.InEveryCachedModel | plugins/de.ovgu.featureide.fm.core/src/org/prop4j/analyses/impl/general/ImplicationAnalysis.java:75-81 | the solution loop falls through iff the literal is in every cached model |
| Implication.TopBitIsSign | plugins/de.ovgu.featureide.fm.core/src/org/prop4j/analyses/impl/general/ImplicationAnalysis.java:111 | `x >>> 31` is 1 for a negative `int` and 0 otherwise |
| Implication.NegativeCountExtremes | plugins/de.ovgu.featureide.fm.core/src/org/prop4j/analyses/impl/general/ImplicationAnalysis.java:108-114 | the count is 0 iff no entry is negative and the length iff all are |
| Implication.CountNegative | plugins/de.ovgu.featureide.fm.core/src/org/prop4j/analyses/impl/general/ImplicationAnalysis.java:108-114 | the sum of top bits is the number of negative entries |
| Implication.StackSolver.Push | plugins/de.ovgu.featureide.fm.core/src/org/prop4j/analyses/impl/general/ImplicationAnalysis.java:84-88 | a contradiction pushes nothing, otherwise the literal goes on top |
| Implication.StackSolver.Pop | plugins/de.ovgu.featureide.fm.core/src/org/prop4j/analyses/impl/general/ImplicationAnalysis.java:101 | fails on an empty stack, otherwise removes the top entry |
| Implication.StackSolver.IsSatisfiable | plugins/de.ovgu.featureide.fm.core/src/org/prop4j/analyses/impl/general/ImplicationAnalysis.java:90 | the solver's answer for the current stack |
| Implication.StackSolver.GetSolution | plugins/de.ovgu.featureide.fm.core/src/org/prop4j/analyses/impl/general/ImplicationAnalysis.java:97 | the solver's model for the current stack |
| Implication.StackSolver.FindSolution | plugins/de.ovgu.featureide.fm.core/src/org/prop4j/analyses/impl/general/ImplicationAnalysis.java:68 | the first model, or none |
| Implication.Monitor.CheckCancel | plugins/de.ovgu.featureide.fm.core/src/org/prop4j/analyses/impl/general/ImplicationAnalysis.java:67 | one more check, throwing exactly when the monitor's answer for it says so |
| Implication.ImplicationAnalysis.constructor | plugins/de.ovgu.featureide.fm.core/src/org/prop4j/analyses/impl/general/ImplicationAnalysis.java:45-48 | keeps the solver and the pairs |
| Implication.ImplicationAnalysis.InitPairs | plugins/de.ovgu.featureide.fm.core/src/org/prop4j/analyses/impl/general/ImplicationAnalysis.java:54-56 | replaces the pairs |
| Implication.ImplicationAnalysis.Analyze | plugins/de.ovgu.featureide.fm.core/src/org/prop4j/analyses/impl/general/ImplicationAnalysis.java:59-106 | result, status, new solver stack and number of checks are those of `AnalyzeSpec`, about which the lemmas above hold |
| Implication.ImplicationAnalysis.PairLoop | plugins/de.ovgu.featureide.fm.core/src/org/prop4j/analyses/impl/general/ImplicationAnalysis.java:73-103 | the pair loop computes `Loop` over stack, ring, result and checks |
| Implication.ImplicationAnalysis.ExaminePair | plugins/de.ovgu.featureide.fm.core/src/org/prop4j/analyses/impl/general/ImplicationAnalysis.java:82-102 | one examined pair computes `Examine` and keeps the ring valid |
| Implication.ImplicationAnalysis.PushPair | plugins/de.ovgu.featureide.fm.core/src/org/prop4j/analyses/impl/general/ImplicationAnalysis.java:82-89 | the push loop computes the pushes and recorded contradictions of `PushNegations` |
| Implication.ImplicationAnalysis.PopPair | plugins/de.ovgu.featureide.fm.core/src/org/prop4j/analyses/impl/general/ImplicationAnalysis.java:100-102 | succeeds iff the stack holds `n` entries, leaving it without its top `n` |
| JavaSmt.BaseClauses | plugins/de.ovgu.featureide.fm.core/src/org/prop4j/solvers/impl/javasmt/sat/JavaSmtSatSolver.java:89-98 | one translated formula per root child, in order |
| JavaSmt.NodeMap | plugins/de.ovgu.featureide.fm.core/src/org/prop4j/solvers/impl/javasmt/sat/JavaSmtSatSolver.java:89-98 | the `nodeToFormula` map the constructor fills; `JavaSmt.BaseMaps` says what it holds |
| JavaSmt.FormulaMap | plugins/de.ovgu.featureide.fm.core/src/org/prop4j/solvers/impl/javasmt/sat/JavaSmtSatSolver.java:89-98 | the `formulaToNode` map the constructor fills; `JavaSmt.BaseMaps` and `JavaSmt.MapsInverse` say what it holds |
| JavaSmt.BaseMaps | plugins/de.ovgu.featureide.fm.core/src/org/prop4j/solvers/impl/javasmt/sat/JavaSmtSatSolver.java:89-98 | `nodeToFormula` maps exactly the children to their translations; `formulaToNode` maps exactly their translations, each back to a child it is the translation of |
| JavaSmt.MapsInverse | plugins/de.ovgu.featureide.fm.core/src/org/prop4j/solvers/impl/javasmt/sat/JavaSmtSatSolver.java:96-97 | without translation collisions the two maps are inverse on the children |
| JavaSmt.Entries | plugins/de.ovgu.featureide.fm.core/src/org/prop4j/solvers/impl/javasmt/sat/JavaSmtSatSolver.java:202-206 | the pushed entries are the nodes with their translations, in argument order |
| JavaSmt.Formulas | plugins/de.ovgu.featureide.fm.core/src/org/prop4j/solvers/impl/javasmt/sat/JavaSmtSatSolver.java:114 | the pushed formulas in push order |
| JavaSmt.NodeOfFormula | plugins/de.ovgu.featureide.fm.core/src/org/prop4j/solvers/impl/javasmt/sat/JavaSmtSatSolver.java:277-278 | a node is found iff the formula was pushed, and it was pushed with that formula |
| JavaSmt.PopSpec | plugins/de.ovgu.featureide.fm.core/src/org/prop4j/solvers/impl/javasmt/sat/JavaSmtSatSolver.java:178-184 | specification of `pop(count)`; `JavaSmt.PopSpecShape` states what it gives |
| JavaSmt.PopSpecShape | plugins/de.ovgu.featureide.fm.core/src/org/prop4j/solvers/impl/javasmt/sat/JavaSmtSatSolver.java:178-184 | `pop(count)` gives `count` entries: the top nodes, most recent first, while there are any, then null for every pop on the empty stack; the stack keeps what lay below |
| JavaSmt.PushPopRoundTrip | plugins/de.ovgu.featureide.fm.core/src/org/prop4j/solvers/impl/javasmt/sat/JavaSmtSatSolver.java:178-206 | popping as many as were pushed returns them, most recent first, and restores the stack |
| JavaSmt.SatOf | plugins/de.ovgu.featureide.fm.core/src/org/prop4j/solvers/impl/javasmt/sat/JavaSmtSatSolver.java:120-126 | TRUE iff not unsat, FALSE iff unsat, TIMEOUT iff the prover threw |
| JavaSmt.SignedModel | plugins/de.ovgu.featureide.fm.core/src/org/prop4j/solvers/impl/javasmt/sat/JavaSmtSatSolver.java:227-234 | one entry per assignment: the index, negated unless the value prints as "true" |
| JavaSmt.SignModel | plugins/de.ovgu.featureide.fm.core/src/org/prop4j/solvers/impl/javasmt/sat/JavaSmtSatSolver.java:227-234 | the model loop computes `SignedModel` |
| JavaSmt.Explanation | plugins/de.ovgu.featureide.fm.core/src/org/prop4j/solvers/impl/javasmt/sat/JavaSmtSatSolver.java:270-281 | the nodes the unsatisfiable core maps back to; `JavaSmt.ExplanationMembers` says which |
| JavaSmt.ExplanationMembers | plugins/de.ovgu.featureide.fm.core/src/org/prop4j/solvers/impl/javasmt/sat/JavaSmtSatSolver.java:270-281 | a node is in the explanation iff a core formula maps to it through `formulaToNode` or the push stack |
| JavaSmt.ExplanationFromProblem | plugins/de.ovgu.featureide.fm.core/src/org/prop4j/solvers/impl/javasmt/sat/JavaSmtSatSolver.java:270-281 | every explanation node is a root child or a pushed node |
| JavaSmt.UsedAsWritten | plugins/de.ovgu.featureide.fm.core/src/org/prop4j/solvers/impl/javasmt/sat/JavaSmtSatSolver.java:112-116 | the constraint list of a query as written; `JavaSmt.QueriesGrowBase` and `JavaSmt.PoppedConstraintsStayAsserted` say what it does |
| JavaSmt.QueriesGrowBase | plugins/de.ovgu.featureide.fm.core/src/org/prop4j/solvers/impl/javasmt/sat/JavaSmtSatSolver.java:112-116 | as written, every query grows the base list by the stack size, keeping its old prefix |
| JavaSmt.PoppedConstraintsStayAsserted | plugins/de.ovgu.featureide.fm.core/src/org/prop4j/solvers/impl/javasmt/sat/JavaSmtSatSolver.java:112-116 | as written, constraints pushed, queried and popped are still asserted by the next query |
| JavaSmt.ScopedQueriesForgetPoppedConstraints | plugins/de.ovgu.featureide.fm.core/src/org/prop4j/solvers/impl/javasmt/sat/JavaSmtSatSolver.java:112-116 | corrected: after push and pop of a block the next query asserts what it did before |
| JavaSmt.JavaSmtSatSolver.constructor | plugins/de.ovgu.featureide.fm.core/src/org/prop4j/solvers/impl/javasmt/sat/JavaSmtSatSolver.java:80-103 | empty push stack; on context creation the base clauses and both maps of the root children, and the configured back end |
| JavaSmt.JavaSmtSatSolver.SetConfiguration | plugins/de.ovgu.featureide.fm.core/src/org/prop4j/solvers/impl/javasmt/sat/JavaSmtSatSolver.java:134-160 | null for null; otherwise `[SOLVER_TYPE]` and the new back end when it is a `Solvers` with a context, else `[]` and no change |
| JavaSmt.JavaSmtSatSolver.Push | plugins/de.ovgu.featureide.fm.core/src/org/prop4j/solvers/impl/javasmt/sat/JavaSmtSatSolver.java:191-195 | the node and its translation go on top |
| JavaSmt.JavaSmtSatSolver.PushAll | plugins/de.ovgu.featureide.fm.core/src/org/prop4j/solvers/impl/javasmt/sat/JavaSmtSatSolver.java:202-206 | the nodes go on in argument order |
| JavaSmt.JavaSmtSatSolver.Pop | plugins/de.ovgu.featureide.fm.core/src/org/prop4j/solvers/impl/javasmt/sat/JavaSmtSatSolver.java:167-171 | the top node is removed and returned; none on an empty stack |
| JavaSmt.JavaSmtSatSolver.PopCount | plugins/de.ovgu.featureide.fm.core/src/org/prop4j/solvers/impl/javasmt/sat/JavaSmtSatSolver.java:178-184 | computes `PopSpec`: `count` pops in pop order, null for each pop on an empty stack, and the stack left |
| JavaSmt.JavaSmtSatSolver.GrowClauses | plugins/de.ovgu.featureide.fm.core/src/org/prop4j/solvers/impl/javasmt/sat/JavaSmtSatSolver.java:112-116 | the pushed formulas are appended to `clauses` itself |
| JavaSmt.JavaSmtSatSolver.IsSatisfiable | plugins/de.ovgu.featureide.fm.core/src/org/prop4j/solvers/impl/javasmt/sat/JavaSmtSatSolver.java:110-127 | as written: `clauses` grows by the pushed formulas and the answer is the prover's on the grown list |
| JavaSmt.JavaSmtSatSolver.IsSatisfiableScoped | plugins/de.ovgu.featureide.fm.core/src/org/prop4j/solvers/impl/javasmt/sat/JavaSmtSatSolver.java:110-127 | corrected: the answer on base plus pushed formulas, `clauses` untouched |
| JavaSmt.JavaSmtSatSolver.GetSolution | plugins/de.ovgu.featureide.fm.core/src/org/prop4j/solvers/impl/javasmt/sat/JavaSmtSatSolver.java:213-244 | the signed model when the prover finds no contradiction and `getModel` gives a model; null when unsatisfiable, when `isUnsat` throws or when `getModel` throws; `clauses` grows |
| JavaSmt.JavaSmtSatSolver.FindSolution | plugins/de.ovgu.featureide.fm.core/src/org/prop4j/solvers/impl/javasmt/sat/JavaSmtSatSolver.java:251-253 | the same as `getSoulution` |
| JavaSmt.JavaSmtSatSolver.GetMinimalUnsatisfiableSubset | plugins/de.ovgu.featureide.fm.core/src/org/prop4j/solvers/impl/javasmt/sat/JavaSmtSatSolver.java:260-289 | the explanation of the unsat core when unsatisfiable, null when satisfiable or on an exception; `clauses` grows |
| JavaSmt.JavaSmtSatSolver.GetAllMinimalUnsatisfiableSubsets | plugins/de.ovgu.featureide.fm.core/src/org/prop4j/solvers/impl/javasmt/sat/JavaSmtSatSolver.java:306-308 | the one-element list of that explanation |
| JavaSmt.JavaSmtSatSolver.GetMinimalUnsatisfiableSubsetIndexes | plugins/de.ovgu.featureide.fm.core/src/org/prop4j/solvers/impl/javasmt/sat/JavaSmtSatSolver.java:296-299 | always null |
| JavaSmt.JavaSmtSatSolver.GetAllMinimalUnsatisfiableSubsetIndexes | plugins/de.ovgu.featureide.fm.core/src/org/prop4j/solvers/impl/javasmt/sat/JavaSmtSatSolver.java:315-318 | always null |

## Left out

- Progress reporting is not modelled: the counters `built`, `builtConfigurations` and `counting`, `monitor.worked`/`beginTask`, and the task-name strings beyond their time part.
- Job scheduling and threads are not modelled. Generator jobs are their numbers only. `synchronized`, `wait`/`notify` and the consumers that drain the sorter are left out.
- The full-buffer wait of `build` (ConfigurationBuilder.java:718-732) is one poll of the monitor. The loop can go round only while nothing drains the buffer, which the model does not represent.
- The sorter's build order is not modelled: the sorter is a FIFO queue. The result of `sort` is a parameter of `FinishWalk`.
- `buildCurrentConfigurations` and `buildTWiseConfigurations` are not modelled: file I/O, the SPLCA tool, the class path and `init`'s folder handling. Only `init`'s `confs = 1` is kept, in `BuildAll`.
- The feature model, the configuration object and the satisfiability check of partial selections are oracles. The result of `Configuration.number` is the parameter of `CountValidConfigurations`.
- The counting job of the ALL_VALID mode (ConfigurationBuilder.java:244-258) runs beside the walk, so the total that the gate at line 658 reads can change from 0 to the count while the walk runs. The model keeps the total fixed for a whole walk: `CountValidConfigurations` sets it before `BuildAll`, or it stays 0.
- A timeout of the partial-selection check is logged and the walk goes on. The model keeps going on; the log is left out.
- Clocks are not modelled: elapsed milliseconds are parameters of the duration functions. Logging is left out throughout.
- `RingList` is not part of this model's sources. It is modelled as a ring that drops its oldest entry when full. A capacity of 0 holds nothing.
- `MAX_SOLUTION_BUFFER` is not part of this model's sources and is a parameter.
- The solver behind `ISolver` in the implication analysis is a stack of literals with oracle answers. `getLiteralFromIndex` is taken as the identity on literal values: for `getLiteralFromIndex(-i)` the model pushes `-i`.
  - A `pop` on an empty stack is modelled as the end of the run (`Underflow`).
  - After a TRUE answer, a model is assumed to be present.
- `JavaSmtSatSolverStack`, the translator, the JavaSMT context factory and the prover are not part of this model's sources.
  - `getNodeOfFormula` gives the node most recently pushed with the formula.
  - A pop on an empty stack is taken to give null. `pop(count)` does not stop there: it makes all `count` pops and returns null for each pop after the stack ran empty (`PopSpec`).
  - The prover's answers are functions of the back end and the asserted constraint list.
- `setConfiguration` models one key, the solver type. Every other key is skipped as in the code. The returned set is a list of at most that key.
- An `InvalidConfigurationException` in the constructor leaves the object uninitialised (`initialized == false`). The query methods require an initialised object, because the Java would fail with a null context.
- The prover's resource handling (`try`-with-resources, `close`) is not modelled. Neither are logging, `ShutdownManager`, `LogManager` and `Configuration.defaultConfiguration`.
- Implication.ImplicationAnalysis.Analyze: every pair must hold at least two literals (`WellFormed`). On a shorter pair `pair[1]` (ImplicationAnalysis.java:77) throws an `ArrayIndexOutOfBoundsException` once a model is cached; the model does not represent that exception.
- Implication.ImplicationAnalysis.PairLoop: the same requirement on the pairs, for the same reason.
- Implication.AnalyzeSpec: the same requirement on the pairs, for the same reason.
- Implication.Loop: the same requirement on the pairs, for the same reason.
- Implication.Step: requires a pair of at least two literals, for the same reason.
- Builder.ConfigurationBuilder.BuildAll: acceptance and consecutive ordinals are stated for a builder that has not polled, cancelled or buffered before. Ordinals also assume a monitor that stays cancelled once it reports a cancel.
- Durations.ClampBuilt: the bound holds for `int` counts and totals not below the `int` range. It is not stated for wider values, where the `(int)` cast truncates.

## Findings

| source | as written | input that shows it | evidently intended | confidence | as-written member | corrected member |
|---|---|---|---|---|---|---|
| plugins/de.ovgu.featureide.fm.core/src/org/prop4j/solvers/impl/javasmt/sat/JavaSmtSatSolver.java:112-116 | `usedConstraint` aliases `clauses`, so `addAll` appends the pushed formulas to the base list. The same holds at lines 215-218 and 262-265. | Push one node, query, pop it, query again: the second query still asserts the popped constraint, and the base list grows by the stack size on every query. | Each query asserts the base clauses plus the current push stack, over a copy. | medium (not executed) | JavaSmt.PoppedConstraintsStayAsserted, JavaSmt.QueriesGrowBase, JavaSmt.JavaSmtSatSolver.IsSatisfiable | JavaSmt.ScopedQueriesForgetPoppedConstraints, JavaSmt.JavaSmtSatSolver.IsSatisfiableScoped |
| plugins/de.ovgu.featureide.ui/src/de/ovgu/featureide/ui/actions/generator/ConfigurationBuilder.java:367-368 | The built count is clamped to `configurationNumber` even when that is 0, the value for "total unknown" (line 370 treats 0 that way). | 5 configurations built with an unknown total are reported as "0 configurations built". | Clamp only against a known total. | low (not executed) | Durations.ClampBuiltZeroesUnknownTotal, Durations.ClampBuilt | Durations.ClampBuiltKnown |
