# A verified model of the error-specification analyser

EESI infers, for every function of a C program, which return values indicate an error. This project models the
parts of the repository on which the result rests, and proves what they promise:

- **The dataflow passes** (`eesi/`). Four passes over LLVM IR share one way of reaching a fixpoint: sweep over the
  blocks until no fact inside a block changes. `Sweep` states that once, for any problem whose facts are joined by
  uniting finite sets; the passes `ReturnedValues`, `ReturnPropagation`, `ReturnConstraints` and `ReturnRange` are
  instances, each a class that updates its facts in place. Transfers are not monotone, conditional terminators write
  directly into their successors' facts, and those writes do not count as changes; termination, the fixpoint and
  soundness are therefore proved from what boundary facts gain, not from monotonicity. That nothing is found without
  cause is proved of all sweeps from nothing (`Sweep.SweptFrom`): by paths of the control-flow graph, in `ReturnedPaths`
  exactly, in `PropagationPaths`, `ConstraintPaths` and `RangePaths` from above.
- **Concrete executions** (`IR`, `Exec`). A register-machine fragment of the IR with a small-step semantics over
  mathematical integers and a call stack, against which the facts are proved right; every integer carries the call or the
  stored constant it came from. `ReturnRangePass.Analyze` is the end-to-end result: whatever any run of the program
  returns, from any depth of (recursive) calls, is in the inferred range of the function returning it, where the
  functions it enters check what they may return before overwriting it.
- **The specification store** (`Confidence`, `Specifications`, `ErrorBlocks`, `ErrorTerms`, `BlockMeaning`,
  `ErrorBlocksPass`). Confidences in the three signs, the one rule by which specifications change, what every reachable
  store satisfies, what each call, code and constraint in a block tells of each sign, what blocks that fail contribute
  in terms of what executions return, and the inference over strongly connected components (`ComponentSweeps`,
  `ModuleSweeps`) with expansion in between. `LoopCondition.LoopEndsIff` says exactly when the loop over a component
  ends; `ExampleFunction` and `EndlessSweeps` are its other half.
- **All passes together** (`PassResults`, `WholeAnalysis`): what the dataflow passes hand on is what block analysis
  expects, and what the stored specifications say of the runs of the program.
- **The checker** (`Checks`), **graph search** (`GraphSearch`, `BetweenSearch`, `SearchTraps`), **the random walker and
  its indexed graph** (`LabeledGraph`, `Walker`) and **the long-running-operation protocol** (`Operations`,
  `OperationsProgress`).

## What the code does that its documentation does not say

- Comparisons with a null pointer: the predicate is swapped once too often (eesi/src/return_constraints_pass.cc:274-298),
  so ordered comparisons with null are abstracted wrongly on both sides; equality and inequality are not affected.
  `ICmps.NullComparisonSoundIff` gives the exact condition.
- Unsigned comparisons with constants are right exactly while neither side has its sign bit set
  (`ICmps.UnsignedComparisonSoundIff`).
- A switch on the result of a function passes refined constraints to the targets of its cases only
  (eesi/src/return_constraints_pass.cc:317-406): a block reached by default counts as executing under no result of the
  function at all, so that its errors are not counted there (`ConstraintSound.DefaultMisleads`,
  `ConstraintSound.DefaultIsMissed`). Otherwise constraints describe what calls returned
  (`ConstraintSound.ConstraintsDescribeRuns`).
- A check of a returnable slot is applied to what the slot holds at the end of the block, although what was compared may
  have been loaded before the slot was overwritten (eesi/src/return_range_pass.cc:427-446). A check that compares with
  a constant is then wrong for some content, and one that does not for none (`ICmps.StaleComparisonSoundIff`). Of
  `while (n--) ; return n;` the pass finds that it returns zero (`StaleChecks.SweepsFindZero`), while called with 0 it
  returns -1 (`StaleChecks.StaleCheckMisleads`). Checks of slots that are not returned do no harm
  (`StaleChecks.IgnoredIsFresh`).
- The search between two vertices is documented as not including the end vertex and as finding all vertices in between
  (getgraph/include/utility.h:76-78). It includes the end, and with a cycle it can miss a vertex
  (`BetweenSearch.MissedOnCycle`). `SearchTraps.FindsAllIff` gives the exact condition: it misses none, in whatever
  order out-edges are listed, if and only if no way along vertices in between is trapped, that is, can only be continued
  to vertices it has passed.
- The loop over a component (eesi/src/error_blocks_pass.cc:156-165) need not end. `LoopCondition.LoopEndsIff` gives the
  exact condition on the set of positive confidences that the component's functions, their callees' specifications and
  (with 100) error codes or error-only calls bring in: with at most one the loop ends within 3n+1 sweeps over n
  functions, whatever they are; with any two there is a function, with the facts that the passes find and in a store
  that expansion of its callees leads to, whose specification changes in every sweep, because trimming takes back what
  the sweep before added. Without expansion 100 is the only one.
- `IsEmptyset` is documented as requiring that no sign has confidence (eesi/include/confidence_lattice.h:173-174); the
  code looks at the emptyset confidence only, and so does the model.
- Edges of call nodes are documented as labelled only if they are not call edges (walker/src/walker.cc:359-360); the
  code labels all of them.

## What the results assume

- The bitcode has no PHI nodes, and stack slots are distinct, do not escape and are only loaded and stored. Loading a
  slot that was never stored is stuck.
- A block never starts with a branch or switch on the result of an instruction (`IR.BlockOk`), because a change of the
  terminator's writes goes unnoticed unless some fact inside the block changes.
- Calls pass all arguments that the callee reads.
- For the soundness of ranges, of the functions that a run may enter, `FreshChecks.ChecksAreFresh`: where a terminator
  checks a returnable slot, and compares with a constant or has cases, what it tests was loaded from, or stored to, the
  slot in the same block, with no later store to it; and a comparison with null is an equality. Other tests may be of
  anything. And of the runs, that an unsigned comparison with a constant that decides such a check meets only integers
  whose sign bit is not set (`StackRuns.RunReadsWell`), which by `ICmps.UnsignedComparisonSoundIff` is just when its
  abstraction is right. Termination, settled specifications and the results on returned values and propagation do not
  depend on this.
- Calls return at once what the callee returns; calls outside the module and instructions outside the fragment return
  anything.
- The components are given bottom-up (`CallGraph.BottomUp`), and each source name stands for one function. Ranges are
  claimed of runs that stay within the components given.
- The walker's graph is as its documentation asks (`Walker.Regular`); a node with a single possible return takes the
  one-edge path and does not pop.
- Task names are distinct, and at least one task may be in flight.

## Model

| member | source | states |
|---|---|---|
| SignCodes.BitVectorsAreSetsOfIntegers | eesi/src/constraint.cc:10-25 | the bit-vector meet, join, complement and order never miss a table entry and are intersection, union, complement and inclusion of sets of integers |
| Signs.BelowIsInclusion | eesi/src/constraint.cc:163-193 | an element is below another exactly if it describes no integer the other does not |
| Signs.AbstractInteger | eesi/src/error_blocks_pass.cc:1154-1162 | the least element that describes an integer |
| ICmps.SignedComparisonIsSound | eesi/src/return_constraints_pass.cc:120-315 | for all integers and every signed predicate, with the constant on either side: the first element describes the compared value if the comparison holds, the second if not |
| ICmps.OutcomeIsUnsigned | eesi/src/return_constraints_pass.cc:300-315 | an unsigned comparison of signed readings is, at every width, the one of machine words |
| ICmps.UnsignedComparisonSoundIff | eesi/src/return_constraints_pass.cc:300-315 | at any width, the abstraction of an unsigned comparison is right exactly if neither side has its sign bit set |
| ICmps.NullComparisonSoundIff | eesi/src/return_constraints_pass.cc:274-298 | comparing with null, on either side, is abstracted soundly exactly for equality and inequality |
| ICmps.ComparisonIsSound | eesi/src/return_constraints_pass.cc:258-315 | the abstraction the passes rely on, for all predicates |
| ICmps.ComparisonIsBest | eesi/src/return_constraints_pass.cc:120-315 | nor can more be said: with an integer constant on either side, exactly those signs are taken to be possible with which some integer (a natural, if the predicate is unsigned) compares so with some integer of the constant's sign |
| ICmps.NullComparisonSays | eesi/src/return_constraints_pass.cc:274-298 | a comparison with null says exactly what the one with exchanged sides would |
| ICmps.StaleComparisonSoundIff | eesi/src/return_range_pass.cc:427-446 | the outcome of a comparison, applied to something else than was compared, is right whatever that is, exactly if there is no constant to compare with |
| Sweep.SweepProgresses | eesi/src/return_constraints_pass.cc:51-75 | a sweep that changes something adds information at a block boundary, or finds a stale block and leaves none: sweeping terminates without monotone transfers |
| Sweep.QuietSweepIsStable | eesi/src/return_constraints_pass.cc:54-73 | a sweep that changes no fact inside a block has reached a fixpoint, direct writes included, if those were in place when it began |
| Sweep.VisitEffect | eesi/src/return_constraints_pass.cc:77-104 | what one visit of a block establishes: the boundary fact absorbs what is delivered, the terminator's writes arrive, and if nothing changes inside the block they were there before |
| ReturnedValues.ReturnedValuesPass.RunOnFunction | eesi/src/returned_values_pass.cc:49-73 | the backward sweeps terminate in a fixpoint |
| ReturnedValues.ReturnedValuesPass.VisitBlock | eesi/src/returned_values_pass.cc:75-117 | one backward visit recomputes a block's facts and reports whether one changed |
| ReturnedValuesSound.ReturnableValues | eesi/src/returned_values_pass.cc:128-238 | on every run from a program point to a return, the returned value is the content of a member of the point's fact, now or when the member is computed later on the run |
| ReturnedValuesSound.SingletonMustBeReturned | eesi/src/error_blocks_pass.cc:607-613 | where just one value can be returned it is what is returned, in particular a constant |
| ReturnedPaths.ExactlyReturnable | eesi/src/returned_values_pass.cc:49-238 | the pass finds at every point exactly the values that some path of the control-flow graph from there hands on to a return |
| ReturnedPaths.HandsMeans | eesi/src/returned_values_pass.cc:128-238 | handing on is what executions do: what was held before the instruction is held after it |
| ReturnedPaths.ErrorPointerNames | eesi/src/returned_values_pass.cc:141-147 | the functions whose argument is handed on are those with one of four words in their name |
| ReturnPropagation.ReturnPropagationPass.RunOnFunction | eesi/src/return_propagation_pass.cc:61-85 | the forward sweeps terminate in a fixpoint |
| ReturnPropagation.Join | eesi/include/return_propagation_pass.h:38-43 | joining facts in place unites the sets of every value |
| ReturnPropagationSound.Provenance | eesi/src/return_propagation_pass.cc:126-203 | on every run with any number of iterations, whatever a register or slot holds that a call returned, the call is in its propagation set there |
| ReturnPropagationSound.ConstantProvenance | eesi/src/return_propagation_pass.cc:143-168 | and whatever holds what was stored as an integer constant, copied by any loads, stores and pointer casts, has that constant in its set |
| PropagationPaths.TransferIs | eesi/src/return_propagation_pass.cc:126-203 | after an instruction a value may hold exactly what is born there, what is copied, and what it held unless something known is copied over it |
| PropagationPaths.CopiesMeans | eesi/src/return_propagation_pass.cc:138-203 | copying is what executions do: the origin of what is held goes along |
| PropagationPaths.BornMeans | eesi/src/return_propagation_pass.cc:126-163 | calls and stored constants are where what executions hold has its origin |
| PropagationPaths.OnlyWhatIsCarried | eesi/src/return_propagation_pass.cc:61-124 | nothing is found that no path of the control-flow graph carries from a call or a stored constant to the value |
| SignFacts.Join | eesi/include/return_constraints_pass.h:42-53 | joining facts in place joins entries present in both and copies entries present in one |
| ReturnConstraints.ReturnConstraintsPass.RunOnFunction | eesi/src/return_constraints_pass.cc:51-75 | the sweeps terminate in a fixpoint although direct writes to successors are not tracked |
| ReturnConstraints.QuietFirstSweep | eesi/src/return_constraints_pass.cc:54-73 | if already the first sweep changes no fact, no terminator wrote anything |
| ReturnConstraints.ReturnConstraintsPass.VisitBlock | eesi/src/return_constraints_pass.cc:77-104 | one visit recomputes a block's facts and joins the terminator's refinements into its successors |
| EdgeRefinement.FixpointIsEdgeSolution | eesi/src/return_constraints_pass.cc:380-511 | killing and writing to successors amounts to an edge-sensitive analysis: every fact is the transfer of the one before, and a block starts with at least what arrives, refined, on each way into it |
| ConstraintMeaning.TestKills | eesi/src/return_constraints_pass.cc:317-511 | after a branch or switch on what may be the result of a call of a function, by the propagation facts, nothing is left of its constraint; those of all others pass unchanged |
| ConstraintMeaning.TestAdmits | eesi/src/return_constraints_pass.cc:317-511 | a result admitted before a test is admitted wherever the test goes with it, whichever the outcome or case |
| ConstraintMeaning.WritesAdmit | eesi/src/return_constraints_pass.cc:351-405 | and what a test writes for a successor admits no other results |
| ConstraintMeaning.CallForgets | eesi/src/return_constraints_pass.cc:106-117 | a call leaves its function unconstrained and everything else alone; other instructions change nothing |
| ConstraintPaths.OnlyWhatIsPossible | eesi/src/return_constraints_pass.cc:51-104 | whatever result of a function is admitted at a point, some path from a call or a test of it leads there with that result, past all its tests |
| ConstraintSound.ConstraintsDescribeRuns | eesi/src/return_constraints_pass.cc:51-117 | on every run, with any number of iterations, the constraint on a function admits what its latest call returned, if tests of its results on the run are of the latest one, take no default way of a switch, and are abstracted rightly |
| ConstraintSound.DefaultMisleads | eesi/src/return_constraints_pass.cc:317-406 | where control comes by default ways of switches on its results only, no result is admitted: such runs are never described |
| ConstraintSound.DefaultIsMissed | eesi/src/return_constraints_pass.cc:317-406 | a function and a run of it that goes to the default block with a result which the constraint there, whatever the facts found, does not admit |
| ReturnRange.CaseWritesAre | eesi/src/return_range_pass.cc:346-393 | a switch writes to the target of every case, and only there, the range refined by the case's constant |
| ReturnRange.WriteShape | eesi/src/return_range_pass.cc:306-343 | direct writes go to successors only, and are about the checked slot only, where it is returnable |
| FunctionRangePass.SweepShrinks | eesi/src/return_range_pass.cc:124-148 | a sweep that changes something enlarges a return range, adds information at a block boundary, or brings a stale block up to date |
| FunctionRangePass.SweepOutcome | eesi/src/return_range_pass.cc:124-148 | sweeps only enlarge the function's own range, and the last one leaves facts that solve the range equations |
| FunctionRangePass.FunctionRanges.RunOnFunction | eesi/src/return_range_pass.cc:124-148 | the sweeps over one function terminate, and leave a solution if the ranges of its callees stood still |
| FunctionRangePass.FunctionRanges.VisitBlock | eesi/src/return_range_pass.cc:182-218 | one visit recomputes a block's facts and reports whether one changed |
| FunctionRangePass.FunctionRanges.WriteFrom | eesi/src/return_range_pass.cc:281-393 | the terminator joins into its successors exactly the refinements of the checked slot |
| FunctionRangePass.FunctionRanges.VisitReturn | eesi/src/return_range_pass.cc:395-421 | a return joins what it returns, widened by the non-null values for pointers, into the function's range |
| RangeSolution.QuietSweepSolves | eesi/src/return_range_pass.cc:124-148 | a sweep without changes ends with a solution, also when it is the first |
| RangeSolution.SolvedFrame | eesi/src/return_range_pass.cc:98-122 | a solution stays one while the ranges of the function and its callees stay |
| RangeSound.BranchRefines | eesi/src/return_range_pass.cc:306-343 | the outcome of a comparison tells the sign of the returnable slot it checks, if that check is fresh or has no constant |
| RangeSound.StepDescribes | eesi/src/return_range_pass.cc:220-421 | every step of an execution keeps its values described by a solution, where comparisons that decide a check of a returnable slot can be told by sign |
| RangeSound.ReturnDescribed | eesi/src/return_range_pass.cc:395-421 | what a described execution returns is in the function's range |
| RangePaths.ChecksAre | eesi/src/return_range_pass.cc:306-342 | the slot that a terminator checks: the one the left operand was loaded from, or stored to just before, if it is returnable, and else that of the right one |
| RangePaths.AbstractionCaused | eesi/src/return_range_pass.cc:473-524 | what is known of a value by itself: its constant, that it is no null, no negative number, or the result of a call; nothing else is taken to be possible |
| RangePaths.AbstractionCovers | eesi/src/return_range_pass.cc:473-524 | and all of that is taken to be possible |
| RangePaths.WriteTells | eesi/src/return_range_pass.cc:329-393 | what a check writes for a successor is of signs that go there and that the slot could have |
| RangePaths.ReturnedHas | eesi/src/return_range_pass.cc:395-421 | a return counts for the sign it returns, and of pointers that may not be null for both signs |
| RangePaths.SweepKeepsCauses | eesi/src/return_range_pass.cc:124-148 | no sweep adds a sign that no path hands on to a return past all checks |
| RangeProgram.RangesHoldOnRuns | eesi/src/return_range_pass.cc:449-464 | solutions for functions with fresh checks of returnable slots that call no others describe all their runs, through any recursion, on which no unsigned comparison with a constant that decides a check of a returnable slot meets a set sign bit |
| ReturnRangePass.Pass.SweepScc | eesi/src/return_range_pass.cc:98-122 | one sweep over a component: ranges only grow, and if none did its functions are solved |
| ReturnRangePass.Pass.RunOnModule | eesi/src/return_range_pass.cc:91-122 | the component loops terminate, and at the end every function is solved with the final ranges |
| ReturnRangePass.Analyze | eesi/src/return_range_pass.cc:78-122 | terminates for every module with ranges that solve all analysed functions; every value that a run returns, from any depth of calls, is in the range of the function returning it, if the run stays in functions with fresh checks of returnable slots, and no unsigned comparison with a constant that decides such a check meets a set sign bit on it; and no sign is in a range unless paths of the control-flow graphs, through calls, hand a value that may have it on to a return, past all checks |
| StaleChecks.SweepsFindZero | eesi/src/return_range_pass.cc:306-343 | on a function that counts its result down past zero, the first sweep of the pass finds that only zero is returned, and later sweeps change nothing |
| StaleChecks.StaleCheckMisleads | eesi/src/return_range_pass.cc:427-446 | that range is wrong: a run of the function returns -1 |
| StaleChecks.IgnoredIsFresh | eesi/src/return_range_pass.cc:435-446 | the same loop before a return of something else meets the assumption on checks |
| Confidence.BoundsAreUnique | eesi/src/confidence_lattice.cc:11-37 | joins and meets of collections do not depend on order or repetition |
| Confidence.JoinOnVector | eesi/src/confidence_lattice.cc:11-23 | the least upper bound of any non-empty vector |
| Confidence.MeetOnVector | eesi/src/confidence_lattice.cc:25-37 | the greatest lower bound of any non-empty vector |
| Confidence.KeepHighest | eesi/src/confidence_lattice.cc:39-86 | exactly the components that attain the largest confidence of all survive |
| Confidence.RemoveLowestNonMin | eesi/src/confidence_lattice.cc:211-301 | each sign that outdoes another one with confidence keeps its own, and all others have none, unless all confidences are equal, which are kept; the emptyset confidence stays |
| Confidence.EqualsIsDecoding | eesi/src/confidence_lattice.cc:133-190 | comparing with a sign element is comparing with the decoded signs, at presence and at full confidence |
| Confidence.DecodingCommutes | eesi/src/confidence_lattice.cc:366-393 | decoding at any positive threshold takes join, meet and intersection to those of signs |
| Confidence.DecodingPresence | eesi/src/confidence_lattice.cc:303-418 | decoding inverts encoding and takes differences to differences |
| Confidence.DecodeInClient | cli/eesi/lattice_helper.py:16-45 | the client decodes as the analyser does, at every positive threshold, but for telling emptyset from bottom |
| Specifications.RefitInside | eesi/src/error_blocks_pass.cc:1203-1257 | the signs of what is stored, if any, are among those of the function's range and not all of them, and it is never all-zero |
| Specifications.RefitIs | eesi/src/error_blocks_pass.cc:1203-1257 | an update, sign by sign: refused if it would be certain of the whole range or leave nothing to say, else what is known and inferred within the range, but for the lowest confidences if that fills the range |
| Specifications.UpdatedIs | eesi/src/error_blocks_pass.cc:1195-1258 | the same for the store: only the function's own specification changes, and only if it may have one and it is not given |
| Specifications.SpecificationsStayInside | eesi/src/error_blocks_pass.cc:1195-1258 | the same in every state of every run, with arbitrary inferred deltas; given specifications never change |
| Specifications.CertaintyIsKept | eesi/src/error_blocks_pass.cc:1221-1255 | over whole runs a sign that once has confidence 100 keeps it |
| Specifications.RefitClimbs | eesi/src/error_blocks_pass.cc:1195-1258 | at one level of confidence, whichever it is, an update keeps to it, and each change climbs from unknown over emptyset and one sign to two |
| ErrorBlocks.FunctionIsClear | eesi/src/error_blocks_pass.cc:449-530 | if callees' specifications have one level of confidence, 100 where error codes or error-only calls add it, so has what the analysis of blocks infers, with no signs beside emptyset |
| ErrorBlocks.AnalysisClimbs | eesi/src/error_blocks_pass.cc:449-530 | at one level of confidence, analysing a function moves its specification up or leaves all as they were |
| ErrorBlocks.FunctionFrame | eesi/src/error_blocks_pass.cc:587-1046 | what is inferred for a function depends on the specifications of its callees only |
| ErrorBlocks.AnalysisSettles | eesi/src/error_blocks_pass.cc:149-165 | at one level of confidence, a function that does not call itself is settled by one analysis |
| ErrorBlocks.FirstAnalysisSettles | eesi/src/error_blocks_pass.cc:149-165 | whatever the confidences, a function that does not call itself is settled by its first analysis |
| BlockMeaning.ErrorCodesAreInferred | eesi/src/error_blocks_pass.cc:607-636 | a block that must return an error code: the sign of whatever executions from it return is certain in what is inferred for the function |
| BlockMeaning.PropagatedErrorsAreInferred | eesi/src/error_blocks_pass.cc:651-753 | a block that must return a constant and is constrained, by the facts, to results of a callee that include errors: the sign of whatever executions from it return is inferred with the confidence of those errors |
| BlockMeaning.ConfidenceIsInherited | eesi/src/error_blocks_pass.cc:659-962 | a constraint tells nothing if no error satisfies it, and never with more confidence than that in errors of the constraining function, or in errors of the same sign of a callee |
| ErrorTerms.ErrorOnlyCallsTell | eesi/src/error_blocks_pass.cc:990-1046 | an error-only call: certain are the signs of just those constants returnable from there that are no success codes, and of no others |
| ErrorTerms.OtherCallsTell | eesi/src/error_blocks_pass.cc:969-989 | any other call tells nothing of signs, and rules errors out exactly if its callee never fails, or it is nameless and yields neither integer nor pointer |
| ErrorTerms.ErrorOnlyRunsFail | eesi/src/error_blocks_pass.cc:990-1046 | where only failures can be returned from an error-only call on, the sign of whatever executions from the call return is certain in what is inferred |
| ErrorTerms.HeldConstantsTell | eesi/src/error_blocks_pass.cc:839-905 | a variable holding a constant is returned under a constraint: the sign of the constant counts with all the confidence in the errors that satisfy the constraint, and no other |
| ErrorTerms.HeldConstantsReach | eesi/src/error_blocks_pass.cc:839-967 | and it counts so in what is inferred for the function |
| ErrorTerms.CalleesTell | eesi/src/error_blocks_pass.cc:788-934 | the result of a known function is returned under a constraint: its errors count as they are, or as far as they satisfy the constraint, if it is the constraining function |
| ErrorTerms.CalleesReach | eesi/src/error_blocks_pass.cc:788-967 | and they count so in what is inferred for the function |
| ErrorTerms.ConstantsTell | eesi/src/error_blocks_pass.cc:684-786 | a constant is returned under a constraint: exactly its signs count, unless there is no constraint at all |
| ErrorTerms.SeveralTellNothing | eesi/src/error_blocks_pass.cc:844-850 | a variable that may hold several things tells nothing |
| ErrorTerms.NoErrorsTellNothing | eesi/src/error_blocks_pass.cc:659-681 | where no known errors satisfy the constraint, or the function never fails there, just that is told |
| ErrorTerms.BlockTells | eesi/src/error_blocks_pass.cc:587-967 | a block has the largest confidence of all that is in it, and no more |
| ErrorTerms.FunctionTells | eesi/src/error_blocks_pass.cc:449-530 | a function has the largest confidence of its blocks that may fail, and no more |
| ErrorTerms.FunctionFailsIff | eesi/src/error_blocks_pass.cc:449-530 | a function is taken never to fail exactly if each of its blocks rules errors out |
| ErrorTerms.SuccessTellsNothing | eesi/src/error_blocks_pass.cc:622-636 | a block that must return a success code tells nothing of signs, unless it makes an error-only call |
| ErrorTerms.CodesCount | eesi/src/error_blocks_pass.cc:615-621 | a code counts everywhere, or in files whose name contains one of the given parts |
| BlockMeaning.UpdatesLoseNothingIff | eesi/src/error_blocks_pass.cc:1203-1257 | an update that infers some sign of the range keeps all confidence within the range exactly if current and inferred specification together do not fill it |
| BlockMeaning.SettledStoresIff | eesi/src/error_blocks_pass.cc:1203-1257 | in the end all that is inferred for a function is stored, exactly if stored and inferred specification together do not fill its range |
| BlockMeaning.ErrorCodesAreStored | eesi/src/error_blocks_pass.cc:607-636 | in the end the sign of what executions from a block return that must return an error code is stored as certain, if stored and inferred specification do not fill the range |
| ErrorBlocksPass.Pass.constructor | eesi/src/error_blocks_pass.cc:78-104 | the store starts with the given specifications |
| ErrorBlocksPass.GivenMeans | eesi/src/error_blocks_pass.cc:78-104 | given specifications are certain in exactly the signs given, and of never failing exactly if there is none |
| ErrorBlocksPass.Pass.UpdateErrorSpecification | eesi/src/error_blocks_pass.cc:1195-1258 | the store changes as `Specifications.Updated` says, and the result tells whether it did |
| ErrorBlocksPass.Pass.VisitCallInst | eesi/src/error_blocks_pass.cc:969-1046 | a call contributes the join of what its callee, or the values returnable after an error-only call, tell |
| ErrorBlocksPass.Pass.VisitBlock | eesi/src/error_blocks_pass.cc:587-967 | a block contributes the join of its calls, an error code it must return, and what each constraint tells about its return value |
| ErrorBlocksPass.Pass.RunOnFunction | eesi/src/error_blocks_pass.cc:449-530 | a function is given the join of its failing blocks, or emptyset if there are none |
| ErrorBlocksPass.Pass.SweepScc | eesi/src/error_blocks_pass.cc:158-163 | analyses the functions one after the other, and tells whether some of them was not settled |
| ErrorBlocksPass.Pass.RunOnScc | eesi/src/error_blocks_pass.cc:149-165 | wherever the loop ends at all, it ends with the first sweep that changes nothing; without a loop there is one sweep |
| ErrorBlocksPass.Pass.ExpandComponent | eesi/src/error_blocks_pass.cc:167-222 | exactly those functions of a component are expanded of which nothing is known and for which something is suggested that can be stored, and nothing else changes |
| ErrorBlocksPass.Pass.RunOnModule | eesi/src/error_blocks_pass.cc:149-222 | with arbitrary expansions after each component, it ends wherever the loops it comes to end; at the end no specification would change if its function were analysed again, but for functions that were expanded or call an expanded one of their component; expanded ones have what was suggested; all are strictly inside their ranges |
| ModuleSweeps.LevelledLoopsEnd | eesi/src/error_blocks_pass.cc:149-165 | if domain knowledge and expansions have one level of confidence, every loop that the pass comes to ends |
| ModuleSweeps.NoLoopsEnd | eesi/src/error_blocks_pass.cc:164-165 | without recursion there is nothing to ask of confidences |
| ComponentSweeps.OneLevelEnds | eesi/src/error_blocks_pass.cc:156-165 | at one level of confidence, whichever it is, some sweep among the first 3n+1 over n functions changes nothing |
| ComponentSweeps.EndIsSettled | eesi/src/error_blocks_pass.cc:156-165 | where the loop ends, analysing any of the functions again changes nothing, and no bound on sweeps is exceeded |
| ComponentSweeps.FirstSweepSettles | eesi/src/error_blocks_pass.cc:156-165 | whatever the confidences, functions that do not call each other are settled by the first sweep over them |
| LoopCondition.LoopEndsIff | eesi/src/error_blocks_pass.cc:156-165 | for every set of positive levels: the loop ends within 3n+1 sweeps for all functions and stores with these levels if and only if there is at most one, and if and only if it ends at all for all components that the pass first meets |
| EndlessSweeps.SweepsNeverSettle | eesi/src/error_blocks_pass.cc:156-165 | for any two levels, no number of sweeps over the example is enough |
| EndlessSweeps.TellsExactly | eesi/src/error_blocks_pass.cc:449-530 | what block analysis infers for the example from any specification of its own |
| EndlessSweeps.StartIsReachable | eesi/src/error_blocks_pass.cc:330-447 | the store the sweeps start from is reached by expanding the callees only |
| ExampleFunction.FactsAreFromPasses | eesi/src/error_blocks_pass.cc:1412-1416 | the facts used for the example are fixpoints of the three passes |
| ExampleRange.OnlyTopSolves | eesi/src/return_range_pass.cc:395-421 | whatever ranges solve the example's equations, its own is top |
| ExampleRange.TopSolves | eesi/src/return_range_pass.cc:395-421 | and top solves them, in any program |
| PassResults.PassesMakeUnits | eesi/src/error_blocks_pass.cc:639-646 | fixpoints of the passes constrain functions that are called only, as block analysis expects |
| PassResults.RunPasses | eesi/src/error_blocks_pass.cc:1412-1416 | the three passes over any function terminate with facts that are such fixpoints |
| WholeAnalysis.Analyze | eesi/src/error_blocks_pass.cc:115-222 | all passes terminate, whatever is checked, with specifications that are settled where expansion had no hand in them, and ranges that are sound for functions with fresh checks |
| WholeAnalysis.ErrorCodesAreStoredOnRuns | eesi/src/error_blocks_pass.cc:607-636 | on every run of the program through functions with fresh checks: where a block returns that must return an error code, the sign of what it returns is stored as certain, if stored and inferred specification do not fill the range |
| Checks.PairsSuffice | checker/src/insufficient_checks_pass.cc:98-104 | looking at one or two constraints decides whether any subset leaves something out and covers the specification |
| Checks.CollectConstraints | checker/src/insufficient_checks_pass.cc:54-77 | exactly the constraints on the callee at the function's instructions |
| Checks.ConstraintsHoldBefore | checker/src/insufficient_checks_pass.cc:54-77 | these are the constraints that hold just before some instruction |
| Checks.IsSufficientlyChecked | checker/src/insufficient_checks_pass.cc:79-133 | accepted are exactly the calls where some constraints together, short of everything, cover the specification, or all constraints are top or bottom |
| GraphSearch.DepthFirstVisitor.VisitFrom | getgraph/include/utility.h:50-74 | terminates and discovers exactly the reachable vertices, each once |
| GraphSearch.Progress | getgraph/include/utility.h:55-73 | every expansion sees a new vertex, or turns a seen top of the stack into an unseen one, or shrinks the stack |
| GraphSearch.DepthFirstVisitor.VisitBetween | getgraph/include/utility.h:79-159 | aborts on null; otherwise terminates and discovers, each once, only vertices on followed ways from start to the first passing of end, and all of them if no way is trapped |
| GraphSearch.DepthFirstVisitor.OneRound | getgraph/include/utility.h:105-155 | one round of the loop is one step of the search state |
| BetweenSearch.RoundIsSound | getgraph/include/utility.h:105-155 | every round keeps branches at the end of ways that pass no vertex twice, and found vertices in between |
| BetweenSearch.RoundIsComplete | getgraph/include/utility.h:105-155 | no round loses a vertex that leads to the end, if no way is trapped |
| BetweenSearch.AcyclicHasNoTrap | getgraph/include/utility.h:76-78 | without cycles in between no way is trapped, and vertices in between are those on any walk from start to end |
| BetweenSearch.MissedOnCycle | getgraph/include/utility.h:76-78 | a graph with a cycle where a vertex on a walk from start to end is not found |
| SearchTraps.FindsAllIff | getgraph/include/utility.h:76-159 | a finished search has found every vertex in between, in whatever order out-edges are listed, if and only if no way is trapped |
| SearchTraps.SomeOrderMisses | getgraph/include/utility.h:105-155 | if a way is trapped, some order of out-edges leads the search into the trap, and a vertex in between is never found |
| SearchTraps.HarmlessCycle | getgraph/include/utility.h:76-78 | a cycle that is no trap |
| LabeledGraph.Lpds.AddNode | walker/src/lpds.cc:20-40 | a name has one node, however often it is added |
| LabeledGraph.Lpds.AddEdge | walker/src/lpds.cc:42-72 | adds one edge and keeps the indexes the exact inverses of sources and labels, without empty entries |
| LabeledGraph.Lpds.GetOutEdges | walker/src/lpds.cc:74-83 | each edge leaving the node, once |
| LabeledGraph.Lpds.GetLabels | walker/src/lpds.cc:85-93 | each label of some edge, once |
| LabeledGraph.Lpds.GetEdgesForLabel | walker/src/lpds.cc:95-102 | each edge with the label, once, and at least one |
| LabeledGraph.StripSuffixAfterDot | common/src/servers.cc:109-116 | the longest prefix without a dot |
| LabeledGraph.CollectCalls | walker/src/walker.cc:323-338 | the functions called from each node, by name without suffix |
| LabeledGraph.ReadLegacyIcfg | walker/src/walker.cc:318-390 | every edge not leaving main.0 becomes one edge with its flags, the name of each function called at its source once, and its own labels |
| LabeledGraph.LabelTextsAre | walker/src/walker.cc:379-385 | an edge's own labels are the texts of its label ids, one by one |
| LabeledGraph.KeptAre | walker/src/walker.cc:340-343 | each edge is kept as often as it is listed, unless it leaves main.0 |
| LabeledGraph.KeptInOrder | walker/src/walker.cc:340-343 | in the order in which edges are listed |
| Walker.ReturnsMatchCalls | walker/src/walker.cc:193-260 | every return goes to the return site of the most recent open call, the stack is then as it was at that call, and in between never was that low |
| Walker.WalkFollowsEdges | walker/src/walker.cc:193-260 | each move but a return leaves the node reached, possible returns are taken with an empty stack only, and the stack grows and shrinks with calls and returns |
| Walker.SentenceLength | walker/src/walker.cc:153-189 | a sentence starts with its label and has at most the requested number of words |
| Walker.SentenceIsLabels | walker/src/walker.cc:262-272 | after its first word a sentence has one word for each labelled edge of the walk, in order, and it is a label of that edge |
| Walker.WalkWorker.RandomTransition | walker/src/walker.cc:193-244 | every transition is a legal move of the pushdown system and emits one of its edge's labels; there is none only at a dead end with an empty stack |
| Walker.WalkWorker.PopTransition | walker/src/walker.cc:246-260 | pops the return site on top of the stack, or without one picks any possible return |
| Walker.WalkWorker.SingleRandomWalk | walker/src/walker.cc:153-189 | one sentence for each label, spelling a walk from an edge with that label that is cut off by the length or stuck |
| Operations.OperationsService.UpdateOperation | common/src/operations_service.cc:5-20 | stores the update, unless it would undo a finished operation |
| Operations.FinishedIsFinished | common/src/operations_service.cc:5-20 | whatever order updates arrive in, an operation is finished once some update finished it |
| Operations.LastOneLasts | common/src/operations_service.cc:5-20 | and it is as the last update left it that did not undo it |
| Operations.OperationsService.GetOperation | common/src/operations_service.cc:22-39 | the stored operation or an error, and a finished operation is forgotten by reading it |
| Operations.ReadForgets | common/src/operations_service.cc:22-39 | reading takes an operation out of the table exactly if it is finished |
| Operations.StepKeeps | cli/operations/wait.py:53-99 | every step of client, server or background task keeps the invariant |
| Operations.Safety | cli/operations/wait.py:53-99 | in all interleavings: bounded tasks in flight, no poll answered by an error, requests partitioned into unsent, in flight and notified, notices with their own results |
| Operations.ExactlyOnce | cli/operations/wait.py:76-99 | when the client returns, each request was notified exactly once |
| Operations.NeverStuck | cli/operations/wait.py:53-99 | until it returns the client can always move |
| Operations.LimitIsUsed | cli/operations/wait.py:53-99 | in all interleavings, while the client polls as many tasks are waited for as may be, or all requests have been sent |
| OperationsProgress.ClientReturns | cli/operations/wait.py:53-99 | in all interleavings the client has returned after 5 moves per request, 3 more, and 4 per poll of a task that is still running |

## Left out

- Parsing, pass management, debug locations, the network, files, logging and statistics: plumbing around the analyses.
- PHI nodes: propagation does not carry facts through them (eesi/src/return_propagation_pass.cc:205-217), and the passes
  run on bitcode without them.
- `trunc` instructions: they copy the sign of their operand (eesi/src/return_range_pass.cc:196-201), which is not sound
  for machine integers; `bitcast`, `ptrtoint` and `sext` are modelled as copies.
- Void functions, which the passes over ranges skip.
- The list of functions whose results are returned that the returned-values pass keeps beside its facts
  (eesi/src/returned_values_pass.cc:119-126).
- Functions are analysed one at a time, not in parallel: they do not share facts.
- `FunctionRangePass.FunctionRanges.RunOnFunction`: works on an object per function instead of entries of one map of facts.
- `ConstraintSound.ConstraintsDescribeRuns`: asks of the run that a test of what may be a result of a function is of its
  latest one, because constraints are keyed by function name and a test refines them for all calls that may reach it.
- The heuristic that treats zero as a success code (`smart_success_code_zero`), whose effect depends on the order in
  which blocks are visited; the set of functions that can be given a specification at all, which is reported only.
- Matching of call arguments against descriptions of error-only functions: the matching calls are a parameter.
- Constants wider than 64 bits, which block analysis skips.
- `ErrorBlocksPass.Pass.ExpandComponent`: embeddings and similarity scores; anything may be suggested for any function.
- `ErrorBlocksPass.Pass.RunOnScc`: where the source's loop does not end, there is nothing to say;
  `LoopCondition.LoopEndsIff` tells which confidences make that possible. With several levels it may still end, which
  then depends on the functions.
- `WholeAnalysis.Analyze`: asks for one level of confidence where there is recursion; with several,
  `ErrorBlocksPass.Pass.RunOnModule` asks only that the loops it comes to end.
- `ReturnRangePass.Analyze`: a range may also be right although a check is stale, if the slot happens to hold what it
  is taken to hold.
- `ExampleFunction.FactsAreFromPasses`: that they are fixpoints, not that they are the least.
- `GraphSearch.DepthFirstVisitor.VisitBetween`: which edges are followed does not depend on earlier discoveries; which
  vertices are missed in a trap depends on the order of edges and is not characterised.
- `BlockMeaning.ErrorCodesAreStored`: holds one way; an error code's sign may also be stored although stored and inferred
  specification fill the range, because it was inferred before the others. `BlockMeaning.SettledStoresIff` is exact.
- Shuffling of labels and concurrency of the walker: choices are arbitrary, and workers share nothing but the graph.
- `Operations.Safety`: colliding task names, and tasks that never finish, for which the client waits for ever; the client
  is a step machine, so that its steps interleave with the server's, not a loop.
- Unused-value and propagation checks of the checker: single conditions on an instruction.
- Naming heuristics of `getgraph`.
