# Models of gem5's Python tools

gem5 ships a set of Python scripts around the simulator: a pipeline viewer, a reader for saved
configurations, an upgrader and an aggregator for checkpoints, converters for instruction traces, a
collector of copyright years, and configurations that build memory systems. Each of them holds an
algorithm whose correctness is claimed in a comment or taken for granted. This project states these
algorithms in Dafny and proves what they promise, or exactly when they keep it.

`dafny verify dfyconfig.toml` checks everything.

| modules | what they model |
|---|---|
| `PipeView`, `PipeViewOrder`, `PipeViewTrace` | the bounded reorder queue of the pipeline viewer, from the lines of a trace to the instructions shown |
| `Timeline`, `TimelineProofs` | the timeline of one instruction, as lines of cells |
| `PortBinding`, `PortBindingProofs`, `PortGathering` | reading, gathering and binding the port connections of a saved configuration |
| `CheckpointUpgrade`, `CheckpointUpgradeProofs`, `UpgraderLoading`, `UpgraderLoadingProofs` | loading upgrade scripts and running them on a checkpoint, round by round |
| `CheckpointAggregator`, `CheckpointAggregatorProofs` | merging checkpoints: memories laid end to end, addresses moved, sections renamed |
| `ProtoStream`, `ProtoStreamProofs` | messages behind base-128 varints ("Base 128 Varints" in the Protocol Buffers encoding document) |
| `DepTrace`, `DepTraceProofs`, `DepTraceFiles` | the text form of instruction traces, and conversion to messages and back |
| `CopyrightYears`, `CopyrightYearsProofs`, `CommentBlocks`, `CommentBlocksProofs` | years as ranges, and the scanner for comment blocks |
| `MemTestTree`, `LatencyRanges` | the cache tree of the memory tester, the sizes of the latency benchmark |
| `Sorting`, `Counting`, `Text`, `Bits`, `Files` | Python's stable sort, counting arguments, string handling, bit operations and files that these share |

Scripts that change objects or loop over variables are methods, and classes where there are objects
or global tables, each proved equal to a function of its inputs; what the script promises is proved
about these functions. Python's `/` on integers is floor division, which on the natural numbers used
here is Dafny's. The order in which Python lists a set or a dictionary is left open.

## Where the code does not do what is said of it

- `gem5/util/o3-pipeview.py:45-50` warns that instructions more than `min_threshold` places out of
  order come out unordered. The bound is right for every pair of thresholds (`StreamSorts`), also
  with the minimum above the maximum, and tight (`ThresholdIsTight`).
- `gem5/util/o3-pipeview.py:132` passes one argument too few, so a run that stops early ends in a
  `TypeError` (`StopFails`). The model takes the call as a parameter: as written (`FailsIffUnread` says
  exactly when it fails), and completed like the one at line 146 (`ShownIsWanted`).
- `gem5/util/cpt_upgrader.py:56-61` says that to depend on a tag with a downgrader is to wait for its
  absence. The code at 139-143 asks for its presence (`HeaderFails`, `DependentRunsBeforeDowngrade`), so
  that such a script can never run once the tag is gone (`AbsentDowngradeBlocks`). `KeepsHeaderIff`: a run
  keeps to the header exactly if every such script comes behind the removal in the same round, which
  is up to the order in which Python walks through a set. `HeaderHoldsIff`: every order does exactly
  if nothing that is applied depends on such a tag.
- `gem5/configs/example/read_config.py:321-322` says that sorting leaves exactly one direction of each
  connection bindable. Two crossing connections between vector ports refute it (`CrossingFails`);
  `SucceedsIffGoodChoice` says exactly when the pass succeeds. A connection of a port reference to
  itself makes the final count at line 345 come out right with connections missing
  (`LoopsFoolTheCheck`), and fail with none missing. `CheckIsRightIffNoLoops`: where the check passes or
  everything is bound, both are the case exactly if there is no such connection.
- `gem5/util/protolib.py:134-136` takes a message of size zero for the end of the file
  (`AllReadIffNoneEmpty`).
- `gem5/util/find_copyrights.py:98` reads four-digit years only, while the printer has no such limit
  (`YearsRoundTrip` gives the exact condition).
- `gem5/util/find_copyrights.py:65-66` fails on a comment line that holds a URL (`UrlFails`);
  `FailsIffMixed` says exactly on which files.
- `gem5/util/find_copyrights.py:53-59` keeps a comment open that is closed on its own line
  (`CodeIsSwallowed`); `TakesInCodeIff` says exactly which blocks take in a line, behind their
  first, that starts with code.
- `gem5/util/find_copyrights.py:65-85` drops a `//` block at the end of the file and in front of code with
  a trailing comment (`BlockIsLost`); `YieldedIffClosed` says exactly which blocks are kept.

## Model

| member | source | states |
|---|---|---|
| PipeView.Viewer.constructor | gem5/util/o3-pipeview.py:51-66 | the queue and the parameters that the module starts with |
| PipeView.Viewer.PopFirst | gem5/util/o3-pipeview.py:169-186 | takes off the first instruction and shows it exactly if it is inside the bounds on sequence number, fetch tick and commit |
| PipeView.Viewer.PopDown | gem5/util/o3-pipeview.py:168-186 | takes off all but so many instructions and shows those of them inside the window, in order |
| PipeView.Viewer.PrintInsts | gem5/util/o3-pipeview.py:165-186 | refines a flush: the sorted queue is split, its front joins what was popped, and what was shown is the windowed part of all that was popped |
| PipeView.Viewer.QueueInst | gem5/util/o3-pipeview.py:157-162 | refines one arrival: appended, and flushed to the minimum when the queue outgrows the maximum |
| PipeView.Viewer.SkipToFetch | gem5/util/o3-pipeview.py:78-105 | finds the first fetch behind the start of the window, or the end of the trace |
| PipeView.Viewer.MainLoop | gem5/util/o3-pipeview.py:124-148 | the loop over lines collects instructions, queues them, and flushes at the end or at the early stop |
| PipeView.Viewer.ProcessTrace | gem5/util/o3-pipeview.py:68-148 | a whole run refines collecting all instructions first and streaming them through the queue afterwards |
| PipeView.DriveFeeds | gem5/util/o3-pipeview.py:126-148 | reading and queueing by turns comes to the same as reading first and queueing then |
| PipeViewOrder.DisorderBoundsCount | gem5/util/o3-pipeview.py:48-50 | a bound on how many places instructions are out of order bounds how many earlier ones belong behind a late one |
| PipeViewOrder.PoppedStayBelow | gem5/util/o3-pipeview.py:48-50 | the pigeonhole: the min_threshold instructions that stay behind keep a later arrival from belonging in front of anything popped |
| PipeViewOrder.FlushKeepsOrder | gem5/util/o3-pipeview.py:165-169 | a flush moves the least of the queue behind what was popped and keeps min_threshold |
| PipeViewOrder.FeedSorts | gem5/util/o3-pipeview.py:156-162 | at every moment the popped instructions and the sorted queue together are the sorted input so far |
| PipeViewOrder.QueueStaysSmall | gem5/util/o3-pipeview.py:53-56 | the queue never holds more than the larger threshold |
| PipeViewOrder.StreamSorts | gem5/util/o3-pipeview.py:45-50 | with disorder of at most min_threshold places the output is the whole input in order of sequence numbers, nothing lost or doubled |
| PipeViewOrder.ThresholdIsTight | gem5/util/o3-pipeview.py:48-50 | for all thresholds an input with one more place of disorder comes out unordered |
| PipeViewTrace.CollectTrace | gem5/util/o3-pipeview.py:125-148 | reading the lines that the simulator writes gives back its instructions up to the first beyond the end of the window |
| PipeViewTrace.BodyOfTrace | gem5/util/o3-pipeview.py:81-105 | skipping ends at the front of a record: one cut by the start of the window is left out whole |
| PipeViewTrace.BodyStrips | gem5/util/o3-pipeview.py:87-105 | lines of other debug flags in between change nothing |
| PipeViewTrace.SkippedAreOutside | gem5/util/o3-pipeview.py:81-105 | no skipped record lies in the window, in the line format of the simulator (gem5/src/cpu/o3/dyn_inst_impl.hh:74-94) |
| PipeViewTrace.ProcessReads | gem5/util/o3-pipeview.py:68-148 | a run shows the windowed, sorted instructions of the records it reads, or fails with the TypeError of the short call |
| PipeViewTrace.SkippingIsHarmless | gem5/util/o3-pipeview.py:81-105 | what is wanted of the trace is wanted of what is left after skipping |
| PipeViewTrace.StoppingIsHarmless | gem5/util/o3-pipeview.py:130-133 | stopping at a record changes nothing exactly if none from there on lies in the window |
| PipeViewTrace.ShownIsWanted | gem5/util/o3-pipeview.py:57-64 | with the completed call a run shows all instructions of the trace, sorted and cut to the window, if and only if no unread one lies in it |
| PipeViewTrace.FailsIffUnread | gem5/util/o3-pipeview.py:130-133 | as written the script fails exactly when it stops early, for every trace and queue |
| PipeViewTrace.ShownAsWritten | gem5/util/o3-pipeview.py:132-133 | as written, within the bound on disorder, the script fails exactly when it stops early, and otherwise shows what was wanted |
| PipeViewTrace.FirstBehindFails | gem5/util/o3-pipeview.py:130-133 | every trace of one instruction behind the window ends in the error |
| PipeViewTrace.StopFails | gem5/util/o3-pipeview.py:130-133 | a trace on which it does, with the margin that the script starts with |
| PipeViewTrace.DriftSuffices | gem5/util/o3-pipeview.py:57-64 | if nothing falls back into the window once a fetch is past it by the margin, the early stop loses nothing |
| PipeViewTrace.ShownTells | gem5/util/o3-pipeview.py:128-141 | an instruction on show carries the numbers, texts and ticks of its record, with dashes in front if it was never retired |
| PipeViewTrace.KeptMeans | gem5/util/o3-pipeview.py:175-185 | the window in terms of a record: sequence number and fetch tick inside the bounds that are set, and retired if only committed instructions are wanted |
| PipeViewTrace.ShownExactly | gem5/util/o3-pipeview.py:68-186 | a run shows a record of the trace exactly if it is inside these bounds, and nothing else |
| PipeViewTrace.StartsAtTick | gem5/util/o3-pipeview.py:82-88 | the first record read is fetched at the starting tick or later, or follows the first of which another stage comes then |
| PipeViewTrace.StartsAtSn | gem5/util/o3-pipeview.py:89-99 | or it is the first with the starting sequence number or a later one, or the first of all |
| PipeViewTrace.ReadsUpTo | gem5/util/o3-pipeview.py:130-131 | reading ends in front of the first record beyond the end by more than tick_drift, or by more than max_threshold numbers |
| PipeViewTrace.FoundIff | gem5/util/o3-pipeview.py:81-105 | nothing at all is written exactly if there is no record to start with |
| Timeline.PrintInst | gem5/util/o3-pipeview.py:223-292 | prints the lines of an instruction, or stops with an IndexError where a single line has no event |
| TimelineProofs.FailsIffNothingHappened | gem5/util/o3-pipeview.py:264 | that is the case if and only if no stage of the instruction has a tick |
| Timeline.OneLine | gem5/util/o3-pipeview.py:248-281 | one turn of the loop over lines: the line, and whether it has no event |
| Timeline.CollectEvents | gem5/util/o3-pipeview.py:253-260 | the events of a line, in the order of the stages |
| Timeline.DrawLine | gem5/util/o3-pipeview.py:261-281 | sorts the events and draws them; a dispatch at the tick of the issue is left out |
| TimelineProofs.OnExactlyOneLine | gem5/util/o3-pipeview.py:235-258 | every event lies on one printed line and on no other, in compact form too |
| TimelineProofs.ColumnInWidth | gem5/util/o3-pipeview.py:258-270 | every column is below the width |
| TimelineProofs.LineLength | gem5/util/o3-pipeview.py:263-281 | a line has as many cells as the width and one more for each event in the column of the one drawn before it |
| TimelineProofs.LineMarks | gem5/util/o3-pipeview.py:266-279 | the marks of a line are its drawn events from left to right, none lost or doubled |
| TimelineProofs.DrawingMark | gem5/util/o3-pipeview.py:266-279 | the mark of each event is in the column of its tick, moved by one for each event up to it that shares the column of the one before |
| TimelineProofs.DrawingDot | gem5/util/o3-pipeview.py:270 | all other cells of a drawing are dots |
| TimelineProofs.PlacesAscend | gem5/util/o3-pipeview.py:266-279 | no two events are drawn in one cell |
| TimelineProofs.LineCells | gem5/util/o3-pipeview.py:266-281 | all other cells of a line are dots |
| TimelineProofs.EveryStageIsDrawn | gem5/util/o3-pipeview.py:223-292 | every stage that happened is drawn on its line at its column, moved by the events that share columns in front of it, on every line |
| TimelineProofs.LinesAreWindows | gem5/util/o3-pipeview.py:225-258 | with a stage a whole line behind the fetch, line i shows the stages in the i-th window from that of the fetch, and the last line is that of the last stage |
| TimelineProofs.ShortLine | gem5/util/o3-pipeview.py:235-252 | otherwise there is one line, which shows every stage from the window of the fetch on |
| TimelineProofs.LineOfIs | gem5/util/o3-pipeview.py:249 | the line of a stage is the number of whole lines between its tick and the fetch |
| TimelineProofs.LaterIsRight | gem5/util/o3-pipeview.py:258-270 | in one window a later stage never stands left of an earlier one |
| TimelineProofs.TiesByName | gem5/util/o3-pipeview.py:258-261 | stages at one offset are drawn in the order of their names |
| TimelineProofs.DrawnUnless | gem5/util/o3-pipeview.py:267-269 | only a dispatch at the tick of the issue is not drawn |
| PortBinding.ConfigManager.constructor | gem5/configs/example/read_config.py:169-175 | nothing is bound at first |
| PortBinding.ZeroIndices | gem5/configs/example/read_config.py:305-311 | a counter at zero for each port that is a source |
| PortBinding.StepThrough | gem5/configs/example/read_config.py:329-340 | the loop over the sorted connections, with the KeyError of a port that is nobody's source |
| PortBinding.ConfigManager.BindPorts | gem5/configs/example/read_config.py:300-354 | binds what the pass selects when that is half the list, and nothing otherwise |
| PortBinding.ConnLeIsTotal | gem5/configs/example/read_config.py:158-160 | connections compare by object, port and index of both ends: a total order |
| PortBindingProofs.PassIsInOrder | gem5/configs/example/read_config.py:308-340 | in every run each connection selected comes when exactly index many others were made at each of its ports, and no counter is missing |
| PortBindingProofs.BoundBelowCount | gem5/configs/example/read_config.py:308-319 | a reference is bound exactly if its index is below the counter of its port |
| PortBindingProofs.BoundOnce | gem5/configs/example/read_config.py:329-340 | no reference is bound twice |
| PortBindingProofs.HalfIsAll | gem5/configs/example/read_config.py:342-346 | the check on half the length is right: it holds exactly if every reference is bound |
| PortBindingProofs.BoundMeansOneDirection | gem5/configs/example/read_config.py:321-346 | on success exactly one direction of each connection is bound |
| PortBindingProofs.BoundMeansEveryRefOnce | gem5/configs/example/read_config.py:321-346 | on success every reference is an end of exactly one bound connection, bound when its index is the number of those before it at its port |
| PortBindingProofs.GreedyStaysAhead | gem5/configs/example/read_config.py:329-340 | at every step the pass has bound all that a good choice of directions would have |
| PortBindingProofs.SucceedsIffGoodChoice | gem5/configs/example/read_config.py:300-346 | binding succeeds if and only if one direction of each connection can be chosen so that predecessors come first |
| PortBindingProofs.ConnOrder | gem5/configs/example/read_config.py:158-160 | connections come in the order of the source's object, port and index, then the destination's, with names as in a dictionary |
| PortBindingProofs.MadeInOrder | gem5/configs/example/read_config.py:332-340 | connections are made in this order of their sources |
| PortBindingProofs.TriangleBinds | gem5/configs/example/read_config.py:332-346 | three connections that are all bound because objects are compared before ports |
| PortBindingProofs.UnknownPeer | gem5/configs/example/read_config.py:313-336 | a port that is nobody's source is a KeyError once it is looked up |
| PortBindingProofs.ScalarPeersSucceed | gem5/configs/example/read_config.py:321-346 | binding succeeds when no connection joins two vector ports |
| PortBindingProofs.CrossingFails | gem5/configs/example/read_config.py:321-346 | two crossing connections between vector ports cannot be bound, against the comment |
| PortBindingProofs.LoopsFoolTheCheck | gem5/configs/example/read_config.py:342-346 | a list with self-connections on which the check passes although a pair is not bound in either direction |
| PortBindingProofs.CheckIsRightIffNoLoops | gem5/configs/example/read_config.py:342-346 | whenever the check passes or everything is bound, both are the case if and only if the list has no self-connection |
| PortGathering.ParsedIsReadable | gem5/configs/example/read_config.py:144-153 | a parsed reference has a port name without dot and bracket and an object name without line break |
| PortGathering.RefRoundTrip | gem5/configs/example/read_config.py:144-156 | a reference is read back as written if and only if its names are of that kind |
| PortGathering.NoIndexIsZero | gem5/configs/example/read_config.py:148-151 | a reference without an index has index zero |
| PortGathering.RefExample | gem5/configs/example/read_config.py:144-156 | a reference of an object with dots in its name |
| PortGathering.GatherPortConnections | gem5/configs/example/read_config.py:280-298 | lists every peer of every port of an object under its position, or fails on the first that does not parse |
| PortGathering.GatherAll | gem5/configs/example/read_config.py:374-377 | the lists of all objects in a row |
| PortGathering.GatheredExactly | gem5/configs/example/read_config.py:280-298 | every reference is a source once, and the list holds exactly what the file says of ports |
| PortGathering.SymmetricIffPeersAgree | gem5/configs/example/read_config.py:301-303 | the list has both directions of every connection if and only if peers name each other in the file |
| PortGathering.GatheredIsContiguous | gem5/configs/example/read_config.py:293-296 | the indices of a gathered port have no gaps |
| PortGathering.ScalarFilesBind | gem5/configs/example/read_config.py:356-381 | a file in which peers agree and no two ports with several peers are joined is bound, in whatever order objects come |
| CheckpointUpgrade.Checkpoint.ProcessFile | gem5/util/cpt_upgrader.py:207-261 | version conversion, then the rounds; nothing is written on a missing version, an unknown legacy version or unresolved scripts |
| CheckpointUpgrade.Checkpoint.Apply | gem5/util/cpt_upgrader.py:239-255 | the loop follows the rounds and logs their scripts, each once, whatever order Python lists a set in |
| CheckpointUpgrade.Checkpoint.RunRound | gem5/util/cpt_upgrader.py:247-249 | the tags after a round do not depend on the order inside it, and tags.remove never fails |
| CheckpointUpgradeProofs.RoundsApply | gem5/util/cpt_upgrader.py:239-251 | a run applies exactly what was pending apart from what it gives up on |
| CheckpointUpgradeProofs.FinalTags | gem5/util/cpt_upgrader.py:239-257 | a successful run ends with the initial tags and all with upgraders, without those with downgraders |
| CheckpointUpgradeProofs.SecondRunDoesNothing | gem5/util/cpt_upgrader.py:239-255 | running again on the result applies nothing |
| CheckpointUpgradeProofs.RoundIsReady | gem5/util/cpt_upgrader.py:139-153 | every script runs in one round only and finds all its dependencies at the start of it, downgrades or not |
| CheckpointUpgradeProofs.DependencyRunsEarlier | gem5/util/cpt_upgrader.py:241-249 | a dependency that the checkpoint did not have runs in an earlier round |
| CheckpointUpgradeProofs.DependentRunsBeforeDowngrade | gem5/util/cpt_upgrader.py:139-143 | a script that depends on a tag that gets removed runs no later than the removal |
| CheckpointUpgradeProofs.AbsentDowngradeBlocks | gem5/util/cpt_upgrader.py:56-61 | a script that depends on a tag that was removed before is never applied, against the header |
| CheckpointUpgradeProofs.KeepsHeaderIff | gem5/util/cpt_upgrader.py:247-249 | in a run, scripts find the tags with downgraders that they depend on removed if and only if each comes behind the removal in its round |
| CheckpointUpgradeProofs.HeaderHoldsIff | gem5/util/cpt_upgrader.py:56-61 | they find them removed in every order that Python may take if and only if no script applied depends on one |
| CheckpointUpgradeProofs.HeaderFails | gem5/util/cpt_upgrader.py:139-143 | two scripts of one round, one depending on the tag that the other removes: in one order it finds the tag, in the other it does not |
| CheckpointUpgradeProofs.EndIsLeast | gem5/util/cpt_upgrader.py:239-251 | without downgrades a run ends with the least set that holds its tags and those of all scripts whose dependencies it holds |
| CheckpointUpgradeProofs.SucceedsIffOrderable | gem5/util/cpt_upgrader.py:239-245 | without downgrades a run succeeds if and only if the scripts can be ordered with each after all its dependencies |
| CheckpointUpgradeProofs.SucceedsIffRanked | gem5/util/cpt_upgrader.py:239-245 | with downgrades pending too a run succeeds if and only if its scripts can be ranked: each behind those it waits for and directly behind one of them, none above the removal of a tag it depends on |
| CheckpointUpgradeProofs.LegacyInOrder | gem5/util/cpt_upgrader.py:166-170 | from a legacy checkpoint of any version the remaining versions run in strictly increasing order, at most one a round |
| CheckpointUpgradeProofs.OutcomeOf | gem5/util/cpt_upgrader.py:239-257 | nothing is to do exactly if all upgrades are there and no downgrade pending; otherwise all tags of upgraders and none of downgraders are written, or what is stuck is reported |
| CheckpointUpgradeProofs.LegacyTagsAre | gem5/util/cpt_upgrader.py:215-217 | a legacy checkpoint counts as having the tags of version 2 up to and including its own |
| CheckpointUpgradeProofs.OldVersionsStay | gem5/util/cpt_upgrader.py:215-251 | scripts of these versions are in no round of the log |
| CheckpointUpgradeProofs.NewVersionsRun | gem5/util/cpt_upgrader.py:215-251 | those of later versions are run or stuck |
| CheckpointUpgradeProofs.NewestIsWritten | gem5/util/cpt_upgrader.py:215-261 | a checkpoint of the newest version is written with its tags and no script is run |
| UpgraderLoading.Tables.constructor | gem5/util/cpt_upgrader.py:86-90 | all tables are empty at first |
| UpgraderLoading.Tables.Register | gem5/util/cpt_upgrader.py:91-137 | the tables hold what the scripts declare |
| UpgraderLoading.Tables.LoadAll | gem5/util/cpt_upgrader.py:160-184 | loading succeeds exactly when the legacy chain has a start and every name resolves, also when scripts share a tag; then depends is the declared or chained list and the scripts that declared it forward |
| UpgraderLoading.Tables.Resolve | gem5/util/cpt_upgrader.py:172-184 | reverses all forward dependencies and rejects exactly the tables with an unknown name, in whatever order |
| UpgraderLoading.Tables.AddForward | gem5/util/cpt_upgrader.py:174-179 | appends one script to the lists it names, or reports an unknown name |
| UpgraderLoading.Tables.Audit | gem5/util/cpt_upgrader.py:180-184 | finds exactly the lists with an unknown name |
| UpgraderLoadingProofs.LoadedDependenciesResolve | gem5/util/cpt_upgrader.py:172-184 | after loading every dependency names a script, also those appended behind the audit |
| UpgraderLoadingProofs.LegacyTagsDiffer | gem5/util/cpt_upgrader.py:134-135 | two legacy versions never share a tag |
| UpgraderLoadingProofs.ChainLinks | gem5/util/cpt_upgrader.py:166-170 | chaining leaves version v with the one dependency on version v - 1 |
| UpgraderLoadingProofs.LoadedIsValid | gem5/util/cpt_upgrader.py:117-137 | loaded tables meet what the results on runs assume |
| UpgraderLoadingProofs.LoadedIsChained | gem5/util/cpt_upgrader.py:166-184 | loaded legacy versions are chained as the result on legacy checkpoints assumes |
| UpgraderLoadingProofs.TagsAre | gem5/util/cpt_upgrader.py:117-128 | scripts with an upgrader and those with a downgrader are told apart |
| UpgraderLoadingProofs.LegacyIs | gem5/util/cpt_upgrader.py:134-135 | a legacy version stands for the script that declares it |
| UpgraderLoadingProofs.LoadedDepends | gem5/util/cpt_upgrader.py:172-184 | a script depends exactly on what it declares and on the scripts that declare it a forward dependency |
| UpgraderLoadingProofs.ChainedDepends | gem5/util/cpt_upgrader.py:166-179 | a version in the chain depends on the one before it instead of what it declares |
| CheckpointAggregator.CopyPages | gem5/util/checkpoint_aggregator.py:96-107 | copies the first pages of an image, or all of a shorter one |
| CheckpointAggregator.VisitSections | gem5/util/checkpoint_aggregator.py:66-91 | renames, moves, skips or copies each section of a checkpoint, or stops on a bad number or a duplicate |
| CheckpointAggregator.Pad | gem5/util/checkpoint_aggregator.py:113-121 | adds pages of '0' characters until the memory size is reached |
| CheckpointAggregator.Aggregate | gem5/util/checkpoint_aggregator.py:41-136 | the merged configuration and memory, or the first error |
| CheckpointAggregatorProofs.RenameInjective | gem5/util/checkpoint_aggregator.py:67-68 | with tags of one width the new name tells both the section and the tag, wherever and however often cpu occurs |
| CheckpointAggregatorProofs.RenamingTellsApart | gem5/util/checkpoint_aggregator.py:56-68 | names are equal if and only if both the checkpoint and the section are |
| CheckpointAggregatorProofs.PlainNumeralsCollide | gem5/util/checkpoint_aggregator.py:56-68 | without zero padding two checkpoints could write one name |
| CheckpointAggregatorProofs.InPlaceIffComplete | gem5/util/checkpoint_aggregator.py:94-104 | memories lie where page counts say if and only if no image is short |
| CheckpointAggregatorProofs.ByteMoves | gem5/util/checkpoint_aggregator.py:94-104 | each byte of a checkpoint's pages is found behind the pages of those before it |
| CheckpointAggregatorProofs.SizeIsRight | gem5/util/checkpoint_aggregator.py:109-128 | the recorded size covers the size asked for with no page too many, and is the file's size exactly if no image is short |
| CheckpointAggregatorProofs.MergedSections | gem5/util/checkpoint_aggregator.py:66-91 | no two sections of the merged file share a name, adding one never fails, and its processors are those of all checkpoints |
| CheckpointAggregatorProofs.ProcessorIsWritten | gem5/util/checkpoint_aggregator.py:66-81 | every processor section is in the merged file, moved by the pages before its checkpoint |
| CheckpointAggregatorProofs.AddressesFollow | gem5/util/checkpoint_aggregator.py:70-104 | a moved physical address reaches in the merged memory what the old one reached in its own |
| CheckpointAggregatorProofs.RenameFirst | gem5/util/checkpoint_aggregator.py:65-66 | every cpu in a name gets the tag behind it |
| CheckpointAggregatorProofs.RenameNothing | gem5/util/checkpoint_aggregator.py:65-66 | and the rest of a name stays |
| CheckpointAggregatorProofs.HasCpuWithin | gem5/util/checkpoint_aggregator.py:65 | a name with cpu anywhere is that of a processor |
| CheckpointAggregatorProofs.HasCpuParts | gem5/util/checkpoint_aggregator.py:65 | and every name of one has it |
| CheckpointAggregatorProofs.FdMapMeans | gem5/util/checkpoint_aggregator.py:76 | which names end like those of a file table |
| CheckpointAggregatorProofs.ProcessorOptions | gem5/util/checkpoint_aggregator.py:69-77 | a processor keeps its options but the address, and a file table gets the number of its checkpoint |
| CheckpointAggregatorProofs.RecordedOfAll | gem5/util/checkpoint_aggregator.py:82-134 | the pages of all memories, the number of checkpoints, the greatest tick of all and the padded size are recorded |
| CheckpointAggregatorProofs.OthersOfLast | gem5/util/checkpoint_aggregator.py:85-89 | other sections are those of the last checkpoint |
| Files.InFile.Read | gem5/util/protolib.py:111-137 | takes the next bytes of a file, fewer at its end; checkpoint_aggregator.py reads its pages by it too |
| ProtoStream.EncodeVarint32 | gem5/util/protolib.py:143-155 | the loop of shifts and masks appends the seven-bit groups of the value |
| ProtoStream.DecodeVarint32 | gem5/util/protolib.py:98-126 | the loop of shifts and masks takes off a varint, or (0, 0) at the end of the file, or fails behind ten bytes |
| ProtoStream.EncodeMessage | gem5/util/protolib.py:157-163 | appends a message behind its length |
| ProtoStream.DecodeMessage | gem5/util/protolib.py:128-141 | takes off one message, or says there is none |
| ProtoStreamProofs.VarintRoundTrip | gem5/util/protolib.py:98-155 | decoding an encoded value leaves what follows and gives it modulo 2**32 below 2**63, the negative number for it below 2**70, and an error beyond |
| ProtoStreamProofs.VarintLength | gem5/util/protolib.py:149-155 | a value takes at most n bytes exactly if it is below 2**(7 n) |
| ProtoStreamProofs.DecodeReadsTenAtMost | gem5/util/protolib.py:110-126 | whatever the bytes, a terminated varint agrees with its groups modulo 2**32 and no more than ten are read |
| ProtoStreamProofs.VarintExamples | gem5/util/protolib.py:149-155 | the examples of the encoding document, byte by byte |
| ProtoStreamProofs.DecodeAtEnd | gem5/util/protolib.py:111-113 | a file that ends inside a varint reads as (0, 0) |
| ProtoStreamProofs.FrameRoundTrip | gem5/util/protolib.py:128-163 | a message comes back and what follows is left, unless its encoding is empty |
| ProtoStreamProofs.FrameFails | gem5/util/protolib.py:137-141 | a message that the library does not parse is its error and not the end of the file |
| ProtoStreamProofs.FileRoundTrip | gem5/util/protolib.py:128-163 | reading a file of messages gives those before the first with an empty encoding, then the end |
| ProtoStreamProofs.AllReadIffNoneEmpty | gem5/util/protolib.py:134-136 | all messages come back if and only if none has an empty encoding |
| DepTraceProofs.DepTextRoundTrip | gem5/util/decode_inst_dep_trace.py:190-201 | a dependency list is read back in order from its text |
| DepTraceProofs.LineRoundTrip | gem5/util/encode_inst_dep_trace.py:147-192 | a printed record is read back with the defaults filled in if and only if it has address, size and flags just as a load or store and a valid type |
| DepTraceProofs.DefaultsPrintTheSame | gem5/util/decode_inst_dep_trace.py:159-168 | filling in the defaults does not change the line |
| DepTraceProofs.ParsedPrintsBack | gem5/util/encode_inst_dep_trace.py:147-192 | every accepted line gives a record whose printed line is accepted with the same meaning |
| DepTraceProofs.AccessText | gem5/util/decode_inst_dep_trace.py:157-203 | the line of a load or store, field by field |
| DepTraceProofs.CompText | gem5/util/decode_inst_dep_trace.py:157-203 | the line of a computation, field by field |
| DepTraceProofs.DepTextNext | gem5/util/decode_inst_dep_trace.py:190-201 | a dependency list is its items with a comma in front of each |
| DepTraceProofs.BadInfoIs | gem5/util/encode_inst_dep_trace.py:155-177 | how a line fails: unknown type, INVALID type, or too few fields for its type |
| DepTraceProofs.ReadDepsNext | gem5/util/encode_inst_dep_trace.py:181-192 | an empty item is passed over, a number appended, and anything else fails |
| DepTraceFiles.AppendDeps | gem5/util/encode_inst_dep_trace.py:179-192 | reads the items of a dependency list, passing over empty ones |
| DepTraceFiles.ParseRecord | gem5/util/encode_inst_dep_trace.py:148-192 | the record of a line, or the error it stops with |
| DepTraceFiles.EncodeRecords | gem5/util/encode_inst_dep_trace.py:147-195 | writes a message for each line up to the first that is not accepted |
| DepTraceFiles.EncodeTrace | gem5/util/encode_inst_dep_trace.py:126-200 | writes magic number, header and messages, and says which line stopped it |
| DepTraceFiles.AcceptedIsAll | gem5/util/encode_inst_dep_trace.py:147-195 | no line is passed over: the records are those of all lines exactly if all are accepted |
| DepTraceFiles.WriteRecord | gem5/util/decode_inst_dep_trace.py:157-203 | the pieces written one after the other are the line of the record |
| DepTraceFiles.WriteDeps | gem5/util/decode_inst_dep_trace.py:190-201 | each dependency behind a comma |
| DepTraceFiles.DecodeRecords | gem5/util/decode_inst_dep_trace.py:153-203 | prints messages until there is none |
| DepTraceFiles.DecodeTrace | gem5/util/decode_inst_dep_trace.py:123-203 | checks the magic number, passes over the header and prints the records |
| DepTraceFiles.MagicSpells | gem5/util/encode_inst_dep_trace.py:128 | the file starts with the characters gem5 |
| DepTraceFiles.WrongMagic | gem5/util/decode_inst_dep_trace.py:124-128 | and a file that does not is not read |
| DepTraceFiles.TraceRoundTrip | gem5/util/decode_inst_dep_trace.py:123-203 | a text trace turned into messages and back gives for each line the canonical line with the same meaning |
| DepTraceFiles.CanonicalTextIsKept | gem5/util/encode_inst_dep_trace.py:147-195 | text that the decoder could have written comes back character by character |
| CopyrightYears.PrintDates | gem5/util/find_copyrights.py:175-199 | prints the runs of the sorted years; an empty set has nothing to pop |
| CopyrightYears.PrintYears | gem5/util/find_copyrights.py:186-199 | the loop over the sorted list finds its runs |
| CopyrightYears.ReadYears | gem5/util/find_copyrights.py:99-116 | the years of a list of years and ranges; other items are passed over |
| CopyrightYears.AddRange | gem5/util/find_copyrights.py:107-108 | adds every year of a range |
| CopyrightYearsProofs.CompressSeparates | gem5/util/find_copyrights.py:186-197 | the ranges are maximal runs and cover exactly the years |
| CopyrightYearsProofs.RunsAreUnique | gem5/util/find_copyrights.py:186-197 | there is only one list of maximal runs for a set of years |
| CopyrightYearsProofs.FewestRanges | gem5/util/find_copyrights.py:175-199 | no shorter list of ranges covers exactly the years |
| CopyrightYearsProofs.ReadShownSpan | gem5/util/find_copyrights.py:98-116 | a printed range is read back exactly if its years have four digits; otherwise its last year is lost |
| CopyrightYearsProofs.RangeReads | gem5/util/find_copyrights.py:98-108 | two years of four digits with a minus sign and any blanks between read as all years of the range |
| CopyrightYearsProofs.SpanText | gem5/util/find_copyrights.py:180-184 | the text of a single year and of a range |
| Text.ParseIntReads | gem5/util/find_copyrights.py:111-112 | digits with or without a sign and blanks around them read as a number |
| Text.SpacesAre | gem5/util/find_copyrights.py:100 | what strip takes off: the space, and tab to carriage return |
| CopyrightYearsProofs.YearsRoundTrip | gem5/util/find_copyrights.py:98-199 | years come back from their text if and only if no two consecutive ones reach outside 1000 to 9999 |
| CommentBlocks.LineBlocks | gem5/util/find_copyrights.py:17-45 | the two loops for comments of one kind yield the blocks of the scan and never fail |
| CommentBlocks.CBlocks | gem5/util/find_copyrights.py:47-93 | the loop for C and its kin yields the blocks of the scan, and fails only on a line with both kinds of comment |
| CommentBlocks.CLine | gem5/util/find_copyrights.py:51-93 | the body of the loop; its other assertions hold |
| CommentBlocks.FindCopyrightBlock | gem5/util/find_copyrights.py:15-93 | the blocks of a language, and how the generator ends |
| CommentBlocks.TrimAuthors | gem5/util/find_copyrights.py:146-168 | the end of a block after the search for authors |
| CommentBlocksProofs.BlocksAreRuns | gem5/util/find_copyrights.py:17-45 | the blocks are exactly the longest runs of comment lines that another line follows and that no code stops the scan before |
| CommentBlocksProofs.KindMeans | gem5/util/find_copyrights.py:17-45 | a shell comment has '#' behind blanks, a lisp comment ';' anywhere; a first line with "#!" (shell only) or an editor's mode is passed over |
| CommentBlocksProofs.BlocksAreRunsOfText | gem5/util/find_copyrights.py:17-45 | the blocks are exactly the longest runs of lines with such characters that another line follows and no code stops the scan before |
| CommentBlocksProofs.ModeLineHas | gem5/util/find_copyrights.py:9 | a line with these parts sets an editor's mode |
| CommentBlocksProofs.ModeLineParts | gem5/util/find_copyrights.py:9 | and every line that does has them |
| CommentBlocksProofs.SlashesFirstMeans | gem5/util/find_copyrights.py:62-68 | a "//" line has only blanks in front of its first "//" |
| CommentBlocksProofs.StartsNoticeHas | gem5/util/find_copyrights.py:73-74 | a line with Copyright behind its first "//" starts another notice |
| CommentBlocksProofs.StartsNoticeParts | gem5/util/find_copyrights.py:73-74 | and every line that starts one is of this kind |
| CommentBlocksProofs.BlocksTile | gem5/util/find_copyrights.py:47-93 | the result is the one way to tile the front of the file by blocks and lines that do not matter, up to an open block, the code or the mixed line that ended the scan |
| CommentBlocksProofs.TilesReached | gem5/util/find_copyrights.py:47-93 | whatever tiles the first lines is what the scan has found there |
| CommentBlocksProofs.TilingIsUnique | gem5/util/find_copyrights.py:47-93 | the first n lines have one tiling at most |
| CommentBlocksProofs.BlocksExactly | gem5/util/find_copyrights.py:47-93 | the blocks yielded are exactly the "//" blocks that a line closes and the "/*" blocks up to the next "*/" that start where a tiling ends |
| CommentBlocksProofs.FailsIffMixed | gem5/util/find_copyrights.py:65-66 | the assertion fails if and only if a line with both kinds of comment comes behind a tiling, possibly with an open "//" block between |
| CommentBlocksProofs.YieldedIffClosed | gem5/util/find_copyrights.py:65-85 | a "//" block that reading comes to is yielded if and only if the next line starts another notice or is code without "//" |
| CommentBlocksProofs.OutsideIffClosedAtOnce | gem5/util/find_copyrights.py:54-60 | a block holds a line that does not start inside its comment if and only if the comment it starts with is closed on the same line |
| CommentBlocksProofs.TakesInCodeIff | gem5/util/find_copyrights.py:54-60 | a line behind the first starts with code if and only if the comment is closed on the first line and the first line with text behind it does not start with "/*" |
| CommentBlocksProofs.BlocksInOrder | gem5/util/find_copyrights.py:15-93 | blocks are non-empty, in bounds, ascending and disjoint, also when an assertion ends the scan |
| CommentBlocksProofs.TrimmedInOrder | gem5/util/find_copyrights.py:129-171 | and they stay so when their ends are trimmed, whatever the patterns for authors match |
| CommentBlocksProofs.TrimExactly | gem5/util/find_copyrights.py:147-168 | behind the authors a block ends with the first blank line, or in front of the first "//" line with text |
| CommentBlocksProofs.TrimNothing | gem5/util/find_copyrights.py:147-153 | a block without authors keeps its end |
| CommentBlocksProofs.UrlFails | gem5/util/find_copyrights.py:65-66 | one such family: a file that starts with both kinds of comment in one line is not read at all |
| CommentBlocksProofs.CodeIsSwallowed | gem5/util/find_copyrights.py:53-59 | files in which a comment closed on its own line takes the code behind it into its block |
| CommentBlocksProofs.BlockIsLost | gem5/util/find_copyrights.py:67-68 | files in which a "//" block is not yielded because code with a trailing comment follows it |
| MemTestTree.NumTesters | gem5/configs/example/memtest.py:116-127 | the number of testers, weighted by the products of the cache counts |
| MemTestTree.MakePrototypes | gem5/configs/example/memtest.py:190-214 | one prototype for each level, each scaled from the one behind it by the cache count of its level |
| MemTestTree.PrototypeIs | gem5/configs/example/memtest.py:190-214 | after m levels sizes have grown with the fan-out of these levels and latencies tenfold on each, and inclusion and clean writebacks alternate |
| MemTestTree.System.constructor | gem5/configs/example/memtest.py:222-232 | no subsystem at first, and an index of zero for every level; from here on the subsystems are those numbered below the counters |
| MemTestTree.System.NewSubsystem | gem5/configs/example/memtest.py:239-260 | takes the next index of a level, so that no name is given twice |
| MemTestTree.System.MakeCacheLevel | gem5/configs/example/memtest.py:236-297 | creates the testers and all subsystems of one tree, with every list access in range and the exit not reached |
| MemTestTree.System.MakeSubtrees | gem5/configs/example/memtest.py:277-279 | creates a subtree behind each cache |
| MemTestTree.System.Build | gem5/configs/example/memtest.py:299-300 | creates exactly the computed number of testers, and on each level exactly the subsystems numbered below the product of the cache counts nearer to memory, each once |
| MemTestTree.TestersAreWeighted | gem5/configs/example/memtest.py:116-127 | the recursive count of testers equals the closed formula |
| MemTestTree.GrownSplit | gem5/configs/example/memtest.py:236-279 | a tree is its root and the trees behind its caches, level by level |
| LatencyRanges.IsPow2Iff | gem5/configs/dram/lat_mem_rd.py:147-149 | the test with n and n - 1 passes exactly for powers of two |
| LatencyRanges.NextSize | gem5/configs/dram/lat_mem_rd.py:160-164 | the step doubles exactly at the powers of two and is a quarter of the last one |
| LatencyRanges.MakeRanges | gem5/configs/dram/lat_mem_rd.py:156-164 | the loop ends; the sizes are those of the closed form up to the first that reaches the maximum |
| LatencyRanges.PowersAndQuarters | gem5/configs/dram/lat_mem_rd.py:154-164 | every power of two from 4096 on is a size, with three evenly spaced ones up to the next |
| LatencyRanges.OnlyEveryFourthIsPower | gem5/configs/dram/lat_mem_rd.py:154-164 | and no other size is a power of two |

## Left out

- The row-swap and quarantine mechanism of the memory controller: the tools here only pass its
  parameters on.
- File, gzip, subprocess, `protoc`, `exec` and `ConfigParser` mechanics: files are sequences of lines or
  bytes, configuration files are sequences of sections, an unreadable file is not modelled. Options of
  a section are a map without an order; interpolation, `DEFAULT` and the reserved name `default` are
  not modelled.
- Protobuf serialisation: a pair of functions that undo each other on the messages at hand.
- PipeView.Viewer.MainLoop: does not model a trace line whose numbers are missing or malformed, nor the
  KeyError for an instruction that reaches the window check without a stage; a missing stage counts
  as tick 0. Lines are taken as parsed.
- Timeline.PrintInst: does not model colours, the header, the address and disassembly columns and the
  choice between the two dots, because only the layout of cells is at issue; ticks are natural numbers.
- CheckpointUpgrade.Checkpoint.Apply: does not model what a script does to the checkpoint; the log keeps
  which scripts ran in which round and in what order.
- UpgraderLoading.Tables.LoadAll: does not model the type checks on a script's attributes (lines 102-121).
  An Upgrader object is represented by its tag and by whether it is still found under it.
- PortBinding.ConfigManager.BindPorts: records the assignments to object ports; what `setattr` does in
  the simulator is not part of this model. A KeyError for an object that was never built is not
  modelled.
- PortGathering.RefRoundTrip: `\d` is taken to match the ten ASCII digits.
- PortGathering.GatherPortConnections: takes the name of a port and the key it is declared under to be
  one; the object `Null` is not modelled.
- `fill_in_children`, `find_object` and the JSON form of configurations in `read_config.py`.
- ProtoStreamProofs.FrameRoundTrip: messages of 2**32 bytes and more, which the length does not hold.
- ProtoStream.DecodeVarint32: models setting the high bits of a negative number (lines 119-120) by its value
  modulo 2**32, because no bit pattern of unlimited width is modelled; the other masks and shifts are.
- CommentBlocksProofs.TakesInCodeIff: says nothing of code on the line that opens a comment, in front of it or
  behind it, and on the line that closes the block; string literals of the language are not modelled.
- DepTraceFiles.ParseRecord: does not model the suffix `L` that Python's `long` accepts, nor the blanks and
  separators of other alphabets.
- CommentBlocks.TrimAuthors: takes the two patterns for author lines as parameters; the pattern for the
  copyright line, owners and the report that `find_copyrights.py` prints are not modelled.
- CheckpointAggregator.Aggregate: does not model the files left half written by an error, compression of
  the output, and the sign that `zfill` keeps in front.
- MemTestTree.System.Build: crossbars and port connections of the tree, the limit of 64 testers and the
  random generator of specifications are not modelled; `memcheck.py` builds the same tree.
- `GPUTLBConfig.py`: the wiring of translation buffers.
- Option parsing, benchmark configurations, style checkers, hooks and image scripts.
