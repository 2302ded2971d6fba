# AgentSight bookkeeping: a verified model

AgentSight watches AI agents from the kernel side (eBPF programs and their C loaders) and from the agents' own session
files (Rust). Between the probes and the reports lies bounded, stateful bookkeeping. This project models that
bookkeeping in Dafny and proves what it keeps, over every input, every run and every interleaving.

| Files | What they model |
|---|---|
| `Probing` `PidCache` | open addressing as a theory; the 256-slot cache of verdicts per pid with eviction (`bpf/browsertrace.c`) |
| `PidTracker` | the 4096-slot set of tracked pids, whose removal leaves no tombstone (`bpf/process_filter.h`) |
| `FileLimiter` `FileOpens` `FileSteps` `EventFilter` `EventWanted` | the per-second limiter, the table of file opens with its swap-remove sweeps, the event handler around them, and what they must do, read off the events (`bpf/process.c`) |
| `AggMap` `AggProtocol` `AggOwnership` `AggAlone` `AggWitnesses` | the flushes of the kernel's aggregation map, alone and interleaved with CPUs that update it (`bpf/process_ext`) |
| `SessionEvidence` `SessionMatcher` `MatchPhases` | the two-phase matcher of sessions to live processes, with bindings kept from call to call (`agent-session`) |
| `Utf8` `JsonEscape` `JsonMinimal` | the UTF-8 check and both JSON printers, against RFC 3629 and RFC 8259 (`bpf/jsonl.h`) |
| `Stacks` `FoldedCounter` `FlameTree` `FlameBuilder` `Pprof` | folded stacks, the prefix-merged flame tree, its building in place and its drawing, the pprof encoder (`agentpprof`) |
| `StreamSearch` `ProcessTree` `TreePaths` | the chunked marker search and the breadth-first search of a process tree (`collector`) |
| `ShellSplit` `ProcessChain` `ChainParts` | the shell tokenizer against a grammar, and process chains through nested `bash -c` (`agent-session`) |
| `SessionCache` `SessionWindow` | the cache of parsed sessions by path and modification time, against parsing without a cache (`agent-session`) |
| `PromptFold` `PromptHistory` `PromptFilter` `Fallbacks` | the transcript fold that ties events to prompts, its fallbacks, and the filter by prompt tag |
| `Decimals` `Buffers` `FdDetail` `Ipv4Detail` | the kernel's detail strings in fixed buffers, and their readers |
| `Wrappers` `Words` `Sequences` `Selections` | shared small types and facts |

State that the programs change in place is held in classes (`TargetPidCache`, `PidTable`, `FileTables`, `Loader`,
`EventMap`, `SessionProcessMatcher`, `TreeNode`, `StringInterner`, `SessionCache`, `SessionEvents`, `SessionRecord`) or in arrays;
each method is proved to compute a function of the old state, and the properties are lemmas about those functions,
over single steps and over whole runs. Hash functions, path normalisation, file parsing, `mbrtowc` and everything the
operating system answers are parameters, so the results hold for all of them (under the assumption named in the row,
where there is one). `dafny verify dfyconfig.toml` checks the whole project.

Where the code does not do what one would expect, the code is followed, and the exact condition is proved:

- A removal from the pid tracker is set deletion if and only if the freed slot lies on no other live pid's probe path
  (`PidTracker.RemoveIsDeletionIff`); adding 1 and 4097 and removing 1 loses 4097 (`PidTracker.RemoveLosesCollidingPid`),
  and a removed pid can even come back (`PidTracker.RemovedPidComesBack`).
- File opens are conserved if and only if no 32-bit count wraps (`FileOpens.OpensConservedIffNoWrap`; one does after
  2^32 opens, `FileOpens.CounterCanWrap`), and the limiter counts modulo 2^32 (`FileOpens.OpensPassIff`). A rate-limit
  warning that is due is printed if and only if the open that carries it is no duplicate (`FileOpens.WarningPrintedIff`);
  a duplicate loses it (`FileOpens.WarningCanBeLost`).
- An entry of the table of opens expires after 60 seconds, and by the unsigned subtraction also when it is newer than the
  open (`FileOpens.ExpiredMeans`).
- The verdict cache answers with the link read last for the pid, not the current one (`PidCache.AnswersAreReadings`); it
  is invisible while executables do not change (`PidCache.CacheIsTransparent`).
- An exit flush prints twice what it has no room to delete: exact if and only if the pid has at most 256 keys
  (`AggMap.ExitFlushExactIff`, `AggMap.ExitFlushCanRepeat`, `AggWitnesses.EventCanBeRepeated`). With that, the interleaved
  protocol is exact if and only if no update falls into a window (`AggProtocol.ExactIffNoWindowUpdate`,
  `AggWitnesses.UpdateCanBeMissed`).
- The streaming JSON printer is legal and lossless for every byte string. The buffer escaper of the same header is not:
  with two bytes of room for each byte and two more, as its callers give it, its output is legal if and only if the
  source is UTF-8 without control characters other than newline and tab (`JsonMinimal.RawControlIsIllegal`); a smaller
  buffer can also cut a character, and then the output of such a source is legal if and only if the cut is at a
  character boundary (`JsonMinimal.EscapedIsBodyIff`, `JsonMinimal.CutCharacterIsIllegal`).
- Sessions served from the cache equal uncached ones if and only if the smaller target was not starved by its smaller
  window (`SessionCache.ServedIsUncachedIff`, with the instance `SessionCache.ServedCanDiffer`).
- In the tasks view the encoder moves the first prompt frame to the leaf; a stack still comes back if and only if that
  move changes nothing (`Pprof.JoinRootToLeafIff`, `Pprof.PromptCanMove`). None of the four views a projection is built
  for is called tasks (`agentpprof/src/profile.rs:21-26`), so this branch is only reached by a projection made by hand;
  for the four views every clean stack comes back.
- The filter by tag renumbers the events but not the `index` field of the prompts it keeps
  (`PromptFilter.IndexStaysIff`, `PromptFilter.IndexCanGoStale`).
- A descriptor detail is read back if and only if it is a 32-bit integer; wider numbers pass as other descriptors
  (`FdDetail.ParseUndoesFormatIff`, `FdDetail.WideNumbersPass`).

## Model

| member | source | states |
|---|---|---|
| `PidCache.LookupIsMap` | bpf/browsertrace.c:531-548 | with whole probe chains, the lookup is the lookup in the map the cache stands for |
| `PidCache.StoreIsMap` | bpf/browsertrace.c:550-569 | a store keeps the chains whole and changes the map at one key; it evicts a key only when all slots hold other pids, and then exactly the occupant of the home slot |
| `PidCache.FullIffSize` | bpf/browsertrace.c:550-569 | the map never has more keys than the cache has slots, and the cache is full exactly when it has that many |
| `PidCache.LookupIsLastStoreOrAbsent` | bpf/browsertrace.c:526-569 | after any run of stores the chains are whole, and a lookup answers with the last verdict stored for that pid or not at all |
| `PidCache.LookupIsLastStore` | bpf/browsertrace.c:526-569 | while at most 256 different pids were stored, every lookup gives the last verdict stored |
| `PidCache.AnswersAreReadings` | bpf/browsertrace.c:571-600 | for every run of questions, each with the link its pid has at that moment, each answer is the verdict on the link read at the last question for the pid that read one, this one or an earlier, evictions included |
| `PidCache.FirstReadingLasts` | bpf/browsertrace.c:571-600 | while at most 256 different pids were asked about, each answer is the verdict on the link at the first question about the pid |
| `PidCache.CacheIsTransparent` | bpf/browsertrace.c:571-600 | while no process changes its executable, every answer in every run is the one an uncached check gives, evictions included |
| `PidCache.VerdictIff` | bpf/browsertrace.c:571-600 | a process matches exactly when its link can be read and is the path asked for, or ends, as a whole component, in the name asked for |
| `PidCache.TargetPidCache.constructor` | bpf/browsertrace.c:507-511 | a cleared cache stands for the empty map |
| `PidCache.TargetPidCache.LookupTargetPidCache` | bpf/browsertrace.c:531-548 | the probing loop finds a pid exactly when the map has it, with its verdict |
| `PidCache.TargetPidCache.StoreTargetPidCache` | bpf/browsertrace.c:550-569 | the array is the store function's result and the map follows |
| `PidCache.TargetPidCache.TargetProcessMatches` | bpf/browsertrace.c:571-600 | answer and new cache are those of one question of the run |
| `Probing.ProbeHits` | bpf/process_filter.h:50-70 | a probe stops at a slot with success exactly when the slot holds the pid and the path up to it is taken by other pids |
| `Probing.IntactIffFound` | bpf/process_filter.h:50-70 | the chain invariant holds exactly when every stored pid is found where it is stored |
| `Probing.FillGapIntact` | bpf/process_filter.h:84-96 | writing a pid where its probe ended keeps the invariant |
| `Probing.OverwriteFullIntact` | bpf/browsertrace.c:566-568 | in a full table any slot may be overwritten with a new pid |
| `Probing.ClearIntactIff` | bpf/process_filter.h:102-108 | emptying a slot keeps the invariant exactly when the slot is on no other stored pid's path |
| `PidTracker.AddTracks` | bpf/process_filter.h:73-99 | after a successful add the pid is tracked and nobody is lost; a failed add means a full table without the pid |
| `PidTracker.RemoveUntracks` | bpf/process_filter.h:102-108 | after a remove the pid is not tracked and nobody new is |
| `PidTracker.RemoveIsDeletionIff` | bpf/process_filter.h:102-108 | from whole chains a remove deletes exactly its pid if and only if the freed slot is on no other live pid's probe path |
| `PidTracker.LostBehind` | bpf/process_filter.h:102-108 | freeing a slot on a pid's path untracks that pid although its entry is still active |
| `PidTracker.SafeRunIsSet` | bpf/process_filter.h:50-115 | in a run whose removes free unshared slots a pid is tracked exactly when a set under the same operations has it |
| `PidTracker.SetThroughoutIffSafe` | bpf/process_filter.h:50-115 | the table behaves as a set at every moment of a run if and only if every remove of the run frees an unshared slot |
| `PidTracker.AddOnlyIsSet` | bpf/process_filter.h:73-99 | runs without removes are runs of a set |
| `PidTracker.DistinctHomesIsSet` | bpf/process_filter.h:50-115 | runs whose pids differ modulo 4096 are runs of a set, removes included |
| `PidTracker.RemoveLosesCollidingPid` | bpf/process_filter.h:102-108 | add 1, add 4097, remove 1: 4097 is in the set and active in the table, and no lookup finds it |
| `PidTracker.RemovedPidComesBack` | bpf/process_filter.h:73-108 | once lost, added again and removed, a pid is tracked again after an add of another pid |
| `PidTracker.PidTable.FindEntry` | bpf/process_filter.h:50-70 | the probing loop answers what the probe function does |
| `PidTracker.PidTable.AddPid` | bpf/process_filter.h:73-99 | table and answer are those of the add function |
| `PidTracker.PidTable.RemovePid` | bpf/process_filter.h:102-108 | the table is that of the remove function |
| `PidTracker.PidTable.IsTrackedPid` | bpf/process_filter.h:111-115 | tracked means found and marked |
| `FileOpens.LimiterIsHistories` | bpf/process.c:403-445 | after every run of opens and exits the limiter table is, for each pid that owns a slot, the run of opens in the second of its last one |
| `FileOpens.OpensPassIff` | bpf/process.c:403-445 | in every run an open is held back exactly when its pid owns a slot and the run of opens in its second, modulo 2^32, exceeds 30, and the limiter's warning falls due with it exactly when it is the first after a second with more than 30 |
| `FileOpens.WarningPrintedIff` | bpf/process.c:428-431 | in every run a line with the warning is printed for an open exactly when the warning is due with it and no unexpired entry has its hash; if it is due, nothing stays pending for the pid either way |
| `FileOpens.WarningCanBeLost` | bpf/process.c:835-840 | after 31 opens of one file in a second, opening it again in the next: the warning is due, no line is printed, nothing stays pending |
| `FileSteps.OpenIsExact` | bpf/process.c:492-587 | in every run an open over the limit changes no entry and prints nothing; any other drops exactly the expired entries and reports their repeats, and is then absorbed by the live entry with its hash or else reported and entered if there is room |
| `FileSteps.ExitIsExact` | bpf/process.c:590-638 | in every run an exit leaves no entry of its pid and every other entry, and prints exactly one line for each entry of the pid with a count over 1, with that count, in the order of the table |
| `FileOpens.ExpiredMeans` | bpf/process.c:515-548 | an entry expires more than 60 seconds after it was last seen, and, the subtraction being unsigned, an entry newer than the open expires too unless it is newer by almost the whole range |
| `FileOpens.ExitWarnsIff` | bpf/process.c:762-771 | in every run an exit warns exactly when the pid's last second had more than 30 opens, and only then frees its slot |
| `FileOpens.SweepIsExact` | bpf/process.c:515-549 | a swap-remove sweep removes exactly the entries meant: none skipped, none lost, none invented |
| `FileOpens.FlushOwes` | bpf/process.c:590-632 | what the exit flush prints for a pid is exactly what its sweep takes away |
| `FileOpens.OpensConservedIffNoWrap` | bpf/process.c:492-638 | for any timestamps: printed counts, less one per aggregate line, plus count-1 over live entries, equal the opens that passed the limiter, if and only if no 32-bit count wraps |
| `FileOpens.CounterCanWrap` | bpf/process.c:552-561 | 2^32 opens of one file a second apart wrap its count, and the law fails |
| `FileOpens.FileTables.ShouldRateLimitFile` | bpf/process.c:403-445 | verdict, warning and table are those of the limiter function |
| `FileOpens.FileTables.ClearPendingWarning` | bpf/process.c:762-771 | the exit loop takes the first slot of the pid with a pending warning, by swap |
| `FileOpens.FileTables.GetFileOpenCount` | bpf/process.c:492-587 | count, warning, printed aggregates and both tables, for every open |
| `FileOpens.FileTables.SweepExpired` | bpf/process.c:514-549 | the in-place loop is the sweep, and prints the aggregates of what it removes in order |
| `FileOpens.FileTables.DedupOpen` | bpf/process.c:551-586 | a known hash is counted and silent, a new one is entered if there is room, and printed either way |
| `FileOpens.FileTables.FlushPidFileOpens` | bpf/process.c:590-638 | prints the pid's aggregates in table order and removes exactly the pid's entries |
| `EventFilter.ReportsAreJustified` | bpf/process.c:742-852 | in filter mode, whatever the events and however broken the probe chains, each reported line is about a pid with a finite chain of reasons in the history: seeded, matched by pid, session or command, or its parent tracked when it exec'd |
| `EventFilter.SafeRunsFilterBySet` | bpf/process.c:742-852 | while no exit frees a shared slot, state and every printed line are those of a handler that filters by a set |
| `EventWanted.TrackedIffWanted` | bpf/process_filter.h:131-166 | with the wanted pids defined by the events alone -- seeds, execs that a mode, a session, a pid, a command or a wanted parent lets join, exits that end it, at most 4096 -- in every safe run exactly the wanted pids are tracked |
| `EventWanted.TrackedIffCause` | bpf/process_filter.h:131-166 | while at most 4096 pids were ever seen, a pid is tracked in a safe run if and only if it was seeded or exec'd with a cause that goes back through parents wanted at that moment, and has not exited since |
| `EventWanted.EventIsHandledExactly` | bpf/process.c:742-852 | in every safe run, in all modes, exec, exit, readline and open lines are printed exactly for the pids wanted, with the lines and entries that the exact open and exit demand, and nothing else changes |
| `EventFilter.HandlerConservesOpens` | bpf/process.c:742-852 | the conservation law over everything the handler prints in a run |
| `EventFilter.HandlerLimiterIsHistories` | bpf/process.c:742-852 | the limiter's histories are those of the opens and exits the handler lets through |
| `EventFilter.TableIsRun` | bpf/process.c:720-805 | the handler's table is always the result of a run of adds and removes, so the tracker's results apply |
| `EventFilter.Loader.SeedInitialPids` | bpf/process.c:720-740 | after the loop the table holds all seeds that fit, and the answer is how many pids that makes |
| `EventFilter.SeedsFit` | bpf/process.c:720-740 | the seeded pids are all in the set, or the table is full |
| `EventFilter.Loader.HandleEvent` | bpf/process.c:742-852 | state and printed lines for each kind of event |
| `EventFilter.Loader.ShouldTrackEventProcess` | bpf/process.c:333-343 | session first, then mode, pid, parent and command, as the tracker decides |
| `AggMap.FlushPrintsTotal` | bpf/process_ext/map_flush.h:113-126 | what a full flush prints is all the map counted, and what it leaves counts for nothing |
| `AggMap.SplitByCount` | bpf/process_ext/map_flush.h:113-126 | what a full flush prints are exactly the elements that count, in order with their keys and counts, and what it leaves exactly the others |
| `AggMap.OfPidSelects` | bpf/process_ext/map_flush.h:128-149 | what an exit flush looks at are exactly the elements of the pid, in order |
| `AggMap.DropFirstLeavesOwn` | bpf/process_ext/map_flush.h:140-147 | of its own pid an exit flush leaves exactly the elements after the 256th, in order |
| `AggMap.DropFirstLeavesOthers` | bpf/process_ext/map_flush.h:140-147 | of every other pid it leaves all elements, in order |
| `AggMap.DropFirstTotal` | bpf/process_ext/map_flush.h:128-149 | so the counts printed and yet left in the map are those of the elements left of the pid |
| `AggMap.ExitFlushExactIff` | bpf/process_ext/map_flush.h:128-149 | an exit flush counts nothing twice if and only if the pid has at most 256 keys |
| `AggMap.ExitFlushCanRepeat` | bpf/process_ext/map_flush.h:140-147 | with any more than 256 keys of one pid, each counting one event, it does count twice |
| `AggMap.EventMap.FlushAggMap` | bpf/process_ext/map_flush.h:113-126 | the loop ends although the next-key call restarts after each delete, and prints each counting element once, in order |
| `AggMap.EventMap.FlushPidFromAggMap` | bpf/process_ext/map_flush.h:128-149 | prints all the pid's counting elements and deletes its first 256 |
| `AggProtocol.StepKeeps` | bpf/process_ext/bpf_common.h:36-61 | every step of a CPU or the flusher keeps the protocol's invariant, the ledger among it |
| `AggProtocol.RunKeeps` | bpf/process_ext/map_flush.h:113-181 | the invariant holds after every interleaving |
| `AggProtocol.EveryEventAccounted` | bpf/process_ext/map_flush.h:113-181 | after every step of every interleaving: what is reported or still held to be, updates under way and updates missed together are the events seen plus what was printed for keys left undeleted |
| `AggProtocol.ReportedAtRest` | bpf/process_ext/map_flush.h:113-181 | between flushes, reported or held is what was printed, all counts in the map, and overflow reported and in the counters |
| `AggProtocol.NeverOvercounts` | bpf/process_ext/map_flush.h:113-181 | with at most 256 keys per exit flush no state of any interleaving reports or holds more than was seen |
| `AggProtocol.ExactIffNoWindowUpdate` | bpf/process_ext/map_flush.h:113-181 | and with no update under way it is exactly what was seen if and only if no update fell between a lookup and its delete, through a stale pointer, or inside the overflow reset |
| `AggOwnership.ExitStepTouchesOwn` | bpf/process_ext/map_flush.h:128-149 | in every interleaving no step of an exit flush prints, marks or deletes an element of another pid |
| `AggOwnership.ExitFlushTouchesOwn` | bpf/process_ext/map_flush.h:128-149 | from the start of an exit flush to its end, whatever the CPUs do meanwhile, every line printed is of its pid, and every element of another pid stays with no count lost |
| `AggAlone.ExitFlushAlone` | bpf/process_ext/map_flush.h:128-149 | from any state at rest, an exit flush that nothing interleaves with is the sequential one: prints all the pid's elements that count and leaves the map without its first 256 |
| `AggAlone.FlushAlone` | bpf/process_ext/map_flush.h:113-126 | and so is a flush of the whole map: prints the elements that count and leaves those that do not |
| `AggAlone.UpdateAlone` | bpf/process_ext/bpf_common.h:36-61 | in every run an update that nothing interleaves with counts one more for its key, if the key is there or there is room, and otherwise one more overflow on its CPU |
| `AggAlone.OverflowAlone` | bpf/process_ext/map_flush.h:152-181 | an overflow check that nothing interleaves with reports the sum of the counters and leaves them at zero |
| `AggAlone.CellsAreDistinct` | bpf/process_ext/bpf_common.h:36-61 | in every run no two elements share a cell of the pool |
| `AggWitnesses.UpdateCanBeMissed` | bpf/process_ext/map_flush.h:118-122 | an update between the lookup and the delete: of two events one is reported |
| `AggWitnesses.EventCanBeRepeated` | bpf/process_ext/map_flush.h:135-141 | a 257th key in an exit flush: one event more is reported than was seen |
| `SessionEvidence.EvidenceOfMeans` | agent-session/src/process_match.rs:245-272 | a path is evidence exactly when a member observed or opened it, and observation is the stronger class |
| `SessionEvidence.EvidenceIgnoresOrder` | agent-session/src/process_match.rs:253-266 | reordering or repeating members changes no evidence |
| `SessionEvidence.FreshMeans` | agent-session/src/process_match.rs:274-283 | saturation and clamps do not matter: a process is fresh enough exactly when it did not start more than 30 seconds after the session's end |
| `SessionEvidence.RoundMsIs` | agent-session/src/process_match.rs:301-305 | an age in milliseconds is rounded to the nearest integer, a half up; a negative age counts as none, and only one beyond 64 bits is cut |
| `SessionEvidence.DistanceMeans` | agent-session/src/process_match.rs:285-299 | a pair has a distance exactly when both have the same non-empty directory and a known, fresh enough time, and it is the time between end and start |
| `MatchPhases.CollectMeans` | agent-session/src/process_match.rs:245-272 | what is collected for a root pid is what the members' files of the last process with that pid and with any evidence say, and there is an entry exactly if some process has any |
| `SessionMatcher.CwdPhaseIsStable` | agent-session/src/process_match.rs:120-154 | every pair eligible for the working-directory phase is matched, or one of its sides is matched in that phase through an eligible pair earlier in (distance, latest end, session, process) |
| `MatchPhases.SessionIsLinked` | agent-session/src/process_match.rs:104-118 | in every call the first phase links a session to the first free process that links by its files or its binding, with that evidence, and records it; roots tried in vain lose their binding, and nothing else changes |
| `MatchPhases.FilePhaseIsComplete` | agent-session/src/process_match.rs:104-118 | a session that any process links is matched in the answer, or that process's root was used by a session before it |
| `MatchPhases.FilesAreMatched` | agent-session/src/process_match.rs:91-155 | a session whose log a fresh process of its agent has open or was seen to open, or is bound to while its files name no log, is matched, under the same proviso |
| `MatchPhases.FilesAreEvidence` | agent-session/src/process_match.rs:166-195 | for a root pid of its own, the trace is that of an observed file if one was observed and of an open file otherwise |
| `MatchPhases.LinkedIsBound` | agent-session/src/process_match.rs:174-187 | after a call, a root linked by its files is bound to its start and that session's log |
| `MatchPhases.EligibleIff` | agent-session/src/process_match.rs:120-142 | after the first phase a pair is a candidate exactly when both sides are free, neither files nor a binding speak against it, and directory and time agree |
| `MatchPhases.NoPairIsLeft` | agent-session/src/process_match.rs:120-155 | of a session and a process that could be matched by directory, one is matched in the answer |
| `MatchPhases.CloserPairsWin` | agent-session/src/process_match.rs:136-155 | a candidate pair is matched, or a pair preferred to it -- closer in time, then with the later session end, then first in order -- has its session or root |
| `SessionMatcher.GreedyChoosesOrBlocks` | agent-session/src/process_match.rs:144-153 | each free candidate is chosen, or lost its session or root to one chosen before it |
| `SessionMatcher.CandidateMembers` | agent-session/src/process_match.rs:120-142 | the candidates are exactly the eligible pairs with a distance |
| `SessionMatcher.SortSorts` | agent-session/src/process_match.rs:143-143 | the candidates in order, none lost or doubled |
| `SessionMatcher.AnswersAreExplained` | agent-session/src/process_match.rs:91-154 | every match has its evidence, a root with file evidence only matches a session in it, and no two sessions share a root pid |
| `SessionMatcher.BindingsAreGrounded` | agent-session/src/process_match.rs:157-195 | every binding kept over any sequence of calls comes from file evidence in an earlier call for the same pid, start time and path, with that root live ever since |
| `SessionMatcher.StickyGoesBackToFiles` | agent-session/src/process_match.rs:157-195 | a sticky verdict implies such an earlier call, and the root is live in this one too |
| `SessionMatcher.SessionProcessMatcher.Match` | agent-session/src/process_match.rs:91-155 | answer and remembered bindings are those of the matching function |
| `SessionMatcher.SessionProcessMatcher.FindProcess` | agent-session/src/process_match.rs:105-114 | the first process that links, with every binding tried on the way updated |
| `SessionMatcher.SessionProcessMatcher.LinkProcess` | agent-session/src/process_match.rs:166-195 | evidence binds or unbinds, and without any the binding decides |
| `SessionMatcher.SessionProcessMatcher.CwdCandidates` | agent-session/src/process_match.rs:120-142 | the double loop collects the candidates in order |
| `SessionMatcher.TakeInOrder` | agent-session/src/process_match.rs:144-153 | the loop is the greedy choice |
| `SessionMatcher.CollectPathEvidence` | agent-session/src/process_match.rs:245-272 | the evidence by root pid, the last process of a pid with any evidence counting |
| `SessionMatcher.MemberEvidence` | agent-session/src/process_match.rs:252-266 | the loop over members computes what the evidence means |
| `Utf8.ValidateIsGrammar` | bpf/jsonl.h:24-83 | for a decoder that accepts well-formed characters and rejects bytes out of place, the check answers n > 0 exactly when the first n bytes are one UTF8-char of section 4 of RFC 3629 |
| `Utf8.ValidateIsCharPrefix` | bpf/jsonl.h:24-83 | so its answer does not depend on which such decoder it is |
| `JsonEscape.EmitIsLossless` | bpf/jsonl.h:90-127 | for every byte string a reader that takes escapes as bytes recovers exactly the input |
| `JsonEscape.EmitIsLegal` | bpf/jsonl.h:85-127 | every output is a string body of section 7 of RFC 8259, and valid UTF-8 |
| `JsonEscape.JsonValueIsInputIffUtf8` | bpf/jsonl.h:90-127 | the JSON value of the output is the input if and only if the input is valid UTF-8 |
| `JsonEscape.PassesThroughIff` | bpf/jsonl.h:90-127 | a byte string is printed as it is if and only if it is valid UTF-8 without control characters, DEL, quotes and backslashes |
| `JsonEscape.JsonPrintEscaped` | bpf/jsonl.h:90-127 | the printing loop with its moving index prints that output |
| `JsonMinimal.ConsumedFits` | bpf/jsonl.h:142-156 | the escaped prefix fits with its terminator, and stops short only when the buffer is full to its last two bytes |
| `JsonMinimal.DecodeMinimal` | bpf/jsonl.h:142-156 | what is written reads back as the prefix consumed |
| `JsonMinimal.MinimalIsBodyIff` | bpf/jsonl.h:146-153 | the escape of a string is a legal body if and only if the string is valid UTF-8 with no control characters but newline and tab |
| `JsonMinimal.ConsumedAllIff` | bpf/jsonl.h:146-146 | nothing is cut off exactly when there is room left before the last byte |
| `JsonMinimal.PrefixIsUtf8Iff` | bpf/jsonl.h:146-146 | a prefix of valid UTF-8 is valid exactly when it does not end before a continuation byte |
| `JsonMinimal.EscapedIsBodyIff` | bpf/jsonl.h:142-156 | for any source and buffer size, when what is written is a legal body: with two bytes for each of the source and two more, exactly when the source is valid UTF-8 without raw controls; in a smaller buffer, for such a source, exactly when it is not cut inside a character; in general by the part of the source read |
| `JsonMinimal.CutCharacterIsIllegal` | bpf/jsonl.h:146-153 | the euro sign in a buffer of three bytes comes out as its first byte, which is no body |
| `JsonMinimal.RawControlIsIllegal` | bpf/jsonl.h:152-152 | byte 1 is valid UTF-8 and no body comes of it in any buffer of three bytes or more |
| `JsonMinimal.EscapeInto` | bpf/jsonl.h:142-156 | the loop never writes past the buffer, terminates what it writes, writes the escape of the part it had room for, and that is legal exactly under those conditions |
| `Stacks.JoinFramesIff` | agentpprof/src/profile.rs:455-467 | joining the frames of a stack gives the stack back if and only if no frame is empty |
| `Stacks.SplitJoin` | agentpprof/src/profile.rs:355-365 | frames without semicolons survive joining and splitting |
| `Stacks.FoldedAddKeepsWellFolded` | agentpprof/src/profile.rs:355-365 | while normalised frames have no semicolons, every counter has only stacks that are exactly their frames, and positive weights |
| `FoldedCounter.CounterIsWeight` | agentpprof/src/profile.rs:355-365 | after any entries the counter holds for each non-empty stack exactly the weight of the entries whose normalised, non-empty frames join to it, 0 counting as 1, and no other stack |
| `FlameBuilder.AddStack` | agentpprof/src/profile.rs:620-625 | the walk down a stack's frames makes the nodes that are missing and adds the weight to the root and to exactly the nodes whose path is a prefix of the stack |
| `FlameBuilder.BuildFlameTree` | agentpprof/src/profile.rs:614-628 | the linked nodes form a tree with one node for each path of the flame tree, and each holds the weight of all stacks with its path as a prefix |
| `FlameTree.ValueIsPrefixWeight` | agentpprof/src/profile.rs:614-628 | each node's value is the sum of the weights of all stacks with its path as a prefix |
| `FlameTree.NodesArePrefixes` | agentpprof/src/profile.rs:614-628 | there is a node exactly for each prefix of a stack of positive weight, and the root |
| `FlameTree.ValueIsChildrenPlusEnds` | agentpprof/src/profile.rs:614-628 | a node's value is its children's sum plus the weight of the stacks that end there |
| `FlameTree.DepthIsLongestStack` | agentpprof/src/profile.rs:630-636 | the depth is the number of frames of the longest stack of positive weight |
| `FlameTree.ChildrenTileParent` | agentpprof/src/profile.rs:650-694 | over the reals siblings lie side by side without overlap inside their parent, in any order of drawing |
| `FlameTree.PictureShowsPrefixWeights` | agentpprof/src/profile.rs:650-694 | every rectangle has the node's share of the total as its width and lies inside the picture |
| `FlameTree.PictureNeverOverlaps` | agentpprof/src/profile.rs:650-694 | for the tree of any stacks two rectangles share no width unless one node is an ancestor of the other |
| `FlameTree.SameDepthNeverOverlaps` | agentpprof/src/profile.rs:650-694 | for the tree of any stacks the rectangles of two different nodes at one depth are disjoint |
| `FlameTree.HeaviestFirstIsOrder` | agentpprof/src/profile.rs:658-663 | an order of drawing as assumed exists, for all nodes at once, with heavier children first |
| `FlameTree.RenderChildren` | agentpprof/src/profile.rs:657-693 | the cursor loop gives each child its rectangle |
| `Pprof.StringInterner.WithPprofRoot` | agentpprof/src/profile.rs:152-156 | a new table holds "" at 0 and nothing else |
| `Pprof.StringInterner.Intern` | agentpprof/src/profile.rs:158-166 | ids are stable and injective: a known string keeps its id, a new one goes to the end |
| `Pprof.EncodeProjection` | agentpprof/src/profile.rs:469-531 | following location, function and string ids of each sample leads to its stack's frames leaf first; labels, file names, sample type, unit and default sample type are the right strings, and the time is the one given, or 0 |
| `Pprof.SampleReadsBack` | agentpprof/src/profile.rs:482-513 | in every view a reader gets each stack's frames, root first and rejoined, and its weight up to the 64-bit maximum |
| `Pprof.SampleInvertibleIff` | agentpprof/src/profile.rs:455-513 | stack and weight come back if and only if the stack has no empty frame, the weight fits 64 bits and, in the tasks view, moving the first prompt frame to the leaf changes nothing |
| `Pprof.JoinRootToLeafIff` | agentpprof/src/profile.rs:455-467 | the frames, reordered for the view, rejoin to the stack if and only if none is empty and, in the tasks view, all frames from the first prompt on are the same |
| `Pprof.PromptCanMove` | agentpprof/src/profile.rs:460-465 | in the tasks view the stack of `prompt:a` and `x` does not come back |
| `Pprof.ProfileRebuildsMap` | agentpprof/src/profile.rs:469-531 | for such stacks and weights, so in every view but tasks for all clean stacks, a reader rebuilds exactly the stack-to-weight map |
| `StreamSearch.SearchChunks` | collector/src/binary_resolver.rs:164-193 | the loop with its carry answers yes exactly when a needle occurs somewhere in the bytes read, whatever the non-empty needles and however the file is split |
| `StreamSearch.BinaryEmbedsSsl` | collector/src/binary_resolver.rs:160-194 | for the three markers: yes exactly when the file opens and one of them occurs in it |
| `StreamSearch.ScanIsWholeFileSearch` | collector/src/binary_resolver.rs:164-193 | however the file is split into reads, the answer is yes exactly when a needle occurs somewhere in the bytes read before the end or an error, across boundaries included |
| `StreamSearch.KeepIsLeast` | collector/src/binary_resolver.rs:167-172 | the carry is as short as it can be: with a byte less, a needle cut before its last byte is missed |
| `ProcessTree.FindSslTargetInTree` | collector/src/binary_resolver.rs:273-298 | a target returned is that of the first process in breadth-first order that has one, none returned means no process at any path below the root has one, and the search ends on cyclic data |
| `ProcessTree.AllReached` | collector/src/binary_resolver.rs:273-298 | at every moment each process at a path not after the queue's front is visited or queued |
| `ShellSplit.SplitShell` | agent-session/src/parser.rs:1218-1247 | the loop with its quote and escape flags is the fold |
| `ShellSplit.SplitIsWords` | agent-session/src/parser.rs:1218-1247 | for any mixture of plain, escaped and quoted writing and any gaps, the parts are the line's words |
| `ShellSplit.SplitMeans` | agent-session/src/parser.rs:1218-1247 | a command ends outside quotes and escapes if and only if it is a line of that grammar, and then its parts are the words of the line |
| `ShellSplit.TrailingBackslash` | agent-session/src/parser.rs:1227-1228 | a backslash at the end is ignored |
| `ShellSplit.EndsBehindBackslash` | agent-session/src/parser.rs:1227-1228 | only a final backslash leaves the escape pending |
| `ShellSplit.OpenQuote` | agent-session/src/parser.rs:1229-1234 | a quote left open is closed at the end |
| `ShellSplit.SplitUndoesCommand` | agent-session/src/parser.rs:1218-1247 | splitting the space-join of fully escaped words gives the non-empty words; all of them if and only if none is empty |
| `ShellSplit.PartsFit` | agent-session/src/parser.rs:1218-1247 | no part is empty, and lengths plus one gap between parts stay within the command |
| `ShellSplit.PartsAreNonEmptyWords` | agent-session/src/parser.rs:1218-1247 | a list is the parts of some command if and only if it has no empty word |
| `ProcessChain.InsideIsShorter` | agent-session/src/parser.rs:1189-1196 | a command inside `bash -c` is at least five characters shorter, so nested expansion ends |
| `ProcessChain.CommandProcessChain` | agent-session/src/parser.rs:1164-1166 | the mutually recursive methods end and give the chain |
| `ProcessChain.ProcessChainFromParts` | agent-session/src/parser.rs:1168-1199 | the wrapper and flag loops find the program and the first flagged command |
| `ChainParts.ProgramBehindWrappers` | agent-session/src/parser.rs:1172-1185 | behind any list of wrappers, each with at most one option right behind it, the program is the first part of the rest |
| `ChainParts.PartsAreWrapped` | agent-session/src/parser.rs:1172-1185 | every list of parts is some such wrappers and a rest |
| `ChainParts.ChainBehindWrappers` | agent-session/src/parser.rs:1164-1199 | whatever wrappers stand in front, the chain is empty without a program, and otherwise its process and, for a shell with a flag, the chain of the command behind the first one |
| `ProcessChain.ChainIsShort` | agent-session/src/parser.rs:1164-1199 | a chain has at most a fifth as many processes, rounded up, as its command has characters, and all its processes but the last are shells |
| `ProcessChain.NestedChain` | agent-session/src/parser.rs:1164-1199 | a command quoted into `bash -c` any number of times gives its own chain behind that many shells |
| `SessionCache.NewestFirstSorts` | agent-session/src/types.rs:197-198 | the same candidates, newest first, those of one time in their order of discovery |
| `SessionWindow.NewestIsWindow` | agent-session/src/types.rs:196-207 | the candidates looked at are min(n, clamp(3t, 10, 75)), newest first, none left out newer than one looked at, and those of one time in order of discovery |
| `SessionWindow.UncachedServesWindow` | agent-session/src/types.rs:196-236 | the sessions given are fresh parses from such a window in its order: the first of each display id, and the first t of these |
| `SessionWindow.ServedIsWindow` | agent-session/src/types.rs:184-236 | what is served for a target after a refresh for one as large are the first sessions of the refresh's window |
| `SessionCache.FirstsAre` | agent-session/src/types.rs:204-231 | each session is a fresh parse, display ids are distinct, and no parsed display id is missing |
| `SessionCache.SessionCache.constructor` | agent-session/src/types.rs:180-182 | an empty cache is consistent |
| `SessionCache.SessionCache.SessionOf` | agent-session/src/types.rs:209-222 | from the cache or parsed now, the session is that of a fresh parse, and every entry stays so |
| `SessionCache.SessionCache.Collect` | agent-session/src/types.rs:204-231 | the loop with its early exit gives the first `target` sessions of the uncached result |
| `SessionCache.SessionCache.CollectNewest` | agent-session/src/types.rs:196-232 | gives the uncached result and keeps entries for exactly the files looked at before the target was reached |
| `SessionCache.LookedAtStops` | agent-session/src/types.rs:224-229 | that is the first place with enough sessions, or the end |
| `SessionCache.SessionCache.Refresh` | agent-session/src/types.rs:196-236 | after a refresh the cached sessions are what parsing without a cache gives, with at most 75 entries, all of live paths |
| `SessionCache.SessionCache.DiscoverCached` | agent-session/src/types.rs:184-194 | the answer is the cut of the last refresh's uncached result; when expired or too small, that refresh is this one |
| `SessionCache.LargerTarget` | agent-session/src/types.rs:196-236 | for targets t1 <= t2 on the same candidates the result for t1 is a prefix of that for t2 |
| `SessionCache.ServedIsUncachedIff` | agent-session/src/types.rs:184-194 | what is served after a refresh for a larger target equals uncached parsing if and only if the smaller window did not run out before a new session the larger one has |
| `SessionCache.ServedCanDiffer` | agent-session/src/types.rs:204-207 | ten unparseable newest files and one older session: the two answers differ for targets 1 and 4 |
| `PromptFold.SessionEvents.UpsertPrompt` | agent-session/src/parser.rs:947-966 | the first prompt with the text's hash, or a new one at the end with its own index |
| `PromptFold.SessionEvents.ReportTokens` | agent-session/src/parser.rs:464-490 | a token report goes to the last response if that has none, and otherwise becomes one |
| `PromptFold.SessionEvents.RecordResults` | agent-session/src/parser.rs:402-408 | each result sets the status of the call its id is indexed under |
| `PromptFold.SessionEvents.Parse` | agent-session/src/parser.rs:218-620 | the loop with its current prompt and call index ends in the fold's state |
| `PromptFold.EventsBelong` | agent-session/src/parser.rs:218-620 | prompt i has index i, hashes are distinct, and each tool call and response belongs to the prompt of the user's last text before it, or to the first before any text |
| `PromptFold.IndicesInRange` | agent-session/src/parser.rs:218-620 | no event refers to a prompt that is not there, unless there are none and it refers to the first |
| `PromptFold.PromptsAreTexts` | agent-session/src/parser.rs:947-966 | the prompts' hashes are exactly those of the user's texts |
| `PromptFold.CallsAreLast` | agent-session/src/parser.rs:324-327 | the call index holds, for each call id, the last tool call with it |
| `PromptFold.ResultsReachTheirCalls` | agent-session/src/parser.rs:402-408 | a result changes exactly the status of the last tool calls so far with its ids |
| `PromptHistory.PromptsAreFirstTexts` | agent-session/src/parser.rs:947-966 | the prompts are the user's texts, each hash once, in the order and with the time and the preview of its first text |
| `PromptHistory.ToolsAreCalls` | agent-session/src/parser.rs:218-620 | the tool calls are the calls of the transcript, in order, with their names and ids |
| `PromptHistory.CallsAreObserved` | agent-session/src/parser.rs:324-327 | a call is entered as observed and changes no other |
| `PromptHistory.ReportReachesLast` | agent-session/src/parser.rs:464-490 | a token report changes at most the last response, and of it only the total; otherwise it becomes a response of the current prompt |
| `PromptHistory.RepliesAreAdded` | agent-session/src/parser.rs:218-620 | a reply becomes the last response, and texts, calls and results leave the responses alone |
| `PromptHistory.TokensAreConserved` | agent-session/src/parser.rs:464-490 | after any transcript the tokens of all responses are those reported: none lost, none counted twice |
| `PromptFilter.SessionRecord.ApplyFallbacks` | agentpprof/src/session.rs:180-236 | missing requests, tools and calls are filled in from the summary, all referring to request 0 |
| `Fallbacks.FallbacksFill` | agentpprof/src/session.rs:180-236 | what is there stays; a missing prompt is the preview, missing tools are one observed call for each counted use in order, missing calls one for each model with tokens in order |
| `PromptFilter.SessionRecord.EnsurePrompt` | agentpprof/src/session.rs:39-49 | an empty record gets the bootstrap request, another is untouched |
| `PromptFilter.SessionRecord.FilterByPromptTag` | agentpprof/src/main.rs:303-341 | in place, exactly the requests with the tag are kept, and exactly their events, in order, each changed in nothing but its index and leading to the same request as before |
| `PromptFilter.EnsuredIsInRange` | agentpprof/src/session.rs:32-49 | for any transcript and summary request i then has index i and every event refers to a request that is there, so the fallback to the last request is never taken |
| `PromptFilter.FilterKeepsEvents` | agentpprof/src/main.rs:319-340 | exactly the events of requests with the tag are kept, in order and unchanged but for the index, and each leads to the same request as before |
| `PromptFilter.FilterKeepsRequests` | agentpprof/src/main.rs:304-310 | exactly the requests with the tag are kept, in order |
| `PromptFilter.IndexStaysIff` | agentpprof/src/main.rs:340-340 | request i still has index i if and only if no request without the tag came before one with it |
| `PromptFilter.IndexCanGoStale` | agentpprof/src/main.rs:340-340 | a record whose second request alone has the tag keeps it at place 0 with index 1 |
| `Decimals.ValueOfDigits` | bpf/process_ext/bpf_common.h:81-91 | the digits of a number read back as the number |
| `FdDetail.ReverseDigits` | bpf/process_ext/bpf_common.h:81-91 | twelve characters and eleven rounds are enough for every 32-bit number's digits |
| `FdDetail.FormatFdDetail` | bpf/process_ext/bpf_common.h:64-100 | a buffer of four or more holds the text, cut off if it must be, and a terminator, and the rest as it was; a smaller one is untouched |
| `FdDetail.ParseUndoesFormatIff` | bpf/process_ext/map_flush.h:37-49 | the reader gives any integer cut to a long and wrapped to an int, so gives it back if and only if it is an int |
| `FdDetail.DetailReadsBack` | bpf/process_ext/map_flush.h:37-49 | what the kernel writes for a descriptor into 64 characters is never cut and is read back as that descriptor |
| `FdDetail.WideNumbersPass` | bpf/process_ext/map_flush.h:43-47 | for each descriptor there is another text the reader takes for it |
| `Ipv4Detail.WriteOctet` | bpf/process_ext/bpf_common.h:104-109 | an octet's decimal digits are appended, as many as there is room for |
| `Ipv4Detail.WritePort` | bpf/process_ext/bpf_common.h:133-144 | a port's decimal digits are appended, as many as there is room for |
| `Ipv4Detail.FormatIpv4Port` | bpf/process_ext/bpf_common.h:111-147 | the buffer holds the dotted address and port, cut off if they must be, and a terminator, and the rest as it was |
| `Ipv4Detail.TextIsDotted` | bpf/process_ext/bpf_common.h:111-147 | the text is the four octets, lowest byte first, with dots between them, a colon and the port |
| `Ipv4Detail.ParseUndoesFormat` | bpf/process_ext/bpf_common.h:111-147 | a reader gets address and port back, for all of them |
| `Ipv4Detail.DetailReadsBack` | bpf/process_ext/bpf_common.h:111-147 | also from any buffer of 22 characters or more |
| `Ipv4Detail.TextsAreDistinct` | bpf/process_ext/bpf_common.h:111-147 | two texts are equal if and only if address and port are |

## Left out

- EventFilter.Loader.HandleEvent: the flush of the aggregation map at an exit, which `AggMap.EventMap.FlushPidFromAggMap` models on its own, and the calls that keep the kernel's copy of the tracked pids, are not part of its state and lines.
- Pprof.EncodeProjection: the profile as a value; its protobuf bytes and their compression are library code.
- PidTracker.PidTable.FindEntry: the hash mask is written as the remainder by the table size, a power of two.
- FdDetail.FormatFdDetail: asks for a descriptor other than the least integer, whose negation C leaves undefined.
- FlameTree.PictureShowsPrefixWeights: widths are real numbers, without the rounding of floating point; of the drawing order the pictures need only that every child is drawn once, and the order among equals by name, colours, text and the hiding of tiny rectangles in the SVG are not modelled.
- SessionMatcher.SessionProcessMatcher.Match: the unstable library sort is an insertion sort by the same total key, and ages are real numbers; the floating-point confidences are left out, the evidence classes stand for them.
- SessionCache.SessionCache.Refresh: the library's stable sort is an insertion sort, and parsing depends on path and modification time alone, which is what the cache itself assumes.
- JsonMinimal.EscapeInto: asks for a buffer of at least two bytes; below that the size arithmetic of the source wraps, and no caller passes such a buffer.
- Ipv4Detail.FormatIpv4Port: asks for a buffer of at least one character, where the terminator goes.
- StreamSearch.SearchChunks: asks for non-empty needles, as the fixed list is.
- AggProtocol.EveryEventAccounted: event counts are unbounded, byte totals and timestamps of an element are left out, and each CPU has at most one update under way.
- Counters and the encoder's location tables are values: the source changes them through unique references, so nothing is lost but the update in place; the drawing reads the flame tree as a value. Weights and sums are unbounded.
- PromptFold.SessionEvents.Parse: prompts, tool calls and responses keep the fields that prompt references, statuses and token merging depend on; the decoding of transcript lines into steps, and Gemini's separate loop without call results, are left out.
- A process tree is read as it stands at one moment; processes that come and go during the search are not modelled.
- Loading, attaching and polling eBPF programs, the kernel's map of tracked pids, `/proc`, `readlink`, `getsid`, Docker and `ldd`: what they answer is a parameter or a field of an event.
- The verbose mode of the loader, which prints an open twice when the table of opens is full; verbose is off here.
- The copying of paths and names into fixed buffers in the loader, which cuts long ones; strings are unbounded there.
- The allocation failure in the overflow report, and the formatting of printed lines around the values the model prints.
- Pattern scanning for Chrome and BoringSSL offsets: a first match over constants.
- The SQLite schema, web server, terminal views, command dispatch, analyzers, tagging by regular expression or model, gzip and the Python and frontend code: plumbing, or dependent on libraries.
