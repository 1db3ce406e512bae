# Verified model of the worktree engine

A Dafny model of the parts of `lib_python_worktree` where mistakes cost processes, ports or
uncommitted work, with proofs about all inputs, all interleavings or all runs of them.

| module | what it models |
|---|---|
| `QueryWorkers` | the bounded-query worker protocol as a state machine over atomic steps: worker threads, the shared slot cell, the one persistent worker slot, the scan lock, and the duplicated handles |
| `StopSequence` | the signalling half of `stop` against a process id that may be recycled while it runs |
| `StopBudget` | how `stop` divides its time, and the loop that signals and kills a tree |
| `ProcessTree` | the snapshot of the descendants of a process |
| `OrphanSweep` | the sweep for untracked orphans and the set it must protect |
| `Lifecycle` | the persisted status over starts, stops and reconciliation |
| `Records`, `Reconcile` | the record, the two state files, and the two locked passes over them |
| `PortAllocator`, `Agreement` | port allocation under its lock, and the manager that keeps records and port file in step |
| `Mojibake`, `BranchHealing` | UTF-8 (section 3 of RFC 3629) against cp1252 and latin-1, and the healing pass |
| `RunLineScanner` | the scanner for doubly evaluated tokens in a PowerShell run line |
| `EncodedTransport` | the `-EncodedCommand` printer and parser: base64 (section 4 of RFC 4648) over UTF-16LE (sections 2.1 and 2.2 of RFC 2781) |
| `Teardown` | the ten removal phases over the original tree and its `.removing` remnant |
| `Options`, `Basics` | the value-or-nothing type; bytes and the size of a subset |

Code that updates state in place is imperative here too: classes for the state files, the
allocator, the manager, the removal, the clock of a stop and its view of the system, and loops
with invariants for the scanner, the tree walk, the sweep, the allocator and the two passes of
reconciliation. Each such method is tied to a specification function or predicate, and the
theorems are about those. What the operating system and git decide (liveness, birth times, renames,
partial deletes, whether a status probe is answered, the order of a shuffle, the end of a wait) is
a parameter, so the theorems quantify over it; where an answer may change from one call to the
next, the parameter is indexed by the call. The worker protocol is a state machine because its
point is interleaving.

## What the proofs found

Places where the code and a natural reading of it, or its own comments, differ. The model follows
the code.

- The documented bound on live scan workers is 9 (`_HANDLE_SCAN_MAX_LIVE_WORKERS`); 8 is never
  exceeded, because a new worker is built only while fewer than 8 slots are claimed
  (`QueryWorkers.ScanThreadsBounded`).
- A duplicated handle is closed twice when the constructor of a *replacement* worker raises: the
  scan's `finally` clause still believes it owns the handle that the retired worker's callback
  will close (`QueryWorkers.DoubleClose`). That is the only way, handle by handle: over every run the
  closes made and owed of a handle are one, plus one if such a construction failed while the scan
  stood at this very handle (`QueryWorkers.DutiesCountFailures`).
- In the same situation a handle is closed while its query is still queued, and the retired thread
  then runs the query on the closed handle (`QueryWorkers.ClosedUnderQuery`). Over every run, a
  handle is closed under a pending query if and only if a replacement construction fails while the
  query on that handle is pending (`QueryWorkers.ClosedWhilePendingIffBuildFailsThen`).
- A stop can kill a stranger's processes in exactly one situation: the tracked pid was dead at
  entry, a stranger took the pid long enough to be snapshotted, and is gone again at the re-check
  (`StopSequence.Os.Stop`, with a run in `StopSequence.PassingStranger`).
- In that dead-at-entry branch the process-group signal never fires, since a dead pid has no group
  to ask for; the comment beside the call says that it reaches surviving members. They are reached
  by the kill loop instead (`StopSequence.Os.Stop`).
- In `_compute_stop_budget` the second operand of the minimum is never the smaller one: the cap on
  the primary wait is 60% of the timeout always (`StopBudget.SharesFit`).
- A tree snapshot shorter than its cap misses somebody in exactly two cases
  (`ProcessTree.ShortSnapshotMisses`): the root is gone while a descendant still names it as
  parent, or the recursive query failed and the walk was cut at the cap. A walk that was cut only
  looks short when the host's own lineage is then removed from it: 255 nodes of a tree of 257 in
  `ProcessTree.CutSnapshotLooksShort`.
- A complete protected set can still have holes. It covers every descendant of the other roles if
  and only if no unprotected process on record is a child of a role whose own process is gone, or
  of a job member below a role (`OrphanSweep.CompleteSetCovers`), and every hole can be hit
  (`OrphanSweep.SweepHitsHole`). In `OrphanSweep.SweepHitsChildOfGoneRole` the sweep for one role
  signals a process that runs below another.
- The sweep's documentation says that it never reports a detail unless it may kill; a race with a
  concurrent start is reported in both modes (`OrphanSweep.Sweep`).
- A start without a start step keeps the reason of an earlier incomplete stop
  (`Lifecycle.StaleReason`); nothing else does (`Lifecycle.DetailStaysMatched`).
- Reconciliation prunes ports before it sweeps dead roles, so a second pass may find more to do:
  exactly for a record whose last processes all turn out dead while it holds undeclared ports
  (`Reconcile.OnePassSettles`, with such a record in `Reconcile.PrunedLateExample`).
- Reconciliation leaves job names behind (`Lifecycle.JobNamesMayOutlivePids`).
- A pass of reconciliation between the two steps of a creation frees the new ports
  (`Agreement.CreationIsNotAtomic`).
- Text behind a standalone `--%` can change the scanner's answer, when an unclosed `${` in front
  of it finds its closing brace there (`RunLineScanner.StopTokenHidesTail`,
  `RunLineScanner.TailMatters`).
- A `git status` that fails counts as no dirt, so uncommitted work can be lost without force. It
  takes two failures in a row, because a probe that returned nothing is repeated: over any number
  of unforced attempts a dirty tree is safe while no two probes in a row go unanswered with the
  checkout in place, and for an unheld checkout without steps it survives exactly then
  (`Teardown.RetryWithoutForce`, with a run that loses the tree in `Teardown.DirtyTreeLost`).
- The comment on the memoised probe promises no more than one `git status` call for each of its two
  phases, and the teardown contract one call for a tree without dirt. A clean tree returns nothing,
  so its probe is repeated: it costs two calls, and four when steps run and leave it clean
  (`Teardown.Removal.Attempt`).

## Model

| member | source | states |
|---|---|---|
| QueryWorkers.StepKeepsStructure | src/lib_python_worktree/core/process_lifecycle.py:1902-1968 | every atomic step of scan, bounded call or worker thread keeps the shape of queues, jobs, the slot and all owners |
| QueryWorkers.ClaimAdds | src/lib_python_worktree/core/process_lifecycle.py:2318-2355 | retiring a worker adds exactly its own job to the claimed and unreleased ones |
| QueryWorkers.ReleaseRemoves | src/lib_python_worktree/core/process_lifecycle.py:2187-2226 | the late decrement takes exactly its own job out again |
| QueryWorkers.OthersKeepClaims | src/lib_python_worktree/core/process_lifecycle.py:2228-2355 | no other step touches the cell or the claims |
| QueryWorkers.CellStaysExact | src/lib_python_worktree/core/process_lifecycle.py:2215-2226 | the cell equals the number of claimed and unreleased jobs after every step, and is positive at every decrement, so the clamp at zero never acts |
| QueryWorkers.CellCountsClaims | src/lib_python_worktree/core/process_lifecycle.py:2187-2355 | the same over every run of every interleaving from the start |
| QueryWorkers.LiveBound | src/lib_python_worktree/core/process_lifecycle.py:1902-1968 | scan workers that are parked or blocked never exceed the wedged-worker cap, whatever the bounded calls have claimed |
| QueryWorkers.ScanThreadsBounded | src/lib_python_worktree/core/process_lifecycle.py:1899-1968 | the same over every run, and strictly below the documented bound |
| QueryWorkers.DutiesConserved | src/lib_python_worktree/core/process_lifecycle.py:2905-2990 | closes made plus closes owed by the loop or a callback are conserved for every handle by every step, except that a failing replacement adds one |
| QueryWorkers.StepKeepsOneClose | src/lib_python_worktree/core/process_lifecycle.py:2897-2990 | exactly one close is made or owed per handle, and stays so through every step but a failing replacement |
| QueryWorkers.DutiesCountFailures | src/lib_python_worktree/core/process_lifecycle.py:1936-1953 | over every run and for each handle: the closes made and owed are one plus the number of replacement constructions that failed on this handle, which is at most one |
| QueryWorkers.HandlesClosedOnceIffBuildsSucceed | src/lib_python_worktree/core/process_lifecycle.py:1936-1953 | all handles together, over every run: one close per handle if and only if no construction of a replacement worker has failed |
| QueryWorkers.NoCloseWhilePending | src/lib_python_worktree/core/process_lifecycle.py:3039-3082 | in a state that the invariant of a handle allows, no action but a failing replacement construction closes the handle while its query is pending; the close is its first while exactly one is made or owed |
| QueryWorkers.ClosedMeansAnswered | src/lib_python_worktree/core/process_lifecycle.py:3039-3082 | over every run in which no replacement construction fails while the query on this handle is pending, the handle has no query queued or running once it has been closed; failures at other handles do not matter |
| QueryWorkers.ClosedWhilePendingIffBuildFailsThen | src/lib_python_worktree/core/process_lifecycle.py:1936-1953 | over every run, a handle is ever closed under a pending query if and only if a replacement construction fails while the query on this handle is pending |
| QueryWorkers.ClosedUnderQuery | src/lib_python_worktree/core/process_lifecycle.py:1936-1953 | a concrete run that closes a handle while its query is queued, and then runs the query |
| QueryWorkers.AllClosedAtRest | src/lib_python_worktree/core/process_lifecycle.py:2905-2990 | over every run, when all jobs have returned and no scan is under way, a handle has been closed once, plus once more if a replacement construction failed on it |
| QueryWorkers.FreeLockMeansOpenSlot | src/lib_python_worktree/core/process_lifecycle.py:1956-1968 | whenever the scan lock is free, the persistent slot holds no closed worker and none with work queued |
| QueryWorkers.DoubleClose | src/lib_python_worktree/core/process_lifecycle.py:1936-1953 | a concrete run in which a failing replacement has one handle closed twice |
| RunLineScanner.NestedInterpreterEnd | src/lib_python_worktree/setup/runner.py:223-229 | where the interpreter at the head of a run line ends, if there is one |
| RunLineScanner.DoubleEvaluatedTokens | src/lib_python_worktree/setup/runner.py:293-363 | the loop over backtick runs, quotes and tokens returns exactly what an automaton finds that reads one character at a time with an escape flag |
| RunLineScanner.BacktickParity | src/lib_python_worktree/setup/runner.py:306-313 | an odd run of backticks escapes what follows it, an even run does not |
| RunLineScanner.EscapedArgumentIsInert | src/lib_python_worktree/setup/runner.py:304-330 | any text with every backtick, double quote and dollar sign escaped gives no token between double quotes, and the quote closes where it should |
| RunLineScanner.EscapedLineHasNoTokens | src/lib_python_worktree/setup/runner.py:293-363 | a whole line of an interpreter and one such argument is never refused |
| RunLineScanner.SingleQuotedArgumentIsInert | src/lib_python_worktree/setup/runner.py:342-346 | any text without a single quote gives no token between single quotes |
| RunLineScanner.StopTokenHidesTail | src/lib_python_worktree/setup/runner.py:356-361 | text behind a standalone stop token has no influence if and only if it holds no closing brace that an open expandable brace in front is waiting for |
| RunLineScanner.TailMatters | src/lib_python_worktree/setup/runner.py:293-363 | two concrete run lines that differ behind the stop token only and give different tokens |
| EncodedTransport.Utf16RoundTrip | src/lib_python_worktree/setup/runner.py:489-489 | decoding UTF-16LE gives back every text, surrogate pairs included |
| EncodedTransport.Base64RoundTrip | src/lib_python_worktree/setup/runner.py:489-489 | strict base64 decoding gives back all bytes |
| EncodedTransport.Base64 | src/lib_python_worktree/core/process_lifecycle.py:1149-1150 | the length of a payload, which is what the cap is compared with |
| EncodedTransport.BlobRoundTrip | src/lib_python_worktree/core/process_lifecycle.py:1149-1170 | decoding a printed payload gives the line without its epilogue if the line has no control character but tab, CR and LF and the payload fits the cap, and nothing otherwise |
| EncodedTransport.DecodeEncodedCommand | src/lib_python_worktree/core/process_lifecycle.py:1199-1222 | the loop replaces every payload behind an accepted flag, left to right, keeps everything else, and reports whether it changed anything |
| EncodedTransport.PrintedByBuild | src/lib_python_worktree/setup/runner.py:483-491 | for every PowerShell prefix that shell resolution can give, the built list is the prefix without its command flag, the encoded flag and the payload |
| EncodedTransport.TransportRoundTrip | src/lib_python_worktree/setup/runner.py:483-491 | decoding a built argument list gives prefix, flag and original line if and only if the line is transportable, and otherwise leaves the list as it was |
| EncodedTransport.BlobsDiffer | src/lib_python_worktree/setup/runner.py:488-489 | two run lines never share a payload |
| Mojibake.Utf8Injective | src/lib_python_worktree/core/yaml_store.py:795-795 | no two names have the same UTF-8 form |
| Mojibake.MojibakeOfAtMostOne | src/lib_python_worktree/core/yaml_store.py:778-804 | across both codecs a stored name is mojibake of at most one live name |
| Mojibake.AsciiIsItsOwnMojibake | src/lib_python_worktree/core/yaml_store.py:1040-1044 | an ASCII name is mojibake of itself and of nothing else |
| Mojibake.MojibakeDoubles | src/lib_python_worktree/core/yaml_store.py:798-802 | corruption keeps the ASCII characters and at least doubles the others |
| Mojibake.HealShortens | src/lib_python_worktree/core/yaml_store.py:1088-1109 | every heal of a non-ASCII name strictly shortens it |
| Mojibake.ChainsEnd | src/lib_python_worktree/core/yaml_store.py:1088-1109 | n heals in a row need two to the n non-ASCII characters to begin with |
| BranchHealing.HealedToLive | src/lib_python_worktree/core/yaml_store.py:1088-1119 | a stored name changes only to a strictly shorter one that git reports for its path |
| BranchHealing.SecondHealIsNoOp | src/lib_python_worktree/core/yaml_store.py:1088-1119 | healing again with the same listing changes nothing |
| BranchHealing.OthersStay | src/lib_python_worktree/core/yaml_store.py:1040-1044 | a record without a branch, or with an ASCII one, is left alone |
| BranchHealing.Index | src/lib_python_worktree/core/yaml_store.py:1082-1086 | of several candidates with one path the last in file order owns it |
| BranchHealing.Heal | src/lib_python_worktree/core/yaml_store.py:1045-1130 | the phase changes branches only, and only of the owners of listed paths; it reports exactly the changed records; a failing save changes and reports nothing |
| Records.PidStatus | src/lib_python_worktree/core/yaml_store.py:191-223 | confirmed means alive with the recorded birth time; unverifiable means alive without one to compare |
| Reconcile.ReconcileOne | src/lib_python_worktree/core/yaml_store.py:858-955 | the body of the first pass: heal, prune, orphan, sweep in this order, and whether anything was done |
| Reconcile.SweepRecords | src/lib_python_worktree/core/yaml_store.py:855-961 | the first pass over all records; it saves exactly when a record changed, and collects exactly the pruned keys |
| Reconcile.FreePorts | src/lib_python_worktree/core/yaml_store.py:983-1004 | the second pass frees the keys of unknown owners and the pruned keys, and no others |
| Reconcile.TouchesShow | src/lib_python_worktree/core/yaml_store.py:862-935 | a pass changes a record if and only if one of its four repairs applies |
| Reconcile.RecordSettles | src/lib_python_worktree/core/yaml_store.py:874-934 | a record is touched by a second pass exactly if its last processes died while it held undeclared ports, and never by a third |
| Reconcile.TwoPassesSettle | src/lib_python_worktree/core/yaml_store.py:854-1004 | with the world held fixed, both files are a fixed point after at most two passes |
| Reconcile.OnePassSettles | src/lib_python_worktree/core/yaml_store.py:854-1004 | one pass is enough if and only if no record is pruned late |
| Reconcile.OnePassSettlesWithoutCallback | src/lib_python_worktree/core/yaml_store.py:880-882 | without a declared-slots callback one pass is enough |
| Reconcile.PrunedLateExample | src/lib_python_worktree/core/yaml_store.py:880-934 | a record for which one pass is not enough |
| PortAllocator.DrawPort | src/lib_python_worktree/core/port_allocator.py:222-236 | whatever the shuffle, a free port is drawn if there is one |
| PortAllocator.ClaimPins | src/lib_python_worktree/core/port_allocator.py:184-216 | pass one claims every pin, or refuses at the first slot whose pin is taken or in use |
| PortAllocator.FindOwner | src/lib_python_worktree/core/port_allocator.py:201-208 | the owner named for a taken port is the other key that holds it |
| PortAllocator.DrawPorts | src/lib_python_worktree/core/port_allocator.py:218-244 | pass two gives every other slot a port of its own, or stops at the slot where the range is exhausted |
| PortAllocator.Allocator.Allocate | src/lib_python_worktree/core/port_allocator.py:163-249 | allocation succeeds exactly when all pins are claimable and at least as many ports are free as slots remain; every pin is honoured, the rest distinct and in range; an error changes nothing |
| PortAllocator.Allocator.Release | src/lib_python_worktree/core/port_allocator.py:269-284 | release removes the keys of the owner, or only those of the given slots |
| PortAllocator.SectionKeepsInjective | src/lib_python_worktree/core/port_allocator.py:170-246 | no locked section ever maps two keys to one port |
| PortAllocator.InjectiveForever | src/lib_python_worktree/core/port_allocator.py:170-246 | the same over every sequence of sections, whoever runs them |
| PortAllocator.SectionChangesOnlyItsOwn | src/lib_python_worktree/core/port_allocator.py:269-284 | a section changes only keys of its own owner and slots, or keys it frees |
| PortAllocator.KeyIsStable | src/lib_python_worktree/core/yaml_store.py:983-1004 | along a run a key changes only in a section that may change it |
| PortAllocator.ReclaimIsNoOp | src/lib_python_worktree/core/port_allocator.py:190-199 | claiming pins that these keys hold already succeeds, in use or not, and changes nothing |
| Agreement.KeyUnique | src/lib_python_worktree/core/yaml_store.py:986-988 | two records never produce the same key |
| Agreement.PortsAreNotShared | src/lib_python_worktree/core/manager.py:847-861 | while the files agree, no two records share a port |
| Agreement.Manager.Create | src/lib_python_worktree/core/manager.py:835-884 | creation keeps the files in step; when allocation or the record fails, both are as before |
| Agreement.Manager.StartPorts | src/lib_python_worktree/core/manager.py:1421-1456 | a start leaves every declared slot with a port and every pin honoured, keeps the other ports, drops undeclared ones of a record without processes, and keeps the files in step |
| Agreement.Manager.PruneUndeclared | src/lib_python_worktree/core/manager.py:1428-1433 | undeclared slots are dropped from both files, and only while no process is tracked |
| Agreement.Manager.Remove | src/lib_python_worktree/core/teardown.py:1152-1158 | a removal leaves no key of its owner |
| Agreement.Manager.ReconcileFiles | src/lib_python_worktree/core/yaml_store.py:874-1004 | reconciliation keeps the files in step |
| Agreement.PassAgrees | src/lib_python_worktree/core/yaml_store.py:976-1004 | what a pass frees in one file it has pruned from the other |
| Agreement.Run | src/lib_python_worktree/core/manager.py:835-884 | any sequential run of create, start, stop, remove and reconcile keeps the files in step |
| Agreement.CreationIsNotAtomic | src/lib_python_worktree/core/manager.py:847-861 | a pass between the two steps of a creation breaks the agreement, unless no port was allocated |
| Lifecycle.Start | src/lib_python_worktree/core/process_lifecycle.py:4253-4378 | a start refuses exactly a confirmed running process, and otherwise records the new one and forgets what was stale |
| Lifecycle.StartWithoutStep | src/lib_python_worktree/core/manager.py:1458-1474 | a start of a contract without a start step marks the record ready and leaves the rest, the stale reason included |
| Lifecycle.Stop | src/lib_python_worktree/core/process_lifecycle.py:5178-5407 | a stop forgets its role and settles the status by the first doubt that applies |
| Lifecycle.ManagerStop | src/lib_python_worktree/core/manager.py:1654-1842 | a variant must name exactly one role; a role without a process is settled by the sweep alone |
| Lifecycle.StepKeepsDetail | src/lib_python_worktree/core/manager.py:1458-1474 | each operation keeps the reason in step with the incomplete status, exactly if it is not a start without a start step after an incomplete stop |
| Lifecycle.DetailStaysMatched | src/lib_python_worktree/core/process_lifecycle.py:5243-5407 | over every run: a reason is present exactly while the status is incomplete, at every point, if and only if no such start occurs |
| Lifecycle.RolesStayMatched | src/lib_python_worktree/core/process_lifecycle.py:5178-5200 | over every run of any operations: variants and start times stay within the pids |
| Lifecycle.IncompleteIsSticky | src/lib_python_worktree/core/process_lifecycle.py:5384-5407 | the incomplete status is left only by a start, or by reconciliation when the path has vanished |
| Lifecycle.DoubtIsReported | src/lib_python_worktree/core/process_lifecycle.py:5243-5407 | a doubt is reported; a record turns to stopped only without one, with no other role left and no sticky status |
| Lifecycle.VariantHasProcess | src/lib_python_worktree/core/manager.py:1654-1668 | after every run, a variant that resolves names a role with a pid, so stopping it is never a no-op |
| Lifecycle.JobNamesMayOutlivePids | src/lib_python_worktree/core/yaml_store.py:921-934 | job names stay within the pids exactly if no dead role had one |
| Lifecycle.StaleReason | src/lib_python_worktree/core/manager.py:1458-1474 | the run that keeps a stale reason |
| ProcessTree.Walk | src/lib_python_worktree/core/process_lifecycle.py:1462-1500 | the walk collects exactly the whole generations of descendants up to the one that reaches the cap, and all of them unless it reaches the cap |
| ProcessTree.Collect | src/lib_python_worktree/core/process_lifecycle.py:1508-1519 | distinct, not excluded, at most 256, and complete unless cut |
| ProcessTree.DepthOf | src/lib_python_worktree/core/process_lifecycle.py:1521-1538 | the memoised depth with its cycle guard is the number of collected ancestors |
| ProcessTree.Snapshot | src/lib_python_worktree/core/process_lifecycle.py:1432-1557 | at most 256 distinct descendants outside the host's lineage, each before its own parent, taken from the answer of the query or else of the walk; all that was found if they are fewer |
| ProcessTree.ShortSnapshotMisses | src/lib_python_worktree/core/process_lifecycle.py:1432-1519 | a corollary of Walk for any root and host: a snapshot below the cap misses a descendant if and only if the root is gone, or the query failed and the walk was cut |
| ProcessTree.ShortSnapshotCovers | src/lib_python_worktree/core/process_lifecycle.py:1508-1519 | for a process that exists, with the host outside its tree, a snapshot below the cap is exactly its tree, even after a walk |
| ProcessTree.CutSnapshotLooksShort | src/lib_python_worktree/core/process_lifecycle.py:1508-1519 | a concrete table for which a snapshot of 255 nodes is incomplete |
| OrphanSweep.ComputeProtected | src/lib_python_worktree/core/process_lifecycle.py:3848-3893 | the protected set holds every other role's pid, known tree and job members, and is complete only if none of them is unknown or cut |
| OrphanSweep.Expand | src/lib_python_worktree/core/process_lifecycle.py:3695-3738 | the blockers found and what their trees add within the budget, never an excluded process |
| OrphanSweep.CompleteSetCovers | src/lib_python_worktree/core/process_lifecycle.py:3848-3893 | a complete protected set covers every descendant of the other roles if and only if it has no hole: no unprotected child of a role that is gone, or of a job member below a role |
| OrphanSweep.CompleteSetCoversWithoutJobs | src/lib_python_worktree/core/process_lifecycle.py:3848-3874 | without job objects: if and only if the process of every role exists or has no unprotected child on record |
| OrphanSweep.UnprotectedIsForeign | src/lib_python_worktree/core/process_lifecycle.py:3848-3893 | outside the protected set there is nobody's role, and outside a complete one without a hole nobody's descendant |
| OrphanSweep.Sweep | src/lib_python_worktree/core/process_lifecycle.py:4058-4160 | exactly the blockers found and what their trees add are signalled, and only in kill mode with a complete set; no process of another role, nothing of the host's lineage, and without a hole nothing below another role; the hint and the reported detail exactly: a race in both modes, else survivors, a partial scan or nothing when it kills, nothing when it probes |
| OrphanSweep.SweepHitsHole | src/lib_python_worktree/core/process_lifecycle.py:4058-4160 | for every hole there is a discovery result for which the sweep signals that process of another role |
| OrphanSweep.GoneSiblingLeavesItsChildren | src/lib_python_worktree/core/process_lifecycle.py:3848-3874 | a concrete table in which a complete set has a hole at the child of a role that is gone |
| OrphanSweep.SweepHitsChildOfGoneRole | src/lib_python_worktree/core/process_lifecycle.py:4058-4160 | on that table the sweep for one role signals a process below another |
| StopBudget.SharesFit | src/lib_python_worktree/core/process_lifecycle.py:455-467 | the three shares never exceed the timeout, and the cap is 60% of it |
| StopBudget.Clock.WaitOrKill | src/lib_python_worktree/core/process_lifecycle.py:1069-1088 | a wait stays within its budget and ends with the process dead or killed |
| StopBudget.Clock.KillProcessTree | src/lib_python_worktree/core/process_lifecycle.py:1732-1754 | every node is signalled in order and either reached, killed or found dead, within the grant |
| StopBudget.Clock.StopSteps | src/lib_python_worktree/core/process_lifecycle.py:4755-5108 | the three kill steps end by the timeout or the floors after the tree kill began, and by the timeout if it began within the cap |
| StopSequence.Os.WaitOrKill | src/lib_python_worktree/core/process_lifecycle.py:1046-1088 | only our own process is ever force-killed, and it is if it outlives the wait |
| StopSequence.Os.RecheckAndSignal | src/lib_python_worktree/core/process_lifecycle.py:4890-4965 | a signal goes only to a process confirmed right before it; a dead pid gets none |
| StopSequence.Os.Stop | src/lib_python_worktree/core/process_lifecycle.py:4749-5065 | a stop hits a stranger, its tree or its group if and only if the pid was free at entry and at the re-check, the stranger came and went in between, and one of the children, walk or group queries asked meanwhile named its kin; what is signalled and killed in each case |
| StopSequence.SnapshotSafety | src/lib_python_worktree/core/process_lifecycle.py:5013-5018 | the snapshots that are kept hold nobody's kin but ours, except in that one situation |
| StopSequence.StrangerThatStaysIsSafe | src/lib_python_worktree/core/process_lifecycle.py:4890-5018 | a stranger that is still there at the re-check is never hit |
| StopSequence.OurProcessIsSignalled | src/lib_python_worktree/core/process_lifecycle.py:4749-4895 | our own living process is signalled |
| StopSequence.PassingStranger | src/lib_python_worktree/core/process_lifecycle.py:4907-4956 | a concrete world in which a stranger is hit |
| Teardown.Removal.Probe | src/lib_python_worktree/core/teardown.py:149-186 | a probe returns nothing if git fails, if there is no checkout and if there is nothing to report, and is counted |
| Teardown.Removal.RealDirt | src/lib_python_worktree/core/teardown.py:374-411 | the verdict follows from at most two probes: the memo if it holds anything, else a fresh one; it never names dirt that is not there, misses real dirt only if every probe it made went unanswered, and makes none under force |
| Teardown.Removal.GateB | src/lib_python_worktree/core/teardown.py:602-621 | refuses before any step runs exactly if there are steps and one of two probes shows real dirt |
| Teardown.Removal.RunTeardownSteps | src/lib_python_worktree/core/teardown.py:658-688 | the steps run at most once per attempt and not after a saved run; the memo is dropped when they ran |
| Teardown.Removal.DirtGate | src/lib_python_worktree/core/teardown.py:974-1007 | refuses exactly when the memo or the probe that replaces it shows real dirt, and leaves the tree whole where it was or in the remnant, saying which |
| Teardown.Removal.StageAndDelete | src/lib_python_worktree/core/teardown.py:1034-1077 | without force a remnant without its original is refused untouched; what is left is part of what was there; an unheld tree is gone |
| Teardown.Removal.FinalGuard | src/lib_python_worktree/core/teardown.py:1131-1149 | anything left on disk is an error that names the remnant |
| Teardown.Removal.Attempt | src/lib_python_worktree/core/teardown.py:1161-1186 | ports are released only when both places are empty; unless two probes in a row go unanswered with the checkout in place, a dirty tree stays whole and is refused; at most four probes, more than two exactly if there are steps that the early gate lets run and a probe returns nothing, none under force; an unheld tree without steps is removed exactly under force or when its probes show no dirt |
| Teardown.RetryWithoutForce | src/lib_python_worktree/core/teardown.py:950-1007 | over any number of unforced attempts and any failing renames, while no two probes in a row go unanswered with the checkout in place, the whole dirty tree is in exactly one place and every attempt is refused; if nothing is held and there are no steps, the tree survives exactly then |
| Teardown.DirtyTreeLost | src/lib_python_worktree/core/teardown.py:227-230 | a run of two attempts without force in which git fails twice and the dirty tree is deleted |
| Teardown.RetryAny | src/lib_python_worktree/core/teardown.py:658-688 | over any attempts the steps complete once per saved marker and once per failed save: at most once when saving succeeds |

## Left out

- The ctypes, psutil, socket, signal and git calls themselves, buffers and NT paths: their answers are parameters.
- YAML and JSON text, file locking internals and temporary files: the two files are maps, saved atomically under a lock.
- Lone surrogates, which Python strings may hold and Dafny's may not: the code refuses to encode them, so neither transport nor healing sees one.
- The tables behind `\w` and the locale: the scanner is proved for every classification of word characters.
- Excess base64 padding, which some interpreter versions accept when decoding: no printed payload has any.
- The registry of handles known to wedge, the per-scan wall budget and the pooled grace time: a wait may run out at any moment in the model.
- The order in which the operating system lists processes, and processes that appear or vanish during one tree walk: snapshots are of a frozen table.
- Job Objects and the orphan scan inside the recycling argument of `stop`: both are keyed by name or path, not by the tracked pid.
- Recycling of the pids inside a snapshotted tree, and recycling of the tracked pid more than once during one stop.
- The 0.1 second poll of a wait: a step is taken to use at most its grant.
- The stop hook and the stops of the tracked roles inside a removal: they do not change the two trees here, and `git worktree prune` and branch deletion follow them out.
- A store that hands out records by reference: every removal attempt loads its record from the saved state.
- `SetupRunner`, log files, environments, plugins, contract parsing and `checkout`: a run of steps is one success or failure with some effect on the tree.
- Messages, reports, `killed_pids`, `stop_attempt` and the other fields that only describe what happened.
- Concurrent starts and stops of one record, which the code detects but does not prevent.
- OrphanSweep.CompleteSetCovers: is about a frozen process table, positive pids and a host that does not run inside the roles it tracks; a role's tree is whatever `ProcessTree.Snapshot` may return on that table.
- StopBudget.Clock.StopSteps: takes the time of each step within its grant as given, so it bounds the schedule and not the operating system.
- Agreement.Manager.StartPorts: leaves out the process that a start spawns, which `Lifecycle.Start` models, and takes the record update of a start as always succeeding.
