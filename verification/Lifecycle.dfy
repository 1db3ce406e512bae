/**
  The persisted status of a record over starts, stops and reconciliation.  "stop_incomplete" is
  sticky and always carries its reason; a variant always names a role that has a pid.
 */
module Lifecycle {
  import opened Options
  import opened Records
  import opened Reconcile

  // ---------------------------------------------------------------------------
  // Start
  // ---------------------------------------------------------------------------

  /** A freshly spawned process: its birth time and job object may be unknown, and it may be gone already. */
  datatype Spawned = Spawned(pid: int, born: Option<real>, job: Option<string>, exited: bool)

  datatype Outcome = Done | NotFound | AlreadyRunning | NotRunning | BadVariant

  /** The role is occupied by a process that is alive and verified to be ours; pid 0 stands for none. */
  predicate IsRunning(rec: Record, role: string, os: Processes) {
    && role in rec.pids && rec.pids[role] != 0
    && PidStatus(os, rec.pids[role], Get(rec.startTimes, role)) == Confirmed
  }

  /** A dictionary entry that is real or absent, never None. */
  function SetOrPop<V>(m: map<string, V>, role: string, value: Option<V>): map<string, V> {
    if value.Some? then m[role := value.value] else m - {role}
  }

  function Started(rec: Record, role: string, variant: Option<string>, proc: Spawned): Record {
    rec.(pids := rec.pids[role := proc.pid], status := if proc.exited then Exited else Running, stopDetail := None,
         teardownRan := false, jobNames := SetOrPop(rec.jobNames, role, proc.job),
         variants := SetOrPop(rec.variants, role, variant), startTimes := SetOrPop(rec.startTimes, role, proc.born))
  }

  /** A start whose contract has no start step. */
  function MarkedReady(rec: Record): Record {
    rec.(status := Ready, teardownRan := false)
  }

  // ---------------------------------------------------------------------------
  // Stop
  // ---------------------------------------------------------------------------

  /** What a stop has learnt by the time it settles the status. */
  datatype Evidence = Evidence(
    verdict: Verdict,          // identity of the tracked pid at entry
    aliveNow: bool,            // the tracked pid, probed afresh
    survivors: bool,           // anything that was attempted is still alive
    treeTruncated: bool,
    jobListTruncated: bool,
    scanCapped: bool,          // the handle scan hit the cap on wedged workers
    scanComplete: bool)

  /** Why a stop cannot claim that everything is gone: the first reason that applies. */
  function Doubt(e: Evidence, killOrphans: bool): Option<StopReason> {
    if e.verdict == Unverifiable && e.aliveNow then Some(IdentityUnverified)
    else if e.survivors then Some(Survivors)
    else if e.treeTruncated then Some(TreeTruncated)
    else if e.jobListTruncated then Some(JobListTruncated)
    else if killOrphans && e.scanCapped then Some(HandleScanExhausted)
    else if killOrphans && !e.scanComplete then Some(OrphanScanIncomplete)
    else None
  }

  /** A stop forgets its role, whatever became of the process. */
  function Forgotten(rec: Record, role: string): Record {
    rec.(pids := rec.pids - {role}, jobNames := rec.jobNames - {role}, variants := rec.variants - {role},
         startTimes := rec.startTimes - {role})
  }

  function Concluded(rec: Record, doubt: Option<StopReason>): Record {
    if doubt.Some? then rec.(status := StopIncomplete, stopDetail := doubt)
    else if rec.pids == map[] && !IsSticky(rec.status) then rec.(status := Stopped, stopDetail := None)
    else rec
  }

  function StoppedRole(rec: Record, role: string, doubt: Option<StopReason>): Record {
    Concluded(Forgotten(rec, role), doubt)
  }

  /** A manager stop for a role without a process: only the sweep for untracked orphans can raise a doubt. */
  function NothingToStop(rec: Record, role: string, doubt: Option<StopReason>): Record {
    Concluded(rec.(variants := rec.variants - {role}), doubt)
  }

  function RolesOf(variants: map<string, string>, variant: string): set<string> {
    set role | role in variants && variants[role] == variant
  }

  /** The role that a manager stop is about; nothing if the variant does not name exactly one, or another one. */
  ghost predicate Resolves(rec: Record, role: Option<string>, variant: Option<string>, target: string) {
    if variant.None? then target == role.GetOr("main")
    else RolesOf(rec.variants, variant.value) == {target} && (role.None? || role.value == target)
  }

  // ---------------------------------------------------------------------------
  // The operations
  // ---------------------------------------------------------------------------

  /** One operation on a record, as the methods below perform it; one that raises changes nothing. */
  datatype Event =
    | StartEvent(role: string, variant: Option<string>, os: Processes, proc: Spawned)
    | ReadyEvent
    | StopEvent(role: string, killOrphans: bool, e: Evidence)
    | NoOpStopEvent(role: string, sweep: Option<StopReason>)
    | ReconcileEvent(w: World)

  function Apply(rec: Record, event: Event): Record {
    match event
    case StartEvent(role, variant, os, proc) =>
      if IsRunning(rec, role, os) then rec else Started(rec, role, variant, proc)
    case ReadyEvent => MarkedReady(rec)
    case StopEvent(role, killOrphans, e) =>
      if role in rec.pids then StoppedRole(rec, role, Doubt(e, killOrphans)) else rec
    case NoOpStopEvent(role, sweep) =>
      if role in rec.pids then rec else NothingToStop(rec, role, sweep)
    case ReconcileEvent(w) => Reconciled(rec, w)
  }

  method Start(files: StateFiles, id: string, role: string, variant: Option<string>, os: Processes, proc: Spawned)
    returns (outcome: Outcome)
    modifies files`records
    ensures id !in old(files.records) <==> outcome == NotFound
    ensures outcome == AlreadyRunning <==> id in old(files.records) && IsRunning(old(files.records)[id], role, os)
    ensures outcome == NotFound || outcome == AlreadyRunning || outcome == Done
    ensures files.records == if outcome != Done then old(files.records)
                             else old(files.records)[id := Started(old(files.records)[id], role, variant, proc)]
    ensures id in old(files.records) ==>
      files.records[id] == Apply(old(files.records)[id], StartEvent(role, variant, os, proc))
  {
    if id !in files.records {
      return NotFound;
    }
    var record := files.records[id];
    var existing := Get(record.pids, role).GetOr(0);
    if existing != 0 {
      var verdict := PidStatus(os, existing, Get(record.startTimes, role));
      if verdict == Confirmed {
        return AlreadyRunning;
      }
    }
    record := record.(pids := record.pids[role := proc.pid]);
    record := record.(status := if proc.exited then Exited else Running, stopDetail := None, teardownRan := false);
    record := record.(jobNames := SetOrPop(record.jobNames, role, proc.job));
    record := record.(variants := SetOrPop(record.variants, role, variant));
    record := record.(startTimes := SetOrPop(record.startTimes, role, proc.born));
    files.records := files.records[id := record];
    return Done;
  }

  /** The start of a contract without a start step: the record is marked usable, and no process runs. */
  method StartWithoutStep(files: StateFiles, id: string) returns (outcome: Outcome)
    modifies files`records
    ensures outcome == if id in old(files.records) then Done else NotFound
    ensures files.records == if outcome != Done then old(files.records)
                             else old(files.records)[id := Apply(old(files.records)[id], ReadyEvent)]
  {
    if id !in files.records {
      return NotFound;
    }
    var record := files.records[id];
    record := record.(status := Ready);
    record := record.(teardownRan := false);
    files.records := files.records[id := record];
    return Done;
  }

  method Stop(files: StateFiles, id: string, role: string, killOrphans: bool, e: Evidence) returns (outcome: Outcome)
    modifies files`records
    ensures outcome == NotFound <==> id !in old(files.records)
    ensures outcome == NotRunning <==> id in old(files.records) && role !in old(files.records)[id].pids
    ensures outcome == NotFound || outcome == NotRunning || outcome == Done
    ensures files.records == if outcome != Done then old(files.records)
                             else old(files.records)[id := StoppedRole(old(files.records)[id], role, Doubt(e, killOrphans))]
    ensures id in old(files.records) ==>
      files.records[id] == Apply(old(files.records)[id], StopEvent(role, killOrphans, e))
  {
    if id !in files.records {
      return NotFound;
    }
    var record := files.records[id];
    if role !in record.pids {
      return NotRunning;
    }
    record := record.(pids := record.pids - {role});
    record := record.(jobNames := record.jobNames - {role});
    record := record.(variants := record.variants - {role});
    record := record.(startTimes := record.startTimes - {role});
    if e.verdict == Unverifiable && e.aliveNow {
      record := record.(status := StopIncomplete, stopDetail := Some(IdentityUnverified));
    } else if e.survivors {
      record := record.(status := StopIncomplete, stopDetail := Some(Survivors));
    } else if e.treeTruncated {
      record := record.(status := StopIncomplete, stopDetail := Some(TreeTruncated));
    } else if e.jobListTruncated {
      record := record.(status := StopIncomplete, stopDetail := Some(JobListTruncated));
    } else if killOrphans && e.scanCapped {
      record := record.(status := StopIncomplete, stopDetail := Some(HandleScanExhausted));
    } else if killOrphans && !e.scanComplete {
      record := record.(status := StopIncomplete, stopDetail := Some(OrphanScanIncomplete));
    } else if record.pids == map[] && record.status != StopIncomplete && record.status != Orphaned {
      record := record.(status := Stopped, stopDetail := None);
    }
    files.records := files.records[id := record];
    return Done;
  }

  /** manager.stop: the variant is resolved first; a role without a process is not an error. */
  method ManagerStop(files: StateFiles, id: string, role: Option<string>, variant: Option<string>, killOrphans: bool,
                     e: Evidence, sweep: Option<StopReason>)
    returns (outcome: Outcome, target: string)
    modifies files`records
    ensures outcome == NotFound <==> id !in old(files.records)
    ensures outcome == BadVariant <==>
      id in old(files.records) && forall t :: !Resolves(old(files.records)[id], role, variant, t)
    ensures outcome == NotFound || outcome == BadVariant || outcome == Done
    ensures outcome != Done ==> files.records == old(files.records)
    ensures outcome == Done ==> var rec := old(files.records)[id];
      && Resolves(rec, role, variant, target)
      && files.records == old(files.records)[id :=
           Apply(rec, if target in rec.pids then StopEvent(target, killOrphans, e) else NoOpStopEvent(target, sweep))]
  {
    target := "";
    if id !in files.records {
      return NotFound, target;
    }
    var record := files.records[id];
    if variant.None? {
      target := role.GetOr("main");
    } else {
      var matches := RolesOf(record.variants, variant.value);
      if |matches| != 1 {
        NotSingle(matches);
        return BadVariant, target;
      }
      target := Single(matches);
      if role.Some? && role.value != target {
        return BadVariant, target;
      }
    }
    assert Resolves(record, role, variant, target);
    if target !in record.pids {
      record := record.(variants := record.variants - {target});
      if sweep.Some? {
        record := record.(status := StopIncomplete, stopDetail := sweep);
      } else if record.pids == map[] && record.status != StopIncomplete && record.status != Orphaned {
        record := record.(status := Stopped, stopDetail := None);
      }
      files.records := files.records[id := record];
      return Done, target;
    }
    outcome := Stop(files, id, target, killOrphans, e);
  }

  lemma NotSingle(matches: set<string>)
    requires |matches| != 1
    ensures forall t :: matches != {t}
  {
  }

  function Single(matches: set<string>): (role: string)
    requires |matches| == 1
    ensures matches == {role}
  {
    var role :| role in matches;
    assert |matches - {role}| == 0;
    assert matches == {role} + (matches - {role});
    assert matches == {role};
    role
  }

  // ---------------------------------------------------------------------------
  // Runs
  // ---------------------------------------------------------------------------

  /** The reason of an incomplete stop is there exactly while the status is. */
  predicate DetailMatches(rec: Record) {
    rec.stopDetail.Some? <==> rec.status == StopIncomplete
  }

  /** Only roles with a pid have a variant or a start time. */
  predicate RolesMatch(rec: Record) {
    rec.variants.Keys <= rec.pids.Keys && rec.startTimes.Keys <= rec.pids.Keys
  }

  /** The one operation that keeps a stale reason: a start without a start step, after an incomplete stop. */
  predicate KeepsStaleReason(rec: Record, event: Event) {
    event.ReadyEvent? && rec.status == StopIncomplete
  }

  lemma BeforeSweepKeeps(rec: Record, w: World)
    ensures var before := BeforeSweep(rec, w);
      && before.variants == rec.variants && before.jobNames == rec.jobNames
      && before.status == (if w.present(rec.path) then rec.status else Orphaned)
      && before.stopDetail == (if w.present(rec.path) || rec.status == Orphaned then rec.stopDetail else None)
  {
    HealAndPruneKeep(rec, w);
    MarkOnStatus(PrunePorts(HealBacking(rec, w), w), w);
  }

  lemma HealAndPruneKeep(rec: Record, w: World)
    ensures var now := PrunePorts(HealBacking(rec, w), w);
      && now.variants == rec.variants && now.jobNames == rec.jobNames && now.path == rec.path
      && now.status == rec.status && now.stopDetail == rec.stopDetail
  {
  }

  lemma MarkOnStatus(rec: Record, w: World)
    ensures var now := MarkOrphan(rec, w);
      && now.variants == rec.variants && now.jobNames == rec.jobNames
      && now.status == (if w.present(rec.path) then rec.status else Orphaned)
      && now.stopDetail == (if w.present(rec.path) || rec.status == Orphaned then rec.stopDetail else None)
  {
  }

  lemma SweepOnStatus(rec: Record, dead: set<string>)
    ensures var now := SweepRoles(rec, dead);
      && now.jobNames == rec.jobNames
      && (dead == {} || IsSticky(rec.status) ==> now.status == rec.status && now.stopDetail == rec.stopDetail)
      && (dead != {} && !IsSticky(rec.status) ==> now.status == Stopped && now.stopDetail.None?)
  {
  }

  lemma PassOnStatus(rec: Record, w: World)
    ensures var now := Reconciled(rec, w);
      && (!w.present(rec.path) ==> now.status == Orphaned)
      && (!w.present(rec.path) && rec.status != Orphaned ==> now.stopDetail.None?)
      && (w.present(rec.path) || rec.status == Orphaned ==>
            if Dead(rec, w) == {} || IsSticky(rec.status) then now.status == rec.status && now.stopDetail == rec.stopDetail
            else now.status == Stopped && now.stopDetail.None?)
  {
    BeforeSweepKeeps(rec, w);
    SweepOnStatus(BeforeSweep(rec, w), Dead(rec, w));
  }

  lemma PassOnRoles(rec: Record, w: World)
    ensures var now := Reconciled(rec, w);
      && now.variants == rec.variants - Dead(rec, w) && now.jobNames == rec.jobNames
  {
    BeforeSweepKeeps(rec, w);
    SweepOnFields(BeforeSweep(rec, w), Dead(rec, w));
    SweepOnStatus(BeforeSweep(rec, w), Dead(rec, w));
  }

  lemma ConcludedOn(rec: Record, doubt: Option<StopReason>)
    ensures DetailMatches(rec) ==> DetailMatches(Concluded(rec, doubt))
    ensures RolesMatch(rec) ==> RolesMatch(Concluded(rec, doubt))
  {
  }

  /** No operation leaves a variant or a start time without its pid. */
  lemma StepKeepsRoles(rec: Record, event: Event)
    requires RolesMatch(rec)
    ensures RolesMatch(Apply(rec, event))
  {
    match event
    case StartEvent(_, _, _, _) =>
    case ReadyEvent =>
    case StopEvent(role, killOrphans, e) => ConcludedOn(Forgotten(rec, role), Doubt(e, killOrphans));
    case NoOpStopEvent(role, sweep) => ConcludedOn(rec.(variants := rec.variants - {role}), sweep);
    case ReconcileEvent(w) =>
      PassOnFields(rec, w);
      PassOnRoles(rec, w);
  }

  /** An operation keeps reason and status in step exactly if it does not keep a stale reason. */
  lemma StepKeepsDetail(rec: Record, event: Event)
    requires DetailMatches(rec)
    ensures DetailMatches(Apply(rec, event)) <==> !KeepsStaleReason(rec, event)
  {
    match event
    case StartEvent(_, _, _, _) =>
    case ReadyEvent =>
    case StopEvent(role, killOrphans, e) => ConcludedOn(Forgotten(rec, role), Doubt(e, killOrphans));
    case NoOpStopEvent(role, sweep) => ConcludedOn(rec.(variants := rec.variants - {role}), sweep);
    case ReconcileEvent(w) => PassOnStatus(rec, w);
  }

  function After(rec: Record, events: seq<Event>): Record {
    if events == [] then rec else Apply(After(rec, events[..|events| - 1]), events[|events| - 1])
  }

  /** Over every run, variants and start times stay within the pids. */
  lemma {:induction false} RolesStayMatched(rec: Record, events: seq<Event>)
    requires RolesMatch(rec)
    ensures RolesMatch(After(rec, events))
    decreases |events|
  {
    if events != [] {
      RolesStayMatched(rec, events[..|events| - 1]);
      StepKeepsRoles(After(rec, events[..|events| - 1]), events[|events| - 1]);
    }
  }

  /** Over every run, a variant that resolves names a role with a pid: stopping it is never a no-op. */
  lemma VariantHasProcess(rec: Record, events: seq<Event>, role: Option<string>, variant: string, target: string)
    requires RolesMatch(rec) && Resolves(After(rec, events), role, Some(variant), target)
    ensures target in After(rec, events).pids && After(rec, events).variants[target] == variant
  {
    RolesStayMatched(rec, events);
    assert target in RolesOf(After(rec, events).variants, variant);
  }

  /** Reason and status are in step at every point exactly if no start without a start step follows an incomplete stop. */
  lemma {:induction false} DetailStaysMatched(rec: Record, events: seq<Event>)
    requires DetailMatches(rec)
    ensures (forall n :: 0 <= n <= |events| ==> DetailMatches(After(rec, events[..n]))) <==>
            (forall n :: 0 <= n < |events| ==> !KeepsStaleReason(After(rec, events[..n]), events[n]))
  {
    if forall n :: 0 <= n < |events| ==> !KeepsStaleReason(After(rec, events[..n]), events[n]) {
      forall n | 0 <= n <= |events| ensures DetailMatches(After(rec, events[..n])) {
        MatchedUpTo(rec, events, n);
      }
    } else {
      var n :| 0 <= n < |events| && KeepsStaleReason(After(rec, events[..n]), events[n]);
      UnmatchedAround(rec, events, n);
    }
  }

  lemma UnmatchedAround(rec: Record, events: seq<Event>, n: nat)
    requires n < |events| && KeepsStaleReason(After(rec, events[..n]), events[n])
    ensures !DetailMatches(After(rec, events[..n])) || !DetailMatches(After(rec, events[..n + 1]))
  {
    if DetailMatches(After(rec, events[..n])) {
      StepKeepsDetail(After(rec, events[..n]), events[n]);
      assert events[..n + 1][..n] == events[..n];
    }
  }

  lemma {:induction false} MatchedUpTo(rec: Record, events: seq<Event>, n: nat)
    requires DetailMatches(rec) && n <= |events|
    requires forall k :: 0 <= k < |events| ==> !KeepsStaleReason(After(rec, events[..k]), events[k])
    ensures DetailMatches(After(rec, events[..n]))
  {
    if n > 0 {
      MatchedUpTo(rec, events, n - 1);
      StepKeepsDetail(After(rec, events[..n - 1]), events[n - 1]);
      assert events[..n][..n - 1] == events[..n - 1];
    }
  }

  /** "stop_incomplete" is left only by a start, or by reconciliation when the path has vanished. */
  lemma IncompleteIsSticky(rec: Record, event: Event)
    requires rec.status == StopIncomplete && Apply(rec, event).status != StopIncomplete
    ensures match event
            case StartEvent(role, _, os, _) => !IsRunning(rec, role, os)
            case ReadyEvent => true
            case StopEvent(_, _, _) => false
            case NoOpStopEvent(_, _) => false
            case ReconcileEvent(w) => !w.present(rec.path) && Apply(rec, event).status == Orphaned
  {
    if event.ReconcileEvent? { PassOnStatus(rec, event.w); }
  }

  /**
    A stop forgets its role and no other, reports its first doubt, and turns the record to
    "stopped" only without a doubt, with no other role left and no sticky status.
   */
  lemma DoubtIsReported(rec: Record, role: string, killOrphans: bool, e: Evidence)
    requires role in rec.pids
    ensures var now := Apply(rec, StopEvent(role, killOrphans, e));
      && (Doubt(e, killOrphans).Some? ==> now.status == StopIncomplete && now.stopDetail == Doubt(e, killOrphans))
      && (now.status == Stopped && rec.status != Stopped ==>
            Doubt(e, killOrphans).None? && rec.pids.Keys == {role} && !IsSticky(rec.status))
      && role !in now.pids && role !in now.variants && role !in now.startTimes && role !in now.jobNames
      && forall other :: other != role ==> Get(now.pids, other) == Get(rec.pids, other)
  {
    var now := Apply(rec, StopEvent(role, killOrphans, e));
    if now.status == Stopped && rec.status != Stopped {
      LastRole(rec.pids, role);
    }
  }

  lemma LastRole(pids: map<string, int>, role: string)
    requires role in pids && pids - {role} == map[]
    ensures pids.Keys == {role}
  {
    assert forall other :: other in pids && other != role ==> other in pids - {role};
  }

  /** Job names are the exception: a dead role keeps its own, so they stay within the pids only if it had none. */
  lemma JobNamesMayOutlivePids(rec: Record, w: World)
    requires rec.jobNames.Keys <= rec.pids.Keys
    ensures Reconciled(rec, w).jobNames.Keys <= Reconciled(rec, w).pids.Keys <==> Dead(rec, w) !! rec.jobNames.Keys
  {
    PassOnFields(rec, w);
    PassOnRoles(rec, w);
    if role :| role in Dead(rec, w) && role in rec.jobNames {
      assert role in Reconciled(rec, w).jobNames && role !in Reconciled(rec, w).pids;
    }
  }

  /** A run in which the claim fails: an incomplete stop, then a start without a start step. */
  lemma StaleReason(rec: Record, role: string, killOrphans: bool, e: Evidence)
    requires role in rec.pids && e.survivors
    ensures var after := After(rec, [StopEvent(role, killOrphans, e), ReadyEvent]);
      after.status == Ready && after.stopDetail.Some? && !DetailMatches(after)
  {
    var events := [StopEvent(role, killOrphans, e), ReadyEvent];
    assert events[..1] == [StopEvent(role, killOrphans, e)];
    assert After(rec, events[..0]) == rec;
    DoubtIsReported(rec, role, killOrphans, e);
    assert After(rec, events[..1]) == Apply(rec, events[0]) by { assert events[..1][..0] == []; }
  }
}
