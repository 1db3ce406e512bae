/**
  Reconciliation of the persisted state with the world: one pass over the records, one over
  the port file.  A pass prunes ports before it sweeps dead roles, so a single pass need not
  be a fixed point; two passes always are.
 */
module Reconcile {
  import opened Options
  import opened Records

  /** What a pass observes; `declared` is the optional callback, with None for an unknown contract. */
  datatype World = World(
    present: string -> bool,
    resolve: string -> string,
    os: Processes,
    declared: Option<string -> Option<set<string>>>)

  // ---------------------------------------------------------------------------
  // One record
  // ---------------------------------------------------------------------------

  predicate IsMislabelled(rec: Record, w: World) {
    rec.backing != Primary && w.resolve(rec.path) == w.resolve(rec.repoRoot)
  }

  function HealBacking(rec: Record, w: World): Record {
    if IsMislabelled(rec, w) then rec.(backing := Primary) else rec
  }

  /** The slots that the contract of `root`, as far as it is known, does not declare. */
  function Undeclared(slots: set<string>, root: string, w: World): set<string> {
    if w.declared.None? || w.declared.value(root).None? then {} else slots - w.declared.value(root).value
  }

  /** Ports are only pruned while the record tracks no process. */
  function StaleSlots(ports: map<string, int>, pids: map<string, int>, root: string, w: World): set<string> {
    if ports == map[] || pids != map[] then {} else Undeclared(ports.Keys, root, w)
  }

  function Stale(rec: Record, w: World): set<string> {
    StaleSlots(rec.ports, rec.pids, rec.repoRoot, w)
  }

  function Dead(rec: Record, w: World): set<string> {
    DeadRoles(rec.pids, rec.startTimes, w.os)
  }

  function PrunePorts(rec: Record, w: World): Record {
    rec.(ports := rec.ports - Stale(rec, w))
  }

  predicate IsLost(rec: Record, w: World) {
    !w.present(rec.path) && rec.status != Orphaned
  }

  function MarkOrphan(rec: Record, w: World): Record {
    if IsLost(rec, w) then rec.(status := Orphaned, stopDetail := None) else rec
  }

  predicate IsDead(role: string, pids: map<string, int>, startTimes: map<string, real>, os: Processes) {
    role in pids && PidStatus(os, pids[role], Get(startTimes, role)) == Refuted
  }

  function DeadRoles(pids: map<string, int>, startTimes: map<string, real>, os: Processes): set<string> {
    set role | role in pids && IsDead(role, pids, startTimes, os)
  }

  predicate IsSticky(s: Status) {
    s == Orphaned || s == StopIncomplete
  }

  /** The statuses that outrank "stopped" stay, with their detail. */
  function Settled(rec: Record): Record {
    if IsSticky(rec.status) then rec else rec.(status := Stopped, stopDetail := None)
  }

  /** Dead roles lose their pid, variant and start time, but keep their job name. */
  function DropRoles(rec: Record, dead: set<string>): Record {
    rec.(pids := rec.pids - dead, variants := rec.variants - dead, startTimes := rec.startTimes - dead)
  }

  function SweepRoles(rec: Record, dead: set<string>): Record {
    DropRoles(if dead == {} then rec else Settled(rec), dead)
  }

  function BeforeSweep(rec: Record, w: World): Record {
    MarkOrphan(PrunePorts(HealBacking(rec, w), w), w)
  }

  function Reconciled(rec: Record, w: World): Record {
    SweepRoles(BeforeSweep(rec, w), Dead(rec, w))
  }

  lemma DropOneMore(rec: Record, done: set<string>, role: string)
    ensures DropRoles(DropRoles(rec, done), {role}) == DropRoles(rec, done + {role})
  {
    MinusTwice(rec.pids, done, {role});
    MinusTwice(rec.variants, done, {role});
    MinusTwice(rec.startTimes, done, {role});
  }

  lemma MinusTwice<V>(m: map<string, V>, a: set<string>, b: set<string>)
    ensures (m - a) - b == m - (a + b)
  {
  }

  lemma MinusNothing<V>(m: map<string, V>)
    ensures m - {} == m
  {
  }

  /** `rec.pids.pop(role)` and its companions, one dead role after the other. */
  method Sweep(rec: Record, dead: set<string>) returns (swept: Record)
    ensures swept == SweepRoles(rec, dead)
  {
    swept := rec;
    ghost var done: set<string> := {};
    var left := dead;
    DropNone(rec);
    while left != {}
      invariant done !! left && done + left == dead
      invariant swept == SweepRoles(rec, done)
    {
      var role :| role in left;
      SweepOneMore(rec, done, role);
      swept := DropRoles(Settled(swept), {role});
      left := left - {role};
      done := done + {role};
    }
    assert done == dead;
  }

  lemma DropNone(rec: Record)
    ensures DropRoles(rec, {}) == rec
  {
    MinusNothing(rec.pids);
    MinusNothing(rec.variants);
    MinusNothing(rec.startTimes);
  }

  lemma SweepOneMore(rec: Record, done: set<string>, role: string)
    ensures DropRoles(Settled(SweepRoles(rec, done)), {role}) == SweepRoles(rec, done + {role})
  {
    assert role in done + {role};
    DropOneMore(Settled(rec), done, role);
    assert Settled(SweepRoles(rec, done)) == DropRoles(Settled(rec), done);
  }

  // ---------------------------------------------------------------------------
  // The two phases
  // ---------------------------------------------------------------------------

  function KeysOf(id: string, slots: set<string>): set<string> {
    set slot | slot in slots :: Key(id, slot)
  }

  /** Whether a pass has anything to do for a record. */
  predicate Touches(rec: Record, w: World) {
    || IsMislabelled(rec, w)
    || Stale(rec, w) != {}
    || IsLost(rec, w)
    || Dead(rec, w) != {}
  }

  function AllReconciled(records: map<string, Record>, w: World): map<string, Record> {
    map id | id in records :: Reconciled(records[id], w)
  }

  /** The port keys that the records give up in phase 1. */
  function StaleKeys(records: map<string, Record>, w: World): set<string> {
    set id, slot | id in records && slot in Stale(records[id], w) :: Key(id, slot)
  }

  function FreedPorts(ports: map<string, int>, ids: set<string>, stale: set<string>): map<string, int> {
    map key | key in ports && Owner(key) in ids && key !in stale :: ports[key]
  }

  method Prune(rec: Record, w: World) returns (now: Record, stale: set<string>)
    ensures now == PrunePorts(rec, w) && stale == Stale(rec, w)
  {
    now, stale := rec, {};
    if rec.ports != map[] && rec.pids == map[] && w.declared.Some? {
      var current := w.declared.value(rec.repoRoot);
      if current.Some? {
        stale := rec.ports.Keys - current.value;
      }
    }
    MinusNothing(rec.ports);
    if stale != {} {
      now := rec.(ports := rec.ports - stale);
    }
  }

  /** The body of the loop of phase 1. */
  method ReconcileOne(rec: Record, w: World) returns (now: Record, stale: set<string>, changed: bool)
    ensures now == Reconciled(rec, w) && stale == Stale(rec, w) && changed == Touches(rec, w)
  {
    var healed := rec;
    changed := false;
    if rec.backing != Primary && w.resolve(rec.path) == w.resolve(rec.repoRoot) {
      healed := rec.(backing := Primary);
      changed := true;
    }
    StageInputs(rec, w);
    assert healed == HealBacking(rec, w);
    now, stale := Prune(healed, w);
    var dead := Dead(rec, w);
    if stale != {} || IsLost(rec, w) || dead != {} {
      changed := true;
    }
    if IsLost(now, w) {
      now := now.(status := Orphaned, stopDetail := None);
    }
    assert now == BeforeSweep(rec, w);
    now := Sweep(now, dead);
  }

  /** No stage changes what the later stages look at. */
  lemma StageInputs(rec: Record, w: World)
    ensures Stale(HealBacking(rec, w), w) == Stale(rec, w)
    ensures IsLost(PrunePorts(HealBacking(rec, w), w), w) == IsLost(rec, w)
  {
  }

  /** The records outside `todo` have been through the loop body `step`; those in it are untouched. */
  ghost predicate Advanced(was: map<string, Record>, now: map<string, Record>, todo: set<string>, step: Record -> Record) {
    && now.Keys == was.Keys
    && forall id :: id in was ==> now[id] == if id in todo then was[id] else step(was[id])
  }

  /** What the loop has collected: the items that `gives` finds in the records outside `todo`. */
  ghost predicate Collected(was: map<string, Record>, items: set<string>, todo: set<string>,
                                     gives: (string, Record) -> set<string>) {
    && (forall id :: id in was && id !in todo ==> gives(id, was[id]) <= items)
    && (forall item :: item in items ==> exists id :: id in was && id !in todo && item in gives(id, was[id]))
  }

  lemma Advance(was: map<string, Record>, now: map<string, Record>, todo: set<string>, step: Record -> Record, id: string)
    requires Advanced(was, now, todo, step) && id in todo && todo <= was.Keys
    ensures Advanced(was, now[id := step(was[id])], todo - {id}, step)
  {
  }

  lemma Collect(was: map<string, Record>, items: set<string>, todo: set<string>,
                   gives: (string, Record) -> set<string>, id: string)
    requires Collected(was, items, todo, gives) && id in todo && todo <= was.Keys
    ensures Collected(was, items + gives(id, was[id]), todo - {id}, gives)
  {
    var more := items + gives(id, was[id]);
    forall item | item in more ensures exists i :: i in was && i !in todo - {id} && item in gives(i, was[i]) {
      if item in items {
        var i :| i in was && i !in todo && item in gives(i, was[i]);
      } else {
        assert id in was && id !in todo - {id} && item in gives(id, was[id]);
      }
    }
  }

  function MarkTouched(w: World): (string, Record) -> set<string> {
    (id: string, rec: Record) => if Touches(rec, w) then {id} else {}
  }

  function GiveStale(w: World): (string, Record) -> set<string> {
    (id: string, rec: Record) => KeysOf(id, Stale(rec, w))
  }

  function ReconcileWith(w: World): Record -> Record {
    (rec: Record) => Reconciled(rec, w)
  }

  /** Phase 1, under the state lock: saves only if it changed something. */
  method SweepRecords(files: StateFiles, w: World) returns (staleKeys: set<string>, changed: bool)
    modifies files`records
    ensures files.records == AllReconciled(old(files.records), w)
    ensures staleKeys == StaleKeys(old(files.records), w)
    ensures changed <==> files.records != old(files.records)
  {
    ghost var was, touched := files.records, {};
    var records;
    records, staleKeys, changed, touched := Loop(files.records, w);
    LoopDone(was, records, staleKeys, touched, w);
    if changed {
      files.records := records;
    }
  }

  method Loop(was: map<string, Record>, w: World)
    returns (records: map<string, Record>, staleKeys: set<string>, changed: bool, ghost touched: set<string>)
    ensures Advanced(was, records, {}, ReconcileWith(w))
    ensures Collected(was, staleKeys, {}, GiveStale(w)) && Collected(was, touched, {}, MarkTouched(w))
    ensures changed <==> touched != {}
  {
    records, staleKeys, changed, touched := was, {}, false, {};
    var todo := was.Keys;
    while todo != {}
      invariant todo <= was.Keys
      invariant Advanced(was, records, todo, ReconcileWith(w))
      invariant Collected(was, staleKeys, todo, GiveStale(w)) && Collected(was, touched, todo, MarkTouched(w))
      invariant changed <==> touched != {}
    {
      var id :| id in todo;
      var rec, slots, touches := ReconcileOne(records[id], w);
      Advance(was, records, todo, ReconcileWith(w), id);
      Collect(was, staleKeys, todo, GiveStale(w), id);
      Collect(was, touched, todo, MarkTouched(w), id);
      records := records[id := rec];
      staleKeys := staleKeys + KeysOf(id, slots);
      touched := touched + if touches then {id} else {};
      changed := changed || touches;
      todo := todo - {id};
    }
  }

  lemma LoopDone(was: map<string, Record>, now: map<string, Record>, keys: set<string>, touched: set<string>, w: World)
    requires Advanced(was, now, {}, ReconcileWith(w))
    requires Collected(was, keys, {}, GiveStale(w)) && Collected(was, touched, {}, MarkTouched(w))
    ensures now == AllReconciled(was, w) && keys == StaleKeys(was, w) && (touched == {} <==> now == was)
  {
    StaleKeysAre(was, keys, w);
    TouchedAre(was, touched, w);
    AllAdvanced(was, now, w);
    NothingTouched(was, w);
  }

  lemma AllAdvanced(was: map<string, Record>, now: map<string, Record>, w: World)
    requires Advanced(was, now, {}, ReconcileWith(w))
    ensures now == AllReconciled(was, w)
  {
    forall id | id in was ensures now[id] == AllReconciled(was, w)[id] {
      assert now[id] == ReconcileWith(w)(was[id]);
    }
  }

  lemma StaleKeysAre(records: map<string, Record>, keys: set<string>, w: World)
    requires Collected(records, keys, {}, GiveStale(w))
    ensures keys == StaleKeys(records, w)
  {
    forall key | key in keys ensures key in StaleKeys(records, w) {
      var id :| id in records && id !in {} && key in GiveStale(w)(id, records[id]);
    }
    forall key | key in StaleKeys(records, w) ensures key in keys {
      var id, slot :| id in records && slot in Stale(records[id], w) && key == Key(id, slot);
      assert key in GiveStale(w)(id, records[id]);
    }
  }

  lemma TouchedAre(records: map<string, Record>, ids: set<string>, w: World)
    requires Collected(records, ids, {}, MarkTouched(w))
    ensures ids == {} <==> forall id :: id in records ==> !Touches(records[id], w)
  {
    if id :| id in records && Touches(records[id], w) {
      assert id in MarkTouched(w)(id, records[id]);
    }
    if id :| id in ids {
      var other :| other in records && id in MarkTouched(w)(other, records[other]);
    }
  }

  lemma SweepOnFields(rec: Record, dead: set<string>)
    ensures var now := SweepRoles(rec, dead);
      && now.repoRoot == rec.repoRoot && now.path == rec.path && now.ports == rec.ports && now.backing == rec.backing
      && now.pids == rec.pids - dead && now.startTimes == rec.startTimes - dead && now.variants == rec.variants - dead
      && (IsSticky(rec.status) ==> now.status == rec.status)
  {
  }

  lemma PassOnFields(rec: Record, w: World)
    ensures var now := Reconciled(rec, w);
      && now.repoRoot == rec.repoRoot && now.path == rec.path
      && now.pids == rec.pids - Dead(rec, w) && now.startTimes == rec.startTimes - Dead(rec, w)
      && now.ports == rec.ports - Stale(rec, w)
  {
    SweepOnFields(BeforeSweep(rec, w), Dead(rec, w));
  }

  lemma PassOnLabels(rec: Record, w: World)
    ensures var now := Reconciled(rec, w);
      && now.backing == (if IsMislabelled(rec, w) then Primary else rec.backing)
      && (IsLost(rec, w) ==> now.status == Orphaned)
      && (!w.present(rec.path) ==> now.status == Orphaned)
  {
    SweepOnFields(BeforeSweep(rec, w), Dead(rec, w));
  }

  lemma Untouched(rec: Record, w: World)
    requires !Touches(rec, w)
    ensures Reconciled(rec, w) == rec
  {
    StageInputs(rec, w);
    MinusNothing(rec.ports);
    assert BeforeSweep(rec, w) == rec;
    DropNone(rec);
  }

  /** Whatever a pass does to a record can be seen in it afterwards. */
  lemma TouchesShow(rec: Record, w: World)
    ensures Reconciled(rec, w) != rec <==> Touches(rec, w)
  {
    var now := Reconciled(rec, w);
    PassOnFields(rec, w);
    PassOnLabels(rec, w);
    if !Touches(rec, w) {
      Untouched(rec, w);
    } else if role :| role in Dead(rec, w) {
      assert role in rec.pids && role !in now.pids;
    } else if slot :| slot in Stale(rec, w) {
      assert slot in rec.ports && slot !in now.ports;
    }
  }

  lemma NothingTouched(records: map<string, Record>, w: World)
    ensures (forall id :: id in records ==> !Touches(records[id], w)) <==> AllReconciled(records, w) == records
  {
    forall id | id in records ensures Reconciled(records[id], w) != records[id] <==> Touches(records[id], w) {
      TouchesShow(records[id], w);
    }
    if id :| id in records && Touches(records[id], w) {
      assert AllReconciled(records, w)[id] != records[id];
    } else {
      assert AllReconciled(records, w) == records;
    }
  }

  /** Phase 2, under the port lock: frees what no record owns and what phase 1 pruned. */
  method FreePorts(files: StateFiles, ids: set<string>, stale: set<string>) returns (freed: set<string>)
    modifies files`ports
    ensures files.ports == FreedPorts(old(files.ports), ids, stale)
    ensures freed == old(files.ports).Keys - files.ports.Keys
  {
    var unowned := set key | key in files.ports && Owner(key) !in ids;
    freed := unowned + stale * files.ports.Keys;
    assert forall key :: key in freed <==> key in files.ports && (Owner(key) !in ids || key in stale);
    if freed != {} {
      files.ports := files.ports - freed;
    }
    assert forall key :: key in files.ports <==> key in FreedPorts(old(files.ports), ids, stale);
    assert files.ports == FreedPorts(old(files.ports), ids, stale);
  }

  function PortsAfter(records: map<string, Record>, ports: map<string, int>, w: World): map<string, int> {
    FreedPorts(ports, records.Keys, StaleKeys(records, w))
  }

  /** One pass of both phases. */
  method Pass(files: StateFiles, w: World)
    modifies files
    ensures files.records == AllReconciled(old(files.records), w)
    ensures files.ports == PortsAfter(old(files.records), old(files.ports), w)
  {
    var stale, _ := SweepRecords(files, w);
    assert files.records.Keys == old(files.records).Keys;
    var _ := FreePorts(files, files.records.Keys, stale);
  }

  // ---------------------------------------------------------------------------
  // Fixed points
  // ---------------------------------------------------------------------------

  /** The record whose last processes all turn out to be dead while it holds undeclared ports. */
  predicate PrunedLate(rec: Record, w: World) {
    && rec.pids != map[]
    && Dead(rec, w) == rec.pids.Keys
    && Undeclared(rec.ports.Keys, rec.repoRoot, w) != {}
  }

  lemma NoneLeftDead(pids: map<string, int>, startTimes: map<string, real>, os: Processes)
    ensures var dead := DeadRoles(pids, startTimes, os); DeadRoles(pids - dead, startTimes - dead, os) == {}
  {
    var dead := DeadRoles(pids, startTimes, os);
    forall role | role in pids - dead ensures !IsDead(role, pids - dead, startTimes - dead, os) {
      assert Get(startTimes - dead, role) == Get(startTimes, role);
    }
  }

  /** The slots found by a second pass, when the first left these ports and these pids. */
  lemma SecondPrune(slots: set<string>, root: string, w: World)
    ensures Undeclared(slots - Undeclared(slots, root, w), root, w) == {}
  {
  }

  lemma LateSlots(rec: Record, w: World)
    ensures Stale(Reconciled(rec, w), w) != {} <==> PrunedLate(rec, w)
  {
    var now, dead := Reconciled(rec, w), Dead(rec, w);
    PassOnFields(rec, w);
    if rec.pids == map[] {
      assert now.ports.Keys == rec.ports.Keys - Stale(rec, w);
      SecondPrune(rec.ports.Keys, rec.repoRoot, w);
    } else {
      MinusNothing(rec.ports);
      NoPidsLeft(rec.pids, dead);
    }
  }

  lemma NoPidsLeft(pids: map<string, int>, dead: set<string>)
    requires dead <= pids.Keys
    ensures pids - dead == map[] <==> dead == pids.Keys
  {
    if role :| role in pids && role !in dead {
      assert role in pids - dead;
    }
  }

  /** A pass leaves a record that another pass touches exactly if it is pruned late, and never a third. */
  lemma RecordSettles(rec: Record, w: World)
    ensures var once := Reconciled(rec, w);
      && (Touches(once, w) <==> PrunedLate(rec, w))
      && !PrunedLate(once, w)
  {
    var once := Reconciled(rec, w);
    PassOnFields(rec, w);
    PassOnLabels(rec, w);
    NoneLeftDead(rec.pids, rec.startTimes, w.os);
    LateSlots(rec, w);
    if once.pids != map[] {
      var role :| role in once.pids;
      assert role !in Dead(once, w);
    }
  }

  predicate AnyPrunedLate(records: map<string, Record>, w: World) {
    exists id :: id in records && PrunedLate(records[id], w)
  }

  lemma RecordsSettle(records: map<string, Record>, w: World)
    ensures AllReconciled(AllReconciled(records, w), w) == AllReconciled(records, w) <==> !AnyPrunedLate(records, w)
    ensures !AnyPrunedLate(AllReconciled(records, w), w)
  {
    var once := AllReconciled(records, w);
    forall id | id in records ensures Touches(once[id], w) <==> PrunedLate(records[id], w)
                              ensures !PrunedLate(once[id], w) {
      RecordSettles(records[id], w);
    }
    NothingTouched(once, w);
    if id :| id in records && PrunedLate(records[id], w) {
      assert id in once && Touches(once[id], w);
    }
  }

  lemma PortsSettle(ports: map<string, int>, ids: set<string>, stale: set<string>)
    ensures FreedPorts(FreedPorts(ports, ids, stale), ids, {}) == FreedPorts(ports, ids, stale)
  {
  }

  lemma NothingStale(records: map<string, Record>, w: World)
    requires AllReconciled(records, w) == records
    ensures StaleKeys(records, w) == {}
  {
    NothingTouched(records, w);
  }

  lemma KeysStay(records: map<string, Record>, w: World)
    ensures AllReconciled(records, w).Keys == records.Keys
  {
  }

  /** When the records no longer change, neither do the ports. */
  lemma PortsFollow(records: map<string, Record>, ports: map<string, int>, w: World)
    requires AllReconciled(AllReconciled(records, w), w) == AllReconciled(records, w)
    ensures PortsAfter(AllReconciled(records, w), PortsAfter(records, ports, w), w) == PortsAfter(records, ports, w)
  {
    KeysStay(records, w);
    NothingStale(AllReconciled(records, w), w);
    PortsSettle(ports, records.Keys, StaleKeys(records, w));
  }

  /** With the world held fixed, reconciliation reaches a fixed point after at most two passes. */
  lemma TwoPassesSettle(records: map<string, Record>, ports: map<string, int>, w: World)
    ensures var records1, ports1 := AllReconciled(records, w), PortsAfter(records, ports, w);
      var records2, ports2 := AllReconciled(records1, w), PortsAfter(records1, ports1, w);
      AllReconciled(records2, w) == records2 && PortsAfter(records2, ports2, w) == ports2
  {
    var records1, ports1 := AllReconciled(records, w), PortsAfter(records, ports, w);
    RecordsSettle(records, w);
    RecordsSettle(records1, w);
    PortsFollow(records1, ports1, w);
  }

  /** One pass is enough if and only if no record is pruned late. */
  lemma OnePassSettles(records: map<string, Record>, ports: map<string, int>, w: World)
    ensures var records1, ports1 := AllReconciled(records, w), PortsAfter(records, ports, w);
      AllReconciled(records1, w) == records1 && PortsAfter(records1, ports1, w) == ports1
      <==> !AnyPrunedLate(records, w)
  {
    RecordsSettle(records, w);
    if !AnyPrunedLate(records, w) {
      PortsFollow(records, ports, w);
    }
  }

  /** Without a declared-slots callback one pass is always enough. */
  lemma OnePassSettlesWithoutCallback(records: map<string, Record>, ports: map<string, int>, w: World)
    requires w.declared.None?
    ensures AllReconciled(AllReconciled(records, w), w) == AllReconciled(records, w)
    ensures PortsAfter(AllReconciled(records, w), PortsAfter(records, ports, w), w) == PortsAfter(records, ports, w)
  {
    OnePassSettles(records, ports, w);
  }

  /** Such a record: its only process is dead, and its only port is no longer declared. */
  lemma PrunedLateExample(rec: Record)
    requires rec.pids == map["main" := 7] && rec.ports == map["web" := 8080] && rec.startTimes == map[]
    ensures PrunedLate(rec, World((p: string) => true, (p: string) => p, Processes((pid: int) => false, (pid: int) => None),
                                  Some((root: string) => Some({}))))
  {
    var os := Processes((pid: int) => false, (pid: int) => None);
    assert "main" in rec.pids && IsDead("main", rec.pids, rec.startTimes, os);
    assert DeadRoles(rec.pids, rec.startTimes, os) == {"main"};
    var w := World((p: string) => true, (p: string) => p, os, Some((root: string) => Some({})));
    assert "web" in Undeclared(rec.ports.Keys, rec.repoRoot, w);
  }
}
