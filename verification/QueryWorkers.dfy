/**
  The bounded-query worker protocol: daemon threads that each run one blocking
  query at a time, the shared slot cell that counts the threads nobody waits for
  any more, the single persistent worker slot guarded by the scan lock, and the
  duplicated handles whose closing duty moves between the scan loop and a retired
  worker's callback.

  Every action below is one atomic step of one thread: whatever the program does
  while holding a lock is one step, everything else is cut at each shared access.
  Any number of bounded calls runs beside at most one scan (the scan lock), and a
  time-out may strike at any moment, so the actions cover every interleaving.
 */
module QueryWorkers {
  import opened Options
  import opened Basics

  /** _MAX_WEDGED_HANDLE_WORKERS and _HANDLE_SCAN_MAX_LIVE_WORKERS. */
  const MAX_WEDGED: nat := 8
  const SCAN_MAX_LIVE: nat := 1 + MAX_WEDGED

  datatype Kind = ScanWorker | CallWorker(call: nat)

  datatype Item = Task(job: nat) | Sentinel

  datatype Thread =
    | Parked                              // blocked in queue.get()
    | Running(job: nat)                   // inside fn()
    | Returned(job: nat)                  // fn() is back, the job's lock not yet taken
    | Signalling(job: nat, late: bool)    // result stored, done.set() still to come
    | CallingBack(job: nat)               // abandoned: the callback comes next
    | Releasing(job: nat)                 // abandoned: the decrement comes next
    | Exited

  datatype Worker = Worker(kind: Kind, closed: bool, queue: seq<Item>, thread: Thread)

  /** The per-job state dictionary; `notified` and `released` record the two late duties. */
  datatype Job = Job(worker: nat, handle: Option<nat>, completed: bool, done: bool,
                     abandoned: bool, notified: bool, released: bool)

  /** Where the one scan holding the scan lock stands. */
  datatype Scan =
    | NoScan                                                        // the lock is free
    | AtGate                                                        // before _acquire_scan_worker
    | Ready(worker: nat)                                            // between two handles
    | Holding(worker: nat, handle: nat)                             // the loop owns the handle
    | Waiting(worker: nat, handle: nat, job: nat, stage: nat)       // stage 1 or stage 2 wait
    | Deciding(worker: nat, handle: nat, job: nat)                  // both waits ran out
    | Retiring(worker: nat, handle: nat, job: nat, atCap: bool)     // slot claimed, worker still open
    | Unresolved(worker: nat, handle: nat, atCap: bool)             // submit gave ABANDONED or CAPPED
    | Replacing(handle: nat)                                        // capacity seen, worker not built
    | Stopping                                                      // no usable worker is left

  /** Where one _bounded_call stands. */
  datatype Call =
    | CallReady(worker: nat)
    | CallWaiting(worker: nat, job: nat)
    | CallDeciding(worker: nat, job: nat)
    | CallRetiring(worker: nat, job: nat)
    | CallResolved(worker: nat)
    | CallOver

  /** `closes[h]` counts the CloseHandle calls made on duplicated handle `h`. */
  datatype State = State(workers: seq<Worker>, jobs: seq<Job>, cell: nat, slot: Option<nat>,
                         scan: Scan, calls: seq<Call>, closes: seq<nat>)

  const START := State([], [], 0, None, NoScan, [], [])

  datatype Action =
    | ThreadMoves(worker: nat)
    | BeginScan
    | TakeGate(built: bool)
    | Duplicate
    | CloseOwn
    | ScanSubmits
    | ScanSees
    | ScanTimesOut(grace: bool)
    | ScanDecides
    | ScanRetires
    | ScanReplaces
    | ScanBuilds
    | BuildFails
    | EndScan
    | StartCall
    | CallSubmits(call: nat)
    | CallSees(call: nat)
    | CallTimesOut(call: nat)
    | CallDecides(call: nat)
    | CallRetires(call: nat)
    | CallCloses(call: nat)

  // ---------------------------------------------------------------------------
  // Atomic actions. None means: not enabled in this state.
  // ---------------------------------------------------------------------------

  function NewWorker(kind: Kind): Worker {
    Worker(kind, false, [], Parked)
  }

  function NewJob(worker: nat, handle: Option<nat>): Job {
    Job(worker, handle, false, false, false, false, false)
  }

  function SetWorker(s: State, k: nat, w: Worker): State
    requires k < |s.workers|
  {
    s.(workers := s.workers[k := w])
  }

  function SetJob(s: State, j: nat, x: Job): State
    requires j < |s.jobs|
  {
    s.(jobs := s.jobs[j := x])
  }

  function CloseHandle(s: State, h: nat): State
    requires h < |s.closes|
  {
    s.(closes := s.closes[h := s.closes[h] + 1])
  }

  /** `_closed = True` and the shutdown sentinel posted behind whatever is queued. */
  function CloseWorker(s: State, k: nat): State
    requires k < |s.workers|
  {
    var w := s.workers[k];
    SetWorker(s, k, w.(closed := true, queue := w.queue + [Sentinel]))
  }

  /** One step of the worker loop `_run`. */
  function ThreadStep(s: State, k: nat): Option<State> {
    if k >= |s.workers| then None else
    var w := s.workers[k];
    match w.thread
    case Parked =>
      if w.queue == [] then None
      else if w.queue[0].Sentinel? then Some(SetWorker(s, k, w.(queue := w.queue[1..], thread := Exited)))
      else Some(SetWorker(s, k, w.(queue := w.queue[1..], thread := Running(w.queue[0].job))))
    case Running(j) =>
      Some(SetWorker(s, k, w.(thread := Returned(j))))
    case Returned(j) =>
      if j >= |s.jobs| then None
      else Some(SetJob(SetWorker(s, k, w.(thread := Signalling(j, s.jobs[j].abandoned))),
                       j, s.jobs[j].(completed := true)))
    case Signalling(j, late) =>
      if j >= |s.jobs| then None
      else Some(SetJob(SetWorker(s, k, w.(thread := if late then CallingBack(j) else Parked)),
                       j, s.jobs[j].(done := true)))
    case CallingBack(j) =>
      if j >= |s.jobs| then None else
      var t := SetJob(SetWorker(s, k, w.(thread := Releasing(j))), j, s.jobs[j].(notified := true));
      if s.jobs[j].handle.None? then Some(t)
      else if s.jobs[j].handle.value >= |s.closes| then None
      else Some(CloseHandle(t, s.jobs[j].handle.value))
    case Releasing(j) =>
      if j >= |s.jobs| then None
      else Some(SetJob(SetWorker(s, k, w.(thread := Parked)), j, s.jobs[j].(released := true))
                .(cell := if s.cell == 0 then 0 else s.cell - 1))
    case Exited => None
  }

  /** `_acquire_scan_worker`: reuse, refuse at the cap, or build (which may raise). */
  function Gate(s: State, built: bool): State {
    if s.slot.Some? then s.(scan := Ready(s.slot.value))
    else if s.cell >= MAX_WEDGED || !built then s.(scan := NoScan)
    else s.(workers := s.workers + [NewWorker(ScanWorker)], slot := Some(|s.workers|), scan := Ready(|s.workers|))
  }

  /** `submit` up to the first wait; a closed worker answers ABANDONED at once. */
  function Submit(s: State, k: nat, handle: Option<nat>): State
    requires k < |s.workers|
  {
    var w := s.workers[k];
    SetWorker(s, k, w.(queue := w.queue + [Task(|s.jobs|)])).(jobs := s.jobs + [NewJob(k, handle)])
  }

  /** The retirement decision of `submit` for a job that is not completed. */
  function Claim(s: State, j: nat): State
    requires j < |s.jobs|
  {
    SetJob(s, j, s.jobs[j].(abandoned := true)).(cell := s.cell + 1)
  }

  function ScanStep(s: State, a: Action): Option<State> {
    match (a, s.scan)
    case (BeginScan, NoScan) => Some(s.(scan := AtGate))
    case (TakeGate(built), AtGate) => Some(Gate(s, built))
    case (Duplicate, Ready(k)) => Some(s.(scan := Holding(k, |s.closes|), closes := s.closes + [0]))
    case (CloseOwn, Holding(k, h)) =>
      if h >= |s.closes| then None else Some(CloseHandle(s, h).(scan := Ready(k)))
    case (ScanSubmits, Holding(k, h)) =>
      if k >= |s.workers| then None
      else if s.workers[k].closed then Some(s.(scan := Unresolved(k, h, false)))
      else Some(Submit(s, k, Some(h)).(scan := Waiting(k, h, |s.jobs|, 1)))
    case (ScanSees, Waiting(k, h, j, _)) =>
      if j < |s.jobs| && s.jobs[j].done then Some(s.(scan := Holding(k, h))) else None
    case (ScanTimesOut(grace), Waiting(k, h, j, stage)) =>
      Some(s.(scan := if stage == 1 && grace then Waiting(k, h, j, 2) else Deciding(k, h, j)))
    case (ScanDecides, Deciding(k, h, j)) =>
      if j >= |s.jobs| then None
      else if s.jobs[j].completed then Some(s.(scan := Holding(k, h)))
      else Some(Claim(s, j).(scan := Retiring(k, h, j, s.cell + 1 >= MAX_WEDGED)))
    case (ScanRetires, Retiring(k, h, _, cap)) =>
      if k >= |s.workers| then None else Some(CloseWorker(s, k).(scan := Unresolved(k, h, cap)))
    case (ScanReplaces, Unresolved(_, h, cap)) =>
      Some(s.(slot := None, scan := if !cap && s.cell < MAX_WEDGED then Replacing(h) else Stopping))
    case (ScanBuilds, Replacing(_)) =>
      Some(s.(workers := s.workers + [NewWorker(ScanWorker)], slot := Some(|s.workers|), scan := Ready(|s.workers|)))
    case (BuildFails, Replacing(h)) =>
      // The constructor's exception leaves _bounded_query while the caller still
      // believes it owns the handle: its finally clause closes it.
      if h >= |s.closes| then None else Some(CloseHandle(s, h).(scan := NoScan))
    case (EndScan, Ready(_)) => Some(s.(scan := NoScan))
    case (EndScan, Stopping) => Some(s.(scan := NoScan))
    case _ => None
  }

  function SetCall(s: State, c: nat, x: Call): State
    requires c < |s.calls|
  {
    s.(calls := s.calls[c := x])
  }

  function CallStep(s: State, a: Action, c: nat): Option<State> {
    if c >= |s.calls| then None else
    match (a, s.calls[c])
    case (CallSubmits(_), CallReady(k)) =>
      if k >= |s.workers| then None else Some(SetCall(Submit(s, k, None), c, CallWaiting(k, |s.jobs|)))
    case (CallSees(_), CallWaiting(k, j)) =>
      if j < |s.jobs| && s.jobs[j].done then Some(SetCall(s, c, CallResolved(k))) else None
    case (CallTimesOut(_), CallWaiting(k, j)) => Some(SetCall(s, c, CallDeciding(k, j)))
    case (CallDecides(_), CallDeciding(k, j)) =>
      if j >= |s.jobs| then None
      else if s.jobs[j].completed then Some(SetCall(s, c, CallResolved(k)))
      else Some(SetCall(Claim(s, j), c, CallRetiring(k, j)))
    case (CallRetires(_), CallRetiring(k, _)) =>
      if k >= |s.workers| then None else Some(SetCall(CloseWorker(s, k), c, CallOver))
    case (CallCloses(_), CallResolved(k)) =>
      if k >= |s.workers| then None else Some(SetCall(CloseWorker(s, k), c, CallOver))
    case _ => None
  }

  function Step(s: State, a: Action): Option<State> {
    match a
    case ThreadMoves(k) => ThreadStep(s, k)
    case StartCall =>
      Some(s.(workers := s.workers + [NewWorker(CallWorker(|s.calls|))],
              calls := s.calls + [CallReady(|s.workers|)]))
    case CallSubmits(c) => CallStep(s, a, c)
    case CallSees(c) => CallStep(s, a, c)
    case CallTimesOut(c) => CallStep(s, a, c)
    case CallDecides(c) => CallStep(s, a, c)
    case CallRetires(c) => CallStep(s, a, c)
    case CallCloses(c) => CallStep(s, a, c)
    case _ => ScanStep(s, a)
  }

  /** `run` leads from `s` to `t`: every action of it is enabled when its turn comes. */
  predicate Leads(s: State, run: seq<Action>, t: State)
    decreases |run|
  {
    if run == [] then s == t
    else Step(s, run[0]).Some? && Leads(Step(s, run[0]).value, run[1..], t)
  }

  // ---------------------------------------------------------------------------
  // What the program promises
  // ---------------------------------------------------------------------------

  /** The abandoned jobs whose slot has been claimed and not yet given back. */
  ghost function Claimed(s: State): set<nat> {
    set j | 0 <= j < |s.jobs| && s.jobs[j].abandoned && !s.jobs[j].released
  }

  /** A thread waiting for work that may still come. */
  predicate IsParked(w: Worker) {
    w.thread.Parked? && w.queue == []
  }

  /** A thread inside a query, or with one that it has not reported yet. */
  predicate IsBlocked(w: Worker) {
    w.thread.Running? || w.thread.Returned? || (w.queue != [] && w.queue[0].Task?)
  }

  ghost function LiveScanWorkers(s: State): set<nat> {
    set k | 0 <= k < |s.workers| && s.workers[k].kind.ScanWorker? && (IsParked(s.workers[k]) || IsBlocked(s.workers[k]))
  }

  /** The query on handle `h` is queued or its thread is still inside it. */
  ghost predicate QueryPending(s: State, h: nat) {
    exists j :: 0 <= j < |s.jobs| && s.jobs[j].handle == Some(h) && !s.jobs[j].completed
  }

  /** The scan loop is responsible for closing `h`. */
  predicate LoopOwns(scan: Scan, h: nat) {
    (scan.Holding? || scan.Waiting? || scan.Deciding?) && scan.handle == h
  }

  /** The retired workers' callbacks that still owe a close of `h`. */
  ghost function Owing(s: State, h: nat): set<nat> {
    set j | 0 <= j < |s.jobs| && s.jobs[j].handle == Some(h) && s.jobs[j].abandoned && !s.jobs[j].notified
  }

  /** Closes made plus closes still owed, over all owners of `h`. */
  ghost function CloseDuties(s: State, h: nat): nat
    requires h < |s.closes|
  {
    s.closes[h] + (if LoopOwns(s.scan, h) then 1 else 0) + |Owing(s, h)|
  }

  /** Exactly one close per handle has been made or is owed, by exactly one owner. */
  ghost predicate OneCloseEach(s: State) {
    forall h :: 0 <= h < |s.closes| ==> CloseDuties(s, h) == 1
  }

  // ---------------------------------------------------------------------------
  // The invariant
  // ---------------------------------------------------------------------------

  predicate QueueShape(q: seq<Item>) {
    || q == []
    || q == [Sentinel]
    || (|q| == 1 && q[0].Task?)
    || (|q| == 2 && q[0].Task? && q[1].Sentinel?)
  }

  /** The thread is at or on its way to queue.get(), with no late duty left. */
  predicate AtRest(t: Thread) {
    t.Parked? || (t.Signalling? && !t.late)
  }

  predicate ThreadJobOk(ws: seq<Worker>, js: seq<Job>, k: nat)
    requires k < |ws|
  {
    var t := ws[k].thread;
    t.Parked? || t.Exited? ||
    (t.job < |js| && js[t.job].worker == k &&
     var x := js[t.job];
     match t
     case Signalling(_, late) => x.completed && !x.done && x.abandoned == late && !x.notified && !x.released
     case CallingBack(_) => x.completed && x.done && x.abandoned && !x.notified && !x.released
     case Releasing(_) => x.completed && x.done && x.abandoned && x.notified && !x.released
     case _ => !x.completed)
  }

  predicate WorkerOk(ws: seq<Worker>, js: seq<Job>, k: nat)
    requires k < |ws|
  {
    var w := ws[k];
    && QueueShape(w.queue)
    && (w.queue != [] && w.queue[0].Task? ==>
          AtRest(w.thread) && w.queue[0].job < |js| && js[w.queue[0].job].worker == k && !js[w.queue[0].job].completed)
    && (w.thread.Exited? ==> w.queue == [])
    && (w.closed <==> w.thread.Exited? || (w.queue != [] && w.queue[|w.queue| - 1].Sentinel?))
    && ThreadJobOk(ws, js, k)
  }

  /** Where job `j` is: queued, with its thread, or finished. */
  predicate JobOk(ws: seq<Worker>, js: seq<Job>, j: nat)
    requires j < |js|
  {
    var x := js[j];
    && x.worker < |ws|
    && (x.handle.Some? <==> ws[x.worker].kind.ScanWorker?)
    && var w := ws[x.worker];
    && (!x.completed ==> !x.done && !x.notified && !x.released
                         && (w.thread == Running(j) || w.thread == Returned(j) || (w.queue != [] && w.queue[0] == Task(j))))
    && (x.completed && x.abandoned && !x.released ==>
          w.thread == Signalling(j, true) || w.thread == CallingBack(j) || w.thread == Releasing(j))
    && (x.notified ==> x.abandoned && x.completed)
    && (x.released ==> x.notified)
  }

  predicate WorkersOk(ws: seq<Worker>, js: seq<Job>) {
    forall k :: 0 <= k < |ws| ==> WorkerOk(ws, js, k)
  }

  predicate JobsOk(ws: seq<Worker>, js: seq<Job>) {
    forall j :: 0 <= j < |js| ==> JobOk(ws, js, j)
  }

  /** A client has claimed the slot for `j` and is about to close its worker `k`. */
  predicate RetiringJob(s: State, k: nat, j: nat)
    requires k < |s.workers|
  {
    match s.workers[k].kind
    case ScanWorker => s.scan.Retiring? && s.scan.job == j
    case CallWorker(c) => c < |s.calls| && s.calls[c] == CallRetiring(k, j)
  }

  /** Handles exist, and an abandoned job's worker is closed or just about to be. */
  predicate ClientsOk(s: State) {
    forall j :: 0 <= j < |s.jobs| ==>
      && s.jobs[j].worker < |s.workers|
      && (s.jobs[j].handle.Some? ==> s.jobs[j].handle.value < |s.closes|)
      && (s.jobs[j].abandoned ==> s.workers[s.jobs[j].worker].closed || RetiringJob(s, s.jobs[j].worker, j))
  }

  /** Nothing queued, nothing unfinished: the worker can take a job. */
  predicate Idle(w: Worker) {
    !w.closed && w.queue == [] && AtRest(w.thread)
  }

  /** `k` is open and `j` is its only query that may still be unreported. */
  predicate OnlyPending(ws: seq<Worker>, js: seq<Job>, k: nat, j: nat) {
    && k < |ws| && !ws[k].closed
    && j < |js| && js[j].worker == k
    && (forall i :: 0 <= i < |js| && js[i].worker == k && !js[i].completed ==> i == j)
  }

  predicate AwaitedBy(ws: seq<Worker>, js: seq<Job>, k: nat, j: nat) {
    OnlyPending(ws, js, k, j) && !js[j].abandoned
  }

  predicate SlotHolds(s: State, k: nat) {
    s.slot == Some(k) && k < |s.workers| && s.workers[k].kind.ScanWorker?
  }

  predicate ScanOk(s: State) {
    match s.scan
    case NoScan => s.slot.Some? ==> SlotHolds(s, s.slot.value) && Idle(s.workers[s.slot.value])
    case AtGate => s.slot.Some? ==> SlotHolds(s, s.slot.value) && Idle(s.workers[s.slot.value])
    case Ready(k) => SlotHolds(s, k) && Idle(s.workers[k])
    case Holding(k, h) => SlotHolds(s, k) && Idle(s.workers[k]) && h < |s.closes|
    case Waiting(k, h, j, _) =>
      SlotHolds(s, k) && AwaitedBy(s.workers, s.jobs, k, j) && s.jobs[j].handle == Some(h) && h < |s.closes|
    case Deciding(k, h, j) =>
      SlotHolds(s, k) && AwaitedBy(s.workers, s.jobs, k, j) && s.jobs[j].handle == Some(h) && h < |s.closes|
    case Retiring(k, h, j, _) =>
      SlotHolds(s, k) && h < |s.closes| && OnlyPending(s.workers, s.jobs, k, j) && s.jobs[j].abandoned
    case Unresolved(k, h, _) => SlotHolds(s, k) && h < |s.closes| && s.workers[k].closed
    case Replacing(h) => s.slot.None? && h < |s.closes|
    case Stopping => s.slot.None?
  }

  /** Only the slot's worker may be open, and an unabandoned pending query is the awaited one. */
  predicate ScanWorkersOk(s: State) {
    && (forall k :: 0 <= k < |s.workers| && s.workers[k].kind.ScanWorker? && s.slot != Some(k) ==> s.workers[k].closed)
    && (forall j :: 0 <= j < |s.jobs| && s.jobs[j].handle.Some? && !s.jobs[j].completed && !s.jobs[j].abandoned ==>
          (s.scan.Waiting? || s.scan.Deciding?) && s.scan.job == j)
  }

  predicate CallOk(ws: seq<Worker>, js: seq<Job>, c: nat, x: Call) {
    match x
    case CallReady(k) => CallOwns(ws, c, k) && Idle(ws[k])
    case CallWaiting(k, j) => CallOwns(ws, c, k) && AwaitedBy(ws, js, k, j)
    case CallDeciding(k, j) => CallOwns(ws, c, k) && AwaitedBy(ws, js, k, j)
    case CallRetiring(k, j) => CallOwns(ws, c, k) && OnlyPending(ws, js, k, j) && js[j].abandoned
    case CallResolved(k) => CallOwns(ws, c, k) && Idle(ws[k])
    case CallOver => true
  }

  predicate CallOwns(ws: seq<Worker>, c: nat, k: nat) {
    k < |ws| && ws[k].kind == CallWorker(c)
  }

  predicate CallsOk(ws: seq<Worker>, js: seq<Job>, calls: seq<Call>) {
    forall c :: 0 <= c < |calls| ==> CallOk(ws, js, c, calls[c])
  }

  /** The scan jobs among the claimed ones: what the capacity checks really bound. */
  ghost function ScanClaims(s: State): set<nat> {
    set j | 0 <= j < |s.jobs| && s.jobs[j].handle.Some? && s.jobs[j].abandoned && !s.jobs[j].released
  }

  /** A worker is built below the cap only, so an open slot leaves room for its own claim. */
  ghost predicate CapacityOk(s: State) {
    && |ScanClaims(s)| <= MAX_WEDGED
    && ((s.slot.Some? && !s.scan.Retiring? && !s.scan.Unresolved?) || s.scan.Replacing? ==> |ScanClaims(s)| < MAX_WEDGED)
    && (s.scan.Retiring? ==> |ScanClaims(s) - {s.scan.job}| < MAX_WEDGED)
  }

  predicate Structure(s: State) {
    && WorkersOk(s.workers, s.jobs)
    && JobsOk(s.workers, s.jobs)
    && ClientsOk(s)
    && ScanOk(s)
    && ScanWorkersOk(s)
    && CallsOk(s.workers, s.jobs, s.calls)
  }

  ghost predicate Invariant(s: State) {
    Structure(s) && s.cell == |Claimed(s)| && CapacityOk(s)
  }

  // ---------------------------------------------------------------------------
  // Every step keeps the structure
  // ---------------------------------------------------------------------------

  /** An idle worker has no query that is still open. */
  lemma IdleHasNoPendingJob(ws: seq<Worker>, js: seq<Job>, k: nat)
    requires JobsOk(ws, js) && k < |ws| && Idle(ws[k])
    ensures forall i :: 0 <= i < |js| && js[i].worker == k ==> js[i].completed
  {
    forall i | 0 <= i < |js| && js[i].worker == k ensures js[i].completed {
      assert JobOk(ws, js, i);
    }
  }

  /** Once the awaited query is reported, its worker is idle again. */
  lemma ResolvedIsIdle(s: State, k: nat, j: nat)
    requires Structure(s) && AwaitedBy(s.workers, s.jobs, k, j) && s.jobs[j].completed
    requires forall i :: 0 <= i < |s.jobs| ==> !RetiringJob(s, k, i)
    ensures Idle(s.workers[k])
  {
    assert WorkerOk(s.workers, s.jobs, k);
  }

  /** A change to one worker and one of its jobs has to be checked at that worker only. */
  lemma LocalChange(ws: seq<Worker>, js: seq<Job>, k: nat, w: Worker, j: nat, x: Job)
    requires WorkersOk(ws, js) && JobsOk(ws, js)
    requires k < |ws| && w.kind == ws[k].kind
    requires j < |js| ==> js[j].worker == k && x.worker == k && x.handle == js[j].handle
    requires var vs, ys := ws[k := w], if j < |js| then js[j := x] else js;
      && WorkerOk(vs, ys, k)
      && forall i :: 0 <= i < |ys| && ys[i].worker == k ==> JobOk(vs, ys, i)
    ensures var vs, ys := ws[k := w], if j < |js| then js[j := x] else js; WorkersOk(vs, ys) && JobsOk(vs, ys)
  {
    var vs, ys := ws[k := w], if j < |js| then js[j := x] else js;
    forall i | 0 <= i < |vs| ensures WorkerOk(vs, ys, i) {
      assert WorkerOk(ws, js, i);
    }
    forall i | 0 <= i < |ys| ensures JobOk(vs, ys, i) {
      assert JobOk(ws, js, i);
    }
  }

  lemma ThreadTakes(s: State, k: nat)
    requires Structure(s) && ThreadStep(s, k).Some? && s.workers[k].thread.Parked?
    ensures var t := ThreadStep(s, k).value; WorkersOk(t.workers, t.jobs) && JobsOk(t.workers, t.jobs)
  {
    var t := ThreadStep(s, k).value;
    assert WorkerOk(s.workers, s.jobs, k);
    forall i | 0 <= i < |t.jobs| && t.jobs[i].worker == k ensures JobOk(t.workers, t.jobs, i) {
      assert JobOk(s.workers, s.jobs, i);
    }
    LocalChange(s.workers, s.jobs, k, t.workers[k], |s.jobs|, NewJob(k, None));
  }

  lemma ThreadReturns(s: State, k: nat)
    requires Structure(s) && ThreadStep(s, k).Some? && s.workers[k].thread.Running?
    ensures var t := ThreadStep(s, k).value; WorkersOk(t.workers, t.jobs) && JobsOk(t.workers, t.jobs)
  {
    var t := ThreadStep(s, k).value;
    var j := s.workers[k].thread.job;
    assert WorkerOk(s.workers, s.jobs, k) && JobOk(s.workers, s.jobs, j);
    forall i | 0 <= i < |t.jobs| && t.jobs[i].worker == k ensures JobOk(t.workers, t.jobs, i) {
      assert JobOk(s.workers, s.jobs, i);
    }
    LocalChange(s.workers, s.jobs, k, t.workers[k], |s.jobs|, t.jobs[j]);
  }

  lemma ThreadReports(s: State, k: nat)
    requires Structure(s) && ThreadStep(s, k).Some?
    requires s.workers[k].thread.Returned? || s.workers[k].thread.Signalling?
    ensures var t := ThreadStep(s, k).value; WorkersOk(t.workers, t.jobs) && JobsOk(t.workers, t.jobs)
  {
    var t := ThreadStep(s, k).value;
    var j := s.workers[k].thread.job;
    assert WorkerOk(s.workers, s.jobs, k) && JobOk(s.workers, s.jobs, j);
    forall i | 0 <= i < |t.jobs| && t.jobs[i].worker == k ensures JobOk(t.workers, t.jobs, i) {
      assert JobOk(s.workers, s.jobs, i);
    }
    LocalChange(s.workers, s.jobs, k, t.workers[k], j, t.jobs[j]);
  }

  lemma ThreadCleansUp(s: State, k: nat)
    requires Structure(s) && ThreadStep(s, k).Some?
    requires s.workers[k].thread.CallingBack? || s.workers[k].thread.Releasing?
    ensures var t := ThreadStep(s, k).value; WorkersOk(t.workers, t.jobs) && JobsOk(t.workers, t.jobs)
  {
    var t := ThreadStep(s, k).value;
    var j := s.workers[k].thread.job;
    assert WorkerOk(s.workers, s.jobs, k) && JobOk(s.workers, s.jobs, j);
    forall i | 0 <= i < |t.jobs| && t.jobs[i].worker == k ensures JobOk(t.workers, t.jobs, i) {
      assert JobOk(s.workers, s.jobs, i);
    }
    LocalChange(s.workers, s.jobs, k, t.workers[k], j, t.jobs[j]);
  }

  /** A thread step reopens no worker, un-reports no query and leaves an idle worker idle. */
  lemma ThreadEffect(s: State, k: nat)
    requires Structure(s) && ThreadStep(s, k).Some?
    ensures var t := ThreadStep(s, k).value;
      && t.scan == s.scan && t.slot == s.slot && t.calls == s.calls && |t.closes| == |s.closes|
      && |t.workers| == |s.workers| && |t.jobs| == |s.jobs|
      && (forall i :: 0 <= i < |s.workers| && i != k ==> t.workers[i] == s.workers[i])
      && t.workers[k].kind == s.workers[k].kind && t.workers[k].closed == s.workers[k].closed
      && (Idle(s.workers[k]) ==> Idle(t.workers[k]))
      && (forall j :: 0 <= j < |s.jobs| ==> SameClientView(s.jobs[j], t.jobs[j]))
  {
    assert WorkerOk(s.workers, s.jobs, k);
  }

  predicate SameClientView(x: Job, y: Job) {
    x.worker == y.worker && x.handle == y.handle && x.abandoned == y.abandoned && (x.completed ==> y.completed)
  }

  lemma ThreadKeepsStructure(s: State, k: nat)
    requires Structure(s) && ThreadStep(s, k).Some?
    ensures Structure(ThreadStep(s, k).value)
  {
    match s.workers[k].thread {
      case Parked => ThreadTakes(s, k);
      case Running(_) => ThreadReturns(s, k);
      case CallingBack(_) => ThreadCleansUp(s, k);
      case Releasing(_) => ThreadCleansUp(s, k);
      case _ => ThreadReports(s, k);
    }
    ThreadEffect(s, k);
    ClientsFollow(s, ThreadStep(s, k).value, k);
  }

  lemma ClientsFollow(s: State, t: State, k: nat)
    requires Structure(s) && k < |s.workers|
    requires t.scan == s.scan && t.slot == s.slot && t.calls == s.calls && |t.closes| == |s.closes|
    requires |t.workers| == |s.workers| && |t.jobs| == |s.jobs|
    requires forall i :: 0 <= i < |s.workers| && i != k ==> t.workers[i] == s.workers[i]
    requires t.workers[k].kind == s.workers[k].kind && t.workers[k].closed == s.workers[k].closed
    requires Idle(s.workers[k]) ==> Idle(t.workers[k])
    requires forall j :: 0 <= j < |s.jobs| ==> SameClientView(s.jobs[j], t.jobs[j])
    ensures ClientsOk(t) && ScanOk(t) && ScanWorkersOk(t) && CallsOk(t.workers, t.jobs, t.calls)
  {
    forall c | 0 <= c < |t.calls| ensures CallOk(t.workers, t.jobs, c, t.calls[c]) {
      assert CallOk(s.workers, s.jobs, c, s.calls[c]);
    }
  }

  lemma SubmitKeepsTables(s: State, k: nat, handle: Option<nat>)
    requires Structure(s) && k < |s.workers| && Idle(s.workers[k])
    requires handle.Some? <==> s.workers[k].kind.ScanWorker?
    ensures var t := Submit(s, k, handle);
      WorkersOk(t.workers, t.jobs) && JobsOk(t.workers, t.jobs) && AwaitedBy(t.workers, t.jobs, k, |s.jobs|)
  {
    var t := Submit(s, k, handle);
    IdleHasNoPendingJob(s.workers, s.jobs, k);
    forall i | 0 <= i < |t.workers| ensures WorkerOk(t.workers, t.jobs, i) {
      assert WorkerOk(s.workers, s.jobs, i);
    }
    forall j | 0 <= j < |t.jobs| ensures JobOk(t.workers, t.jobs, j) {
      if j < |s.jobs| { assert JobOk(s.workers, s.jobs, j); }
    }
  }

  lemma ClaimKeepsTables(s: State, j: nat)
    requires Structure(s) && j < |s.jobs| && !s.jobs[j].completed
    ensures var t := Claim(s, j); WorkersOk(t.workers, t.jobs) && JobsOk(t.workers, t.jobs)
  {
    var t := Claim(s, j);
    forall i | 0 <= i < |t.workers| ensures WorkerOk(t.workers, t.jobs, i) {
      assert WorkerOk(s.workers, s.jobs, i);
    }
    forall i | 0 <= i < |t.jobs| ensures JobOk(t.workers, t.jobs, i) {
      assert JobOk(s.workers, s.jobs, i);
    }
  }

  lemma CloseKeepsTables(s: State, k: nat)
    requires Structure(s) && k < |s.workers| && !s.workers[k].closed
    ensures var t := CloseWorker(s, k); WorkersOk(t.workers, t.jobs) && JobsOk(t.workers, t.jobs)
  {
    var t := CloseWorker(s, k);
    forall i | 0 <= i < |t.workers| ensures WorkerOk(t.workers, t.jobs, i) {
      assert WorkerOk(s.workers, s.jobs, i);
    }
    forall i | 0 <= i < |t.jobs| ensures JobOk(t.workers, t.jobs, i) {
      assert JobOk(s.workers, s.jobs, i);
    }
  }

  lemma BuildKeepsTables(s: State, kind: Kind)
    requires Structure(s)
    ensures var ws := s.workers + [NewWorker(kind)];
      WorkersOk(ws, s.jobs) && JobsOk(ws, s.jobs) && CallsOk(ws, s.jobs, s.calls)
  {
    var ws := s.workers + [NewWorker(kind)];
    forall i | 0 <= i < |ws| ensures WorkerOk(ws, s.jobs, i) {
      if i < |s.workers| { assert WorkerOk(s.workers, s.jobs, i); }
    }
    forall i | 0 <= i < |s.jobs| ensures JobOk(ws, s.jobs, i) {
      assert JobOk(s.workers, s.jobs, i);
    }
    forall c | 0 <= c < |s.calls| ensures CallOk(ws, s.jobs, c, s.calls[c]) {
      assert CallOk(s.workers, s.jobs, c, s.calls[c]);
    }
  }

  /** Touching a scan worker, its jobs or the scan leaves every call as it was. */
  lemma ScanLeavesCalls(s: State, t: State, k: nat)
    requires Structure(s) && k < |s.workers| && s.workers[k].kind.ScanWorker?
    requires |t.workers| == |s.workers| && |s.jobs| <= |t.jobs|
    requires forall i :: 0 <= i < |s.workers| && i != k ==> t.workers[i] == s.workers[i]
    requires t.workers[k].kind == s.workers[k].kind
    requires forall j :: 0 <= j < |s.jobs| && s.jobs[j].worker != k ==> t.jobs[j] == s.jobs[j]
    requires forall j :: 0 <= j < |s.jobs| ==> t.jobs[j].worker == s.jobs[j].worker
    requires forall j :: |s.jobs| <= j < |t.jobs| ==> t.jobs[j].worker == k
    ensures CallsOk(t.workers, t.jobs, s.calls)
  {
    forall c | 0 <= c < |s.calls| ensures CallOk(t.workers, t.jobs, c, s.calls[c]) {
      assert CallOk(s.workers, s.jobs, c, s.calls[c]);
    }
  }

  lemma ScanBuildsWorker(s: State, a: Action)
    requires Structure(s) && ScanStep(s, a).Some? && (a.TakeGate? || a.ScanBuilds?)
    ensures Structure(ScanStep(s, a).value)
  {
    BuildKeepsTables(s, ScanWorker);
  }

  lemma ScanSubmitsJob(s: State)
    requires Structure(s) && ScanStep(s, ScanSubmits).Some?
    ensures Structure(ScanStep(s, ScanSubmits).value)
  {
    SubmitKeepsTables(s, s.scan.worker, Some(s.scan.handle));
    ScanLeavesCalls(s, ScanStep(s, ScanSubmits).value, s.scan.worker);
  }

  lemma ScanSeesResult(s: State, a: Action)
    requires Structure(s) && ScanStep(s, a).Some? && (a.ScanSees? || a.ScanDecides?)
    requires s.jobs[s.scan.job].completed
    ensures Structure(ScanStep(s, a).value)
  {
    ResolvedIsIdle(s, s.scan.worker, s.scan.job);
  }

  lemma ScanClaimsSlot(s: State)
    requires Structure(s) && ScanStep(s, ScanDecides).Some? && !s.jobs[s.scan.job].completed
    ensures Structure(ScanStep(s, ScanDecides).value)
  {
    ClaimKeepsTables(s, s.scan.job);
    ScanLeavesCalls(s, ScanStep(s, ScanDecides).value, s.scan.worker);
  }

  lemma ScanClosesWorker(s: State)
    requires Structure(s) && ScanStep(s, ScanRetires).Some?
    ensures Structure(ScanStep(s, ScanRetires).value)
  {
    CloseKeepsTables(s, s.scan.worker);
    ScanLeavesCalls(s, ScanStep(s, ScanRetires).value, s.scan.worker);
  }

  lemma ScanTouchesHandle(s: State, a: Action)
    requires Structure(s) && ScanStep(s, a).Some? && (a.Duplicate? || a.CloseOwn? || a.BuildFails?)
    ensures Structure(ScanStep(s, a).value)
  {
    var t := ScanStep(s, a).value;
    assert t.workers == s.workers && t.jobs == s.jobs && t.calls == s.calls;
  }

  lemma ScanOnlyMoves(s: State, a: Action)
    requires Structure(s) && ScanStep(s, a).Some?
    requires a.BeginScan? || a.ScanTimesOut? || a.ScanReplaces? || a.EndScan?
    ensures Structure(ScanStep(s, a).value)
  {
    var t := ScanStep(s, a).value;
    assert t.workers == s.workers && t.jobs == s.jobs && t.calls == s.calls;
  }

  lemma ScanKeepsStructure(s: State, a: Action)
    requires Structure(s) && ScanStep(s, a).Some?
    ensures Structure(ScanStep(s, a).value)
  {
    match a {
      case TakeGate(_) => ScanBuildsWorker(s, a);
      case ScanBuilds => ScanBuildsWorker(s, a);
      case ScanSubmits => ScanSubmitsJob(s);
      case ScanSees =>
        assert JobOk(s.workers, s.jobs, s.scan.job);
        ScanSeesResult(s, a);
      case ScanDecides =>
        if s.jobs[s.scan.job].completed { ScanSeesResult(s, a); } else { ScanClaimsSlot(s); }
      case ScanRetires => ScanClosesWorker(s);
      case Duplicate => ScanTouchesHandle(s, a);
      case CloseOwn => ScanTouchesHandle(s, a);
      case BuildFails => ScanTouchesHandle(s, a);
      case _ => ScanOnlyMoves(s, a);
    }
  }

  /** Touching a call's own worker and jobs leaves the other calls and the scan as they were. */
  lemma CallLeavesOthers(s: State, t: State, c: nat, k: nat)
    requires Structure(s) && c < |s.calls| && CallOwns(s.workers, c, k)
    requires t.slot == s.slot && t.scan == s.scan && t.closes == s.closes
    requires |t.workers| == |s.workers| && |s.jobs| <= |t.jobs|
    requires forall i :: 0 <= i < |s.workers| && i != k ==> t.workers[i] == s.workers[i]
    requires t.workers[k].kind == s.workers[k].kind
    requires forall j :: 0 <= j < |s.jobs| && s.jobs[j].worker != k ==> t.jobs[j] == s.jobs[j]
    requires forall j :: 0 <= j < |s.jobs| ==> t.jobs[j].worker == s.jobs[j].worker && t.jobs[j].handle == s.jobs[j].handle
    requires forall j :: |s.jobs| <= j < |t.jobs| ==> t.jobs[j].worker == k && t.jobs[j].handle.None?
    requires |t.calls| == |s.calls| && forall d :: 0 <= d < |s.calls| && d != c ==> t.calls[d] == s.calls[d]
    requires CallOk(t.workers, t.jobs, c, t.calls[c])
    ensures CallsOk(t.workers, t.jobs, t.calls) && ScanOk(t) && ScanWorkersOk(t)
  {
    forall d | 0 <= d < |t.calls| ensures CallOk(t.workers, t.jobs, d, t.calls[d]) {
      assert CallOk(s.workers, s.jobs, d, s.calls[d]);
    }
    forall j | 0 <= j < |s.jobs| && s.jobs[j].worker == k ensures s.jobs[j].handle.None? {
      assert JobOk(s.workers, s.jobs, j);
    }
  }

  lemma CallAsks(s: State, a: Action, c: nat)
    requires Structure(s) && CallStep(s, a, c).Some? && (a.CallSubmits? || a.CallTimesOut?)
    ensures Structure(CallStep(s, a, c).value)
  {
    assert CallOk(s.workers, s.jobs, c, s.calls[c]);
    if a.CallSubmits? { SubmitKeepsTables(s, s.calls[c].worker, None); }
    CallLeavesOthers(s, CallStep(s, a, c).value, c, s.calls[c].worker);
  }

  lemma CallGetsResult(s: State, a: Action, c: nat)
    requires Structure(s) && CallStep(s, a, c).Some? && (a.CallSees? || a.CallDecides?)
    requires s.jobs[s.calls[c].job].completed
    ensures Structure(CallStep(s, a, c).value)
  {
    assert CallOk(s.workers, s.jobs, c, s.calls[c]);
    ResolvedIsIdle(s, s.calls[c].worker, s.calls[c].job);
    CallLeavesOthers(s, CallStep(s, a, c).value, c, s.calls[c].worker);
  }

  lemma CallClaims(s: State, a: Action, c: nat)
    requires Structure(s) && CallStep(s, a, c).Some? && a.CallDecides?
    requires !s.jobs[s.calls[c].job].completed
    ensures Structure(CallStep(s, a, c).value)
  {
    assert CallOk(s.workers, s.jobs, c, s.calls[c]);
    ClaimKeepsTables(s, s.calls[c].job);
    CallLeavesOthers(s, CallStep(s, a, c).value, c, s.calls[c].worker);
  }

  lemma CallClosesWorker(s: State, a: Action, c: nat)
    requires Structure(s) && CallStep(s, a, c).Some? && (a.CallRetires? || a.CallCloses?)
    ensures Structure(CallStep(s, a, c).value)
  {
    assert CallOk(s.workers, s.jobs, c, s.calls[c]);
    CloseKeepsTables(s, s.calls[c].worker);
    CallLeavesOthers(s, CallStep(s, a, c).value, c, s.calls[c].worker);
  }

  lemma CallKeepsStructure(s: State, a: Action, c: nat)
    requires Structure(s) && CallStep(s, a, c).Some?
    ensures Structure(CallStep(s, a, c).value)
  {
    match a {
      case CallSubmits(_) => CallAsks(s, a, c);
      case CallTimesOut(_) => CallAsks(s, a, c);
      case CallSees(_) =>
        assert CallOk(s.workers, s.jobs, c, s.calls[c]);
        assert JobOk(s.workers, s.jobs, s.calls[c].job);
        CallGetsResult(s, a, c);
      case CallDecides(_) =>
        if s.jobs[s.calls[c].job].completed { CallGetsResult(s, a, c); } else { CallClaims(s, a, c); }
      case CallRetires(_) => CallClosesWorker(s, a, c);
      case CallCloses(_) => CallClosesWorker(s, a, c);
    }
  }

  predicate IsCallAction(a: Action) {
    a.CallSubmits? || a.CallSees? || a.CallTimesOut? || a.CallDecides? || a.CallRetires? || a.CallCloses?
  }

  lemma StartCallKeepsStructure(s: State)
    requires Structure(s)
    ensures Structure(Step(s, StartCall).value)
  {
    BuildKeepsTables(s, CallWorker(|s.calls|));
  }

  lemma StepKeepsStructure(s: State, a: Action)
    requires Structure(s) && Step(s, a).Some?
    ensures Structure(Step(s, a).value)
  {
    if a.ThreadMoves? {
      ThreadKeepsStructure(s, a.worker);
    } else if a.StartCall? {
      StartCallKeepsStructure(s);
    } else if IsCallAction(a) {
      CallKeepsStructure(s, a, a.call);
    } else {
      ScanKeepsStructure(s, a);
    }
  }

  // ---------------------------------------------------------------------------
  // The slot cell counts exactly the claimed jobs
  // ---------------------------------------------------------------------------

  /** The job that an action claims or gives back, if any. */
  function ClaimedBy(s: State, a: Action): Option<nat> {
    match a
    case ScanDecides => if s.scan.Deciding? && s.scan.job < |s.jobs| && !s.jobs[s.scan.job].completed then Some(s.scan.job) else None
    case CallDecides(c) =>
      if c < |s.calls| && s.calls[c].CallDeciding? && s.calls[c].job < |s.jobs| && !s.jobs[s.calls[c].job].completed
      then Some(s.calls[c].job) else None
    case _ => None
  }

  function ReleasedBy(s: State, a: Action): Option<nat> {
    if a.ThreadMoves? && a.worker < |s.workers| && s.workers[a.worker].thread.Releasing?
    then Some(s.workers[a.worker].thread.job) else None
  }

  /** Claiming adds exactly the awaited job. */
  lemma ClaimAdds(s: State, a: Action)
    requires Structure(s) && Step(s, a).Some? && ClaimedBy(s, a).Some?
    ensures var t, j := Step(s, a).value, ClaimedBy(s, a).value;
      && j !in Claimed(s) && Claimed(t) == Claimed(s) + {j} && t.cell == s.cell + 1
      && ScanClaims(t) == if s.jobs[j].handle.Some? then ScanClaims(s) + {j} else ScanClaims(s)
  {
    if a.CallDecides? {
      assert CallOk(s.workers, s.jobs, a.call, s.calls[a.call]);
    }
    var t, j := Step(s, a).value, ClaimedBy(s, a).value;
    assert JobOk(s.workers, s.jobs, j);
    assert t.jobs == s.jobs[j := s.jobs[j].(abandoned := true)];
  }

  /** A worker thread's last duty gives back exactly its own job's claim. */
  lemma ReleaseRemoves(s: State, a: Action)
    requires Structure(s) && Step(s, a).Some? && ReleasedBy(s, a).Some?
    ensures var t, j := Step(s, a).value, ReleasedBy(s, a).value;
      && j in Claimed(s) && Claimed(t) == Claimed(s) - {j} && t.cell == (if s.cell == 0 then 0 else s.cell - 1)
      && ScanClaims(t) == ScanClaims(s) - {j}
  {
    assert WorkerOk(s.workers, s.jobs, a.worker);
  }

  /** No other action touches a claim. */
  lemma OthersKeepClaims(s: State, a: Action)
    requires Structure(s) && Step(s, a).Some? && ClaimedBy(s, a).None? && ReleasedBy(s, a).None?
    ensures var t := Step(s, a).value;
      Claimed(t) == Claimed(s) && t.cell == s.cell && ScanClaims(t) == ScanClaims(s)
  {
    if a.ThreadMoves? {
      ThreadKeepsClaims(s, a.worker);
    } else {
      if a.CallDecides? {
        assert CallOk(s.workers, s.jobs, a.call, s.calls[a.call]);
      }
      ClaimFlagsFix(s, Step(s, a).value);
    }
  }

  lemma ThreadKeepsClaims(s: State, k: nat)
    requires Structure(s) && ThreadStep(s, k).Some? && !s.workers[k].thread.Releasing?
    ensures var t := ThreadStep(s, k).value;
      Claimed(t) == Claimed(s) && t.cell == s.cell && ScanClaims(t) == ScanClaims(s)
  {
    assert WorkerOk(s.workers, s.jobs, k);
    if !s.workers[k].thread.Parked? {
      assert JobOk(s.workers, s.jobs, s.workers[k].thread.job);
    }
    ClaimFlagsFix(s, ThreadStep(s, k).value);
  }

  /** Same flags on the old jobs and none on the new ones: the same claims. */
  lemma ClaimFlagsFix(s: State, t: State)
    requires |s.jobs| <= |t.jobs|
    requires forall j :: 0 <= j < |s.jobs| ==>
      t.jobs[j].abandoned == s.jobs[j].abandoned && t.jobs[j].handle == s.jobs[j].handle
      && (s.jobs[j].abandoned ==> t.jobs[j].released == s.jobs[j].released)
    requires forall j :: |s.jobs| <= j < |t.jobs| ==> !t.jobs[j].abandoned
    ensures Claimed(t) == Claimed(s) && ScanClaims(t) == ScanClaims(s)
  {
  }

  /** No abandoned job is lost from the count or counted twice, so the clamp at zero never fires. */
  lemma CellStaysExact(s: State, a: Action)
    requires Invariant(s) && Step(s, a).Some?
    ensures Step(s, a).value.cell == |Claimed(Step(s, a).value)|
    ensures ReleasedBy(s, a).Some? ==> s.cell >= 1
  {
    if ClaimedBy(s, a).Some? {
      ClaimAdds(s, a);
    } else if ReleasedBy(s, a).Some? {
      ReleaseRemoves(s, a);
    } else {
      OthersKeepClaims(s, a);
    }
  }

  lemma ScanClaimsWithinCell(s: State)
    requires s.cell == |Claimed(s)|
    ensures |ScanClaims(s)| <= s.cell
  {
    SubsetSize(ScanClaims(s), Claimed(s));
  }

  /** The scan's own claim uses the room that its open slot reserved. */
  lemma ScanClaimFits(s: State, t: State, j: nat)
    requires CapacityOk(s) && s.slot.Some? && s.scan.Deciding? && s.scan.job == j
    requires t.scan.Retiring? && t.scan.job == j
    requires j !in ScanClaims(s) && ScanClaims(t) == ScanClaims(s) + {j}
    ensures CapacityOk(t)
  {
    assert ScanClaims(t) - {j} == ScanClaims(s);
  }

  lemma CallClaimIsNoScanClaim(s: State, a: Action)
    requires Structure(s) && Step(s, a).Some? && ClaimedBy(s, a).Some? && a.CallDecides?
    ensures s.jobs[ClaimedBy(s, a).value].handle.None?
  {
    assert CallOk(s.workers, s.jobs, a.call, s.calls[a.call]);
    assert JobOk(s.workers, s.jobs, ClaimedBy(s, a).value);
  }

  lemma ClaimKeepsCapacity(s: State, a: Action)
    requires Invariant(s) && Step(s, a).Some? && ClaimedBy(s, a).Some?
    ensures CapacityOk(Step(s, a).value)
  {
    ClaimAdds(s, a);
    var t, j := Step(s, a).value, ClaimedBy(s, a).value;
    if a.CallDecides? {
      CallClaimIsNoScanClaim(s, a);
      CallActionsLeaveScan(s, a);
      CapacityShrinks(s, t);
    } else {
      ScanClaimFits(s, t, j);
    }
  }

  lemma CapacityShrinks(s: State, t: State)
    requires CapacityOk(s) && t.scan == s.scan && t.slot == s.slot && ScanClaims(t) <= ScanClaims(s)
    ensures CapacityOk(t)
  {
    SubsetSize(ScanClaims(t), ScanClaims(s));
    if s.scan.Retiring? {
      SubsetSize(ScanClaims(t) - {s.scan.job}, ScanClaims(s) - {s.scan.job});
    }
  }

  lemma ReleaseKeepsCapacity(s: State, a: Action)
    requires Invariant(s) && Step(s, a).Some? && ReleasedBy(s, a).Some?
    ensures CapacityOk(Step(s, a).value)
  {
    ReleaseRemoves(s, a);
    ThreadEffect(s, a.worker);
    CapacityShrinks(s, Step(s, a).value);
  }

  /** The scan builds below the cap only, and steps on with the slot in step. */
  lemma ScanMovesKeepCapacity(s: State, a: Action)
    requires ScanOk(s) && CapacityOk(s) && |ScanClaims(s)| <= s.cell && ScanStep(s, a).Some?
    requires ClaimedBy(s, a).None? && ScanClaims(ScanStep(s, a).value) == ScanClaims(s)
    ensures CapacityOk(ScanStep(s, a).value)
  {
  }

  lemma MovesKeepCapacity(s: State, a: Action)
    requires Invariant(s) && Step(s, a).Some? && ClaimedBy(s, a).None? && ReleasedBy(s, a).None?
    ensures CapacityOk(Step(s, a).value)
  {
    OthersKeepClaims(s, a);
    ScanClaimsWithinCell(s);
    if a.ThreadMoves? {
      ThreadEffect(s, a.worker);
      CapacityShrinks(s, Step(s, a).value);
    } else if a.StartCall? || IsCallAction(a) {
      CallActionsLeaveScan(s, a);
      CapacityShrinks(s, Step(s, a).value);
    } else {
      ScanMovesKeepCapacity(s, a);
    }
  }

  lemma CallActionsLeaveScan(s: State, a: Action)
    requires (a.StartCall? || IsCallAction(a)) && Step(s, a).Some?
    ensures var t := Step(s, a).value; t.scan == s.scan && t.slot == s.slot && t.closes == s.closes
  {
  }

  lemma CapacityKept(s: State, a: Action)
    requires Invariant(s) && Step(s, a).Some?
    ensures CapacityOk(Step(s, a).value)
  {
    if ClaimedBy(s, a).Some? {
      ClaimKeepsCapacity(s, a);
    } else if ReleasedBy(s, a).Some? {
      ReleaseKeepsCapacity(s, a);
    } else {
      MovesKeepCapacity(s, a);
    }
  }

  lemma StepKeepsInvariant(s: State, a: Action)
    requires Invariant(s) && Step(s, a).Some?
    ensures Invariant(Step(s, a).value)
  {
    StepKeepsStructure(s, a);
    CellStaysExact(s, a);
    CapacityKept(s, a);
  }

  lemma {:induction false} ReachableInvariant(s: State, run: seq<Action>, t: State)
    requires Invariant(s) && Leads(s, run, t)
    ensures Invariant(t)
    decreases |run|
  {
    if run != [] {
      StepKeepsInvariant(s, run[0]);
      ReachableInvariant(Step(s, run[0]).value, run[1..], t);
    }
  }

  lemma StartIsFine()
    ensures Invariant(START) && OneCloseEach(START)
  {
    assert Claimed(START) == {} && ScanClaims(START) == {};
  }

  /** Exact counting, over every interleaving of any number of scans and bounded calls. */
  lemma CellCountsClaims(run: seq<Action>, t: State)
    requires Leads(START, run, t)
    ensures t.cell == |Claimed(t)|
    ensures forall k :: 0 <= k < |t.workers| && t.workers[k].thread.Releasing? ==> t.cell >= 1
  {
    StartIsFine();
    ReachableInvariant(START, run, t);
    forall k | 0 <= k < |t.workers| && t.workers[k].thread.Releasing? ensures t.cell >= 1 {
      assert WorkerOk(t.workers, t.jobs, k);
      assert t.workers[k].thread.job in Claimed(t);
    }
  }

  // ---------------------------------------------------------------------------
  // The thread bound
  // ---------------------------------------------------------------------------

  ghost function WorkersOf(s: State, js: set<nat>): (ks: set<nat>)
    requires forall j :: j in js ==> j < |s.jobs|
  {
    set j | j in js :: s.jobs[j].worker
  }

  lemma {:induction false} WorkersOfSize(s: State, js: set<nat>)
    requires forall j :: j in js ==> j < |s.jobs|
    ensures |WorkersOf(s, js)| <= |js|
    decreases |js|
  {
    if js != {} {
      var j :| j in js;
      var rest := js - {j};
      WorkersOfSize(s, rest);
      assert WorkersOf(s, js) == WorkersOf(s, rest) + {s.jobs[j].worker};
    }
  }

  /** A live scan worker that is not the slot's runs a query whose slot is still claimed. */
  lemma LiveWorkersHaveClaims(s: State, k: nat)
    requires Structure(s) && k in LiveScanWorkers(s) && (s.slot != Some(k) || s.scan.Unresolved?)
    ensures k in WorkersOf(s, ScanClaims(s))
  {
    assert WorkerOk(s.workers, s.jobs, k);
    var w := s.workers[k];
    var j := if w.thread.Running? || w.thread.Returned? then w.thread.job else w.queue[0].job;
    assert JobOk(s.workers, s.jobs, j);
    assert j in ScanClaims(s);
  }

  lemma LiveWithin(s: State, claims: set<nat>, own: set<nat>)
    requires forall j :: j in claims ==> j < |s.jobs|
    requires LiveScanWorkers(s) <= WorkersOf(s, claims) + own
    ensures |LiveScanWorkers(s)| <= |claims| + |own|
  {
    WorkersOfSize(s, claims);
    SubsetSize(LiveScanWorkers(s), WorkersOf(s, claims) + own);
  }

  /** The job that the scan is about to retire runs on the slot's own worker. */
  lemma RetiringWorkerIsOwn(s: State, k: nat)
    requires s.scan.Retiring? && s.scan.job < |s.jobs| && s.jobs[s.scan.job].worker == s.scan.worker
    requires k in WorkersOf(s, ScanClaims(s))
    ensures k in WorkersOf(s, ScanClaims(s) - {s.scan.job}) + {s.scan.worker}
  {
    var i :| i in ScanClaims(s) && s.jobs[i].worker == k;
    assert i in ScanClaims(s) - {s.scan.job} || i == s.scan.job;
  }

  lemma RetiringCover(s: State, k: nat)
    requires Structure(s) && s.scan.Retiring? && k in LiveScanWorkers(s)
    ensures k in WorkersOf(s, ScanClaims(s) - {s.scan.job}) + {s.scan.worker}
  {
    if k != s.scan.worker {
      LiveWorkersHaveClaims(s, k);
      RetiringWorkerIsOwn(s, k);
    }
  }

  lemma RetiringBound(s: State)
    requires Invariant(s) && s.scan.Retiring?
    ensures |LiveScanWorkers(s)| <= MAX_WEDGED
  {
    forall k | k in LiveScanWorkers(s)
      ensures k in WorkersOf(s, ScanClaims(s) - {s.scan.job}) + {s.scan.worker}
    {
      RetiringCover(s, k);
    }
    LiveWithin(s, ScanClaims(s) - {s.scan.job}, {s.scan.worker});
  }

  /** Without an open slot every live scan worker holds a claim. */
  lemma NoSlotBound(s: State)
    requires Invariant(s) && (s.scan.Unresolved? || s.slot.None?)
    ensures |LiveScanWorkers(s)| <= MAX_WEDGED
  {
    forall k | k in LiveScanWorkers(s) ensures k in WorkersOf(s, ScanClaims(s)) {
      LiveWorkersHaveClaims(s, k);
    }
    LiveWithin(s, ScanClaims(s), {});
  }

  lemma OpenSlotBound(s: State)
    requires Invariant(s) && s.slot.Some? && !s.scan.Retiring? && !s.scan.Unresolved?
    ensures |LiveScanWorkers(s)| <= MAX_WEDGED
  {
    forall k | k in LiveScanWorkers(s) ensures k in WorkersOf(s, ScanClaims(s)) + {s.slot.value} {
      if s.slot != Some(k) { LiveWorkersHaveClaims(s, k); }
    }
    LiveWithin(s, ScanClaims(s), {s.slot.value});
  }

  lemma LiveBound(s: State)
    requires Invariant(s)
    ensures |LiveScanWorkers(s)| <= MAX_WEDGED
  {
    if s.scan.Retiring? {
      RetiringBound(s);
    } else if s.scan.Unresolved? || s.slot.None? {
      NoSlotBound(s);
    } else {
      OpenSlotBound(s);
    }
  }

  /**
    However many bounded calls are wedged, the scan workers that are parked or blocked
    stay within the wedge cap itself; the documented ceiling of one more is never used.
   */
  lemma ScanThreadsBounded(run: seq<Action>, t: State)
    requires Leads(START, run, t)
    ensures |LiveScanWorkers(t)| <= MAX_WEDGED < SCAN_MAX_LIVE
  {
    StartIsFine();
    ReachableInvariant(START, run, t);
    LiveBound(t);
  }

  // ---------------------------------------------------------------------------
  // One close per duplicated handle
  // ---------------------------------------------------------------------------

  /** The handle that a failing worker construction closes behind its owner's back. */
  function SpoiledBy(s: State, a: Action): Option<nat> {
    if a.BuildFails? && s.scan.Replacing? then Some(s.scan.handle) else None
  }

  /** The handle that an action closes, if any. */
  function ClosedBy(s: State, a: Action): Option<nat> {
    match a
    case CloseOwn => if s.scan.Holding? then Some(s.scan.handle) else None
    case BuildFails => SpoiledBy(s, a)
    case ThreadMoves(k) =>
      if k < |s.workers| && s.workers[k].thread.CallingBack? && s.workers[k].thread.job < |s.jobs|
      then s.jobs[s.workers[k].thread.job].handle else None
    case _ => None
  }

  lemma OwingFix(s: State, t: State, h: nat)
    requires |s.jobs| <= |t.jobs|
    requires forall j :: 0 <= j < |s.jobs| && s.jobs[j].handle == Some(h) ==>
      t.jobs[j].handle == Some(h) && t.jobs[j].abandoned == s.jobs[j].abandoned
      && (s.jobs[j].abandoned ==> t.jobs[j].notified == s.jobs[j].notified)
    requires forall j :: 0 <= j < |s.jobs| ==> t.jobs[j].handle == s.jobs[j].handle
    requires forall j :: |s.jobs| <= j < |t.jobs| ==> !t.jobs[j].abandoned
    ensures Owing(t, h) == Owing(s, h)
  {
  }

  /** The callback turns an owed close into a made one. */
  lemma CallbackDuty(s: State, k: nat, h: nat)
    requires ThreadStep(s, k).Some? && h < |s.closes|
    requires WorkerOk(s.workers, s.jobs, k) && s.workers[k].thread.CallingBack?
    ensures CloseDuties(ThreadStep(s, k).value, h) == CloseDuties(s, h)
  {
    var t, j := ThreadStep(s, k).value, s.workers[k].thread.job;
    if s.jobs[j].handle == Some(h) {
      assert Owing(t, h) == Owing(s, h) - {j};
      assert j in Owing(s, h);
    } else {
      assert Owing(t, h) == Owing(s, h);
    }
  }

  lemma ThreadDuties(s: State, k: nat, h: nat)
    requires Structure(s) && ThreadStep(s, k).Some? && h < |s.closes|
    ensures CloseDuties(ThreadStep(s, k).value, h) == CloseDuties(s, h)
  {
    if s.workers[k].thread.CallingBack? {
      assert WorkerOk(s.workers, s.jobs, k);
      CallbackDuty(s, k, h);
    } else {
      ThreadEffect(s, k);
      ThreadKeepsNotices(s, k);
      OwingFix(s, ThreadStep(s, k).value, h);
    }
  }

  lemma ThreadKeepsNotices(s: State, k: nat)
    requires Structure(s) && ThreadStep(s, k).Some? && !s.workers[k].thread.CallingBack?
    ensures var t := ThreadStep(s, k).value;
      t.closes == s.closes && |t.jobs| == |s.jobs| && forall j :: 0 <= j < |s.jobs| ==> t.jobs[j].notified == s.jobs[j].notified
  {
  }

  lemma CallDuties(s: State, a: Action, c: nat, h: nat)
    requires Structure(s) && CallStep(s, a, c).Some? && h < |s.closes|
    ensures CloseDuties(CallStep(s, a, c).value, h) == CloseDuties(s, h)
  {
    var t := CallStep(s, a, c).value;
    assert CallOk(s.workers, s.jobs, c, s.calls[c]);
    if a.CallDecides? {
      assert JobOk(s.workers, s.jobs, s.calls[c].job);
    }
    OwingFix(s, t, h);
  }

  lemma OwingAtClaim(s: State, t: State, j: nat, h: nat)
    requires j < |s.jobs| && !s.jobs[j].abandoned && !s.jobs[j].notified
    requires t.jobs == s.jobs[j := s.jobs[j].(abandoned := true)]
    ensures j !in Owing(s, h)
    ensures Owing(t, h) == if s.jobs[j].handle == Some(h) then Owing(s, h) + {j} else Owing(s, h)
  {
  }

  /** The duty passes to the retired worker's callback at the claim, once. */
  lemma ScanClaimPassesDuty(s: State, h: nat)
    requires Structure(s) && s.scan.Deciding? && !s.jobs[s.scan.job].completed && h < |s.closes|
    ensures CloseDuties(ScanStep(s, ScanDecides).value, h) == CloseDuties(s, h)
  {
    var t, j := ScanStep(s, ScanDecides).value, s.scan.job;
    assert !s.jobs[j].notified by { assert JobOk(s.workers, s.jobs, j); }
    OwingAtClaim(s, t, j, h);
  }

  lemma ScanDuties(s: State, a: Action, h: nat)
    requires Structure(s) && ScanStep(s, a).Some? && h < |s.closes|
    ensures CloseDuties(ScanStep(s, a).value, h) == CloseDuties(s, h) + if SpoiledBy(s, a) == Some(h) then 1 else 0
  {
    if ClaimedBy(s, a).Some? {
      ScanClaimPassesDuty(s, h);
    } else {
      OwingFix(s, ScanStep(s, a).value, h);
    }
  }

  lemma FreshHandleDuty(s: State)
    requires Structure(s) && ScanStep(s, Duplicate).Some?
    ensures CloseDuties(ScanStep(s, Duplicate).value, |s.closes|) == 1
  {
    assert Owing(ScanStep(s, Duplicate).value, |s.closes|) == {};
  }

  /** Close duties are conserved by every action except a failing worker construction. */
  lemma DutiesConserved(s: State, a: Action, h: nat)
    requires Structure(s) && Step(s, a).Some? && h < |s.closes|
    ensures |s.closes| <= |Step(s, a).value.closes|
    ensures CloseDuties(Step(s, a).value, h) == CloseDuties(s, h) + if SpoiledBy(s, a) == Some(h) then 1 else 0
  {
    if a.ThreadMoves? {
      ThreadDuties(s, a.worker, h);
    } else if a.StartCall? {
      OwingFix(s, Step(s, a).value, h);
    } else if IsCallAction(a) {
      CallDuties(s, a, a.call, h);
    } else {
      ScanDuties(s, a, h);
    }
  }

  lemma StepKeepsOneClose(s: State, a: Action)
    requires Structure(s) && OneCloseEach(s) && Step(s, a).Some? && !a.BuildFails?
    ensures OneCloseEach(Step(s, a).value)
  {
    var t := Step(s, a).value;
    forall h | 0 <= h < |t.closes| ensures CloseDuties(t, h) == 1 {
      if h < |s.closes| {
        DutiesConserved(s, a, h);
      } else {
        FreshHandleDuty(s);
      }
    }
  }

  /** How many constructions fail in the run while the scan stands at handle `h`. */
  function FailuresOn(s: State, run: seq<Action>, h: nat): nat
    decreases |run|
  {
    if run == [] || Step(s, run[0]).None? then 0
    else (if SpoiledBy(s, run[0]) == Some(h) then 1 else 0) + FailuresOn(Step(s, run[0]).value, run[1..], h)
  }

  /** A handle that is yet to be duplicated will have one duty. */
  ghost function DutiesOf(s: State, h: nat): nat {
    if h < |s.closes| then CloseDuties(s, h) else 1
  }

  lemma StepOnDuties(s: State, a: Action, u: State, h: nat)
    requires Structure(s) && Step(s, a) == Some(u)
    ensures |s.closes| <= |u.closes| && DutiesOf(u, h) == DutiesOf(s, h) + if SpoiledBy(s, a) == Some(h) then 1 else 0
  {
    if h < |s.closes| {
      DutiesConserved(s, a, h);
    } else {
      OnlyDuplicateAdds(s, a, u);
      if a.Duplicate? { FreshHandleDuty(s); }
    }
  }

  lemma OnlyDuplicateAdds(s: State, a: Action, u: State)
    requires ScanOk(s) && Step(s, a) == Some(u)
    ensures |u.closes| == if a.Duplicate? then |s.closes| + 1 else |s.closes|
    ensures SpoiledBy(s, a).Some? ==> SpoiledBy(s, a).value < |s.closes|
  {
  }

  lemma {:induction false} RunOnDuties(s: State, run: seq<Action>, t: State, h: nat)
    requires Invariant(s) && Leads(s, run, t)
    ensures |s.closes| <= |t.closes| && DutiesOf(t, h) == DutiesOf(s, h) + FailuresOn(s, run, h)
    decreases |run|
  {
    if run != [] {
      var u := Step(s, run[0]).value;
      StepOnDuties(s, run[0], u, h);
      StepKeepsInvariant(s, run[0]);
      RunOnDuties(u, run[1..], t, h);
    }
  }

  /** The scan stands at `h`, whether it still owns it or not. */
  predicate Mentions(scan: Scan, h: nat) {
    && (scan.Holding? || scan.Waiting? || scan.Deciding? || scan.Retiring? || scan.Unresolved? || scan.Replacing?)
    && scan.handle == h
  }

  /** A handle that the scan has let go of stays let go of. */
  lemma LetGoForGood(s: State, a: Action, u: State, h: nat)
    requires Step(s, a) == Some(u) && h < |s.closes| && !Mentions(s.scan, h)
    ensures h < |u.closes| && !Mentions(u.scan, h)
  {
  }

  lemma FailureLetsGo(s: State, a: Action, u: State, h: nat)
    requires Step(s, a) == Some(u) && SpoiledBy(s, a) == Some(h)
    ensures Mentions(s.scan, h) && h < |u.closes| && !Mentions(u.scan, h) && u.jobs == s.jobs
  {
  }

  lemma {:induction false} NoFailureWithoutScan(s: State, run: seq<Action>, h: nat)
    requires h < |s.closes| && !Mentions(s.scan, h)
    ensures FailuresOn(s, run, h) == 0
    decreases |run|
  {
    if run != [] && Step(s, run[0]).Some? {
      var u := Step(s, run[0]).value;
      LetGoForGood(s, run[0], u, h);
      NoFailureWithoutScan(u, run[1..], h);
    }
  }

  lemma {:induction false} OneFailureAtMost(s: State, run: seq<Action>, h: nat)
    ensures FailuresOn(s, run, h) <= 1
    decreases |run|
  {
    if run != [] && Step(s, run[0]).Some? {
      var u := Step(s, run[0]).value;
      if SpoiledBy(s, run[0]) == Some(h) {
        FailureLetsGo(s, run[0], u, h);
        NoFailureWithoutScan(u, run[1..], h);
      } else {
        OneFailureAtMost(u, run[1..], h);
      }
    }
  }

  /**
    Over every run, a handle has one close made or owed, and a second one exactly if the
    construction of a replacement worker raised while the scan stood at this very handle.  The
    constructor starts a thread, and _bounded_query lets its exception through while the
    caller's finally clause still believes it owns the handle.
   */
  lemma DutiesCountFailures(run: seq<Action>, t: State, h: nat)
    requires Leads(START, run, t) && h < |t.closes|
    ensures CloseDuties(t, h) == 1 + FailuresOn(START, run, h) <= 2
  {
    StartIsFine();
    RunOnDuties(START, run, t, h);
    OneFailureAtMost(START, run, h);
  }

  /** The construction of a replacement worker raises somewhere in the run. */
  predicate BuildEverFails(run: seq<Action>) {
    run != [] && (run[0].BuildFails? || BuildEverFails(run[1..]))
  }

  lemma {:induction false} FailuresNeedFailure(s: State, run: seq<Action>, h: nat)
    requires !BuildEverFails(run)
    ensures FailuresOn(s, run, h) == 0
    decreases |run|
  {
    if run != [] && Step(s, run[0]).Some? { FailuresNeedFailure(Step(s, run[0]).value, run[1..], h); }
  }

  lemma {:induction false} FailureHasHandle(s: State, run: seq<Action>, t: State) returns (h: nat)
    requires Invariant(s) && Leads(s, run, t) && BuildEverFails(run)
    ensures h < |t.closes| && FailuresOn(s, run, h) >= 1
    decreases |run|
  {
    var u := Step(s, run[0]).value;
    StepKeepsInvariant(s, run[0]);
    if run[0] == BuildFails {
      FailsInReplacing(s);
      h := s.scan.handle;
      FailureLetsGo(s, BuildFails, u, h);
      RunOnDuties(u, run[1..], t, h);
    } else {
      h := FailureHasHandle(u, run[1..], t);
    }
  }

  lemma FailsInReplacing(s: State)
    ensures Step(s, BuildFails).Some? ==> s.scan.Replacing?
  {
  }

  /** All handles together: one close each if and only if no construction has failed. */
  lemma HandlesClosedOnceIffBuildsSucceed(run: seq<Action>, t: State)
    requires Leads(START, run, t)
    ensures OneCloseEach(t) <==> !BuildEverFails(run)
  {
    if BuildEverFails(run) {
      StartIsFine();
      var h := FailureHasHandle(START, run, t);
      DutiesCountFailures(run, t, h);
    } else {
      forall h | 0 <= h < |t.closes| ensures CloseDuties(t, h) == 1 {
        DutiesCountFailures(run, t, h);
        FailuresNeedFailure(START, run, h);
      }
    }
  }

  /** While a query on `h` is pending, somebody still owes the close of `h`. */
  lemma PendingMeansOwed(s: State, h: nat, j: nat)
    requires Structure(s) && h < |s.closes|
    requires j < |s.jobs| && s.jobs[j].handle == Some(h) && !s.jobs[j].completed
    ensures j in Owing(s, h) || (LoopOwns(s.scan, h) && !s.scan.Holding? && s.scan.job == j)
  {
    assert JobOk(s.workers, s.jobs, j);
  }

  /** `h` has one close made or owed, or the scan and its queries are done with it. */
  ghost predicate HandleOk(s: State, h: nat) {
    h < |s.closes| ==> CloseDuties(s, h) == 1 || (!Mentions(s.scan, h) && !QueryPending(s, h))
  }

  /** The action closes `h` while a query on it is queued or running. */
  ghost predicate ClosesPending(s: State, a: Action, h: nat) {
    ClosedBy(s, a) == Some(h) && QueryPending(s, h)
  }

  /** The construction of a replacement worker raises while the query on the scan's handle `h` is pending. */
  ghost predicate FailsPending(s: State, a: Action, h: nat) {
    SpoiledBy(s, a) == Some(h) && QueryPending(s, h)
  }

  /** No action but a failing construction closes a handle whose query is still pending. */
  lemma NoCloseWhilePending(s: State, a: Action, h: nat)
    requires Structure(s) && HandleOk(s, h) && Step(s, a).Some? && ClosedBy(s, a) == Some(h)
    ensures h < |s.closes| && Step(s, a).value.closes[h] == s.closes[h] + 1
    ensures QueryPending(s, h) ==> a.BuildFails?
    ensures CloseDuties(s, h) == 1 && !a.BuildFails? ==> s.closes[h] == 0
  {
    if a.ThreadMoves? {
      CallbackAfterQuery(s, a.worker, h);
    } else if a.CloseOwn? {
      if j :| 0 <= j < |s.jobs| && s.jobs[j].handle == Some(h) && !s.jobs[j].completed {
        PendingMeansOwed(s, h, j);
        assert false;
      }
    }
  }

  /** A callback comes after its own query, and no other query has the same handle. */
  lemma CallbackAfterQuery(s: State, k: nat, h: nat)
    requires Structure(s) && HandleOk(s, h) && ThreadStep(s, k).Some? && ClosedBy(s, ThreadMoves(k)) == Some(h)
    ensures h < |s.closes| && ThreadStep(s, k).value.closes[h] == s.closes[h] + 1
    ensures !QueryPending(s, h) && (CloseDuties(s, h) == 1 ==> s.closes[h] == 0)
  {
    assert WorkerOk(s.workers, s.jobs, k);
    var i := s.workers[k].thread.job;
    assert i in Owing(s, h);
    if j :| 0 <= j < |s.jobs| && s.jobs[j].handle == Some(h) && !s.jobs[j].completed {
      PendingMeansOwed(s, h, j);
      assert {i, j} <= Owing(s, h) || LoopOwns(s.scan, h);
      if {i, j} <= Owing(s, h) { SubsetSize({i, j}, Owing(s, h)); }
      assert false;
    }
  }

  /** Nobody asks about a handle that the scan has let go of. */
  lemma NoNewQuery(s: State, a: Action, u: State, h: nat)
    requires Step(s, a) == Some(u) && !Mentions(s.scan, h) && !QueryPending(s, h)
    ensures !QueryPending(u, h)
  {
    if j :| 0 <= j < |u.jobs| && u.jobs[j].handle == Some(h) && !u.jobs[j].completed {
      QueryWasThere(s, a, u, j);
      assert false;
    }
  }

  lemma QueryWasThere(s: State, a: Action, u: State, j: nat)
    requires Step(s, a) == Some(u) && j < |u.jobs| && u.jobs[j].handle.Some? && !u.jobs[j].completed
    ensures Mentions(s.scan, u.jobs[j].handle.value)
            || (j < |s.jobs| && s.jobs[j].handle == u.jobs[j].handle && !s.jobs[j].completed)
  {
    if a.ThreadMoves? {
      ThreadAddsNoQuery(s, a.worker, u, j);
    } else if a.StartCall? {
    } else if IsCallAction(a) {
      CallAddsNoQuery(s, a, a.call, u, j);
    } else {
      ScanAddsOwnQuery(s, a, u, j);
    }
  }

  lemma ThreadAddsNoQuery(s: State, k: nat, u: State, j: nat)
    requires ThreadStep(s, k) == Some(u) && j < |u.jobs| && !u.jobs[j].completed
    ensures j < |s.jobs| && s.jobs[j].handle == u.jobs[j].handle && !s.jobs[j].completed
  {
  }

  lemma CallAddsNoQuery(s: State, a: Action, c: nat, u: State, j: nat)
    requires CallStep(s, a, c) == Some(u) && j < |u.jobs| && u.jobs[j].handle.Some? && !u.jobs[j].completed
    ensures j < |s.jobs| && s.jobs[j].handle == u.jobs[j].handle && !s.jobs[j].completed
  {
  }

  lemma ScanAddsOwnQuery(s: State, a: Action, u: State, j: nat)
    requires ScanStep(s, a) == Some(u) && j < |u.jobs| && u.jobs[j].handle.Some? && !u.jobs[j].completed
    ensures Mentions(s.scan, u.jobs[j].handle.value)
            || (j < |s.jobs| && s.jobs[j].handle == u.jobs[j].handle && !s.jobs[j].completed)
  {
  }

  lemma StepKeepsHandleOk(s: State, a: Action, u: State, h: nat)
    requires Structure(s) && HandleOk(s, h) && Step(s, a) == Some(u) && !FailsPending(s, a, h)
    ensures HandleOk(u, h)
  {
    StepOnDuties(s, a, u, h);
    if SpoiledBy(s, a) == Some(h) {
      FailureLetsGo(s, a, u, h);
    } else if h < |s.closes| && CloseDuties(s, h) != 1 {
      LetGoForGood(s, a, u, h);
      NoNewQuery(s, a, u, h);
    }
  }

  lemma StepClosesPending(s: State, a: Action, u: State, h: nat)
    requires Invariant(s) && HandleOk(s, h) && Step(s, a) == Some(u)
    ensures ClosesPending(s, a, h) <==> FailsPending(s, a, h)
    ensures FailsPending(s, a, h) || (Invariant(u) && HandleOk(u, h))
  {
    if ClosesPending(s, a, h) {
      NoCloseWhilePending(s, a, h);
    }
    if !FailsPending(s, a, h) {
      StepKeepsInvariant(s, a);
      StepKeepsHandleOk(s, a, u, h);
    }
  }

  /** Somewhere in the run, `h` is closed while a query on it is pending. */
  ghost predicate EverClosesPending(s: State, run: seq<Action>, h: nat)
    decreases |run|
  {
    run != [] && Step(s, run[0]).Some?
    && (ClosesPending(s, run[0], h) || EverClosesPending(Step(s, run[0]).value, run[1..], h))
  }

  ghost predicate EverFailsPending(s: State, run: seq<Action>, h: nat)
    decreases |run|
  {
    run != [] && Step(s, run[0]).Some?
    && (FailsPending(s, run[0], h) || EverFailsPending(Step(s, run[0]).value, run[1..], h))
  }

  lemma {:induction false} RunClosesPending(s: State, run: seq<Action>, t: State, h: nat)
    requires Invariant(s) && HandleOk(s, h) && Leads(s, run, t)
    ensures EverClosesPending(s, run, h) <==> EverFailsPending(s, run, h)
    ensures EverFailsPending(s, run, h) || HandleOk(t, h)
    decreases |run|
  {
    if run != [] {
      var u := Step(s, run[0]).value;
      StepClosesPending(s, run[0], u, h);
      if !FailsPending(s, run[0], h) {
        RunClosesPending(u, run[1..], t, h);
      }
    }
  }

  /**
    Over every run, a handle is closed under a pending query if and only if the construction of a
    replacement worker raises while the query on this very handle is pending.
   */
  lemma ClosedWhilePendingIffBuildFailsThen(run: seq<Action>, t: State, h: nat)
    requires Leads(START, run, t)
    ensures EverClosesPending(START, run, h) <==> EverFailsPending(START, run, h)
  {
    StartIsFine();
    RunClosesPending(START, run, t, h);
  }

  /** Otherwise a handle that has been closed has no query queued or running on it, then or later. */
  lemma ClosedMeansAnswered(run: seq<Action>, t: State, h: nat)
    requires Leads(START, run, t) && !EverFailsPending(START, run, h)
    requires h < |t.closes| && t.closes[h] >= 1
    ensures !QueryPending(t, h)
  {
    StartIsFine();
    ReachableInvariant(START, run, t);
    RunClosesPending(START, run, t, h);
    if j :| 0 <= j < |t.jobs| && t.jobs[j].handle == Some(h) && !t.jobs[j].completed {
      PendingMeansOwed(t, h, j);
      assert false;
    }
  }

  /** Nothing is under way: the lock is free and every thread is waiting or gone. */
  predicate Quiescent(s: State) {
    && s.scan.NoScan?
    && (forall k :: 0 <= k < |s.workers| ==> s.workers[k].thread.Exited? || IsParked(s.workers[k]))
  }

  lemma RestOwesNothing(s: State, h: nat)
    requires Structure(s) && Quiescent(s)
    ensures Owing(s, h) == {}
  {
    forall j | 0 <= j < |s.jobs| ensures j !in Owing(s, h) {
      assert JobOk(s.workers, s.jobs, j) && WorkerOk(s.workers, s.jobs, s.jobs[j].worker);
    }
  }

  /** Once all queries have come back, a handle has been closed once, and twice if a construction failed on it. */
  lemma AllClosedAtRest(run: seq<Action>, t: State, h: nat)
    requires Leads(START, run, t) && Quiescent(t) && h < |t.closes|
    ensures t.closes[h] == 1 + FailuresOn(START, run, h) <= 2
  {
    StartIsFine();
    ReachableInvariant(START, run, t);
    DutiesCountFailures(run, t, h);
    RestOwesNothing(t, h);
  }

  /** Whenever the scan lock is free, the persistent slot holds a worker that still takes jobs. */
  lemma FreeLockMeansOpenSlot(run: seq<Action>, t: State)
    requires Leads(START, run, t) && t.scan.NoScan? && t.slot.Some?
    ensures t.slot.value < |t.workers| && !t.workers[t.slot.value].closed && t.workers[t.slot.value].queue == []
  {
    StartIsFine();
    ReachableInvariant(START, run, t);
  }

  predicate Goes(s: State, a: Action, t: State) {
    Step(s, a).Some? &&
    var u := Step(s, a).value;
    u.workers == t.workers && u.jobs == t.jobs && u.cell == t.cell && u.slot == t.slot && u.scan == t.scan
    && u.calls == t.calls && u.closes == t.closes
  }

  /** A list of states, each reached from the one before by the listed action, is a run. */
  lemma {:induction false} TraceLeads(trace: seq<State>, run: seq<Action>)
    requires |trace| == |run| + 1
    requires forall i :: 0 <= i < |run| ==> Goes(trace[i], run[i], trace[i + 1])
    ensures Leads(trace[0], run, trace[|run|])
    decreases |run|
  {
    if run != [] {
      TraceLeads(trace[1..], run[1..]);
    }
  }

  const SLOW := Job(0, Some(0), false, false, false, false, false)
  const BUSY := Worker(ScanWorker, false, [Task(0)], Parked)
  const RETIRED := Worker(ScanWorker, true, [Task(0), Sentinel], Parked)
  const LATE := Worker(ScanWorker, true, [Sentinel], Parked)
  const LEFT := SLOW.(abandoned := true)

  function AfterFailure(w: Worker, j: Job, closes: nat): State {
    State([w], [j], 1, None, NoScan, [], [closes])
  }

  /** One query times out and its worker is retired... */
  const GATE := State([], [], 0, None, AtGate, [], [])
  const BUILT := State([NewWorker(ScanWorker)], [], 0, Some(0), Ready(0), [], [])
  const OWNING := State([NewWorker(ScanWorker)], [], 0, Some(0), Holding(0, 0), [], [0])
  const ASKING := State([BUSY], [SLOW], 0, Some(0), Waiting(0, 0, 0, 1), [], [0])
  const TIMED_OUT := State([BUSY], [SLOW], 0, Some(0), Deciding(0, 0, 0), [], [0])
  const CLAIMED := State([BUSY], [LEFT], 1, Some(0), Retiring(0, 0, 0, false), [], [0])
  const CLOSED := State([RETIRED], [LEFT], 1, Some(0), Unresolved(0, 0, false), [], [0])

  /** ... the thread of its replacement cannot be started, and then the query comes back. */
  const SLOT_FREE := State([RETIRED], [LEFT], 1, None, Replacing(0), [], [0])
  const CLOSED_ONCE := AfterFailure(RETIRED, LEFT, 1)
  const TAKEN := AfterFailure(LATE.(thread := Running(0)), LEFT, 1)
  const CAME_BACK := AfterFailure(LATE.(thread := Returned(0)), LEFT, 1)
  const STORED := AfterFailure(LATE.(thread := Signalling(0, true)), LEFT.(completed := true), 1)
  const SIGNALLED := AfterFailure(LATE.(thread := CallingBack(0)), LEFT.(completed := true, done := true), 1)
  const CLOSED_TWICE :=
    AfterFailure(LATE.(thread := Releasing(0)), LEFT.(completed := true, done := true, notified := true), 2)

  const RETIREMENT := [BeginScan, TakeGate(true), Duplicate, ScanSubmits, ScanTimesOut(false), ScanDecides, ScanRetires]
  const DOUBLE_CLOSE := [ScanReplaces, BuildFails, ThreadMoves(0), ThreadMoves(0), ThreadMoves(0), ThreadMoves(0), ThreadMoves(0)]

  lemma WorkerIsBuilt()
    ensures Goes(START, BeginScan, GATE) && Goes(GATE, TakeGate(true), BUILT) && Goes(BUILT, Duplicate, OWNING)
  {
  }

  lemma QueryIsQueued()
    ensures Goes(OWNING, ScanSubmits, ASKING)
  {
    assert NewWorker(ScanWorker).queue + [Task(0)] == [Task(0)];
  }

  lemma QueryTimesOut()
    ensures Goes(ASKING, ScanTimesOut(false), TIMED_OUT) && Goes(TIMED_OUT, ScanDecides, CLAIMED)
  {
  }

  lemma WorkerIsRetired()
    ensures Goes(CLAIMED, ScanRetires, CLOSED)
  {
    assert BUSY.queue + [Sentinel] == RETIRED.queue;
  }

  lemma ReplacementFails()
    ensures Goes(CLOSED, ScanReplaces, SLOT_FREE) && Goes(SLOT_FREE, BuildFails, CLOSED_ONCE)
  {
  }

  lemma ThreadTakesQuery()
    ensures Goes(CLOSED_ONCE, ThreadMoves(0), TAKEN) && Goes(TAKEN, ThreadMoves(0), CAME_BACK)
  {
    assert RETIRED.queue[1..] == [Sentinel];
  }

  lemma ThreadFinishesLate()
    ensures Goes(CAME_BACK, ThreadMoves(0), STORED) && Goes(STORED, ThreadMoves(0), SIGNALLED)
    ensures Goes(SIGNALLED, ThreadMoves(0), CLOSED_TWICE)
  {
  }

  lemma RetirementRun()
    ensures Leads(START, RETIREMENT, CLOSED)
  {
    WorkerIsBuilt();
    QueryIsQueued();
    QueryTimesOut();
    WorkerIsRetired();
    TraceLeads([START, GATE, BUILT, OWNING, ASKING, TIMED_OUT, CLAIMED, CLOSED], RETIREMENT);
  }

  lemma DoubleCloseRun()
    ensures Leads(CLOSED, DOUBLE_CLOSE, CLOSED_TWICE)
  {
    ReplacementFails();
    ThreadTakesQuery();
    ThreadFinishesLate();
    TraceLeads([CLOSED, SLOT_FREE, CLOSED_ONCE, TAKEN, CAME_BACK, STORED, SIGNALLED, CLOSED_TWICE], DOUBLE_CLOSE);
  }

  /** A concrete run in which one handle is closed twice. */
  lemma DoubleClose()
    ensures Leads(START, RETIREMENT, CLOSED) && Leads(CLOSED, DOUBLE_CLOSE, CLOSED_TWICE)
    ensures CLOSED_TWICE.closes == [2]
  {
    RetirementRun();
    DoubleCloseRun();
  }

  lemma StillPending(s: State)
    requires s.jobs == [LEFT]
    ensures QueryPending(s, 0)
  {
    assert s.jobs[0].handle == Some(0);
  }

  /** On the way there it is closed while its query is still queued, and the thread then runs the query on it. */
  lemma ClosedUnderQuery()
    ensures Leads(START, RETIREMENT, CLOSED) && Goes(CLOSED, ScanReplaces, SLOT_FREE) && Goes(SLOT_FREE, BuildFails, CLOSED_ONCE)
    ensures ClosesPending(SLOT_FREE, BuildFails, 0) && CLOSED_ONCE.closes == [1] && QueryPending(CLOSED_ONCE, 0)
    ensures Goes(CLOSED_ONCE, ThreadMoves(0), TAKEN) && TAKEN.workers[0].thread == Running(0) && QueryPending(TAKEN, 0)
  {
    RetirementRun();
    ReplacementFails();
    ThreadTakesQuery();
    StillPending(SLOT_FREE);
    StillPending(CLOSED_ONCE);
    StillPending(TAKEN);
  }
}
