/**
  The signalling half of a stop against a process id that the operating system may recycle while
  the stop runs.  Every call into the system is one observation at one instant; a check and the
  signals right after it happen at the same instant.  Neither the orphan scan nor a job object
  takes part here.
 */
module StopSequence {
  import opened Records

  /** Who holds the tracked pid: our process, nobody, an unrelated process, and nobody again. */
  datatype Phase = Ours | Gone | Stranger | GoneAgain

  function Age(p: Phase): nat {
    match p
    case Ours => 0
    case Gone => 1
    case Stranger => 2
    case GoneAgain => 3
  }

  predicate IsAlive(p: Phase) {
    p == Ours || p == Stranger
  }

  /** The stranger has been there: only then can its kin carry the pid as parent or as group. */
  predicate HasAppeared(p: Phase) {
    p == Stranger || p == GoneAgain
  }

  /** What the system answers at each instant. */
  datatype World = World(
    occupant: nat -> Phase,
    readable: nat -> bool,         // the birth time can be read
    leads: nat -> bool,            // the occupant leads its own process group
    children: nat -> seq<int>,     // the recursive query
    walk: nat -> seq<int>,         // the walk over the process list
    members: nat -> seq<int>,      // the scan for the process group
    reaps: nat -> bool,            // the process was a zombie child of ours
    posix: bool)

  /** The pid is recycled at most once. */
  ghost predicate RecycledOnce(w: World) {
    forall i, j :: i <= j ==> Age(w.occupant(i)) <= Age(w.occupant(j))
  }

  /** Nobody collects the stranger's tree or group before the stranger exists. */
  ghost predicate KinComesLater(w: World, kin: set<int>) {
    forall i, p :: p in kin && (p in w.children(i) || p in w.walk(i) || p in w.members(i)) ==> HasAppeared(w.occupant(i))
  }

  /** What was done, and to whom. */
  datatype Deed = ToGroup(of: Phase) | ToProcess(to: Phase) | Forced(whom: Phase) | KillSnapshot(pid: int)

  predicate IsAgainstStranger(d: Deed, kin: set<int>) {
    match d
    case ToGroup(of) => HasAppeared(of)
    case ToProcess(to) => to == Stranger
    case Forced(whom) => whom == Stranger
    case KillSnapshot(pid) => pid in kin
  }

  ghost predicate HitsStranger(log: seq<Deed>, kin: set<int>) {
    exists d :: d in log && IsAgainstStranger(d, kin)
  }

  // ---------------------------------------------------------------------------
  // Observations
  // ---------------------------------------------------------------------------

  /** `_pid_status`: liveness first, then the birth time; the instant after the last observation. */
  function StatusAt(w: World, recorded: bool, t: nat): (Verdict, nat) {
    if !IsAlive(w.occupant(t)) then (Refuted, t + 1)
    else if !recorded then (Unverifiable, t + 1)
    else if !w.readable(t + 1) || !IsAlive(w.occupant(t + 1)) then (Unverifiable, t + 2)
    else (if w.occupant(t + 1) == Ours then Confirmed else Refuted, t + 2)
  }

  /** `_process_tree`: the recursive query, and the walk if it returns nothing for a pid that exists. */
  function TreeAt(w: World, t: nat): (seq<int>, nat) {
    if w.children(t) != [] then (w.children(t), t + 1)
    else if !IsAlive(w.occupant(t + 1)) then ([], t + 2)
    else (w.walk(t + 2), t + 3)
  }

  /** `_process_group_members`: nothing if the pid is alive but leads no group of its own. */
  function GroupAt(w: World, t: nat): (seq<int>, nat) {
    if !w.posix then ([], t)
    else if IsAlive(w.occupant(t)) && !w.leads(t) then ([], t + 1)
    else (w.members(t + 1), t + 2)
  }

  /** Confirmation names our process, and dates from the last observation. */
  lemma ConfirmedIsOurs(w: World, recorded: bool, t: nat)
    ensures StatusAt(w, recorded, t).0 == Confirmed ==> w.occupant(StatusAt(w, recorded, t).1 - 1) == Ours
    ensures t < StatusAt(w, recorded, t).1
  {
  }

  lemma SnapshotKin(w: World, kin: set<int>, t: nat, p: int, later: nat)
    requires RecycledOnce(w) && KinComesLater(w, kin) && p in kin
    requires (p in TreeAt(w, t).0 && TreeAt(w, t).1 <= later) || (p in GroupAt(w, t).0 && GroupAt(w, t).1 <= later)
    ensures HasAppeared(w.occupant(later))
  {
    if p in TreeAt(w, t).0 && TreeAt(w, t).1 <= later {
      if w.children(t) != [] {
        assert Age(w.occupant(t)) <= Age(w.occupant(later));
      } else {
        assert Age(w.occupant(t + 2)) <= Age(w.occupant(later));
      }
    } else {
      assert Age(w.occupant(t + 1)) <= Age(w.occupant(later));
    }
  }

  // ---------------------------------------------------------------------------
  // The stop
  // ---------------------------------------------------------------------------

  /** The course that a stop takes. */
  datatype Course =
    | Withheld         // alive at entry but not confirmed: hands off
    | Signalled        // confirmed at entry and again right before the signal
    | LostInBetween    // confirmed at entry, not any more: snapshot discarded
    | DeadAtEntry      // dead at entry and still dead: what it left behind is killed
    | RecycledMeanwhile  // dead at entry, alive now: snapshot discarded

  function Without(s: seq<int>, gone: seq<int>, pid: int): seq<int> {
    if s == [] then []
    else (if s[0] in gone || s[0] == pid then [] else [s[0]]) + Without(s[1..], gone, pid)
  }

  lemma {:induction false} WithoutHas(s: seq<int>, gone: seq<int>, pid: int, p: int)
    ensures p in Without(s, gone, pid) <==> p in s && p !in gone && p != pid
  {
    if s != [] { WithoutHas(s[1..], gone, pid, p); }
  }

  /** The processes that the snapshots name: the tree, then what only the group adds. */
  function Snapshot(w: World, pid: int, t: nat): seq<int> {
    var tree := TreeAt(w, t);
    tree.0 + Without(GroupAt(w, tree.1 + 1).0, tree.0, pid)
  }

  /** The instant of the re-check, when the snapshots begin at `t`; one more observation describes the pid. */
  function RecheckAt(w: World, t: nat): nat {
    GroupAt(w, TreeAt(w, t).1 + 1).1
  }

  /** The instant after the two entry checks. */
  function AfterEntry(w: World, recorded: bool): nat {
    StatusAt(w, recorded, 0).1 + 1
  }

  function CourseOf(w: World, recorded: bool): Course {
    var verdict, entry := StatusAt(w, recorded, 0).0, StatusAt(w, recorded, 0).1;
    var recheck := RecheckAt(w, AfterEntry(w, recorded));
    if IsAlive(w.occupant(entry)) && verdict != Confirmed then Withheld
    else if verdict == Confirmed then
      if StatusAt(w, recorded, recheck).0 == Confirmed then Signalled else LostInBetween
    else if IsAlive(w.occupant(recheck)) then RecycledMeanwhile else DeadAtEntry
  }

  /** The instant of the first group observation, when the tree observations begin at `t`. */
  function GroupFrom(w: World, t: nat): nat {
    if w.children(t) != [] then t + 2 else if IsAlive(w.occupant(t + 1)) then t + 4 else t + 3
  }

  /**
    The system names `p` when the stop asks: as a child at once, in the walk if there is no child
    and the pid is taken an instant later, or as a member of the pid's group afterwards.
   */
  predicate IsNamed(w: World, pid: int, t: nat, p: int) {
    var g := GroupFrom(w, t);
    || p in w.children(t)
    || (w.children(t) == [] && IsAlive(w.occupant(t + 1)) && p in w.walk(t + 2))
    || (w.posix && p != pid && (IsAlive(w.occupant(g)) ==> w.leads(g)) && p in w.members(g + 1))
  }

  lemma SnapshotIsNamed(w: World, pid: int, t: nat, p: int)
    ensures p in Snapshot(w, pid, t) <==> IsNamed(w, pid, t, p)
  {
    WithoutHas(GroupAt(w, TreeAt(w, t).1 + 1).0, TreeAt(w, t).0, pid, p);
  }

  /**
    The one way to hit the stranger: the pid is free at entry and at the re-check, the stranger
    came and went in between, and one of the queries asked meanwhile names its kin.
   */
  ghost predicate StrangerPassedBy(w: World, recorded: bool, pid: int, kin: set<int>) {
    && CourseOf(w, recorded) == DeadAtEntry
    && w.occupant(RecheckAt(w, AfterEntry(w, recorded))) == GoneAgain
    && exists p :: p in kin && IsNamed(w, pid, AfterEntry(w, recorded), p)
  }

  /** Our process outlives every check, and every check can identify it. */
  ghost predicate LivesOn(w: World) {
    forall t :: w.occupant(t) == Ours && w.readable(t) && !w.reaps(t)
  }

  class Os {
    const w: World
    const recorded: bool
    var now: nat
    var log: seq<Deed>

    constructor (w: World, recorded: bool)
      ensures this.w == w && this.recorded == recorded && now == 0 && log == []
    {
      this.w, this.recorded, now, log := w, recorded, 0, [];
    }

    method PidAlive() returns (alive: bool)
      modifies this`now
      ensures alive == IsAlive(w.occupant(old(now))) && now == old(now) + 1
    {
      alive := IsAlive(w.occupant(now));
      now := now + 1;
    }

    method PidStatus() returns (v: Verdict)
      modifies this`now
      ensures (v, now) == StatusAt(w, recorded, old(now))
    {
      var answer := StatusAt(w, recorded, now);
      v, now := answer.0, answer.1;
    }

    /** `_signal_process_group`, at the instant of the check before it: a dead pid has no group to signal. */
    method SignalGroup()
      requires now > 0
      modifies this`log
      ensures log == if w.posix && IsAlive(w.occupant(now - 1)) && w.leads(now - 1)
                     then old(log) + [ToGroup(w.occupant(now - 1))] else old(log)
    {
      if w.posix && IsAlive(w.occupant(now - 1)) && w.leads(now - 1) {
        log := log + [ToGroup(w.occupant(now - 1))];
      }
    }

    /** `_wait_or_kill` with an expected birth time; `polls` bounds the rounds within the budget. */
    method WaitOrKill(polls: nat)
      modifies this
      ensures log == old(log) || log == old(log) + [Forced(Ours)]
      ensures LivesOn(w) && recorded ==> log == old(log) + [Forced(Ours)]
      ensures now >= old(now)
    {
      ghost var start := now;
      var verdict: Verdict;
      if polls > 0 {
        for n := 0 to polls
          invariant log == old(log) && now >= start
        {
          var reaped := w.reaps(now);
          var alive := PidAlive();
          if reaped || !alive {
            return;
          }
          verdict := PidStatus();
          if verdict != Confirmed {
            return;
          }
        }
        var alive := PidAlive();
        if !alive || w.reaps(now) {
          return;
        }
      }
      ConfirmedIsOurs(w, recorded, now);
      verdict := PidStatus();
      if verdict == Confirmed {
        log := log + [Forced(w.occupant(now - 1))];
      }
    }

    /** The two entry checks. */
    method Enter() returns (verdict: Verdict, alive: bool)
      requires now == 0
      modifies this`now
      ensures verdict == StatusAt(w, recorded, 0).0 && now == AfterEntry(w, recorded)
      ensures alive == IsAlive(w.occupant(now - 1))
      ensures LivesOn(w) && recorded ==> verdict == Confirmed
    {
      verdict := PidStatus();
      alive := PidAlive();
    }

    /** The tree, then what only the group adds. */
    method TakeSnapshots(pid: int) returns (pids: seq<int>)
      modifies this`now
      ensures pids == Snapshot(w, pid, old(now)) && now == RecheckAt(w, old(now))
    {
      var tree := TreeAt(w, now);
      now := tree.1 + 1;
      var group := GroupAt(w, now);
      now := group.1;
      pids := tree.0 + Without(group.0, tree.0, pid);
    }

    /** The re-check after the snapshots, and the signals it allows. */
    method RecheckAndSignal(confirmed: bool, polls: nat) returns (course: Course)
      requires log == []
      modifies this
      ensures course == if confirmed then (if StatusAt(w, recorded, old(now)).0 == Confirmed then Signalled else LostInBetween)
                        else if IsAlive(w.occupant(old(now))) then RecycledMeanwhile else DeadAtEntry
      ensures IsHarmless(log) && (ToProcess(Ours) in log <==> course.Signalled?)
      ensures !course.Signalled? ==> log == []
      ensures LivesOn(w) && recorded && confirmed ==> Forced(Ours) in log
    {
      if confirmed {
        ConfirmedIsOurs(w, recorded, now);
        var again := PidStatus();
        if again != Confirmed {
          return LostInBetween;
        }
        SignalGroup();
        log := log + [ToProcess(w.occupant(now - 1))];
        ghost var signals := log;
        assert signals[|signals| - 1] == ToProcess(Ours);
        WaitOrKill(polls);
        assert log[|signals| - 1] == ToProcess(Ours);
        return Signalled;
      }
      var alive := PidAlive();
      if alive {
        return RecycledMeanwhile;
      }
      SignalGroup();
      return DeadAtEntry;
    }

    /** The stop of the tracked pid, its tree and its group. */
    method Stop(pid: int, polls: nat, ghost kin: set<int>) returns (killed: seq<int>, course: Course)
      requires now == 0 && log == []
      requires RecycledOnce(w) && KinComesLater(w, kin)
      modifies this
      ensures course == CourseOf(w, recorded)
      ensures killed == if course.Signalled? || course.DeadAtEntry? then Snapshot(w, pid, AfterEntry(w, recorded)) else []
      ensures forall p :: p in killed ==> KillSnapshot(p) in log
      ensures ToProcess(Ours) in log <==> course.Signalled?
      ensures course.DeadAtEntry? ==> forall d :: d in log ==> d.KillSnapshot?
      ensures LivesOn(w) && recorded ==> Forced(Ours) in log
      ensures HitsStranger(log, kin) <==> StrangerPassedBy(w, recorded, pid, kin)
    {
      var verdict, alive := Enter();
      if alive && verdict != Confirmed {
        return [], Withheld;
      }
      var snapshot := TakeSnapshots(pid);
      course := RecheckAndSignal(verdict == Confirmed, polls);
      killed := if course.Signalled? || course.DeadAtEntry? then snapshot else [];
      ghost var signals := log;
      log := log + Kills(killed);
      WhoIsHit(w, recorded, pid, kin, signals, killed);
    }
  }

  /** The kill loop is the only place where a stranger can be hit. */
  lemma WhoIsHit(w: World, recorded: bool, pid: int, kin: set<int>, signals: seq<Deed>, killed: seq<int>)
    requires RecycledOnce(w) && KinComesLater(w, kin) && IsHarmless(signals)
    requires var course := CourseOf(w, recorded);
      killed == if course.Signalled? || course.DeadAtEntry? then Snapshot(w, pid, AfterEntry(w, recorded)) else []
    ensures var log := signals + Kills(killed);
      && (HitsStranger(log, kin) <==> StrangerPassedBy(w, recorded, pid, kin))
      && (forall p :: p in killed ==> KillSnapshot(p) in log)
      && (ToProcess(Ours) in log <==> ToProcess(Ours) in signals)
      && (Forced(Ours) in signals ==> Forced(Ours) in log)
  {
    NobodyHitBefore(signals, kin);
    HitsConcat(signals, Kills(killed), kin);
    KillsHit(killed, kin);
    SnapshotSafety(w, recorded, pid, kin);
    assert ToProcess(Ours) !in Kills(killed);
  }

  predicate IsHarmless(log: seq<Deed>) {
    forall d :: d in log ==> d == ToGroup(Ours) || d == ToProcess(Ours) || d == Forced(Ours)
  }

  lemma NobodyHitBefore(log: seq<Deed>, kin: set<int>)
    ensures IsHarmless(log) ==> !HitsStranger(log, kin)
  {
  }

  lemma HitsConcat(a: seq<Deed>, b: seq<Deed>, kin: set<int>)
    ensures HitsStranger(a + b, kin) <==> HitsStranger(a, kin) || HitsStranger(b, kin)
  {
    assert forall d :: d in a + b <==> d in a || d in b;
  }

  lemma KillsHit(pids: seq<int>, kin: set<int>)
    ensures HitsStranger(Kills(pids), kin) <==> exists p :: p in pids && p in kin
    ensures forall p :: p in pids ==> KillSnapshot(p) in Kills(pids)
  {
    forall p | p in pids ensures KillSnapshot(p) in Kills(pids) {
      var i :| 0 <= i < |pids| && pids[i] == p;
      assert Kills(pids)[i] == KillSnapshot(p);
    }
    if d :| d in Kills(pids) && IsAgainstStranger(d, kin) {
      var i :| 0 <= i < |pids| && Kills(pids)[i] == d;
      var p := pids[i];
      assert p in pids && p in kin;
    }
    if p :| p in pids && p in kin {
      assert IsAgainstStranger(KillSnapshot(p), kin);
    }
  }

  /** Kin in a snapshot means that the stranger has been there by the time of the re-check. */
  lemma KinMeansAppeared(w: World, pid: int, kin: set<int>, t: nat, p: int)
    requires RecycledOnce(w) && KinComesLater(w, kin) && p in kin && IsNamed(w, pid, t, p)
    ensures HasAppeared(w.occupant(RecheckAt(w, t)))
  {
    SnapshotIsNamed(w, pid, t, p);
    WithoutHas(GroupAt(w, TreeAt(w, t).1 + 1).0, TreeAt(w, t).0, pid, p);
    if p in TreeAt(w, t).0 {
      SnapshotKin(w, kin, t, p, RecheckAt(w, t));
    } else {
      SnapshotKin(w, kin, TreeAt(w, t).1 + 1, p, RecheckAt(w, t));
    }
  }

  /** The snapshots of a confirmed stop hold no kin; those of a dead pid only if the stranger passed by. */
  lemma SnapshotSafety(w: World, recorded: bool, pid: int, kin: set<int>)
    requires RecycledOnce(w) && KinComesLater(w, kin)
    ensures CourseOf(w, recorded) == Signalled ==>
      !exists p :: p in Snapshot(w, pid, AfterEntry(w, recorded)) && p in kin
    ensures CourseOf(w, recorded) == DeadAtEntry ==>
      ((exists p :: p in Snapshot(w, pid, AfterEntry(w, recorded)) && p in kin) <==> StrangerPassedBy(w, recorded, pid, kin))
  {
    var t := AfterEntry(w, recorded);
    var recheck := RecheckAt(w, t);
    if p :| p in Snapshot(w, pid, t) && p in kin {
      SnapshotIsNamed(w, pid, t, p);
      KinMeansAppeared(w, pid, kin, t, p);
      ConfirmedIsOurs(w, recorded, recheck);
      assert Age(w.occupant(recheck)) <= Age(w.occupant(StatusAt(w, recorded, recheck).1 - 1));
    }
    if p :| p in kin && IsNamed(w, pid, t, p) {
      SnapshotIsNamed(w, pid, t, p);
    }
  }

  function Kills(pids: seq<int>): (deeds: seq<Deed>)
    ensures |deeds| == |pids| && forall i :: 0 <= i < |pids| ==> deeds[i] == KillSnapshot(pids[i])
  {
    if pids == [] then [] else [KillSnapshot(pids[0])] + Kills(pids[1..])
  }

  /** A stranger that is still there at the re-check, or was never there, is never hit. */
  lemma StrangerThatStaysIsSafe(w: World, recorded: bool, pid: int, kin: set<int>)
    requires RecycledOnce(w) && KinComesLater(w, kin)
    requires w.occupant(RecheckAt(w, AfterEntry(w, recorded))) != GoneAgain
    ensures !StrangerPassedBy(w, recorded, pid, kin)
    ensures CourseOf(w, recorded) == DeadAtEntry ==>
      forall p :: p in Snapshot(w, pid, AfterEntry(w, recorded)) ==> p !in kin
  {
    SnapshotSafety(w, recorded, pid, kin);
  }

  /** A process of ours that lives on and can be identified is signalled. */
  lemma OurProcessIsSignalled(w: World)
    requires forall t :: w.occupant(t) == Ours && w.readable(t)
    ensures CourseOf(w, true) == Signalled
  {
    assert StatusAt(w, true, 0).0 == Confirmed;
  }

  /** A run that hits a stranger: it takes the pid before the tree is snapshotted and leaves it before the re-check. */
  lemma PassingStranger()
    ensures exists w: World :: RecycledOnce(w) && KinComesLater(w, {77}) && StrangerPassedBy(w, true, 5, {77})
  {
    var occupant := (t: nat) => if t < 2 then Gone else if t < 4 then Stranger else GoneAgain;
    var children := (t: nat) => if 2 <= t < 4 then [77] else [];
    var none := (t: nat) => [];
    var always := (t: nat) => true;
    var w := World(occupant, always, always, children, none, none, always, false);
    assert RecycledOnce(w);
    assert KinComesLater(w, {77});
    assert AfterEntry(w, true) == 2;
    assert TreeAt(w, 2) == ([77], 3);
    assert RecheckAt(w, 2) == 4;
    assert w.children(2)[0] == 77 && IsNamed(w, 5, 2, 77);
  }
}
