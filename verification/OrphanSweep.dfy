/**
  The sweep for orphans that no role tracks: it first computes what belongs to the other roles,
  and kills nothing at all unless that protected set is known to be complete.
 */
module OrphanSweep {
  import opened Options
  import opened Records
  import opened ProcessTree

  /** The job object of a role: none, one that cannot be opened, or one with a member list. */
  datatype Job = NoJob | Unopened | Members(pids: seq<int>, complete: bool)

  /** Another tracked role: its pid, its tree if the snapshot came back in time, its job. */
  datatype Sibling = Sibling(pid: int, tree: Option<seq<int>>, job: Job)

  predicate Knows(s: Sibling, p: int) {
    p == s.pid || (s.tree.Some? && p in s.tree.value) || (s.job.Members? && p in s.job.pids)
  }

  predicate IsComplete(s: Sibling) {
    && s.tree.Some? && |s.tree.value| < MAX_NODES
    && !s.job.Unopened? && (s.job.Members? ==> s.job.complete)
  }

  /** Whether the protected set can be trusted. */
  predicate AllComplete(siblings: seq<Sibling>) {
    forall s :: s in siblings ==> IsComplete(s)
  }

  predicate IsProtected(siblings: seq<Sibling>, p: int) {
    exists s :: s in siblings && Knows(s, p)
  }

  function SetOf(s: seq<int>): set<int> {
    set p | p in s
  }

  /** `_compute_protected_pids`: a role's own pid is protected even when its tree is not known. */
  method ComputeProtected(siblings: seq<Sibling>) returns (protected: set<int>, complete: bool)
    ensures forall p :: p in protected <==> IsProtected(siblings, p)
    ensures complete <==> AllComplete(siblings)
  {
    protected, complete := {}, true;
    for i := 0 to |siblings|
      invariant forall p :: p in protected <==> IsProtected(siblings[..i], p)
      invariant complete <==> AllComplete(siblings[..i])
    {
      var s := siblings[i];
      assert siblings[..i + 1] == siblings[..i] + [s];
      ProtectedOneMore(siblings[..i], s);
      protected := protected + {s.pid};
      if s.tree.None? {
        complete := false;
      } else {
        if |s.tree.value| >= MAX_NODES {
          complete := false;
        }
        protected := protected + SetOf(s.tree.value);
      }
      match s.job
      case NoJob =>
      case Unopened => complete := false;
      case Members(pids, all) =>
        if !all {
          complete := false;
        }
        protected := protected + SetOf(pids);
    }
    assert siblings[..|siblings|] == siblings;
  }

  lemma ProtectedOneMore(siblings: seq<Sibling>, s: Sibling)
    ensures forall p: int :: IsProtected(siblings + [s], p) <==> IsProtected(siblings, p) || Knows(s, p)
    ensures AllComplete(siblings + [s]) <==> AllComplete(siblings) && IsComplete(s)
  {
    var more := siblings + [s];
    assert s in more && forall x :: x in more <==> x in siblings || x == s;
  }

  // ---------------------------------------------------------------------------
  // The kill
  // ---------------------------------------------------------------------------

  /** What became of the walk of one blocker's own tree. */
  datatype Walk = Walked(tree: seq<int>) | TimedOut | BudgetSpent

  /** How many blockers had their turn before the budget was spent. */
  function Turns(walks: seq<Walk>): nat {
    if walks == [] || walks[0].BudgetSpent? then 0 else 1 + Turns(walks[1..])
  }

  predicate Expands(walks: seq<Walk>, p: int) {
    exists i :: 0 <= i < Turns(walks) <= |walks| && walks[i].Walked? && p in walks[i].tree
  }

  /**
    `_kill_blocking_processes` up to the signals: the blockers found, then what their own trees
    add; `found` is what discovery returned, which never includes an excluded process.
   */
  method Expand(found: seq<int>, walks: seq<Walk>, excluded: set<int>) returns (targets: seq<int>, truncated: bool)
    requires Distinct(found) && |walks| == |found|
    ensures Distinct(targets) && found <= targets
    ensures forall p :: p in targets <==> p in found || (Expands(walks, p) && p !in excluded)
    ensures truncated <==> exists i :: 0 <= i < |walks| && !walks[i].Walked?
  {
    targets, truncated := found, false;
    var i := 0;
    TurnsBound(walks);
    while i < |found| && !walks[i].BudgetSpent?
      invariant i <= Turns(walks)
      invariant Distinct(targets) && found <= targets
      invariant forall p: int :: p in targets <==> p in found || (ExpandsBefore(walks, i, p) && p !in excluded)
      invariant truncated <==> exists j :: 0 <= j < i && !walks[j].Walked?
    {
      TurnsStep(walks, i);
      if walks[i].Walked? {
        targets := AddTree(targets, walks[i].tree, excluded);
      } else {
        truncated := true;
      }
      i := i + 1;
    }
    TurnsEnd(walks, i);
    if i < |found| {
      truncated := true;
    }
  }

  predicate ExpandsBefore(walks: seq<Walk>, i: nat, p: int) {
    exists j :: 0 <= j < i <= |walks| && walks[j].Walked? && p in walks[j].tree
  }

  lemma {:induction false} TurnsBound(walks: seq<Walk>)
    ensures Turns(walks) <= |walks|
  {
    if walks != [] && !walks[0].BudgetSpent? { TurnsBound(walks[1..]); }
  }

  lemma {:induction false} TurnsStep(walks: seq<Walk>, i: nat)
    requires i < |walks| && i <= Turns(walks) && !walks[i].BudgetSpent?
    ensures i + 1 <= Turns(walks)
  {
    if i > 0 { TurnsStep(walks[1..], i - 1); }
  }

  lemma {:induction false} TurnsEnd(walks: seq<Walk>, i: nat)
    requires i <= |walks| && i <= Turns(walks) && (i < |walks| ==> walks[i].BudgetSpent?)
    ensures i == Turns(walks)
  {
    if i > 0 { TurnsEnd(walks[1..], i - 1); }
  }

  method AddTree(targets: seq<int>, tree: seq<int>, excluded: set<int>) returns (more: seq<int>)
    requires Distinct(targets)
    ensures Distinct(more) && targets <= more
    ensures forall p :: p in more <==> p in targets || (p in tree && p !in excluded)
  {
    more := targets;
    for i := 0 to |tree|
      invariant Distinct(more) && targets <= more
      invariant forall p :: p in more <==> p in targets || (p in tree[..i] && p !in excluded)
    {
      assert tree[..i + 1] == tree[..i] + [tree[i]];
      var p := tree[i];
      if p !in more && p !in excluded {
        AppendDistinct(more, p);
        more := more + [p];
      }
    }
    assert tree[..|tree|] == tree;
  }

  // ---------------------------------------------------------------------------
  // The sweep
  // ---------------------------------------------------------------------------

  /** The roles other than `role`, with what could be learnt about them in time. */
  function Siblings(rec: Record, role: string, roles: seq<string>, treeOf: string -> Option<seq<int>>, jobOf: string -> Job):
    (siblings: seq<Sibling>)
    ensures forall other :: other in roles && other in rec.pids && other != role ==>
      Sibling(rec.pids[other], treeOf(other), jobOf(other)) in siblings
    ensures forall s :: s in siblings ==> exists other :: other in rec.pids && other != role
                                            && s == Sibling(rec.pids[other], treeOf(other), jobOf(other))
  {
    if roles == [] then []
    else
      var rest := Siblings(rec, role, roles[1..], treeOf, jobOf);
      if roles[0] == role || roles[0] !in rec.pids then rest
      else [Sibling(rec.pids[roles[0]], treeOf(roles[0]), jobOf(roles[0]))] + rest
  }

  /** What discovery and the walks return; none of it ever names an excluded process or the host's lineage. */
  datatype Scan = Scan(found: seq<int>, complete: bool, walks: seq<Walk>)

  predicate IsScan(scan: Scan, excluded: set<int>, hosts: set<int>) {
    && Distinct(scan.found) && |scan.walks| == |scan.found|
    && (forall p :: p in scan.found ==> p !in excluded && p !in hosts)
    && (forall w :: w in scan.walks && w.Walked? ==> forall p :: p in w.tree ==> p !in hosts)
  }

  predicate IsEligible(rec: Record, isDir: bool, timeout: real) {
    rec.backing != Primary && isDir && timeout > 0.0
  }

  /** Every tree that is known is a snapshot of the role's process on the table `t`. */
  ghost predicate AreSnapshots(siblings: seq<Sibling>, t: Table, rank: int -> nat, hosts: set<int>)
    requires Acyclic(t, rank)
  {
    forall s :: s in siblings && s.tree.Some? ==> IsSnapshotOf(s.tree.value, t, rank, s.pid, hosts)
  }

  ghost predicate IsSnapshotOf(tree: seq<int>, t: Table, rank: int -> nat, root: int, hosts: set<int>)
    requires Acyclic(t, rank)
  {
    exists recursive :: IsQuery(recursive, t, rank, root) && IsSnapshot(tree, t, root, recursive, hosts)
  }

  /** Pids are positive, and the host and its ancestors do not run inside the roles that it tracks. */
  ghost predicate HostsOutside(siblings: seq<Sibling>, t: Table, rank: int -> nat, hosts: set<int>)
    requires Acyclic(t, rank)
  {
    forall s :: s in siblings ==> s.pid > 0 && forall p :: p in hosts ==> !Below(t, rank, p, s.pid)
  }

  ghost predicate BelongsTo(siblings: seq<Sibling>, t: Table, rank: int -> nat, p: int)
    requires Acyclic(t, rank)
  {
    exists s :: s in siblings && Below(t, rank, p, s.pid)
  }

  /** A child on record of a role whose own process is gone. */
  predicate IsAbandoned(siblings: seq<Sibling>, t: Table, p: int) {
    p in t && exists s :: s in siblings && t[p] == s.pid && s.pid !in t
  }

  /** A child of a member of a role's job. */
  predicate HasParentInJob(siblings: seq<Sibling>, t: Table, p: int) {
    p in t && exists s :: s in siblings && s.job.Members? && t[p] in s.job.pids
  }

  /** Where a complete protected set can still have a hole: where only the table shows a role's descendant. */
  ghost predicate IsHole(siblings: seq<Sibling>, t: Table, rank: int -> nat, hosts: set<int>, p: int)
    requires Acyclic(t, rank)
  {
    && p !in hosts && !IsProtected(siblings, p)
    && (IsAbandoned(siblings, t, p) || (HasParentInJob(siblings, t, p) && BelongsTo(siblings, t, rank, p)))
  }

  ghost predicate HasHole(siblings: seq<Sibling>, t: Table, rank: int -> nat, hosts: set<int>)
    requires Acyclic(t, rank)
  {
    exists p :: IsHole(siblings, t, rank, hosts, p)
  }

  /** The trees are snapshots of one table, the host runs outside the roles, and the table leaves no hole. */
  ghost predicate IsWatertight(siblings: seq<Sibling>, t: Table, rank: int -> nat, hosts: set<int>) {
    && Acyclic(t, rank) && AreSnapshots(siblings, t, rank, hosts) && HostsOutside(siblings, t, rank, hosts)
    && !HasHole(siblings, t, rank, hosts)
  }

  /** The whole tree of a role whose process exists is protected. */
  lemma LivingRoleIsCovered(siblings: seq<Sibling>, t: Table, rank: int -> nat, hosts: set<int>, s: Sibling, p: int)
    requires Acyclic(t, rank) && AllComplete(siblings) && AreSnapshots(siblings, t, rank, hosts)
    requires HostsOutside(siblings, t, rank, hosts) && s in siblings && s.pid in t && Below(t, rank, p, s.pid)
    ensures IsProtected(siblings, p)
  {
    assert IsComplete(s);
    var tree := s.tree.value;
    assert IsSnapshotOf(tree, t, rank, s.pid, hosts);
    var recursive :| IsQuery(recursive, t, rank, s.pid) && IsSnapshot(tree, t, s.pid, recursive, hosts);
    ShortSnapshotCovers(tree, t, rank, s.pid, recursive, hosts);
    assert Knows(s, p);
  }

  /** The children of whatever a snapshot names are protected, too. */
  lemma ChildOfTreeIsCovered(siblings: seq<Sibling>, t: Table, rank: int -> nat, hosts: set<int>, s: Sibling, p: int)
    requires Acyclic(t, rank) && AllComplete(siblings) && AreSnapshots(siblings, t, rank, hosts)
    requires HostsOutside(siblings, t, rank, hosts) && s in siblings && s.tree.Some?
    requires p in t && t[p] in s.tree.value
    ensures IsProtected(siblings, p)
  {
    var tree := s.tree.value;
    assert IsSnapshotOf(tree, t, rank, s.pid, hosts);
    var recursive :| IsQuery(recursive, t, rank, s.pid) && IsSnapshot(tree, t, s.pid, recursive, hosts);
    FoundIsBelow(t, rank, s.pid, recursive, t[p]);
    LivingRoleIsCovered(siblings, t, rank, hosts, s, p);
  }

  /** From an unprotected descendant the way up to its role leads through a hole. */
  lemma {:induction false} FindHole(siblings: seq<Sibling>, t: Table, rank: int -> nat, hosts: set<int>, s: Sibling, p: int)
    requires Acyclic(t, rank) && AllComplete(siblings) && AreSnapshots(siblings, t, rank, hosts)
    requires HostsOutside(siblings, t, rank, hosts) && s in siblings && Below(t, rank, p, s.pid)
    requires p !in hosts && !IsProtected(siblings, p)
    ensures HasHole(siblings, t, rank, hosts)
    decreases rank(p)
  {
    var parent := t[p];
    if parent == s.pid {
      if s.pid in t {
        LivingRoleIsCovered(siblings, t, rank, hosts, s, p);
      } else {
        assert IsHole(siblings, t, rank, hosts, p);
      }
    } else if !IsProtected(siblings, parent) {
      FindHole(siblings, t, rank, hosts, s, parent);
    } else {
      var other :| other in siblings && Knows(other, parent);
      if parent == other.pid {
        LivingRoleIsCovered(siblings, t, rank, hosts, other, p);
      } else if other.tree.Some? && parent in other.tree.value {
        ChildOfTreeIsCovered(siblings, t, rank, hosts, other, p);
      } else {
        assert HasParentInJob(siblings, t, p) && BelongsTo(siblings, t, rank, p);
        assert IsHole(siblings, t, rank, hosts, p);
      }
    }
  }

  lemma HoleBelongs(siblings: seq<Sibling>, t: Table, rank: int -> nat, hosts: set<int>, p: int)
    requires Acyclic(t, rank) && IsHole(siblings, t, rank, hosts, p)
    ensures BelongsTo(siblings, t, rank, p)
  {
    if IsAbandoned(siblings, t, p) {
      var s :| s in siblings && t[p] == s.pid && s.pid !in t;
      assert Below(t, rank, p, s.pid);
    }
  }

  /**
    A complete protected set covers every descendant of every other role, exactly if no unprotected
    process on record is a child of a role that is gone, or of a job member below a role.
   */
  lemma CompleteSetCovers(siblings: seq<Sibling>, t: Table, rank: int -> nat, hosts: set<int>)
    requires Acyclic(t, rank) && AllComplete(siblings) && AreSnapshots(siblings, t, rank, hosts)
    requires HostsOutside(siblings, t, rank, hosts)
    ensures (forall p :: BelongsTo(siblings, t, rank, p) && p !in hosts ==> IsProtected(siblings, p))
            <==> !HasHole(siblings, t, rank, hosts)
  {
    if p :| BelongsTo(siblings, t, rank, p) && p !in hosts && !IsProtected(siblings, p) {
      var s :| s in siblings && Below(t, rank, p, s.pid);
      FindHole(siblings, t, rank, hosts, s, p);
    }
    if p :| IsHole(siblings, t, rank, hosts, p) {
      HoleBelongs(siblings, t, rank, hosts, p);
    }
  }

  /** Without job objects: exactly if the process of every role exists or has no unprotected child on record. */
  lemma CompleteSetCoversWithoutJobs(siblings: seq<Sibling>, t: Table, rank: int -> nat, hosts: set<int>)
    requires Acyclic(t, rank) && AllComplete(siblings) && AreSnapshots(siblings, t, rank, hosts)
    requires HostsOutside(siblings, t, rank, hosts) && forall s :: s in siblings ==> s.job.NoJob?
    ensures (forall p :: BelongsTo(siblings, t, rank, p) && p !in hosts ==> IsProtected(siblings, p))
            <==> forall s, p :: s in siblings && p in t && t[p] == s.pid && p !in hosts && !IsProtected(siblings, p) ==> s.pid in t
  {
    CompleteSetCovers(siblings, t, rank, hosts);
    if s, p :| s in siblings && p in t && t[p] == s.pid && p !in hosts && !IsProtected(siblings, p) && s.pid !in t {
      assert IsAbandoned(siblings, t, p);
      assert IsHole(siblings, t, rank, hosts, p);
    }
  }

  /** Outside a complete protected set there is nobody's process, and without a hole nobody's descendant. */
  lemma UnprotectedIsForeign(siblings: seq<Sibling>, t: Table, rank: int -> nat, hosts: set<int>, s: Sibling, p: int)
    requires s in siblings && !IsProtected(siblings, p) && p !in hosts
    ensures p != s.pid
    ensures AllComplete(siblings) && IsWatertight(siblings, t, rank, hosts) ==> !Below(t, rank, p, s.pid)
  {
    assert !Knows(s, p);
    if AllComplete(siblings) && IsWatertight(siblings, t, rank, hosts) && Below(t, rank, p, s.pid) {
      FindHole(siblings, t, rank, hosts, s, p);
    }
  }

  lemma TargetsUnprotected(scan: Scan, excluded: set<int>, hosts: set<int>, p: int)
    requires IsScan(scan, excluded, hosts) && (p in scan.found || (Expands(scan.walks, p) && p !in excluded))
    ensures p !in excluded && p !in hosts
  {
    if p !in scan.found {
      var i :| 0 <= i < Turns(scan.walks) <= |scan.walks| && scan.walks[i].Walked? && p in scan.walks[i].tree;
      assert scan.walks[i] in scan.walks;
    }
  }

  /** The sweep goes as far as discovery: eligible, and the protected set can be trusted. */
  predicate Discovers(rec: Record, role: string, roles: seq<string>, isDir: bool, timeout: real,
                      treeOf: string -> Option<seq<int>>, jobOf: string -> Job) {
    IsEligible(rec, isDir, timeout) && AllComplete(Siblings(rec, role, roles, treeOf, jobOf))
  }

  /** Discovery gave up somewhere, or the walk of a blocker's tree did. */
  predicate IsPartial(scan: Scan) {
    !scan.complete || exists i :: 0 <= i < |scan.walks| && !scan.walks[i].Walked?
  }

  /**
    `_sweep_untracked_orphans`.  `scan` is a function of the excluded set; `alive` is probed after
    the kill; `raced` says that a concurrent start gave the role a pid meanwhile.
   */
  method Sweep(rec: Record, role: string, roles: seq<string>, isDir: bool, timeout: real, killOrphans: bool,
               treeOf: string -> Option<seq<int>>, jobOf: string -> Job, scan: set<int> -> Scan, alive: int -> bool, raced: bool,
               ghost t: Table, ghost rank: int -> nat, ghost hosts: set<int>)
    returns (killed: seq<int>, mayHelp: bool, detail: Option<StopReason>, ghost excluded: set<int>)
    requires forall other :: other in rec.pids ==> other in roles
    requires forall some: set<int> :: IsScan(scan(some), some, hosts)
    ensures forall p, other :: p in killed && other in rec.pids && other != role ==> p != rec.pids[other]
    ensures IsWatertight(Siblings(rec, role, roles, treeOf, jobOf), t, rank, hosts) ==>
      forall p, other :: p in killed && other in rec.pids && other != role ==> !Below(t, rank, p, rec.pids[other])
    ensures forall p :: p in killed ==> p !in hosts
    ensures Discovers(rec, role, roles, isDir, timeout, treeOf, jobOf) ==>
      forall p :: p in excluded <==> IsProtected(Siblings(rec, role, roles, treeOf, jobOf), p)
    ensures forall p :: p in killed <==>
      && killOrphans && Discovers(rec, role, roles, isDir, timeout, treeOf, jobOf)
      && (p in scan(excluded).found || (Expands(scan(excluded).walks, p) && p !in excluded))
    ensures mayHelp <==> !killOrphans && Discovers(rec, role, roles, isDir, timeout, treeOf, jobOf)
                         && !raced && scan(excluded).found != []
    ensures detail == Some(ConcurrentStartRace) <==> raced && Discovers(rec, role, roles, isDir, timeout, treeOf, jobOf)
    ensures detail.Some? && detail != Some(ConcurrentStartRace) ==> killOrphans && IsEligible(rec, isDir, timeout)
    ensures killOrphans && IsEligible(rec, isDir, timeout) && !AllComplete(Siblings(rec, role, roles, treeOf, jobOf)) ==>
      detail == Some(OrphanScanIncomplete)
    ensures killOrphans && Discovers(rec, role, roles, isDir, timeout, treeOf, jobOf) && !raced ==>
      && (detail == Some(Survivors) <==> exists p :: p in killed && alive(p))
      && (detail == Some(OrphanScanIncomplete) <==> IsPartial(scan(excluded)) && forall p :: p in killed ==> !alive(p))
      && (detail.None? <==> !IsPartial(scan(excluded)) && forall p :: p in killed ==> !alive(p))
  {
    killed, mayHelp, detail, excluded := [], false, None, {};
    if rec.backing == Primary || !isDir || timeout <= 0.0 {
      return;
    }
    var siblings := Siblings(rec, role, roles, treeOf, jobOf);
    var protected, complete := ComputeProtected(siblings);
    excluded := protected;
    if killOrphans {
      if !complete {
        detail := Some(OrphanScanIncomplete);
        return;
      }
      var seen := scan(protected);
      var truncated;
      killed, truncated := Expand(seen.found, seen.walks, protected);
      forall p, other | p in killed && other in rec.pids && other != role
        ensures p != rec.pids[other]
        ensures IsWatertight(siblings, t, rank, hosts) ==> !Below(t, rank, p, rec.pids[other])
      {
        TargetsUnprotected(seen, protected, hosts, p);
        UnprotectedIsForeign(siblings, t, rank, hosts, Sibling(rec.pids[other], treeOf(other), jobOf(other)), p);
      }
      forall p | p in killed ensures p !in hosts {
        TargetsUnprotected(seen, protected, hosts, p);
      }
      if exists p :: p in killed && alive(p) {
        detail := Some(Survivors);
      } else if !seen.complete || truncated {
        detail := Some(OrphanScanIncomplete);
      }
      if raced {
        detail := Some(ConcurrentStartRace);
      }
    } else if complete {
      mayHelp := scan(protected).found != [];
      if raced {
        mayHelp, detail := false, Some(ConcurrentStartRace);
      }
    }
  }

  /** Whatever the hole, discovery may return just that process, and the sweep then signals it. */
  method SweepHitsHole(rec: Record, role: string, roles: seq<string>, treeOf: string -> Option<seq<int>>, jobOf: string -> Job,
                       p: int, ghost t: Table, ghost rank: int -> nat, ghost hosts: set<int>)
    returns (killed: seq<int>)
    requires rec.backing != Primary && forall other :: other in rec.pids ==> other in roles
    requires AllComplete(Siblings(rec, role, roles, treeOf, jobOf)) && Acyclic(t, rank)
    requires IsHole(Siblings(rec, role, roles, treeOf, jobOf), t, rank, hosts, p)
    ensures p in killed && BelongsTo(Siblings(rec, role, roles, treeOf, jobOf), t, rank, p)
  {
    var scan := (some: set<int>) => if p in some then Scan([], true, []) else Scan([p], true, [Walked([])]);
    HoleBelongs(Siblings(rec, role, roles, treeOf, jobOf), t, rank, hosts, p);
    var mayHelp, detail;
    ghost var excluded;
    killed, mayHelp, detail, excluded := Sweep(rec, role, roles, true, 1.0, true, treeOf, jobOf, scan, q => false, false,
                                               t, rank, hosts);
  }

  /**
    What the trees cannot cover: the children of another role whose own process is gone but whose
    id is still on record as their parent, with no job object.
   */
  lemma GoneSiblingLeavesItsChildren()
    ensures var siblings, t, rank := [Sibling(10, Some([]), NoJob)], map[20 := 10], (p: int) => if p == 20 then 1 else 0;
      Acyclic(t, rank) && AllComplete(siblings) && IsHole(siblings, t, rank, {}, 20)
      && AreSnapshots(siblings, t, rank, {}) && HostsOutside(siblings, t, rank, {})
  {
    var siblings: seq<Sibling>, t, rank := [Sibling(10, Some([]), NoJob)], map[20 := 10], (p: int) => if p == 20 then 1 else 0;
    assert forall s :: s in siblings ==> s == Sibling(10, Some([]), NoJob);
    assert siblings[0] in siblings;
    assert IsQuery([], t, rank, 10) && IsSnapshot([], t, 10, [], {});
    assert IsAbandoned(siblings, t, 20);
  }

  /** The sweep for role "main" signals process 20, which runs below the role "web". */
  method SweepHitsChildOfGoneRole(rec: Record) returns (killed: seq<int>)
    requires rec.pids == map["web" := 10] && rec.backing != Primary
    ensures 20 in killed && !IsProtected([Sibling(10, Some([]), NoJob)], 20)
    ensures var t, rank := map[20 := 10], (p: int) => if p == 20 then 1 else 0; Acyclic(t, rank) && Below(t, rank, 20, 10)
  {
    GoneSiblingLeavesItsChildren();
    var treeOf := (other: string) => Some([]);
    var jobOf := (other: string) => NoJob;
    assert Siblings(rec, "main", ["web"], treeOf, jobOf) == [Sibling(10, Some([]), NoJob)];
    killed := SweepHitsHole(rec, "main", ["web"], treeOf, jobOf, 20, map[20 := 10], (p: int) => if p == 20 then 1 else 0, {});
  }
}
