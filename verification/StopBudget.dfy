/**
  How a stop divides its time: a cap for the primary wait, floors for the tree kill and the
  orphan scan; and the loop that signals and kills a tree within its grant.
 */
module StopBudget {
  import opened Options

  const PRIMARY_WAIT_SHARE := 0.60
  const TREE_KILL_FLOOR_SEC := 1.0
  const TREE_KILL_FLOOR_SHARE := 0.10
  const ORPHAN_SCAN_FLOOR_SEC := 3.0
  const ORPHAN_SCAN_FLOOR_SHARE := 0.30

  function Min(x: real, y: real): real {
    if x <= y then x else y
  }

  function Max(x: real, y: real): real {
    if x >= y then x else y
  }

  datatype Budget = Budget(primaryCap: real, treeFloor: real, orphanFloor: real)

  /** `_compute_stop_budget`. */
  function ComputeStopBudget(timeout: real, killOrphans: bool): Budget {
    if timeout <= 0.0 then Budget(0.0, 0.0, 0.0)
    else
      var treeFloor := Min(TREE_KILL_FLOOR_SEC, TREE_KILL_FLOOR_SHARE * timeout);
      var orphanFloor := if killOrphans then Min(ORPHAN_SCAN_FLOOR_SEC, ORPHAN_SCAN_FLOOR_SHARE * timeout) else 0.0;
      Budget(Max(0.0, Min(timeout * PRIMARY_WAIT_SHARE, timeout - (treeFloor + orphanFloor))), treeFloor, orphanFloor)
  }

  /** The shares never overlap; the second bound on the primary wait is never the smaller one. */
  lemma SharesFit(timeout: real, killOrphans: bool)
    ensures var b := ComputeStopBudget(timeout, killOrphans);
      && b.primaryCap >= 0.0 && b.treeFloor >= 0.0 && b.orphanFloor >= 0.0
      && b.primaryCap + b.treeFloor + b.orphanFloor <= Max(timeout, 0.0)
      && b.primaryCap == PRIMARY_WAIT_SHARE * Max(timeout, 0.0)
      && (timeout > 0.0 ==> b.treeFloor > 0.0 && (killOrphans <==> b.orphanFloor > 0.0))
  {
  }

  // ---------------------------------------------------------------------------
  // Killing one process and a tree
  // ---------------------------------------------------------------------------

  datatype Deed = Signalled(pid: int, delivered: bool) | SeenDead(pid: int) | Forced(pid: int)

  /** What the processes do: whether a signal reaches them, and how long after it they die by themselves. */
  datatype Behaviour = Behaviour(delivered: int -> bool, dies: int -> Option<real>)

  function SignalsIn(log: seq<Deed>): seq<int> {
    if log == [] then []
    else
      var front, last := log[..|log| - 1], log[|log| - 1];
      if last.Signalled? then SignalsIn(front) + [last.pid] else SignalsIn(front)
  }

  lemma SignalsOneMore(log: seq<Deed>, deed: Deed)
    ensures SignalsIn(log + [deed]) == if deed.Signalled? then SignalsIn(log) + [deed.pid] else SignalsIn(log)
  {
    assert (log + [deed])[..|log|] == log;
  }

  /** The process was signalled, and the signal arrived, or it was killed or found dead. */
  predicate IsDealtWith(log: seq<Deed>, p: int, how: Behaviour) {
    && Signalled(p, how.delivered(p)) in log
    && (how.delivered(p) || Forced(p) in log || SeenDead(p) in log)
  }

  class Clock {
    var now: real
    var log: seq<Deed>

    constructor ()
      ensures now == 0.0 && log == []
    {
      now, log := 0.0, [];
    }

    method Do(deed: Deed)
      modifies this`log
      ensures log == old(log) + [deed]
      ensures SignalsIn(log) == if deed.Signalled? then SignalsIn(old(log)) + [deed.pid] else SignalsIn(old(log))
    {
      SignalsOneMore(log, deed);
      log := log + [deed];
    }

    /** `_wait_or_kill`: nobody is waited for longer than granted, and nobody alive is left. */
    method WaitOrKill(pid: int, timeout: real, how: Behaviour)
      modifies this
      ensures old(now) <= now <= old(now) + Max(0.0, timeout)
      ensures log == old(log) + [Forced(pid)] || log == old(log) + [SeenDead(pid)]
      ensures timeout <= 0.0 ==> log == old(log) + [Forced(pid)] && now == old(now)
      ensures SignalsIn(log) == SignalsIn(old(log))
    {
      if timeout > 0.0 {
        var death := how.dies(pid);
        if death.Some? && 0.0 <= death.value <= timeout {
          now := now + death.value;
          Do(SeenDead(pid));
          return;
        }
        now := now + timeout;
      }
      Do(Forced(pid));
    }

    /** One node of a tree: signalled always, waited for while the budget lasts. */
    method DealWith(pid: int, deadline: real, share: real, how: Behaviour)
      requires now <= deadline
      modifies this
      ensures old(now) <= now <= deadline
      ensures old(log) <= log && SignalsIn(log) == SignalsIn(old(log)) + [pid] && IsDealtWith(log, pid, how)
    {
      Do(Signalled(pid, how.delivered(pid)));
      ghost var signalled := log;
      assert signalled[|old(log)|] == Signalled(pid, how.delivered(pid));
      var remaining := deadline - now;
      if remaining <= 0.0 {
        if !how.delivered(pid) {
          WaitOrKill(pid, 0.0, how);
          assert log[|signalled|] == Forced(pid) && log[|old(log)|] == signalled[|old(log)|];
        }
      } else {
        WaitOrKill(pid, Min(remaining, share), how);
        assert log[|signalled|] in log && log[|old(log)|] == signalled[|old(log)|];
      }
    }

    /**
      `_kill_process_tree`: every node is signalled, in the given order; the grant is split evenly
      and never exceeded; once it is spent, a node that the signal did not reach is killed at once.
     */
    method KillProcessTree(tree: seq<int>, timeout: real, how: Behaviour)
      modifies this
      ensures old(now) <= now <= old(now) + Max(0.0, timeout)
      ensures old(log) <= log && SignalsIn(log) == SignalsIn(old(log)) + tree
      ensures forall p :: p in tree ==> IsDealtWith(log, p, how)
    {
      if tree == [] {
        assert SignalsIn(log) + tree == SignalsIn(log);
        return;
      }
      var deadline := now + Max(0.0, timeout);
      var share := timeout / (|tree| as real);
      for i := 0 to |tree|
        invariant old(now) <= now <= deadline
        invariant old(log) <= log && SignalsIn(log) == SignalsIn(old(log)) + tree[..i]
        invariant forall p :: p in tree[..i] ==> IsDealtWith(log, p, how)
      {
        assert tree[..i + 1] == tree[..i] + [tree[i]];
        ghost var before := log;
        DealWith(tree[i], deadline, share, how);
        forall p | p in tree[..i] ensures IsDealtWith(log, p, how) {
          DeedsStay(before, log, p, how);
        }
      }
      assert tree[..|tree|] == tree;
    }

    /**
      The three kill steps of a stop.  The snapshots before them take `lead` seconds; `wait` and
      `scan` give the time that the primary wait and the orphan scan take of their grants; the
      tree kill begins at `a`.
     */
    method StopSteps(timeout: real, killOrphans: bool, lead: real, wait: real -> real, tree: seq<int>, how: Behaviour,
                     scan: real -> real)
      returns (a: real)
      requires now == 0.0 && lead >= 0.0 && StaysWithin(wait) && StaysWithin(scan)
      modifies this
      ensures var b := ComputeStopBudget(timeout, killOrphans);
        && lead <= a <= lead + b.primaryCap
        && now <= Max(timeout, a + b.treeFloor + b.orphanFloor)
        && (a <= b.primaryCap ==> now <= Max(timeout, 0.0))
      ensures SignalsIn(log) == SignalsIn(old(log)) + tree && forall p :: p in tree ==> IsDealtWith(log, p, how)
    {
      var b := ComputeStopBudget(timeout, killOrphans);
      SharesFit(timeout, killOrphans);
      now := lead;
      now := now + wait(Max(0.0, Min(timeout - now, b.primaryCap)));
      a := now;
      KillProcessTree(tree, TreeGrant(b, timeout, now), how);
      if killOrphans {
        now := now + scan(OrphanGrant(b, timeout, now));
      }
    }
  }

  /** A step that uses at most its grant. */
  ghost predicate StaysWithin(takes: real -> real) {
    forall grant :: grant >= 0.0 ==> 0.0 <= takes(grant) <= grant
  }

  lemma DeedsStay(before: seq<Deed>, after: seq<Deed>, p: int, how: Behaviour)
    requires before <= after && IsDealtWith(before, p, how)
    ensures IsDealtWith(after, p, how)
  {
    forall deed | deed in before ensures deed in after {
      var i :| 0 <= i < |before| && before[i] == deed;
      assert after[i] == deed;
    }
  }

  /** What the tree kill is granted when it begins at `a`: never less than its floor. */
  function TreeGrant(b: Budget, timeout: real, a: real): (grant: real)
    ensures grant >= b.treeFloor
    ensures a + grant + b.orphanFloor <= Max(timeout, a + b.treeFloor + b.orphanFloor)
  {
    Max(b.treeFloor, timeout - a - b.orphanFloor)
  }

  /** What the orphan scan is granted when it begins at `start`: never less than its floor. */
  function OrphanGrant(b: Budget, timeout: real, start: real): (grant: real)
    ensures grant >= b.orphanFloor
    ensures start + grant <= Max(timeout, start + b.orphanFloor)
  {
    Max(b.orphanFloor, timeout - start)
  }
}
