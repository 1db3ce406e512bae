/**
  The removal of a checkout: ten ordered phases over the original tree and the staged remnant
  beside it, in which any rename may fail and any delete may be partial.  A removal that is
  refused is retried as a whole.
 */
module Teardown {
  import opened Options

  /** The files of a directory. */
  type Tree = set<string>

  datatype Outcome =
    | Removed
    | RefusedPrimary
    | Dirty(staged: bool)     // DirtyWorktreeError
    | Blocked                 // WorktreeRemovalBlockedError
    | Locked(staged: bool)    // WorktreeDirLockedError

  /** One run of the teardown steps: whether they succeed, and what they leave of the tree. */
  datatype StepsRun = StepsRun(ok: bool, tree: Tree)

  /** What `git status` has to say: nothing at all, only the exempt convenience copy, or real dirt. */
  datatype Dirt = Clean | Benign | Real

  /** Everything that a removal cannot decide; the number counts its operations, or its probes. */
  datatype Environment = Environment(
    posix: bool,
    primary: bool,
    hasSteps: bool,
    dirt: Tree -> Dirt,
    answers: nat -> bool,           // probe n neither fails nor times out
    permits: nat -> bool,           // a rename is let through
    stuck: nat -> Tree,             // files that a delete cannot remove
    keepsDir: nat -> bool,          // a delete leaves the empty directory
    tries: nat -> nat,              // how often a retry loop tries again
    blocked: nat -> bool,           // diagnosis finds a blocker that may be killed
    runs: nat -> StepsRun,
    persists: nat -> bool)          // the marker that the steps ran can be saved

  predicate IsRemnant(staged: Option<Tree>) {
    staged.Some? && staged.value != {}
  }

  /** The whole of `tree` is in exactly one of the two places, and nothing else in the other. */
  predicate IsWhole(tree: Tree, original: Option<Tree>, staged: Option<Tree>) {
    || (original == Some(tree) && !IsRemnant(staged))
    || (original == None && staged == Some(tree))
  }

  /** Nobody holds the checkout: every rename goes through and every delete is complete. */
  ghost predicate IsUnheld(env: Environment) {
    forall n :: env.permits(n) && env.stuck(n) == {} && !env.keepsDir(n)
  }

  /**
    Of any two probes in a row with the checkout in place, from number `start` up to `end`, at
    least one was answered; `seeing` holds the probes made with the checkout in place.
   */
  ghost predicate NoTwoBlank(env: Environment, seeing: set<nat>, start: nat, end: nat) {
    forall i :: start <= i && i + 1 < end && i in seeing && i + 1 in seeing ==> env.answers(i) || env.answers(i + 1)
  }

  /** The same probes below `end` were made with the checkout in place. */
  ghost predicate SameBelow(before: set<nat>, now: set<nat>, end: nat) {
    forall i :: 0 <= i < end ==> (i in now <==> i in before)
  }

  lemma SameWindow(env: Environment, before: set<nat>, now: set<nat>, start: nat, end: nat)
    requires SameBelow(before, now, end)
    ensures NoTwoBlank(env, before, start, end) <==> NoTwoBlank(env, now, start, end)
  {
    if !NoTwoBlank(env, before, start, end) {
      var i :| start <= i && i + 1 < end && i in before && i + 1 in before && !env.answers(i) && !env.answers(i + 1);
      assert i in now && i + 1 in now;
    }
  }

  ghost predicate AlwaysPersists(env: Environment) {
    forall n :: env.persists(n)
  }

  class Removal {
    const env: Environment
    var original: Option<Tree>
    var staged: Option<Tree>
    var now: nat
    var savedRan: bool
    var portsHeld: bool
    // one attempt
    var force: bool
    var kill: bool
    var targetAbsent: bool
    var ran: bool
    var fetched: bool
    var cache: Option<bool>
    // all attempts
    var asked: nat
    ghost var blanks: nat
    ghost var seeing: set<nat>
    ghost var completed: nat
    ghost var unsaved: nat

    constructor (env: Environment, tree: Tree)
      ensures this.env == env && original == Some(tree) && staged == None && portsHeld
      ensures !savedRan && asked == 0 && completed == 0 && unsaved == 0
    {
      this.env, original, staged, now := env, Some(tree), None, 0;
      savedRan, portsHeld := false, true;
      force, kill, targetAbsent, ran, fetched, cache := false, false, false, false, false, None;
      asked, blanks, seeing, completed, unsaved := 0, 0, {}, 0, 0;
    }

    // -------------------------------------------------------------------------
    // Renames and deletes
    // -------------------------------------------------------------------------

    /** os.rename(path, path + ".removing"): onto nothing, or on POSIX onto an empty directory. */
    method MoveAway() returns (ok: bool)
      modifies `original, `staged, `now
      ensures ok <==> env.permits(old(now)) && old(original).Some? && (old(staged).None? || (env.posix && old(staged) == Some({})))
      ensures if ok then original == None && staged == old(original) else original == old(original) && staged == old(staged)
    {
      ok := env.permits(now) && original.Some? && (staged.None? || (env.posix && staged == Some({})));
      now := now + 1;
      if ok {
        original, staged := None, original;
      }
    }

    method MoveBack() returns (ok: bool)
      modifies `original, `staged, `now
      ensures ok <==> env.permits(old(now)) && old(staged).Some? && old(original).None?
      ensures if ok then staged == None && original == old(staged) else original == old(original) && staged == old(staged)
    {
      ok := env.permits(now) && staged.Some? && original.None?;
      now := now + 1;
      if ok {
        original, staged := staged, None;
      }
    }

    /** `_bare_retry_bounded` on the way back. */
    method RetryMoveBack() returns (ok: bool)
      modifies `original, `staged, `now
      ensures if ok then old(original).None? && old(staged).Some? && staged == None && original == old(staged)
              else original == old(original) && staged == old(staged)
    {
      var left := env.tries(now);
      ok := MoveBack();
      while !ok && left > 0
        invariant if ok then old(original).None? && old(staged).Some? && staged == None && original == old(staged)
                  else original == old(original) && staged == old(staged)
        decreases left, !ok
      {
        left := left - 1;
        ok := MoveBack();
      }
    }

    /** `_retry_bounded` on the way out, then `_diagnose_and_retry` with at most two more tries. */
    method RetryMoveAway()
      modifies `original, `staged, `now
      ensures || (original == old(original) && staged == old(staged))
              || (old(original).Some? && !IsRemnant(old(staged)) && original == None && staged == old(original))
      ensures IsUnheld(env) && old(original).Some? && old(staged).None? ==> original.None?
    {
      var left := env.tries(now);
      var ok := MoveAway();
      while !ok && left > 0
        invariant if ok then old(original).Some? && !IsRemnant(old(staged)) && original == None && staged == old(original)
                  else original == old(original) && staged == old(staged)
        invariant IsUnheld(env) && old(original).Some? && old(staged).None? ==> ok
        decreases left, !ok
      {
        left := left - 1;
        ok := MoveAway();
      }
      if !ok && kill && env.blocked(now) {
        ok := MoveAway();
      }
      if !ok && kill && env.blocked(now) {
        ok := MoveAway();
      }
    }

    /** `_delete_tree_ladder` on the remnant: it only ever shrinks. */
    method DeleteRemnant()
      modifies `staged, `now
      ensures old(staged).None? ==> staged.None?
      ensures staged.Some? ==> old(staged).Some? && staged.value <= old(staged).value
      ensures IsUnheld(env) ==> staged.None?
    {
      if staged.Some? {
        var left := staged.value * env.stuck(now);
        staged := if left == {} && !env.keepsDir(now) then None else Some(left);
        now := now + 1;
      }
    }

    // -------------------------------------------------------------------------
    // The dirt probe
    // -------------------------------------------------------------------------

    /**
      What probe `i` returns for the tree as it is: whether it has real dirt.  Nothing if git fails,
      if there is no checkout, and also if git has nothing to report.
     */
    function Answer(i: nat): Option<bool>
      reads `original
    {
      AnswerOn(original, i)
    }

    function AnswerOn(tree: Option<Tree>, i: nat): Option<bool> {
      if tree.None? || !env.answers(i) || env.dirt(tree.value).Clean? then None
      else Some(env.dirt(tree.value).Real?)
    }

    /** The memo, if it holds anything, says what every probe that returns anything would say now. */
    predicate MemoIsSound()
      reads `original, `fetched, `cache
    {
      fetched && cache.Some? ==> original.Some? && !env.dirt(original.value).Clean?
                                 && cache.value == env.dirt(original.value).Real?
    }

    /** `_status_entries`. */
    method Probe() returns (entries: Option<bool>)
      modifies `asked, `blanks, `seeing
      ensures entries == Answer(old(asked)) && asked == old(asked) + 1
      ensures blanks == old(blanks) + if entries.None? then 1 else 0
      ensures SameBelow(old(seeing), seeing, old(asked)) && (old(asked) in seeing <==> original.Some?)
    {
      entries := if original.None? || !env.answers(asked) || env.dirt(original.value).Clean? then None
                 else Some(env.dirt(original.value).Real?);
      seeing := if original.Some? then seeing + {asked} else seeing - {asked};
      asked := asked + 1;
      if entries.None? { blanks := blanks + 1; }
    }

    /** What two probes in a row find: the second is only made if the first returns nothing. */
    function Seen(i: nat): Option<bool>
      reads `original
    {
      if Answer(i).Some? then Answer(i) else Answer(i + 1)
    }

    /** The verdict that `dirt` would reach now: a memo that holds nothing is probed for again. */
    function Verdict(): bool
      reads `original, `force, `fetched, `cache, `asked
    {
      !force && (if fetched then (if cache.Some? then cache else Answer(asked)) else Seen(asked)) == Some(true)
    }

    /** How many probes it takes to reach it. */
    function Cost(): nat
      reads `original, `fetched, `cache, `asked
    {
      if fetched then (if cache.Some? then 0 else 1) else (if Answer(asked).Some? then 1 else 2)
    }

    /** `ctx.dirt()`: the memoised probe, and a fresh one whenever the memo holds nothing. */
    method RealDirt() returns (dirty: bool)
      requires MemoIsSound()
      modifies `fetched, `cache, `asked, `blanks, `seeing
      ensures dirty == old(Verdict()) && MemoIsSound()
      ensures dirty ==> original.Some? && env.dirt(original.value).Real?
      ensures !force && original.Some? && env.dirt(original.value).Real? && !dirty ==>
        old(asked) < asked && forall i :: old(asked) <= i < asked ==> !env.answers(i) && i in seeing
      ensures SameBelow(old(seeing), seeing, old(asked))
      ensures original.Some? ==> forall i :: old(asked) <= i < asked ==> i in seeing
      ensures force ==> asked == old(asked) && fetched == old(fetched)
      ensures !force ==> fetched && (old(fetched) ==> cache == old(cache)) && (!old(fetched) ==> cache == Answer(old(asked)))
      ensures !force ==> asked == old(asked) + old(Cost())
      ensures blanks >= old(blanks) && asked - old(asked) <= 1 + (blanks - old(blanks))
    {
      if force {
        return false;
      }
      if !fetched {
        cache := Probe();
        fetched := true;
      }
      var entries := cache;
      if entries.None? {
        entries := Probe();
      }
      return entries == Some(true);
    }

    // -------------------------------------------------------------------------
    // The phases
    // -------------------------------------------------------------------------

    /** Early refusal, only if there are steps to protect from a dirty tree. */
    method GateB() returns (refusal: Option<Outcome>)
      requires !fetched
      modifies `fetched, `cache, `asked, `blanks, `seeing
      ensures refusal == if env.hasSteps && old(Verdict()) then Some(Dirty(false)) else None
      ensures MemoIsSound() && fetched == (env.hasSteps && !force)
      ensures fetched ==> cache == Answer(old(asked)) && asked == old(asked) + if cache.Some? then 1 else 2
      ensures !fetched ==> asked == old(asked)
      ensures blanks >= old(blanks) && asked - old(asked) <= 1 + (blanks - old(blanks))
      ensures SameBelow(old(seeing), seeing, old(asked))
      ensures original.Some? ==> forall i :: old(asked) <= i < asked ==> i in seeing
    {
      if !force && env.hasSteps {
        var dirty := RealDirt();
        if dirty {
          return Some(Dirty(false));
        }
      }
      return None;
    }

    /** The steps, unless they ran already; without a checkout they have no directory to run in. */
    method RunTeardownSteps()
      requires MemoIsSound()
      modifies `original, `now, `ran, `savedRan, `fetched, `cache, `completed, `unsaved
      ensures MemoIsSound()
      ensures if env.hasSteps && !old(ran)
              then !fetched && original == (if old(original).Some? then Some(env.runs(old(now)).tree) else None)
              else fetched == old(fetched) && cache == old(cache) && original == old(original)
      ensures StepsAccounted(old(completed), old(unsaved), old(savedRan), old(ran))
      ensures AlwaysPersists(env) ==> unsaved == old(unsaved)
    {
      if env.hasSteps && !ran {
        if original.Some? {
          var run := env.runs(now);
          now := now + 1;
          original := Some(run.tree);
          if run.ok {
            ran := true;
            completed := completed + 1;
            if env.persists(now) {
              savedRan := true;
            } else {
              unsaved := unsaved + 1;
            }
          }
        }
        fetched, cache := false, None;
      }
    }

    /** Each completed run of the steps is either saved, once, or counted as unsaved. */
    ghost predicate StepsAccounted(completedBefore: nat, unsavedBefore: nat, savedBefore: bool, ranBefore: bool)
      reads `completed, `unsaved, `savedRan
    {
      && completed <= completedBefore + 1
      && (ranBefore ==> completed == completedBefore && unsaved == unsavedBefore && savedRan == savedBefore)
      && (savedBefore ==> savedRan)
      && (!savedBefore ==> completed - completedBefore == (unsaved - unsavedBefore) + if savedRan then 1 else 0)
    }

    /** The unconditional dirt gate: real dirt is refused after a rename probe that is undone at once. */
    method DirtGate() returns (refusal: Option<Outcome>)
      requires MemoIsSound()
      modifies `original, `staged, `now, `fetched, `cache, `asked, `blanks, `seeing
      ensures refusal.Some? <==> !targetAbsent && old(Verdict())
      ensures asked == old(asked) + if force || targetAbsent then 0 else old(Cost())
      ensures blanks >= old(blanks) && asked - old(asked) <= 1 + (blanks - old(blanks))
      ensures SameBelow(old(seeing), seeing, old(asked))
      ensures old(original).Some? ==> forall i :: old(asked) <= i < asked ==> i in seeing
      ensures IsUnheld(env) && old(staged).None? ==>
        original == old(original) && staged.None? && (refusal.Some? ==> refusal == Some(Dirty(false)))
      ensures refusal.None? ==> original == old(original) && staged == old(staged)
      ensures refusal.Some? ==> refusal.value == Blocked || refusal.value.Dirty?
      ensures refusal.Some? && original != old(original) ==>
        original == None && staged == old(original) && refusal.value == Dirty(true)
      ensures refusal.Some? && original == old(original) ==>
        refusal.value != Dirty(true) && (staged == old(staged) || (!IsRemnant(old(staged)) && staged == None))
    {
      if force || targetAbsent {
        return None;
      }
      var dirty := RealDirt();
      if !dirty {
        return None;
      }
      var away := MoveAway();
      if !away {
        return Some(Blocked);
      }
      var back := MoveBack();
      if back {
        return Some(Dirty(false));
      }
      back := RetryMoveBack();
      return Some(Dirty(!back));
    }

    /** Staging and deletion; a remnant without its original is only destroyed under force. */
    method StageAndDelete() returns (refusal: Option<Outcome>)
      modifies `original, `staged, `now
      ensures refusal == if old(original).None? && IsRemnant(old(staged)) && !force then Some(Dirty(true)) else None
      ensures refusal.Some? ==> original == old(original) && staged == old(staged)
      ensures original.Some? ==> original == old(original)
      ensures old(original).None? ==> original.None?
      ensures IsRemnant(staged) ==>
        (old(original).Some? && original.None? && staged.value <= old(original).value)
        || (old(staged).Some? && staged.value <= old(staged).value)
      ensures IsUnheld(env) && old(staged).None? ==> original.None? && staged.None?
    {
      var originalPresent, remnantPresent := original.Some?, IsRemnant(staged);
      if !originalPresent && !remnantPresent {
        return None;
      }
      if !originalPresent {
        if !force {
          return Some(Dirty(true));
        }
        DeleteRemnant();
        return None;
      }
      if remnantPresent {
        DeleteRemnant();
      }
      RetryMoveAway();
      if staged.None? {
        return None;
      }
      DeleteRemnant();
      return None;
    }

    /** The final guard: anything left on disk is an error. */
    method FinalGuard() returns (refusal: Option<Outcome>)
      ensures refusal == if !IsRemnant(staged) && original.None? then None else Some(Locked(IsRemnant(staged)))
    {
      if !IsRemnant(staged) && original.None? {
        return None;
      }
      return Some(Locked(IsRemnant(staged)));
    }

    /** Staging, deletion and the final guard; only then are the ports released. */
    method FromStagingOn() returns (outcome: Outcome)
      modifies `original, `staged, `now, `portsHeld
      ensures outcome.Removed? ==> original.None? && !IsRemnant(staged) && !portsHeld
      ensures !outcome.Removed? ==> portsHeld == old(portsHeld)
      ensures old(original).None? && IsRemnant(old(staged)) && !force ==>
        outcome == Dirty(true) && original == old(original) && staged == old(staged)
      ensures IsUnheld(env) && old(staged).None? ==> outcome.Removed? && original.None? && staged.None?
    {
      var refusal := StageAndDelete();
      if refusal.Some? {
        return refusal.value;
      }
      refusal := FinalGuard();
      if refusal.Some? {
        return refusal.value;
      }
      portsHeld := false;
      return Removed;
    }

    // -------------------------------------------------------------------------
    // One attempt
    // -------------------------------------------------------------------------

    /** `build_context`. */
    method Begin(force: bool, kill: bool)
      modifies `force, `kill, `targetAbsent, `ran, `fetched, `cache
      ensures this.force == force && this.kill == kill && ran == savedRan && !fetched
      ensures targetAbsent <==> original.None? && (force || !IsRemnant(staged))
    {
      this.force, this.kill := force, kill;
      targetAbsent := original.None? && (force || !IsRemnant(staged));
      ran, fetched, cache := savedRan, false, None;
    }

    /** A tree with real dirt, whole in one of the two places. */
    predicate HoldsDirt(tree: Tree, original: Option<Tree>, staged: Option<Tree>) {
      env.dirt(tree).Real? && tree != {} && IsWhole(tree, original, staged)
    }

    /** Git has nothing to report, neither now nor after the steps. */
    predicate StaysClean()
      reads `original, `now
    {
      original.Some? && env.dirt(original.value).Clean? && env.dirt(env.runs(now).tree).Clean?
    }

    /** What the steps are about to leave in the checkout. */
    function AfterSteps(): Option<Tree>
      reads `original, `now
    {
      if original.Some? then Some(env.runs(now).tree) else None
    }

    /** Two probes will not do: there are steps, the early gate lets them run, and a probe returns nothing. */
    predicate AsksAgain(ran: bool)
      reads `original, `now, `asked
    {
      && env.hasSteps && Seen(asked) != Some(true)
      && (Answer(asked).None? || (!ran && AnswerOn(AfterSteps(), asked + 1).None?))
    }

    /** The phases that may refuse a dirty tree, with the steps between them. */
    method UpToDirtGate() returns (refusal: Option<Outcome>)
      requires !fetched && (targetAbsent ==> original.None?)
      modifies `original, `staged, `now, `ran, `savedRan, `fetched, `cache, `asked, `blanks, `seeing, `completed, `unsaved
      ensures refusal.Some? ==> refusal.value == Blocked || refusal.value.Dirty?
      ensures old(asked) <= asked <= old(asked) + 4 && (force ==> asked == old(asked) && refusal.None?)
      ensures blanks >= old(blanks) && asked - old(asked) <= 2 + (blanks - old(blanks))
      ensures StepsAccounted(old(completed), old(unsaved), old(savedRan), old(ran))
      ensures AlwaysPersists(env) ==> unsaved == old(unsaved)
      ensures env.hasSteps && !force && old(Seen(asked)) == Some(true) ==>
        refusal == Some(Dirty(false)) && completed == old(completed) && original == old(original) && staged == old(staged)
      ensures !force ==> (asked > old(asked) + 2 <==> !targetAbsent && old(AsksAgain(ran)))
      ensures SameBelow(old(seeing), seeing, old(asked))
      ensures !env.hasSteps && old(original).Some? ==> forall i :: old(asked) <= i < asked ==> i in seeing
      ensures !force && NoTwoBlank(env, seeing, old(asked), asked) ==> forall tree :: HoldsDirt(tree, old(original), old(staged)) ==>
        IsWhole(tree, original, staged) && (old(original).Some? ==> refusal.Some?) && (original.Some? ==> refusal.Some?)
      ensures !env.hasSteps && !targetAbsent && !force ==>
        asked == old(asked) + (if old(Answer(asked)).Some? then 1 else 2) && (refusal.Some? <==> old(Seen(asked)) == Some(true))
      ensures !env.hasSteps && (targetAbsent || force) ==> refusal.None?
      ensures env.hasSteps && !force && !old(ran) && old(StaysClean()) ==> asked == old(asked) + 4
      ensures !env.hasSteps && IsUnheld(env) && old(staged).None? ==>
        original == old(original) && staged.None? && (refusal.Some? ==> refusal == Some(Dirty(false)))
    {
      refusal := GateB();
      if refusal.None? {
        RunTeardownSteps();
        refusal := DirtGate();
      }
    }

    /** `run_teardown`: the phases in order, up to the first that refuses. */
    method Attempt(force: bool, kill: bool) returns (outcome: Outcome)
      modifies this
      ensures outcome.Removed? ==> original.None? && !IsRemnant(staged) && !portsHeld
      ensures !outcome.Removed? ==> portsHeld == old(portsHeld)
      ensures env.primary ==> outcome == RefusedPrimary && original == old(original) && staged == old(staged)
      ensures old(asked) <= asked <= old(asked) + 4 && (force ==> asked == old(asked))
      ensures blanks >= old(blanks) && asked - old(asked) <= 2 + (blanks - old(blanks))
      ensures StepsAccounted(old(completed), old(unsaved), old(savedRan), old(savedRan))
      ensures AlwaysPersists(env) ==> unsaved == old(unsaved)
      ensures !force && env.hasSteps && !env.primary && old(Seen(asked)) == Some(true) ==>
        outcome == Dirty(false) && completed == old(completed) && original == old(original) && staged == old(staged)
      ensures !force && !env.primary ==>
        (asked > old(asked) + 2 <==> old(original.Some? || IsRemnant(staged)) && old(AsksAgain(savedRan)))
      ensures SameBelow(old(seeing), seeing, old(asked))
      ensures !env.hasSteps && old(original).Some? ==> forall i :: old(asked) <= i < asked ==> i in seeing
      ensures !force && !env.primary && NoTwoBlank(env, seeing, old(asked), asked) ==>
        forall tree :: HoldsDirt(tree, old(original), old(staged)) ==>
          IsWhole(tree, original, staged) && (outcome == Blocked || outcome.Dirty?)
      ensures !env.hasSteps && !env.primary && !force && old(original).Some? ==>
        asked == old(asked) + if old(Answer(asked)).Some? then 1 else 2
      ensures env.hasSteps && !env.primary && !force && !old(savedRan) && old(StaysClean()) ==> asked == old(asked) + 4
      ensures IsUnheld(env) && !env.primary && !env.hasSteps && old(staged).None? ==>
        if force || old(Seen(asked)) != Some(true) then outcome.Removed? && original.None? && staged.None?
        else outcome == Dirty(false) && original == old(original) && staged.None?
    {
      Begin(force, kill);
      if env.primary {
        return RefusedPrimary;
      }
      var refusal := UpToDirtGate();
      if refusal.Some? {
        return refusal.value;
      }
      outcome := FromStagingOn();
    }
  }

  /** The state of an unheld removal without steps after unforced attempts: untouched, or lost after two blank probes. */
  ghost predicate UntouchedOrLost(r: Removal, tree: Tree, start: nat, gone: bool)
    reads r
  {
    && start <= r.asked && r.staged.None?
    && if gone then r.original.None? && !NoTwoBlank(r.env, r.seeing, start, r.asked)
       else r.original == Some(tree) && NoTwoBlank(r.env, r.seeing, start, r.asked)
            && (start < r.asked ==> r.env.answers(r.asked - 1))
  }

  /** One more verdict on a tree with real dirt: two probes if the first goes unanswered. */
  lemma WindowGrows(env: Environment, before: set<nat>, now: set<nat>, start: nat, end: nat, asked: nat)
    requires start <= end && SameBelow(before, now, end) && (start < end ==> env.answers(end - 1))
    requires asked == (if env.answers(end) then end + 1 else end + 2) && forall i :: end <= i < asked ==> i in now
    ensures NoTwoBlank(env, now, start, asked) <==>
            NoTwoBlank(env, before, start, end) && (env.answers(end) || env.answers(end + 1))
    ensures env.answers(end) || env.answers(end + 1) ==> env.answers(asked - 1)
  {
    SameWindow(env, before, now, start, end);
    if !env.answers(end) {
      assert end in now && end + 1 in now;
    }
    if NoTwoBlank(env, now, start, asked) {
      assert NoTwoBlank(env, now, start, end);
    }
  }

  /**
    Removals retried without force.  Whatever renames fail, the whole dirty tree is in exactly one
    place and every attempt is refused, as long as git does not fail on two probes in a row with the
    checkout in place.  If nobody holds it and there are no steps, the tree survives exactly then.
   */
  method RetryWithoutForce(r: Removal, kills: seq<bool>, ghost tree: Tree) returns (outcomes: seq<Outcome>)
    requires r.HoldsDirt(tree, r.original, r.staged) && !r.env.primary
    modifies r
    ensures NoTwoBlank(r.env, r.seeing, old(r.asked), r.asked) ==>
      && IsWhole(tree, r.original, r.staged) && r.portsHeld == old(r.portsHeld)
      && |outcomes| == |kills| && forall o :: o in outcomes ==> o == Blocked || o.Dirty?
    ensures IsUnheld(r.env) && !r.env.hasSteps && old(r.original) == Some(tree) && old(r.staged).None? ==>
      (IsWhole(tree, r.original, r.staged) <==> NoTwoBlank(r.env, r.seeing, old(r.asked), r.asked))
  {
    outcomes := [];
    ghost var start := r.asked;
    ghost var plain := IsUnheld(r.env) && !r.env.hasSteps && r.original == Some(tree) && r.staged.None?;
    var gone := false;
    while |outcomes| < |kills| && !gone
      invariant start <= r.asked && |outcomes| <= |kills|
      invariant NoTwoBlank(r.env, r.seeing, start, r.asked) ==>
        !gone && r.HoldsDirt(tree, r.original, r.staged) && r.portsHeld == old(r.portsHeld)
      invariant NoTwoBlank(r.env, r.seeing, start, r.asked) ==> forall o :: o in outcomes ==> o == Blocked || o.Dirty?
      invariant plain ==> UntouchedOrLost(r, tree, start, gone)
      decreases |kills| - |outcomes|
    {
      ghost var asked, seeing := r.asked, r.seeing;
      var outcome := r.Attempt(false, kills[|outcomes|]);
      if plain {
        WindowGrows(r.env, seeing, r.seeing, start, asked, r.asked);
      } else {
        SameWindow(r.env, seeing, r.seeing, start, asked);
      }
      outcomes := outcomes + [outcome];
      gone := outcome.Removed?;
    }
  }

  /** A run that loses uncommitted work: the first attempt is refused, then git fails twice in the second. */
  method DirtyTreeLost(tree: Tree) returns (first: Outcome, second: Outcome, r: Removal)
    requires tree != {}
    ensures fresh(r) && first == Dirty(false) && second == Removed && r.original.None? && r.staged.None? && !r.portsHeld
    ensures r.env.dirt(tree).Real? && r.asked == 3
  {
    var env := Environment(posix := true, primary := false, hasSteps := false, dirt := t => Real, answers := n => n == 0,
                           permits := n => true, stuck := n => {}, keepsDir := n => false, tries := n => 0,
                           blocked := n => false, runs := n => StepsRun(true, {}), persists := n => true);
    r := new Removal(env, tree);
    first := r.Attempt(false, false);
    second := r.Attempt(false, false);
  }

  /** One attempt of a series: with or without force, with or without killing blockers. */
  datatype Try = Try(force: bool, kill: bool)

  /**
    Over any series of attempts the steps complete once for the saved marker, if there is one, and
    once more for every time that saving failed: at most once if saving always succeeds.
   */
  method RetryAny(r: Removal, tries: seq<Try>)
    requires !r.savedRan && r.completed == 0 && r.unsaved == 0
    modifies r
    ensures r.completed == r.unsaved + if r.savedRan then 1 else 0
    ensures AlwaysPersists(r.env) ==> r.completed <= 1
  {
    for i := 0 to |tries|
      invariant r.completed == r.unsaved + if r.savedRan then 1 else 0
      invariant AlwaysPersists(r.env) ==> r.unsaved == 0
    {
      var _ := r.Attempt(tries[i].force, tries[i].kill);
    }
  }
}
