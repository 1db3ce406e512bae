/**
  The port allocator: pinned slots are claimed first, the others draw from a range in random
  order, and everything is written in one section under the lock of the port file.
 */
module PortAllocator {
  import opened Options
  import opened Basics
  import opened Records
  import Reconcile

  datatype Outcome =
    | Allocated(ports: map<string, int>)
    | Taken(slot: string, port: int, owner: Option<string>)
    | InUse(slot: string, port: int)
    | NoFreePort(slot: string)

  predicate Injective(m: map<string, int>) {
    forall k, l :: k in m && l in m && m[k] == m[l] ==> k == l
  }

  /** The contract's validators: no slot is named twice and no port is pinned twice. */
  predicate Distinct(slots: seq<string>, pinned: map<string, int>) {
    && (forall i, j :: 0 <= i < j < |slots| ==> slots[i] != slots[j])
    && (forall s, t :: s in slots && t in slots && s in pinned && t in pinned && pinned[s] == pinned[t] ==> s == t)
  }

  predicate IsOwn(key: string, id: string, slots: set<string>) {
    exists s :: s in slots && key == Key(id, s)
  }

  /** The ports of all keys but the own ones. */
  function TakenPorts(ports: map<string, int>, id: string, slots: set<string>): set<int> {
    set k | k in ports && !IsOwn(k, id, slots) :: ports[k]
  }

  function SlotSet(slots: seq<string>): set<string> {
    set s | s in slots
  }

  function Pinned(slots: seq<string>, pinned: map<string, int>): set<string> {
    set s | s in slots && s in pinned
  }

  /** The ports that `given` gives to some slots. */
  function PortsOf(slots: set<string>, given: map<string, int>): set<int> {
    set s | s in slots && s in given :: given[s]
  }

  function Unpinned(slots: seq<string>, pinned: map<string, int>): set<string> {
    set s | s in slots && s !in pinned
  }

  /** A pin can be claimed if this very key holds it already, or if nobody holds or uses it. */
  predicate Claimable(ports: map<string, int>, id: string, slots: set<string>, slot: string, port: int, inUse: int -> bool) {
    Get(ports, Key(id, slot)) == Some(port) || (port !in TakenPorts(ports, id, slots) && !inUse(port))
  }

  /** The ports of the range that a slot without a pin can draw. */
  function Free(low: int, high: int, taken: set<int>, inUse: int -> bool): set<int> {
    set p | low <= p <= high && p !in taken && !inUse(p)
  }

  /** `now` is `was` with exactly the keys of `result` written. */
  ghost predicate IsRewrite(was: map<string, int>, now: map<string, int>, id: string, result: map<string, int>) {
    && (forall s :: s in result ==> Get(now, Key(id, s)) == Some(result[s]))
    && (forall k :: Get(now, k) == Get(was, k) || IsOwn(k, id, result.Keys))
  }

  // ---------------------------------------------------------------------------
  // Keys
  // ---------------------------------------------------------------------------

  lemma KeyInjective(id: string, s: string, t: string)
    requires Key(id, s) == Key(id, t)
    ensures s == t
  {
    assert Key(id, s)[|id| + 1..] == s && Key(id, t)[|id| + 1..] == t;
  }

  lemma RewriteOne(was: map<string, int>, now: map<string, int>, id: string, result: map<string, int>, slot: string, port: int)
    requires IsRewrite(was, now, id, result) && slot !in result
    ensures IsRewrite(was, now[Key(id, slot) := port], id, result[slot := port])
  {
    var next, more := now[Key(id, slot) := port], result[slot := port];
    forall s | s in more ensures Get(next, Key(id, s)) == Some(more[s]) {
      if s != slot && Key(id, s) == Key(id, slot) { KeyInjective(id, s, slot); }
    }
    forall k ensures Get(next, k) == Get(was, k) || IsOwn(k, id, more.Keys) {
      if IsOwn(k, id, result.Keys) {
        var s :| s in result.Keys && k == Key(id, s);
        assert s in more.Keys;
      } else if k == Key(id, slot) {
        assert slot in more.Keys;
      }
    }
  }

  /** A key that already holds its port need not be written. */
  lemma KeepOne(was: map<string, int>, now: map<string, int>, id: string, result: map<string, int>, slot: string, port: int)
    requires IsRewrite(was, now, id, result) && slot !in result && Get(now, Key(id, slot)) == Some(port)
    ensures IsRewrite(was, now, id, result[slot := port])
  {
    RewriteOne(was, now, id, result, slot, port);
    assert now[Key(id, slot) := port] == now;
  }

  lemma UnwrittenKey(was: map<string, int>, now: map<string, int>, id: string, result: map<string, int>, slot: string)
    requires IsRewrite(was, now, id, result) && slot !in result
    ensures Get(now, Key(id, slot)) == Get(was, Key(id, slot))
  {
    if IsOwn(Key(id, slot), id, result.Keys) {
      var s :| s in result.Keys && Key(id, slot) == Key(id, s);
      KeyInjective(id, slot, s);
    }
  }

  /** Writing distinct ports that no other key holds keeps the file injective. */
  lemma RewriteKeepsInjective(was: map<string, int>, now: map<string, int>, id: string, result: map<string, int>)
    requires Injective(was) && Injective(result) && IsRewrite(was, now, id, result)
    requires forall s :: s in result ==> result[s] !in TakenPorts(was, id, result.Keys)
    ensures Injective(now)
  {
    forall k, l | k in now && l in now && now[k] == now[l] ensures k == l {
      OwnOrKept(was, now, id, result, k);
      OwnOrKept(was, now, id, result, l);
    }
  }

  lemma OwnOrKept(was: map<string, int>, now: map<string, int>, id: string, result: map<string, int>, k: string)
    requires IsRewrite(was, now, id, result) && k in now
    ensures (exists s :: s in result && k == Key(id, s) && now[k] == result[s]) ||
            (k in was && was[k] == now[k] && !IsOwn(k, id, result.Keys) && now[k] in TakenPorts(was, id, result.Keys))
  {
    if IsOwn(k, id, result.Keys) {
      var s :| s in result.Keys && k == Key(id, s);
      assert Get(now, Key(id, s)) == Some(result[s]);
    } else {
      assert Get(now, k) == Get(was, k);
    }
  }

  // ---------------------------------------------------------------------------
  // Allocation
  // ---------------------------------------------------------------------------

  function Range(low: int, high: int): (ports: seq<int>)
    ensures forall p :: p in ports <==> low <= p <= high
    decreases high - low
  {
    if high < low then [] else [low] + Range(low + 1, high)
  }

  /** random.shuffle: callers may only rely on the order being some rearrangement. */
  method Shuffle(ports: seq<int>) returns (shuffled: seq<int>)
    ensures multiset(shuffled) == multiset(ports)
  {
    var k :| 0 <= k <= |ports|;
    shuffled := ports[k..] + ports[..k];
    assert multiset(shuffled) == multiset(ports[k..]) + multiset(ports[..k]);
    assert multiset(ports[..k] + ports[k..]) == multiset(ports) by {
      assert ports[..k] + ports[k..] == ports;
    }
  }

  /** The first usable port of a shuffled range. */
  method DrawPort(low: int, high: int, taken: set<int>, inUse: int -> bool) returns (chosen: Option<int>)
    ensures chosen.Some? ==> chosen.value in Free(low, high, taken, inUse)
    ensures chosen.None? ==> Free(low, high, taken, inUse) == {}
  {
    var all := Range(low, high);
    var candidates := Shuffle(all);
    forall p: int ensures p in candidates <==> low <= p <= high {
      assert p in candidates <==> p in multiset(candidates);
      assert p in all <==> p in multiset(all);
    }
    for i := 0 to |candidates|
      invariant forall p :: p in candidates[..i] ==> p in taken || inUse(p)
    {
      assert candidates[..i + 1] == candidates[..i] + [candidates[i]];
      if candidates[i] !in taken && !inUse(candidates[i]) {
        assert candidates[i] in candidates;
        return Some(candidates[i]);
      }
    }
    assert candidates[..|candidates|] == candidates;
    return None;
  }

  /** The pins before slot i can be claimed; that of slot i is refused. */
  ghost predicate RefusedAt(i: nat, was: map<string, int>, id: string, slots: seq<string>, pinned: map<string, int>,
                            inUse: int -> bool, outcome: Outcome) {
    && i < |slots| && slots[i] in pinned
    && (forall s :: s in slots[..i] && s in pinned ==> Claimable(was, id, SlotSet(slots), s, pinned[s], inUse))
    && !Claimable(was, id, SlotSet(slots), slots[i], pinned[slots[i]], inUse)
    && RefusedAs(was, id, slots, slots[i], pinned[slots[i]], inUse, outcome)
  }

  /** Why the pins cannot all be claimed: the first slot that fails, and what holds its port. */
  ghost predicate PinRefused(was: map<string, int>, id: string, slots: seq<string>, pinned: map<string, int>,
                             inUse: int -> bool, outcome: Outcome) {
    exists i: nat :: RefusedAt(i, was, id, slots, pinned, inUse, outcome)
  }

  ghost predicate RefusedAs(was: map<string, int>, id: string, slots: seq<string>, slot: string, port: int,
                            inUse: int -> bool, outcome: Outcome) {
    && Get(was, Key(id, slot)) != Some(port)
    && match outcome
       case Taken(s, p, owner) =>
         && s == slot && p == port && port in TakenPorts(was, id, SlotSet(slots)) && owner.Some?
         && (Injective(was) ==> Get(was, owner.value) == Some(port) && !IsOwn(owner.value, id, SlotSet(slots)))
       case InUse(s, p) => s == slot && p == port && port !in TakenPorts(was, id, SlotSet(slots)) && inUse(port)
       case _ => false
  }

  predicate AllClaimable(was: map<string, int>, id: string, slots: seq<string>, pinned: map<string, int>, inUse: int -> bool) {
    forall s :: s in slots && s in pinned ==> Claimable(was, id, SlotSet(slots), s, pinned[s], inUse)
  }

  lemma OwnGrows(key: string, id: string, some: set<string>, all: set<string>)
    requires some <= all
    ensures IsOwn(key, id, some) ==> IsOwn(key, id, all)
  {
  }

  /** The key named as the owner of a taken port. */
  method FindOwner(was: map<string, int>, table: map<string, int>, id: string, slots: seq<string>,
                   result: map<string, int>, slot: string, port: int)
    returns (owner: Option<string>)
    requires slot in slots && slot !in result && result.Keys <= SlotSet(slots) && IsRewrite(was, table, id, result)
    requires forall s :: s in result ==> result[s] != port
    requires port in TakenPorts(was, id, SlotSet(slots))
    ensures owner.Some?
    ensures Injective(was) ==> Get(was, owner.value) == Some(port) && !IsOwn(owner.value, id, SlotSet(slots))
  {
    ghost var holder :| holder in was && !IsOwn(holder, id, SlotSet(slots)) && was[holder] == port;
    OwnGrows(holder, id, result.Keys, SlotSet(slots));
    assert Get(table, holder) == Get(was, holder);
    assert slot in SlotSet(slots);
    assert holder != Key(id, slot);
    var owners := set k | k in table && table[k] == port && k != Key(id, slot);
    assert holder in owners;
    var k :| k in owners;
    OwnOrKept(was, table, id, result, k);
    owner := Some(k);
  }

  /** One pinned slot: kept if it holds its port already, refused if the port is taken or in use. */
  method ClaimPin(was: map<string, int>, table: map<string, int>, id: string, slots: seq<string>, result: map<string, int>,
                  taken: set<int>, slot: string, port: int, inUse: int -> bool)
    returns (next: map<string, int>, failure: Option<Outcome>)
    requires slot in slots && slot !in result && result.Keys <= SlotSet(slots) && IsRewrite(was, table, id, result)
    requires forall s :: s in result ==> result[s] != port
    requires port in taken <==> port in TakenPorts(was, id, SlotSet(slots))
    ensures failure.None? ==> Claimable(was, id, SlotSet(slots), slot, port, inUse) && IsRewrite(was, next, id, result[slot := port])
    ensures failure.Some? ==> !Claimable(was, id, SlotSet(slots), slot, port, inUse)
                              && RefusedAs(was, id, slots, slot, port, inUse, failure.value)
  {
    next, failure := table, None;
    UnwrittenKey(was, table, id, result, slot);
    if Get(table, Key(id, slot)) == Some(port) {
      KeepOne(was, table, id, result, slot, port);
    } else if port in taken {
      var owner := FindOwner(was, table, id, slots, result, slot, port);
      failure := Some(Taken(slot, port, owner));
    } else if inUse(port) {
      failure := Some(InUse(slot, port));
    } else {
      RewriteOne(was, table, id, result, slot, port);
      next := table[Key(id, slot) := port];
    }
  }

  /** Pass 1 after the pinned slots `done`. */
  predicate Claimed(done: set<string>, was: map<string, int>, id: string, own: set<string>, pinned: map<string, int>,
                    result: map<string, int>, taken: set<int>, inUse: int -> bool) {
    && result.Keys == done <= pinned.Keys
    && (forall s :: s in done ==> result[s] == pinned[s])
    && taken == TakenPorts(was, id, own) + PortsOf(done, pinned)
    && (forall s :: s in done ==> Claimable(was, id, own, s, pinned[s], inUse))
  }

  lemma ClaimedStep(done: set<string>, was: map<string, int>, id: string, own: set<string>, pinned: map<string, int>,
                    result: map<string, int>, taken: set<int>, inUse: int -> bool, slot: string)
    requires Claimed(done, was, id, own, pinned, result, taken, inUse) && slot in pinned
    requires Claimable(was, id, own, slot, pinned[slot], inUse)
    ensures Claimed(done + {slot}, was, id, own, pinned, result[slot := pinned[slot]], taken + {pinned[slot]}, inUse)
  {
    assert PortsOf(done + {slot}, pinned) == PortsOf(done, pinned) + {pinned[slot]};
  }

  lemma FreshSlot(i: nat, slots: seq<string>, pinned: map<string, int>)
    requires i < |slots| && Distinct(slots, pinned)
    ensures slots[i] in slots && slots[i] !in slots[..i]
    ensures slots[i] in pinned ==> pinned[slots[i]] !in PortsOf(Pinned(slots[..i], pinned), pinned)
    ensures Pinned(slots[..i + 1], pinned) == Pinned(slots[..i], pinned) + if slots[i] in pinned then {slots[i]} else {}
    ensures Unpinned(slots[..i + 1], pinned) == Unpinned(slots[..i], pinned) + if slots[i] in pinned then {} else {slots[i]}
  {
    assert forall s :: s in slots[..i + 1] <==> s in slots[..i] || s == slots[i] by {
      assert slots[..i + 1] == slots[..i] + [slots[i]];
    }
  }

  /** Pass 1: every pinned slot, in order. */
  method ClaimPins(was: map<string, int>, id: string, slots: seq<string>, pinned: map<string, int>, inUse: int -> bool)
    returns (table: map<string, int>, taken: set<int>, result: map<string, int>, failure: Option<Outcome>)
    requires Distinct(slots, pinned)
    ensures failure.Some? ==> PinRefused(was, id, slots, pinned, inUse, failure.value)
    ensures failure.None? ==> Claimed(Pinned(slots, pinned), was, id, SlotSet(slots), pinned, result, taken, inUse)
    ensures failure.None? ==> IsRewrite(was, table, id, result)
  {
    table, result, failure := was, map[], None;
    taken := TakenPorts(was, id, SlotSet(slots));
    for i := 0 to |slots|
      invariant failure.None? && IsRewrite(was, table, id, result)
      invariant Claimed(Pinned(slots[..i], pinned), was, id, SlotSet(slots), pinned, result, taken, inUse)
    {
      var slot := slots[i];
      FreshSlot(i, slots, pinned);
      if slot in pinned {
        var port := pinned[slot];
        var next;
        next, failure := ClaimPin(was, table, id, slots, result, taken, slot, port, inUse);
        if failure.Some? {
          assert RefusedAt(i, was, id, slots, pinned, inUse, failure.value);
          return;
        }
        ClaimedStep(Pinned(slots[..i], pinned), was, id, SlotSet(slots), pinned, result, taken, inUse, slot);
        table := next;
        taken := taken + {port};
        result := result[slot := port];
      }
    }
    assert slots[..|slots|] == slots;
  }

  /** The slots `drawers` hold distinct ports, together `drawn`. */
  predicate Drawn(result: map<string, int>, drawers: set<string>, drawn: set<int>) {
    && drawers <= result.Keys && drawn == PortsOf(drawers, result)
    && (forall s, t :: s in drawers && t in drawers && result[s] == result[t] ==> s == t)
  }

  lemma DrawnOneMore(result: map<string, int>, drawers: set<string>, drawn: set<int>, slot: string, port: int)
    requires Drawn(result, drawers, drawn) && slot !in result && port !in drawn
    ensures Drawn(result[slot := port], drawers + {slot}, drawn + {port})
  {
    assert PortsOf(drawers + {slot}, result[slot := port]) == PortsOf(drawers, result) + {port};
  }

  /** Distinct ports are as many as their slots. */
  lemma {:induction false} AsManyPorts(result: map<string, int>, drawers: set<string>, drawn: set<int>)
    requires Drawn(result, drawers, drawn)
    ensures |drawn| == |drawers|
    decreases drawers
  {
    if drawers != {} {
      var s :| s in drawers;
      assert Drawn(result, drawers - {s}, drawn - {result[s]});
      AsManyPorts(result, drawers - {s}, drawn - {result[s]});
    }
  }

  /** The claimed pins are still in the result, next to the ports of `drawers`. */
  predicate Extends(result: map<string, int>, pins: map<string, int>, drawers: set<string>) {
    && result.Keys == pins.Keys + drawers
    && (forall s :: s in pins ==> result[s] == pins[s])
  }

  lemma ExtendsOneMore(result: map<string, int>, pins: map<string, int>, drawers: set<string>, slot: string, port: int)
    requires Extends(result, pins, drawers) && slot !in result
    ensures Extends(result[slot := port], pins, drawers + {slot})
  {
  }

  lemma Exhausted(low: int, high: int, taken: set<int>, drawn: set<int>, inUse: int -> bool)
    requires Free(low, high, taken + drawn, inUse) == {} && drawn <= Free(low, high, taken, inUse)
    ensures drawn == Free(low, high, taken, inUse)
  {
    forall p | p in Free(low, high, taken, inUse) ensures p in drawn {
      assert p !in Free(low, high, taken + drawn, inUse);
    }
  }

  /** The range is exhausted at slot i: every free port went to an earlier slot without a pin. */
  predicate ExhaustedAt(i: nat, slots: seq<string>, pinned: map<string, int>, free: set<int>, outcome: Outcome) {
    && i < |slots| && slots[i] !in pinned && outcome == NoFreePort(slots[i])
    && |Unpinned(slots[..i], pinned)| == |free| < |Unpinned(slots, pinned)|
  }

  lemma StopsAt(i: nat, slots: seq<string>, pinned: map<string, int>, free: set<int>)
    requires i < |slots| && Distinct(slots, pinned) && slots[i] !in pinned && |Unpinned(slots[..i], pinned)| == |free|
    ensures ExhaustedAt(i, slots, pinned, free, NoFreePort(slots[i]))
  {
    FreshSlot(i, slots, pinned);
    var some, all := Unpinned(slots[..i], pinned), Unpinned(slots, pinned);
    assert slots[i] in all && slots[i] !in some;
    SubsetSize(some, all);
  }

  /** What pass 2 has made so far: the port file, the result, and the ports taken. */
  datatype Draw = Draw(table: map<string, int>, result: map<string, int>, taken: set<int>)

  /** Pass 2 after the slots `drawers` drew the ports `drawn`. */
  ghost predicate Drawing(d: Draw, drawers: set<string>, drawn: set<int>, was: map<string, int>, id: string,
                          pins: map<string, int>, takenBefore: set<int>, free: set<int>) {
    && IsRewrite(was, d.table, id, d.result)
    && Extends(d.result, pins, drawers) && Drawn(d.result, drawers, drawn)
    && d.taken == takenBefore + drawn && drawn <= free
  }

  lemma DrawingStep(d: Draw, drawers: set<string>, drawn: set<int>, was: map<string, int>, id: string,
                    pins: map<string, int>, takenBefore: set<int>, free: set<int>, slot: string, port: int)
    requires Drawing(d, drawers, drawn, was, id, pins, takenBefore, free)
    requires slot !in drawers && slot !in pins && port in free && port !in d.taken
    ensures Drawing(Draw(d.table[Key(id, slot) := port], d.result[slot := port], d.taken + {port}),
                    drawers + {slot}, drawn + {port}, was, id, pins, takenBefore, free)
  {
    ExtendsOneMore(d.result, pins, drawers, slot, port);
    DrawnOneMore(d.result, drawers, drawn, slot, port);
    RewriteOne(was, d.table, id, d.result, slot, port);
  }

  /** Pass 2: every slot without a pin draws a free port that no earlier one drew. */
  method DrawPorts(was: map<string, int>, claimed: map<string, int>, id: string, slots: seq<string>, pinned: map<string, int>,
                   pins: map<string, int>, low: int, high: int, takenBefore: set<int>, inUse: int -> bool)
    returns (d: Draw, ghost drawn: set<int>, failure: Option<Outcome>)
    requires Distinct(slots, pinned) && IsRewrite(was, claimed, id, pins) && pins.Keys <= pinned.Keys
    ensures failure.Some? ==> exists i: nat :: ExhaustedAt(i, slots, pinned, Free(low, high, takenBefore, inUse), failure.value)
    ensures failure.None? ==>
      Drawing(d, Unpinned(slots, pinned), drawn, was, id, pins, takenBefore, Free(low, high, takenBefore, inUse))
  {
    d, drawn, failure := Draw(claimed, pins, takenBefore), {}, None;
    ghost var free := Free(low, high, takenBefore, inUse);
    for i := 0 to |slots|
      invariant failure.None?
      invariant Drawing(d, Unpinned(slots[..i], pinned), drawn, was, id, pins, takenBefore, free)
    {
      var slot := slots[i];
      FreshSlot(i, slots, pinned);
      if slot !in pinned {
        var chosen := DrawPort(low, high, d.taken, inUse);
        if chosen.None? {
          Exhausted(low, high, takenBefore, drawn, inUse);
          AsManyPorts(d.result, Unpinned(slots[..i], pinned), drawn);
          StopsAt(i, slots, pinned, free);
          failure := Some(NoFreePort(slot));
          return;
        }
        DrawingStep(d, Unpinned(slots[..i], pinned), drawn, was, id, pins, takenBefore, free, slot, chosen.value);
        d := Draw(d.table[Key(id, slot) := chosen.value], d.result[slot := chosen.value], d.taken + {chosen.value});
        drawn := drawn + {chosen.value};
      }
    }
    assert slots[..|slots|] == slots;
  }

  // ---------------------------------------------------------------------------
  // The allocator
  // ---------------------------------------------------------------------------

  /** What the slots without a pin can draw: nothing that another key holds, a pin claims, or anybody uses. */
  function FreeFor(was: map<string, int>, id: string, slots: seq<string>, pinned: map<string, int>,
                   low: int, high: int, inUse: int -> bool): set<int> {
    Free(low, high, TakenPorts(was, id, SlotSet(slots)) + PortsOf(Pinned(slots, pinned), pinned), inUse)
  }

  /** Allocation must succeed exactly when the pins can be claimed and enough ports are free for the rest. */
  predicate CanAllocate(was: map<string, int>, id: string, slots: seq<string>, pinned: map<string, int>,
                        low: int, high: int, inUse: int -> bool) {
    && AllClaimable(was, id, slots, pinned, inUse)
    && |Unpinned(slots, pinned)| <= |FreeFor(was, id, slots, pinned, low, high, inUse)|
  }

  /** Every pinned slot has its pin, every other slot a free port of its own. */
  ghost predicate Granted(slots: seq<string>, pinned: map<string, int>, free: set<int>, result: map<string, int>) {
    && result.Keys == SlotSet(slots)
    && (forall s :: s in Pinned(slots, pinned) ==> result[s] == pinned[s])
    && exists drawn :: drawn <= free && Drawn(result, Unpinned(slots, pinned), drawn)
  }

  ghost predicate Refused(was: map<string, int>, id: string, slots: seq<string>, pinned: map<string, int>,
                          low: int, high: int, inUse: int -> bool, outcome: Outcome) {
    || PinRefused(was, id, slots, pinned, inUse, outcome)
    || (AllClaimable(was, id, slots, pinned, inUse)
        && exists i: nat :: ExhaustedAt(i, slots, pinned, FreeFor(was, id, slots, pinned, low, high, inUse), outcome))
  }

  lemma RefusedCannot(was: map<string, int>, id: string, slots: seq<string>, pinned: map<string, int>,
                      low: int, high: int, inUse: int -> bool, outcome: Outcome)
    requires Refused(was, id, slots, pinned, low, high, inUse, outcome)
    ensures !CanAllocate(was, id, slots, pinned, low, high, inUse) && !outcome.Allocated?
  {
  }

  lemma DrawnEnough(slots: seq<string>, pinned: map<string, int>, free: set<int>, result: map<string, int>)
    requires Granted(slots, pinned, free, result)
    ensures |Unpinned(slots, pinned)| <= |free|
  {
    var drawn :| drawn <= free && Drawn(result, Unpinned(slots, pinned), drawn);
    AsManyPorts(result, Unpinned(slots, pinned), drawn);
    SubsetSize(drawn, free);
  }

  lemma DrawingGrants(d: Draw, drawn: set<int>, was: map<string, int>, id: string, slots: seq<string>,
                      pinned: map<string, int>, pins: map<string, int>, takenBefore: set<int>, free: set<int>)
    requires Drawing(d, Unpinned(slots, pinned), drawn, was, id, pins, takenBefore, free)
    requires pins.Keys == Pinned(slots, pinned) && forall s :: s in pins ==> pins[s] == pinned[s]
    ensures Granted(slots, pinned, free, d.result)
  {
    assert d.result.Keys == SlotSet(slots);
  }

  /** One lock section on the port file. */
  datatype Section =
    | Allocating(id: string, slots: seq<string>, pinned: map<string, int>, low: int, high: int, inUse: int -> bool,
                 outcome: Outcome)
    | Releasing(id: string, only: Option<set<string>>)
    | Freeing(ids: set<string>, stale: set<string>)

  predicate IsReleased(key: string, id: string, slots: Option<set<string>>) {
    if slots.None? then id + [SEP] <= key else IsOwn(key, id, slots.value)
  }

  ghost predicate Performs(was: map<string, int>, now: map<string, int>, section: Section) {
    match section
    case Allocating(id, slots, pinned, low, high, inUse, outcome) =>
      if outcome.Allocated? then
        && CanAllocate(was, id, slots, pinned, low, high, inUse)
        && Granted(slots, pinned, FreeFor(was, id, slots, pinned, low, high, inUse), outcome.ports)
        && IsRewrite(was, now, id, outcome.ports)
      else
        now == was && Refused(was, id, slots, pinned, low, high, inUse, outcome)
    case Releasing(id, slots) =>
      now == map key | key in was && !IsReleased(key, id, slots) :: was[key]
    case Freeing(ids, stale) =>
      now == Reconcile.FreedPorts(was, ids, stale)
  }

  class Allocator {
    const files: StateFiles
    const low: int
    const high: int

    constructor (files: StateFiles, low: int, high: int)
      ensures this.files == files && this.low == low && this.high == high
    {
      this.files, this.low, this.high := files, low, high;
    }

    /** Claims the pins, then draws the rest; the file is saved only on success. */
    method Allocate(slots: seq<string>, id: string, pinned: map<string, int>, inUse: int -> bool) returns (outcome: Outcome)
      requires Distinct(slots, pinned)
      modifies files`ports
      ensures Performs(old(files.ports), files.ports, Allocating(id, slots, pinned, low, high, inUse, outcome))
      ensures outcome.Allocated? <==> CanAllocate(old(files.ports), id, slots, pinned, low, high, inUse)
    {
      var was := files.ports;
      if slots == [] {
        assert Drawn(map[], Unpinned(slots, pinned), {});
        return Allocated(map[]);
      }
      var table, taken, pins, failure := ClaimPins(was, id, slots, pinned, inUse);
      if failure.Some? {
        RefusedCannot(was, id, slots, pinned, low, high, inUse, failure.value);
        return failure.value;
      }
      var d, drawn, exhausted := DrawPorts(was, table, id, slots, pinned, pins, low, high, taken, inUse);
      ghost var free := FreeFor(was, id, slots, pinned, low, high, inUse);
      if exhausted.Some? {
        RefusedCannot(was, id, slots, pinned, low, high, inUse, exhausted.value);
        return exhausted.value;
      }
      DrawingGrants(d, drawn, was, id, slots, pinned, pins, taken, free);
      DrawnEnough(slots, pinned, free, d.result);
      files.ports := d.table;
      return Allocated(d.result);
    }

    /** Removes all keys of an owner, or only those of the given slots. */
    method Release(id: string, slots: Option<set<string>>)
      modifies files`ports
      ensures Performs(old(files.ports), files.ports, Releasing(id, slots))
    {
      var released := set key | key in files.ports && IsReleased(key, id, slots);
      assert forall key :: key in files.ports && IsReleased(key, id, slots) ==> key in released;
      if released != {} {
        files.ports := files.ports - released;
      }
    }
  }

  // ---------------------------------------------------------------------------
  // Any interleaving of sections
  // ---------------------------------------------------------------------------

  lemma GrantInjective(slots: seq<string>, pinned: map<string, int>, taken: set<int>, low: int, high: int,
                       inUse: int -> bool, result: map<string, int>)
    requires Distinct(slots, pinned)
    requires Granted(slots, pinned, Free(low, high, taken + PortsOf(Pinned(slots, pinned), pinned), inUse), result)
    ensures Injective(result)
    ensures forall s :: s in Unpinned(slots, pinned) ==> result[s] !in taken
  {
    var free := Free(low, high, taken + PortsOf(Pinned(slots, pinned), pinned), inUse);
    var drawn :| drawn <= free && Drawn(result, Unpinned(slots, pinned), drawn);
    var pins := PortsOf(Pinned(slots, pinned), pinned);
    forall s | s in result
      ensures s in pinned ==> result[s] == pinned[s] && result[s] in pins
      ensures s !in pinned ==> s in Unpinned(slots, pinned) && result[s] in free && result[s] !in pins
    {
      if s in pinned {
        assert s in Pinned(slots, pinned);
      } else {
        assert s in Unpinned(slots, pinned);
        assert result[s] in PortsOf(Unpinned(slots, pinned), result);
      }
    }
  }

  /** A claimable pin is never held by another key of an injective file. */
  lemma PinNotTaken(was: map<string, int>, id: string, slots: set<string>, slot: string, port: int, inUse: int -> bool)
    requires Injective(was) && slot in slots && Claimable(was, id, slots, slot, port, inUse)
    ensures port !in TakenPorts(was, id, slots)
  {
    assert IsOwn(Key(id, slot), id, slots);
  }

  lemma AllocationKeepsInjective(was: map<string, int>, now: map<string, int>, id: string, slots: seq<string>,
                                 pinned: map<string, int>, low: int, high: int, inUse: int -> bool, result: map<string, int>)
    requires Injective(was) && Distinct(slots, pinned) && AllClaimable(was, id, slots, pinned, inUse)
    requires Granted(slots, pinned, FreeFor(was, id, slots, pinned, low, high, inUse), result) && IsRewrite(was, now, id, result)
    ensures Injective(now)
  {
    GrantInjective(slots, pinned, TakenPorts(was, id, SlotSet(slots)), low, high, inUse, result);
    forall s | s in result ensures result[s] !in TakenPorts(was, id, result.Keys) {
      if s in pinned {
        assert s in Pinned(slots, pinned);
        PinNotTaken(was, id, SlotSet(slots), s, pinned[s], inUse);
      } else {
        assert s in Unpinned(slots, pinned);
      }
    }
    RewriteKeepsInjective(was, now, id, result);
  }

  predicate WellFormed(section: Section) {
    section.Allocating? ==> Distinct(section.slots, section.pinned)
  }

  /** No section ever maps two keys to one port. */
  lemma SectionKeepsInjective(was: map<string, int>, now: map<string, int>, section: Section)
    requires Injective(was) && WellFormed(section) && Performs(was, now, section)
    ensures Injective(now)
  {
    match section
    case Allocating(id, slots, pinned, low, high, inUse, outcome) =>
      if outcome.Allocated? {
        AllocationKeepsInjective(was, now, id, slots, pinned, low, high, inUse, outcome.ports);
      }
    case Releasing(_, _) =>
    case Freeing(_, _) =>
  }

  /** The keys that a section may touch: its own slots, or those it frees. */
  predicate MayChange(section: Section, key: string) {
    match section
    case Allocating(id, slots, _, _, _, _, outcome) => outcome.Allocated? && IsOwn(key, id, SlotSet(slots))
    case Releasing(id, only) => IsReleased(key, id, only)
    case Freeing(ids, stale) => Owner(key) !in ids || key in stale
  }

  lemma SectionChangesOnlyItsOwn(was: map<string, int>, now: map<string, int>, section: Section, key: string)
    requires Performs(was, now, section) && !MayChange(section, key)
    ensures Get(now, key) == Get(was, key)
  {
  }

  /** Whatever sections run in whatever order, every port file along the way is injective. */
  lemma {:induction false} InjectiveForever(files: seq<map<string, int>>, sections: seq<Section>, i: nat)
    requires |files| == |sections| + 1 && i <= |sections| && Injective(files[0])
    requires forall j :: 0 <= j < |sections| ==> WellFormed(sections[j]) && Performs(files[j], files[j + 1], sections[j])
    ensures Injective(files[i])
  {
    if i > 0 {
      InjectiveForever(files, sections, i - 1);
      SectionKeepsInjective(files[i - 1], files[i], sections[i - 1]);
    }
  }

  /** A key changes along a run only in a section that may change it. */
  lemma {:induction false} KeyIsStable(files: seq<map<string, int>>, sections: seq<Section>, key: string, i: nat)
    requires |files| == |sections| + 1 && i <= |sections|
    requires forall j :: 0 <= j < |sections| ==> Performs(files[j], files[j + 1], sections[j])
    requires forall j :: 0 <= j < |sections| ==> !MayChange(sections[j], key)
    ensures Get(files[i], key) == Get(files[0], key)
  {
    if i > 0 {
      KeyIsStable(files, sections, key, i - 1);
      SectionChangesOnlyItsOwn(files[i - 1], files[i], sections[i - 1], key);
    }
  }

  /** Claiming pins that these very keys hold already succeeds, in use or not, and changes nothing. */
  lemma ReclaimIsNoOp(was: map<string, int>, now: map<string, int>, id: string, slots: seq<string>, pinned: map<string, int>,
                      low: int, high: int, inUse: int -> bool, outcome: Outcome)
    requires forall s :: s in slots ==> s in pinned && Get(was, Key(id, s)) == Some(pinned[s])
    requires Performs(was, now, Allocating(id, slots, pinned, low, high, inUse, outcome))
    requires outcome.Allocated? <==> CanAllocate(was, id, slots, pinned, low, high, inUse)
    ensures outcome.Allocated? && now == was && forall s :: s in slots ==> outcome.ports[s] == pinned[s]
  {
    assert Unpinned(slots, pinned) == {};
    assert outcome.Allocated?;
    forall s | s in slots ensures outcome.ports[s] == pinned[s] {
      assert s in Pinned(slots, pinned);
    }
    forall k ensures Get(now, k) == Get(was, k) {
      if IsOwn(k, id, outcome.ports.Keys) {
        var s :| s in outcome.ports.Keys && k == Key(id, s);
        assert s in SlotSet(slots);
      }
    }
    SameEntries(now, was);
  }

  lemma SameEntries(m: map<string, int>, n: map<string, int>)
    requires forall k :: Get(m, k) == Get(n, k)
    ensures m == n
  {
    assert forall k :: k in m <==> Get(m, k).Some?;
    assert forall k :: k in n <==> Get(n, k).Some?;
    assert forall k :: k in m ==> Get(m, k) == Some(m[k]);
  }
}
