/**
  The manager keeps two files in step: the ports of a record, and the port file.  Run one
  after the other, its operations keep `record.ports[slot]` equal to the value of `id:slot`,
  leave no key without such a record, and so never give one port to two records.
 */
module Agreement {
  import opened Options
  import opened Records
  import opened PortAllocator
  import opened Reconcile

  /** Worktree ids are slugs, which never contain the key separator. */
  predicate IsId(id: string) {
    SEP !in id
  }

  /** The ports of all records, by id and slot: the half of the state that this module is about. */
  type View = (string, string) -> Option<int>

  function PortOf(records: map<string, Record>): View {
    (id: string, slot: string) =>
      if id in records && slot in records[id].ports then Some(records[id].ports[slot]) else None
  }

  ghost predicate IsOwned(key: string, view: View) {
    exists id, slot :: view(id, slot).Some? && key == Key(id, slot)
  }

  /** Every port of a record is the value of its key, and every key belongs to a record. */
  ghost predicate Match(view: View, ports: map<string, int>) {
    && (forall id, slot :: view(id, slot).Some? ==> IsId(id) && Get(ports, Key(id, slot)) == view(id, slot))
    && (forall key :: key in ports ==> IsOwned(key, view))
  }

  ghost predicate Agrees(records: map<string, Record>, ports: map<string, int>) {
    && (forall id :: id in records ==> IsId(id))
    && Match(PortOf(records), ports) && Injective(ports)
  }

  // ---------------------------------------------------------------------------
  // Keys of different records
  // ---------------------------------------------------------------------------

  lemma {:induction false} OwnerOfKey(id: string, slot: string)
    requires IsId(id)
    ensures Owner(Key(id, slot)) == id
  {
    if id != [] {
      OwnerOfKey(id[1..], slot);
      assert Key(id, slot)[1..] == Key(id[1..], slot);
      assert Key(id, slot)[0] == id[0];
    }
  }

  lemma KeyUnique(id: string, slot: string, other: string, otherSlot: string)
    requires IsId(id) && IsId(other) && Key(id, slot) == Key(other, otherSlot)
    ensures id == other && slot == otherSlot
  {
    OwnerOfKey(id, slot);
    OwnerOfKey(other, otherSlot);
    KeyInjective(id, slot, otherSlot);
  }

  lemma KeyHasPrefix(id: string, slot: string)
    ensures id + [SEP] <= Key(id, slot)
  {
  }

  lemma {:induction false} PrefixIsOwner(id: string, key: string)
    requires IsId(id) && id + [SEP] <= key
    ensures Owner(key) == id
  {
    if id != [] {
      assert key[0] == id[0];
      assert id[1..] + [SEP] == (id + [SEP])[1..] <= key[1..];
      PrefixIsOwner(id[1..], key[1..]);
    } else {
      assert key[0] == SEP;
    }
  }

  /** No two records share a port, and no record uses one port for two slots. */
  lemma PortsAreNotShared(records: map<string, Record>, ports: map<string, int>, id: string, slot: string,
                          other: string, otherSlot: string)
    requires Agrees(records, ports) && id in records && other in records
    requires slot in records[id].ports && otherSlot in records[other].ports
    requires records[id].ports[slot] == records[other].ports[otherSlot]
    ensures id == other && slot == otherSlot
  {
    var view := PortOf(records);
    var port := records[id].ports[slot];
    assert view(id, slot) == Some(port) && view(other, otherSlot) == Some(port);
    assert Get(ports, Key(id, slot)) == Some(port) && Get(ports, Key(other, otherSlot)) == Some(port);
    KeyUnique(id, slot, other, otherSlot);
  }

  // ---------------------------------------------------------------------------
  // Each change of the two files
  // ---------------------------------------------------------------------------

  /** Writing newly allocated ports into a record keeps the two files in step. */
  lemma GrantMatches(view: View, after: View, ports: map<string, int>, now: map<string, int>, id: string, granted: map<string, int>)
    requires Match(view, ports) && IsId(id) && IsRewrite(ports, now, id, granted)
    requires forall other, slot :: after(other, slot) ==
               if other == id && slot in granted then Some(granted[slot]) else view(other, slot)
    ensures Match(after, now)
  {
    forall other, slot | after(other, slot).Some? ensures IsId(other) && Get(now, Key(other, slot)) == after(other, slot) {
      if other != id || slot !in granted {
        assert view(other, slot).Some?;
        NotGranted(ports, now, id, granted, other, slot);
      }
    }
    forall key | key in now ensures IsOwned(key, after) {
      if IsOwn(key, id, granted.Keys) {
        var slot :| slot in granted.Keys && key == Key(id, slot);
        assert after(id, slot).Some?;
      } else {
        assert Get(now, key) == Get(ports, key);
        var other, slot :| view(other, slot).Some? && key == Key(other, slot);
        assert after(other, slot).Some?;
      }
    }
  }

  lemma NotGranted(ports: map<string, int>, now: map<string, int>, id: string, granted: map<string, int>,
                   other: string, slot: string)
    requires IsId(id) && IsId(other) && IsRewrite(ports, now, id, granted) && (other != id || slot !in granted)
    ensures Get(now, Key(other, slot)) == Get(ports, Key(other, slot))
  {
    NotOwn(id, granted.Keys, other, slot);
    assert Get(now, Key(other, slot)) == Get(ports, Key(other, slot)) || IsOwn(Key(other, slot), id, granted.Keys);
  }

  lemma NotOwn(id: string, slots: set<string>, other: string, slot: string)
    requires IsId(id) && IsId(other)
    ensures IsOwn(Key(other, slot), id, slots) <==> other == id && slot in slots
  {
    if IsOwn(Key(other, slot), id, slots) {
      var s :| s in slots && Key(other, slot) == Key(id, s);
      KeyUnique(other, slot, id, s);
    }
  }

  /** Dropping keys from both files, as far as they belong to the dropped slots, keeps the two in step. */
  lemma DropMatches(view: View, after: View, ports: map<string, int>, now: map<string, int>, gone: string -> bool)
    requires Match(view, ports)
    requires forall key :: Get(now, key) == if gone(key) then None else Get(ports, key)
    requires forall id, slot :: IsId(id) ==> after(id, slot) == if gone(Key(id, slot)) then None else view(id, slot)
    requires forall id, slot :: !IsId(id) ==> after(id, slot).None?
    ensures Match(after, now)
  {
    forall id, slot | after(id, slot).Some? ensures IsId(id) && Get(now, Key(id, slot)) == after(id, slot) {
      assert view(id, slot).Some?;
    }
    forall key | key in now ensures IsOwned(key, after) {
      assert Get(now, key).Some?;
      var id, slot :| view(id, slot).Some? && key == Key(id, slot);
      assert after(id, slot).Some?;
    }
  }

  /** The keys with an owner's prefix are those of its slots. */
  lemma PrefixMeansOwner(id: string, other: string, slot: string)
    requires IsId(id) && IsId(other)
    ensures id + [SEP] <= Key(other, slot) <==> other == id
  {
    OwnerOfKey(other, slot);
    if id + [SEP] <= Key(other, slot) {
      PrefixIsOwner(id, Key(other, slot));
    }
    KeyHasPrefix(id, slot);
  }

  /** An id without a record owns no key. */
  lemma UnknownIdOwnsNothing(view: View, ports: map<string, int>, id: string)
    requires Match(view, ports) && IsId(id) && forall slot :: view(id, slot).None?
    ensures forall key :: key in ports ==> !(id + [SEP] <= key)
  {
    forall key | key in ports ensures !(id + [SEP] <= key) {
      var other, slot :| view(other, slot).Some? && key == Key(other, slot);
      PrefixMeansOwner(id, other, slot);
    }
  }

  // ---------------------------------------------------------------------------
  // Reconciliation
  // ---------------------------------------------------------------------------

  lemma StaleKey(records: map<string, Record>, w: World, id: string, slot: string)
    requires (forall i :: i in records ==> IsId(i)) && id in records
    ensures Key(id, slot) in StaleKeys(records, w) <==> slot in Stale(records[id], w)
  {
    if Key(id, slot) in StaleKeys(records, w) {
      var i, s :| i in records && s in Stale(records[i], w) && Key(id, slot) == Key(i, s);
      KeyUnique(id, slot, i, s);
    }
  }

  lemma PassOnSlot(records: map<string, Record>, w: World, id: string, slot: string)
    requires (forall i :: i in records ==> IsId(i)) && IsId(id)
    ensures PortOf(AllReconciled(records, w))(id, slot) ==
            if Key(id, slot) in StaleKeys(records, w) then None else PortOf(records)(id, slot)
  {
    if id in records {
      StaleKey(records, w, id, slot);
      PassOnFields(records[id], w);
    } else if Key(id, slot) in StaleKeys(records, w) {
      var i, s :| i in records && s in Stale(records[i], w) && Key(id, slot) == Key(i, s);
      KeyUnique(id, slot, i, s);
    }
  }

  /** What a pass of reconciliation frees in the port file it has pruned from the records, and conversely. */
  lemma PassMatches(records: map<string, Record>, ports: map<string, int>, w: World)
    requires (forall id :: id in records ==> IsId(id)) && Match(PortOf(records), ports)
    ensures Match(PortOf(AllReconciled(records, w)), PortsAfter(records, ports, w))
  {
    var gone := (key: string) => Owner(key) !in records.Keys || key in StaleKeys(records, w);
    var view, after := PortOf(records), PortOf(AllReconciled(records, w));
    forall id, slot | IsId(id) ensures after(id, slot) == if gone(Key(id, slot)) then None else view(id, slot) {
      OwnerOfKey(id, slot);
      PassOnSlot(records, w, id, slot);
    }
    DropMatches(view, after, ports, PortsAfter(records, ports, w), gone);
  }

  lemma PassAgrees(records: map<string, Record>, ports: map<string, int>, w: World)
    requires Agrees(records, ports)
    ensures Agrees(AllReconciled(records, w), PortsAfter(records, ports, w))
  {
    PassMatches(records, ports, w);
    KeysStay(records, w);
  }

  // ---------------------------------------------------------------------------
  // The manager
  // ---------------------------------------------------------------------------

  /** What a create call finds out: whether allocation was needed, and whether the record could be added. */
  datatype Created = Added(ports: map<string, int>) | Refused(why: Outcome) | NotAdded

  function Prunable(rec: Record, declared: seq<string>): set<string> {
    if rec.pids == map[] then rec.ports.Keys - SlotSet(declared) else {}
  }

  /** The ports of a started record: every declared slot has one, every declared pin is honoured, the rest is kept. */
  predicate Resolved(was: Record, now: Record, declared: seq<string>, pinned: map<string, int>, failure: Option<Outcome>) {
    var kept := was.ports - Prunable(was, declared);
    && now == was.(ports := now.ports)
    && if failure.Some? then now.ports == kept else PortsResolved(kept, now.ports, declared, pinned)
  }

  predicate PortsResolved(kept: map<string, int>, now: map<string, int>, declared: seq<string>, pinned: map<string, int>) {
    && now.Keys == kept.Keys + SlotSet(declared)
    && (forall s :: s in declared && s in pinned ==> now[s] == pinned[s])
    && (forall s :: s in kept && (s !in declared || s !in pinned) ==> now[s] == kept[s])
  }

  lemma AllResolved(kept: map<string, int>, declared: seq<string>, pinned: map<string, int>, needs: seq<string>,
                    granted: map<string, int>)
    requires needs == NeedsPort(declared, pinned, kept) && granted.Keys == SlotSet(needs)
    requires forall s :: s in needs && s in pinned ==> granted[s] == pinned[s]
    ensures PortsResolved(kept, kept + granted, declared, pinned)
  {
  }

  lemma MergeNothing(kept: map<string, int>)
    ensures kept + map[] == kept
  {
  }

  /** The slots that a start must allocate: missing ones, and pinned ones with another port. */
  function NeedsPort(declared: seq<string>, pinned: map<string, int>, has: map<string, int>): (needs: seq<string>)
    ensures forall s :: s in needs <==> s in declared && (s !in has || (s in pinned && has[s] != pinned[s]))
    ensures Distinct(declared, pinned) ==> Distinct(needs, pinned)
  {
    if declared == [] then []
    else
      var n := |declared| - 1;
      var s := declared[n];
      assert forall t :: t in declared <==> t in declared[..n] || t == s;
      var front := NeedsPort(declared[..n], pinned, has);
      if s !in has || (s in pinned && has[s] != pinned[s]) then front + [s] else front
  }

  class Manager {
    const files: StateFiles
    const allocator: Allocator

    constructor (files: StateFiles, low: int, high: int)
      requires files.records == map[] && files.ports == map[]
      ensures this.files == files && allocator.files == files && Valid()
    {
      this.files := files;
      this.allocator := new Allocator(files, low, high);
    }

    ghost predicate Valid()
      reads this, files
    {
      allocator.files == files && Agrees(files.records, files.ports)
    }

    /** Creation: ports first, then the record; a record that cannot be added takes its ports back. */
    method Create(id: string, rec: Record, slots: seq<string>, pinned: map<string, int>, inUse: int -> bool, canAdd: bool)
      returns (created: Created)
      requires Valid() && IsId(id) && id !in files.records && Distinct(slots, pinned)
      modifies files
      ensures Valid()
      ensures created.Added? ==> canAdd && files.records == old(files.records)[id := rec.(ports := created.ports)]
                                 && created.ports.Keys == SlotSet(slots)
      ensures !created.Added? ==> files.records == old(files.records) && files.ports == old(files.ports)
    {
      ghost var records, ports := files.records, files.ports;
      UnknownIdOwnsNothing(PortOf(records), ports, id);
      var granted: map<string, int> := map[];
      if slots != [] {
        var outcome := allocator.Allocate(slots, id, pinned, inUse);
        if !outcome.Allocated? {
          allocator.Release(id, None);
          assert files.ports == ports;
          return Refused(outcome);
        }
        granted := outcome.ports;
        SectionKeepsInjective(ports, files.ports, Allocating(id, slots, pinned, allocator.low, allocator.high, inUse, outcome));
      }
      if !canAdd {
        ghost var written := files.ports;
        allocator.Release(id, None);
        RolledBack(ports, written, files.ports, id, granted);
        return NotAdded;
      }
      AddedAgrees(records, ports, files.ports, id, rec, granted);
      files.records := files.records[id := rec.(ports := granted)];
      return Added(granted);
    }

    /** The port half of a start: prune what is no longer declared, then allocate what is missing or pinned elsewhere. */
    method StartPorts(id: string, declared: seq<string>, pinned: map<string, int>, inUse: int -> bool)
      returns (failure: Option<Outcome>)
      requires Valid() && id in files.records && Distinct(declared, pinned)
      modifies files
      ensures Valid() && files.records.Keys == old(files.records).Keys
      ensures forall other :: other in files.records && other != id ==> files.records[other] == old(files.records)[other]
      ensures Resolved(old(files.records)[id], files.records[id], declared, pinned, failure)
    {
      PruneUndeclared(id, declared);
      var kept := files.records[id].ports;
      var needs := NeedsPort(declared, pinned, kept);
      var granted: map<string, int> := map[];
      failure := None;
      if needs != [] {
        granted, failure := AllocateMissing(id, needs, pinned, inUse);
      }
      if failure.None? {
        AllResolved(kept, declared, pinned, needs, granted);
        MergeNothing(kept);
      }
    }

    /** Allocation for some slots of a tracked record, merged into it on success. */
    method AllocateMissing(id: string, needs: seq<string>, pinned: map<string, int>, inUse: int -> bool)
      returns (granted: map<string, int>, failure: Option<Outcome>)
      requires Valid() && id in files.records && Distinct(needs, pinned)
      modifies files
      ensures Valid()
      ensures failure.Some? ==> files.records == old(files.records) && files.ports == old(files.ports)
      ensures failure.None? ==> granted.Keys == SlotSet(needs) && forall s :: s in needs && s in pinned ==> granted[s] == pinned[s]
      ensures failure.None? ==> var rec := old(files.records)[id];
        files.records == old(files.records)[id := rec.(ports := rec.ports + granted)]
    {
      ghost var records, ports := files.records, files.ports;
      var pins := map s | s in pinned && s in needs :: pinned[s];
      var outcome := allocator.Allocate(needs, id, pins, inUse);
      if !outcome.Allocated? {
        return map[], Some(outcome);
      }
      granted := outcome.ports;
      forall s | s in needs && s in pinned ensures granted[s] == pinned[s] {
        assert s in Pinned(needs, pins);
      }
      SectionKeepsInjective(ports, files.ports, Allocating(id, needs, pins, allocator.low, allocator.high, inUse, outcome));
      MergedAgrees(records, ports, files.ports, id, granted);
      files.records := files.records[id := files.records[id].(ports := files.records[id].ports + granted)];
      return granted, None;
    }

    /** Slots that the contract no longer declares lose their port, unless a process may still hold it. */
    method PruneUndeclared(id: string, declared: seq<string>)
      requires Valid() && id in files.records
      modifies files
      ensures Valid()
      ensures var rec := old(files.records)[id];
        files.records == old(files.records)[id := rec.(ports := rec.ports - Prunable(rec, declared))]
    {
      var rec := files.records[id];
      var stale := rec.ports.Keys - SlotSet(declared);
      if stale != {} && rec.pids == map[] {
        ghost var records, ports := files.records, files.ports;
        allocator.Release(id, Some(stale));
        PrunedAgrees(records, ports, files.ports, id, stale);
        files.records := files.records[id := rec.(ports := rec.ports - stale)];
      } else {
        MinusNothing(rec.ports);
        assert files.records == files.records[id := rec];
      }
    }

    /** Everything that start and stop do to a record besides its ports. */
    method UpdateRest(id: string, rec: Record)
      requires Valid() && id in files.records && rec.ports == files.records[id].ports
      modifies files`records
      ensures Valid() && files.records == old(files.records)[id := rec]
    {
      SamePorts(files.records, files.ports, id, rec);
      files.records := files.records[id := rec];
    }

    /** The end of a removal: the ports are released, then the record is dropped. */
    method Remove(id: string)
      requires Valid() && id in files.records
      modifies files
      ensures Valid() && files.records == old(files.records) - {id}
      ensures forall key :: key in files.ports ==> Owner(key) != id
    {
      ghost var records, ports := files.records, files.ports;
      allocator.Release(id, None);
      RemovedAgrees(records, ports, files.ports, id);
      files.records := files.records - {id};
    }

    /** A pass of reconciliation over both files. */
    method ReconcileFiles(w: World)
      requires Valid()
      modifies files
      ensures Valid() && files.records == AllReconciled(old(files.records), w)
    {
      PassAgrees(files.records, files.ports, w);
      Pass(files, w);
    }
  }

  lemma MergedAgrees(records: map<string, Record>, ports: map<string, int>, now: map<string, int>, id: string,
                     granted: map<string, int>)
    requires Agrees(records, ports) && id in records && IsRewrite(ports, now, id, granted) && Injective(now)
    ensures Agrees(records[id := records[id].(ports := records[id].ports + granted)], now)
  {
    var view, after := PortOf(records), PortOf(records[id := records[id].(ports := records[id].ports + granted)]);
    forall other, slot
      ensures after(other, slot) == if other == id && slot in granted then Some(granted[slot]) else view(other, slot) {
    }
    GrantMatches(view, after, ports, now, id, granted);
  }

  lemma PrunedAgrees(records: map<string, Record>, ports: map<string, int>, now: map<string, int>, id: string, stale: set<string>)
    requires Agrees(records, ports) && id in records
    requires now == map key | key in ports && !IsReleased(key, id, Some(stale)) :: ports[key]
    ensures Agrees(records[id := records[id].(ports := records[id].ports - stale)], now)
  {
    var view, after := PortOf(records), PortOf(records[id := records[id].(ports := records[id].ports - stale)]);
    var gone := (key: string) => IsOwn(key, id, stale);
    forall other, slot | IsId(other) ensures after(other, slot) == if gone(Key(other, slot)) then None else view(other, slot) {
      NotOwn(id, stale, other, slot);
    }
    DropMatches(view, after, ports, now, gone);
  }

  lemma RemovedAgrees(records: map<string, Record>, ports: map<string, int>, now: map<string, int>, id: string)
    requires Agrees(records, ports) && id in records
    requires now == map key | key in ports && !IsReleased(key, id, None) :: ports[key]
    ensures Agrees(records - {id}, now) && forall key :: key in now ==> Owner(key) != id
  {
    var view, after := PortOf(records), PortOf(records - {id});
    var gone := (key: string) => id + [SEP] <= key;
    forall other, slot | IsId(other) ensures after(other, slot) == if gone(Key(other, slot)) then None else view(other, slot) {
      PrefixMeansOwner(id, other, slot);
    }
    DropMatches(view, after, ports, now, gone);
    forall key | key in now ensures Owner(key) != id {
      var other, slot :| after(other, slot).Some? && key == Key(other, slot);
      OwnerOfKey(other, slot);
    }
  }

  lemma SamePorts(records: map<string, Record>, ports: map<string, int>, id: string, rec: Record)
    requires Agrees(records, ports) && id in records && rec.ports == records[id].ports
    ensures Agrees(records[id := rec], ports)
  {
    var view, after := PortOf(records), PortOf(records[id := rec]);
    forall other, slot ensures after(other, slot) == view(other, slot) {
    }
    DropMatches(view, after, ports, ports, (key: string) => false);
  }

  lemma AddedAgrees(records: map<string, Record>, ports: map<string, int>, now: map<string, int>, id: string, rec: Record,
                    granted: map<string, int>)
    requires Agrees(records, ports) && IsId(id) && id !in records && IsRewrite(ports, now, id, granted) && Injective(now)
    ensures Agrees(records[id := rec.(ports := granted)], now)
  {
    var view, after := PortOf(records), PortOf(records[id := rec.(ports := granted)]);
    forall other, slot
      ensures after(other, slot) == if other == id && slot in granted then Some(granted[slot]) else view(other, slot) {
    }
    GrantMatches(view, after, ports, now, id, granted);
  }

  /** Releasing an owner that had no key before undoes its allocation. */
  lemma RolledBack(was: map<string, int>, written: map<string, int>, now: map<string, int>, id: string, granted: map<string, int>)
    requires forall key :: key in was ==> !(id + [SEP] <= key)
    requires IsRewrite(was, written, id, granted)
    requires now == map key | key in written && !(id + [SEP] <= key) :: written[key]
    ensures now == was
  {
    forall key ensures Get(now, key) == Get(was, key) {
      if IsOwn(key, id, granted.Keys) {
        var slot :| slot in granted.Keys && key == Key(id, slot);
        KeyHasPrefix(id, slot);
      } else {
        assert Get(written, key) == Get(was, key);
      }
    }
    SameEntries(now, was);
  }

  // ---------------------------------------------------------------------------
  // Runs
  // ---------------------------------------------------------------------------

  /** One call of the manager; a call on an unknown id, or creation of a known one, raises and changes nothing. */
  datatype Call =
    | CreateCall(id: string, rec: Record, slots: seq<string>, pinned: map<string, int>, inUse: int -> bool, canAdd: bool)
    | StartCall(id: string, slots: seq<string>, pinned: map<string, int>, inUse: int -> bool, rec: Record)
    | StopCall(id: string, rec: Record)
    | RemoveCall(id: string)
    | ReconcileCall(w: World)

  predicate IsValidCall(call: Call) {
    && (call.CreateCall? ==> IsId(call.id) && Distinct(call.slots, call.pinned))
    && (call.StartCall? ==> Distinct(call.slots, call.pinned))
  }

  /** Any sequential run of calls keeps the two files in step. */
  method Run(m: Manager, calls: seq<Call>)
    requires m.Valid() && forall call :: call in calls ==> IsValidCall(call)
    modifies m.files
    ensures m.Valid()
  {
    for i := 0 to |calls|
      invariant m.Valid()
    {
      assert calls[i] in calls;
      match calls[i]
      case CreateCall(id, rec, slots, pinned, inUse, canAdd) =>
        if id !in m.files.records {
          var _ := m.Create(id, rec, slots, pinned, inUse, canAdd);
        }
      case StartCall(id, slots, pinned, inUse, rec) =>
        if id in m.files.records {
          var failure := m.StartPorts(id, slots, pinned, inUse);
          if failure.None? {
            m.UpdateRest(id, rec.(ports := m.files.records[id].ports));
          }
        }
      case StopCall(id, rec) =>
        if id in m.files.records {
          m.UpdateRest(id, rec.(ports := m.files.records[id].ports));
        }
      case RemoveCall(id) =>
        if id in m.files.records {
          m.Remove(id);
        }
      case ReconcileCall(w) =>
        m.ReconcileFiles(w);
    }
  }

  /**
    Agreement is a claim about sequential runs: a pass that runs between the two steps of a
    creation frees the new ports, and the record that is then added agrees with the file only
    if it has no ports.
   */
  lemma CreationIsNotAtomic(records: map<string, Record>, ports: map<string, int>, now: map<string, int>, id: string,
                            rec: Record, granted: map<string, int>)
    requires Agrees(records, ports) && IsId(id) && id !in records && IsRewrite(ports, now, id, granted) && Injective(now)
    ensures Agrees(records[id := rec.(ports := granted)], FreedPorts(now, records.Keys, {})) <==> granted == map[]
  {
    var freed, after := FreedPorts(now, records.Keys, {}), records[id := rec.(ports := granted)];
    if granted == map[] {
      var view, next := PortOf(records), PortOf(after);
      forall other, slot ensures next(other, slot) == view(other, slot) {
      }
      forall key ensures Get(freed, key) == Get(ports, key) {
        assert Get(now, key) == Get(ports, key);
        if key in ports {
          var other, slot :| view(other, slot).Some? && key == Key(other, slot);
          OwnerOfKey(other, slot);
        }
      }
      DropMatches(view, next, ports, freed, (key: string) => false);
    } else {
      var slot :| slot in granted;
      OwnerOfKey(id, slot);
      assert Get(freed, Key(id, slot)) == None;
      assert PortOf(after)(id, slot) == Some(granted[slot]);
    }
  }
}
