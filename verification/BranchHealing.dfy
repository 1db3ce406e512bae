/**
  Phase 3 of reconciliation: a stored branch name that is mojibake of the branch git reports
  for the same path is rewritten to git's value; nothing else in the record changes.
 */
module BranchHealing {
  import opened Options
  import opened Records
  import opened Mojibake

  /** One block of `git worktree list --porcelain`, its path resolved; a detached checkout has no branch. */
  datatype Block = Block(path: string, branch: Option<string>)

  /** Only a non-ASCII name of a worktree is worth a git call. */
  predicate IsCandidate(rec: Record) {
    rec.backing != Primary && rec.branch.Some? && rec.branch.value != "" && !IsAscii(rec.branch.value)
  }

  function Candidates(records: map<string, Record>): set<string> {
    set id | id in records && IsCandidate(records[id])
  }

  /** The stored branch after one block of its path has been looked at. */
  function HealOnce(stored: Option<string>, live: Option<string>): Option<string> {
    if live.None? || live.value == "" || stored.None? || stored == live then stored
    else if IsMojibakeOf(stored.value, live.value) then live else stored
  }

  /** The stored branch after all blocks of its path have been looked at, in listing order. */
  function HealAll(stored: Option<string>, blocks: seq<Block>, path: string): Option<string> {
    if blocks == [] then stored
    else
      var before := HealAll(stored, blocks[..|blocks| - 1], path);
      var last := blocks[|blocks| - 1];
      if last.path == path then HealOnce(before, last.branch) else before
  }

  /** The listings of the repositories whose git call succeeded, one after the other. */
  function Listed(listings: seq<Option<seq<Block>>>): seq<Block> {
    if listings == [] then [] else listings[0].GetOr([]) + Listed(listings[1..])
  }

  /** The candidate that owns each resolved path: of several the last one in file order. */
  function Owners(order: seq<string>, records: map<string, Record>, candidates: set<string>,
                  resolve: string -> string): (owners: map<string, string>)
    ensures forall path :: path in owners ==>
      owners[path] in records && owners[path] in candidates && resolve(records[owners[path]].path) == path
  {
    if order == [] then map[]
    else
      var before := Owners(order[..|order| - 1], records, candidates, resolve);
      var id := order[|order| - 1];
      if id in records && id in candidates then before[resolve(records[id].path) := id] else before
  }

  function HealedBranch(id: string, rec: Record, owners: map<string, string>, blocks: seq<Block>,
                        resolve: string -> string): Option<string> {
    var path := resolve(rec.path);
    if path in owners && owners[path] == id then HealAll(rec.branch, blocks, path) else rec.branch
  }

  predicate BranchesHealed(was: map<string, Record>, now: map<string, Record>, owners: map<string, string>,
                           blocks: seq<Block>, resolve: string -> string) {
    && now.Keys == was.Keys
    && forall id :: id in was ==> now[id] == was[id].(branch := HealedBranch(id, was[id], owners, blocks, resolve))
  }

  /** The healed ids are those whose branch is no longer what it was. */
  predicate Reported(was: map<string, Record>, now: map<string, Record>, healed: seq<string>) {
    && now.Keys == was.Keys
    && forall id :: id in was ==> (id in healed <==> now[id].branch != was[id].branch)
  }

  // ---------------------------------------------------------------------------
  // What a heal means
  // ---------------------------------------------------------------------------

  lemma HealOnceShortens(stored: Option<string>, live: Option<string>)
    requires HealOnce(stored, live) != stored
    ensures HealOnce(stored, live) == live && live.Some? && stored.Some?
    ensures IsMojibakeOf(stored.value, live.value) && !IsAscii(stored.value) && |live.value| < |stored.value|
  {
    if IsAscii(stored.value) {
      AsciiIsItsOwnMojibake(stored.value, live.value);
    }
    HealShortens(stored.value, live.value);
  }

  /** A stored name only ever changes to a strictly shorter one that git reports for its path. */
  lemma {:induction false} HealedToLive(stored: Option<string>, blocks: seq<Block>, path: string)
    ensures var now := HealAll(stored, blocks, path);
      now == stored || (&& stored.Some? && now.Some? && !IsAscii(stored.value) && |now.value| < |stored.value|
                        && exists i :: 0 <= i < |blocks| && blocks[i].path == path && blocks[i].branch == now)
  {
    if blocks != [] {
      var front, last := blocks[..|blocks| - 1], blocks[|blocks| - 1];
      HealedToLive(stored, front, path);
      var before, now := HealAll(stored, front, path), HealAll(stored, blocks, path);
      if now != before {
        HealOnceShortens(before, last.branch);
        assert blocks[|blocks| - 1].branch == now;
      } else if before != stored {
        var i :| 0 <= i < |front| && front[i].path == path && front[i].branch == before;
        assert blocks[i].branch == now;
      }
    }
  }

  /** Git lists every checkout once, so all blocks of one path agree. */
  predicate ListsOnce(blocks: seq<Block>, path: string, live: Option<string>) {
    forall i :: 0 <= i < |blocks| && blocks[i].path == path ==> blocks[i].branch == live
  }

  predicate IsListed(blocks: seq<Block>, path: string) {
    exists i :: 0 <= i < |blocks| && blocks[i].path == path
  }

  lemma HealOnceIsIdempotent(stored: Option<string>, live: Option<string>)
    ensures HealOnce(HealOnce(stored, live), live) == HealOnce(stored, live)
  {
  }

  /** With one live name per path, healing looks at that name alone. */
  lemma {:induction false} HealAllIsHealOnce(stored: Option<string>, blocks: seq<Block>, path: string, live: Option<string>)
    requires ListsOnce(blocks, path, live)
    ensures HealAll(stored, blocks, path) == if IsListed(blocks, path) then HealOnce(stored, live) else stored
  {
    if blocks != [] {
      var front, last := blocks[..|blocks| - 1], blocks[|blocks| - 1];
      assert ListsOnce(front, path, live) by {
        forall i | 0 <= i < |front| && front[i].path == path ensures front[i].branch == live { assert blocks[i] == front[i]; }
      }
      HealAllIsHealOnce(stored, front, path, live);
      HealOnceIsIdempotent(stored, live);
      if i :| 0 <= i < |front| && front[i].path == path {
        assert blocks[i].path == path;
      } else if i :| 0 <= i < |blocks| && blocks[i].path == path {
        assert i == |front|;
      }
    }
  }

  /** Healing again with the same listing changes nothing. */
  lemma SecondHealIsNoOp(stored: Option<string>, blocks: seq<Block>, path: string, live: Option<string>)
    requires ListsOnce(blocks, path, live)
    ensures HealAll(HealAll(stored, blocks, path), blocks, path) == HealAll(stored, blocks, path)
  {
    HealAllIsHealOnce(stored, blocks, path, live);
    HealAllIsHealOnce(HealAll(stored, blocks, path), blocks, path, live);
    HealOnceIsIdempotent(stored, live);
  }

  /** No record outside the candidates changes: its name has nothing to heal. */
  lemma OthersStay(rec: Record, blocks: seq<Block>, path: string)
    requires rec.branch.None? || IsAscii(rec.branch.value)
    ensures HealAll(rec.branch, blocks, path) == rec.branch
  {
    HealedToLive(rec.branch, blocks, path);
  }

  // ---------------------------------------------------------------------------
  // The phase
  // ---------------------------------------------------------------------------

  /** `records_by_path`, filled in file order. */
  method Index(order: seq<string>, records: map<string, Record>, candidates: set<string>, resolve: string -> string)
    returns (owners: map<string, string>)
    ensures owners == Owners(order, records, candidates, resolve)
  {
    owners := map[];
    for i := 0 to |order|
      invariant owners == Owners(order[..i], records, candidates, resolve)
    {
      assert order[..i + 1][..i] == order[..i];
      if order[i] in records && order[i] in candidates {
        owners := owners[resolve(records[order[i]].path) := order[i]];
      }
    }
    assert order[..|order|] == order;
  }

  lemma OneMoreBlock(was: map<string, Record>, now: map<string, Record>, owners: map<string, string>,
                     blocks: seq<Block>, i: nat, resolve: string -> string, id: string)
    requires i < |blocks| && id in was && BranchesHealed(was, now, owners, blocks[..i], resolve)
    requires forall path :: path in owners ==> owners[path] in was && resolve(was[owners[path]].path) == path
    ensures HealedBranch(id, was[id], owners, blocks[..i + 1], resolve) ==
            if blocks[i].path in owners && owners[blocks[i].path] == id
            then HealOnce(now[id].branch, blocks[i].branch) else now[id].branch
  {
    assert blocks[..i + 1][..i] == blocks[..i];
  }

  lemma StillReported(was: Option<string>, now: Option<string>, live: Option<string>)
    requires now == was || (now.Some? && was.Some? && |now.value| < |was.value|)
    ensures HealOnce(now, live) == now || HealOnce(now, live) != was
  {
    if HealOnce(now, live) != now { HealOnceShortens(now, live); }
  }

  /** One block of a listing against the record that owns its path. */
  method HealBlock(was: map<string, Record>, now: map<string, Record>, owners: map<string, string>,
                   blocks: seq<Block>, i: nat, resolve: string -> string, healed: seq<string>)
    returns (next: map<string, Record>, ids: seq<string>)
    requires i < |blocks| && BranchesHealed(was, now, owners, blocks[..i], resolve) && Reported(was, now, healed)
    requires forall path :: path in owners ==> owners[path] in was && resolve(was[owners[path]].path) == path
    ensures BranchesHealed(was, next, owners, blocks[..i + 1], resolve) && Reported(was, next, ids)
  {
    next, ids := now, healed;
    var block := blocks[i];
    forall id | id in was
      ensures HealedBranch(id, was[id], owners, blocks[..i + 1], resolve) ==
              if block.path in owners && owners[block.path] == id then HealOnce(now[id].branch, block.branch) else now[id].branch
    {
      OneMoreBlock(was, now, owners, blocks, i, resolve, id);
    }
    if block.branch.Some? && block.branch.value != "" && block.path in owners {
      var id := owners[block.path];
      var stored := now[id].branch;
      HealedToLive(was[id].branch, blocks[..i], resolve(was[id].path));
      StillReported(was[id].branch, stored, block.branch);
      if stored != block.branch && stored.Some? && IsMojibakeOf(stored.value, block.branch.value) {
        next := now[id := now[id].(branch := block.branch)];
        ids := healed + [id];
      }
    }
  }

  /**
    The heal of the reloaded state `files`.  The candidates come from `snapshot`, the records
    before the reload; `canSave` is false when taking the lock, reloading or saving fails.
   */
  method Heal(files: StateFiles, order: seq<string>, snapshot: map<string, Record>, listings: seq<Option<seq<Block>>>,
              resolve: string -> string, canSave: bool)
    returns (healed: seq<string>)
    modifies files`records
    ensures canSave ==>
      BranchesHealed(old(files.records), files.records, Owners(order, old(files.records), Candidates(snapshot), resolve),
                     Listed(listings), resolve)
    ensures !canSave ==> files.records == old(files.records)
    ensures Reported(old(files.records), files.records, healed)
  {
    healed := [];
    var candidates := Candidates(snapshot);
    if candidates == {} || !canSave {
      return;
    }
    var was, blocks := files.records, Listed(listings);
    var owners := Index(order, was, candidates, resolve);
    var now, ids: seq<string> := was, [];
    for i := 0 to |blocks|
      invariant BranchesHealed(was, now, owners, blocks[..i], resolve) && Reported(was, now, ids)
      invariant files.records == was
    {
      now, ids := HealBlock(was, now, owners, blocks, i, resolve, ids);
    }
    assert blocks[..|blocks|] == blocks;
    files.records := now;
    healed := ids;
  }
}
