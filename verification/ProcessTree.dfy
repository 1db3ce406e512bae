/**
  The descendants of a process, deepest first, collected from a frozen table of parents: at
  most 256 of them, each before its own parent, and all of them if there are fewer.
 */
module ProcessTree {
  const MAX_NODES: nat := 256

  /** The parent of every process that exists. */
  type Table = map<int, int>

  /** Parents are older than their children. */
  ghost predicate Acyclic(t: Table, rank: int -> nat) {
    forall p :: p in t ==> rank(t[p]) < rank(p)
  }

  ghost predicate Below(t: Table, rank: int -> nat, p: int, root: int)
    requires Acyclic(t, rank)
    decreases rank(p)
  {
    p in t && (t[p] == root || Below(t, rank, t[p], root))
  }

  lemma {:induction false} BelowIsYounger(t: Table, rank: int -> nat, p: int, root: int)
    requires Acyclic(t, rank) && Below(t, rank, p, root)
    ensures rank(root) < rank(p)
    decreases rank(p)
  {
    if t[p] != root { BelowIsYounger(t, rank, t[p], root); }
  }

  predicate Distinct(s: seq<int>) {
    forall i, j :: 0 <= i < j < |s| ==> s[i] != s[j]
  }

  lemma HasMember(s: set<int>)
    requires s != {}
    ensures exists p :: p in s
  {
    assert (forall p: int :: p !in s) ==> s == {};
  }

  lemma IsEmpty(s: set<int>)
    requires forall p :: p !in s
    ensures s == {}
  {
    if s != {} { HasMember(s); }
  }

  lemma AppendDistinct(s: seq<int>, p: int)
    requires Distinct(s) && p !in s
    ensures Distinct(s + [p])
  {
    assert forall i :: 0 <= i < |s| ==> s[i] in s;
  }

  // ---------------------------------------------------------------------------
  // The breadth-first walk
  // ---------------------------------------------------------------------------

  /** The processes with this parent, in the order of the process list. */
  function Children(list: seq<int>, t: Table, parent: int): (c: seq<int>)
    ensures forall p :: p in c <==> p in list && p in t && t[p] == parent
  {
    if list == [] then []
    else (if list[0] in t && t[list[0]] == parent then [list[0]] else []) + Children(list[1..], t, parent)
  }

  /** Nobody below the root is missing, except below processes still to be explored. */
  ghost predicate Closed(t: Table, root: int, seen: set<int>, open: set<int>) {
    forall p :: p in t && (t[p] == root || t[p] in seen) ==> p in seen || t[p] in open
  }

  lemma {:induction false} ClosedHasAll(t: Table, rank: int -> nat, root: int, seen: set<int>, p: int)
    requires Acyclic(t, rank) && Closed(t, root, seen, {}) && Below(t, rank, p, root)
    ensures p in seen
    decreases rank(p)
  {
    if t[p] != root { ClosedHasAll(t, rank, root, seen, t[p]); }
  }

  /** The processes at most `k` generations below the root. */
  ghost function Within(t: Table, root: int, k: nat): set<int> {
    if k == 0 then {} else set p | p in t && (t[p] == root || t[p] in Within(t, root, k - 1))
  }

  lemma {:induction false} WithinGrows(t: Table, root: int, k: nat)
    ensures Within(t, root, k) <= Within(t, root, k + 1) <= t.Keys
  {
    if k > 0 {
      WithinGrows(t, root, k - 1);
    }
  }

  lemma {:induction false} WithinIsBelow(t: Table, rank: int -> nat, root: int, k: nat, p: int)
    requires Acyclic(t, rank) && p in Within(t, root, k)
    ensures Below(t, rank, p, root)
  {
    if t[p] != root { WithinIsBelow(t, rank, root, k - 1, t[p]); }
  }

  /** Where a walk that has done `k` generations stops: at the cap, or when a generation is empty. */
  ghost function LastGeneration(t: Table, root: int, k: nat): (last: nat)
    ensures last >= k
    ensures |Within(t, root, last)| >= MAX_NODES || Within(t, root, last + 1) == Within(t, root, last)
    decreases t.Keys - Within(t, root, k)
  {
    WithinGrows(t, root, k);
    if |Within(t, root, k)| >= MAX_NODES || Within(t, root, k + 1) == Within(t, root, k) then k
    else
      NextIsCloser(t, root, k);
      LastGeneration(t, root, k + 1)
  }

  lemma StrictMember(a: set<int>, b: set<int>)
    requires a <= b && a != b
    ensures exists p :: p in b && p !in a
  {
    assert (forall p: int :: p in b ==> p in a) ==> a == b;
  }

  lemma NextIsCloser(t: Table, root: int, k: nat)
    requires Within(t, root, k + 1) != Within(t, root, k)
    ensures t.Keys - Within(t, root, k + 1) < t.Keys - Within(t, root, k)
  {
    WithinGrows(t, root, k);
    StrictMember(Within(t, root, k), Within(t, root, k + 1));
    var p :| p in Within(t, root, k + 1) && p !in Within(t, root, k);
    assert p in t.Keys - Within(t, root, k);
  }

  lemma StopsOrGoesOn(t: Table, root: int, k: nat)
    ensures LastGeneration(t, root, k) ==
            if |Within(t, root, k)| >= MAX_NODES || Within(t, root, k + 1) == Within(t, root, k) then k
            else LastGeneration(t, root, k + 1)
  {
  }

  /** Exactly what the walk sees: whole generations, up to the one that reaches the cap. */
  ghost function Walked(t: Table, root: int): set<int> {
    Within(t, root, LastGeneration(t, root, 0))
  }

  /** A walk that stays below the cap sees everything. */
  lemma WalkedIsAll(t: Table, rank: int -> nat, root: int, p: int)
    requires Acyclic(t, rank) && |Walked(t, root)| < MAX_NODES && Below(t, rank, p, root)
    ensures p in Walked(t, root)
  {
    var last := LastGeneration(t, root, 0);
    assert forall q :: q in Within(t, root, last + 1) <==> q in t && (t[q] == root || t[q] in Within(t, root, last));
    ClosedHasAll(t, rank, root, Walked(t, root), p);
  }

  /** The children of one explored process that were not seen before. */
  method Explore(t: Table, ghost rank: int -> nat, list: seq<int>, root: int, parent: int, seen: set<int>, next: seq<int>)
    returns (seen': set<int>, next': seq<int>)
    requires Acyclic(t, rank) && t.Keys == (set p | p in list)
    requires parent == root || Below(t, rank, parent, root)
    ensures seen <= seen'
    ensures forall p :: p in seen' <==> p in seen || (p in t && t[p] == parent)
    ensures forall p :: p in next' <==> p in next || p in seen' - seen
    ensures |next'| > |next| ==> seen < seen'
  {
    seen', next' := seen, next;
    var children := Children(list, t, parent);
    for i := 0 to |children|
      invariant seen <= seen' && forall p :: p in seen' <==> p in seen || p in children[..i]
      invariant forall p :: p in next' <==> p in next || p in seen' - seen
      invariant |next'| > |next| ==> seen < seen'
      invariant |next'| >= |next|
    {
      var child := children[i];
      assert child in children;
      assert Below(t, rank, child, root);
      BelowIsYounger(t, rank, child, root);
      assert children[..i + 1] == children[..i] + [child];
      if child != root && child !in seen' {
        seen' := seen' + {child};
        next' := next' + [child];
      }
    }
    assert children[..|children|] == children;
  }

  /** One generation: the children of the whole frontier. */
  method ExploreAll(t: Table, ghost rank: int -> nat, list: seq<int>, root: int, frontier: seq<int>, before: set<int>, ghost k: nat)
    returns (seen: set<int>, next: seq<int>)
    requires Acyclic(t, rank) && t.Keys == (set p | p in list) && before == Within(t, root, k)
    requires forall p :: p in frontier ==> p == root || p in before
    requires Closed(t, root, before, set p | p in frontier)
    ensures seen == Within(t, root, k + 1) && before <= seen
    ensures forall p :: p in next <==> p in seen - before
    ensures Closed(t, root, seen, set p | p in next)
  {
    seen, next := before, [];
    for i := 0 to |frontier|
      invariant before <= seen
      invariant forall p :: p in seen <==> p in before || (p in t && t[p] in frontier[..i])
      invariant forall p :: p in next <==> p in seen - before
    {
      var parent := frontier[i];
      assert parent in frontier;
      if parent != root { WithinIsBelow(t, rank, root, k, parent); }
      assert frontier[..i + 1] == frontier[..i] + [parent];
      seen, next := Explore(t, rank, list, root, parent, seen, next);
    }
    assert frontier[..|frontier|] == frontier;
    WithinGrows(t, root, k);
    forall p: int ensures p in seen <==> p in Within(t, root, k + 1) {
      if p in t && (t[p] == root || t[p] in before) {
        assert p in before || t[p] in frontier;
      }
    }
    assert forall p :: p in t && t[p] in before ==> p in seen;
  }

  /** The walk stands after `k` whole generations; `frontier` is what the last of them added. */
  ghost predicate IsAt(t: Table, root: int, k: nat, seen: set<int>, frontier: seq<int>) {
    && seen == Within(t, root, k)
    && (forall p :: p in frontier ==> p == root || p in seen)
    && Closed(t, root, seen, set p | p in frontier)
    && LastGeneration(t, root, 0) == LastGeneration(t, root, k)
    && (frontier == [] ==> Within(t, root, k + 1) == seen)
  }

  lemma Advances(t: Table, root: int, k: nat, now: set<int>, next: seq<int>)
    requires LastGeneration(t, root, 0) == LastGeneration(t, root, k) && |Within(t, root, k)| < MAX_NODES
    requires now == Within(t, root, k + 1) && Closed(t, root, now, set p | p in next)
    requires forall p :: p in next <==> p in now - Within(t, root, k)
    ensures next != [] ==> IsAt(t, root, k + 1, now, next) && t.Keys - now < t.Keys - Within(t, root, k)
    ensures next == [] ==> IsAt(t, root, k, now, next) && now == Within(t, root, k)
  {
    WithinGrows(t, root, k);
    if next == [] {
      assert forall p: int :: p in now ==> p in Within(t, root, k) || p in next;
      IsEmpty(now - Within(t, root, k));
      assert now == Within(t, root, k) + (now - Within(t, root, k));
    } else {
      var p := next[0];
      assert p in next;
      assert p in now && p !in Within(t, root, k);
      NextIsCloser(t, root, k);
      StopsOrGoesOn(t, root, k);
    }
  }

  lemma Arrives(t: Table, rank: int -> nat, root: int, k: nat, seen: set<int>, frontier: seq<int>)
    requires Acyclic(t, rank) && IsAt(t, root, k, seen, frontier) && (frontier == [] || |seen| >= MAX_NODES)
    ensures seen == Walked(t, root)
    ensures frontier == [] ==> forall p :: Below(t, rank, p, root) ==> p in seen
  {
    StopsOrGoesOn(t, root, k);
    if frontier == [] {
      assert (set p | p in frontier) == {};
      forall p | Below(t, rank, p, root) ensures p in seen {
        ClosedHasAll(t, rank, root, seen, p);
      }
    }
  }

  /** The walk over the process list: whole generations at a time, until the cap is reached. */
  method Walk(t: Table, ghost rank: int -> nat, list: seq<int>, root: int) returns (seen: set<int>, truncated: bool)
    requires Acyclic(t, rank) && t.Keys == set p | p in list
    ensures seen == Walked(t, root)
    ensures truncated ==> |seen| >= MAX_NODES
    ensures !truncated ==> forall p :: Below(t, rank, p, root) ==> p in seen
  {
    var frontier := [root];
    seen := {};
    ghost var k := 0;
    while frontier != [] && |seen| < MAX_NODES
      invariant IsAt(t, root, k, seen, frontier)
      decreases t.Keys - seen, |frontier|
    {
      var now, next := ExploreAll(t, rank, list, root, frontier, seen, k);
      Advances(t, root, k, now, next);
      k := if next == [] then k else k + 1;
      seen, frontier := now, next;
    }
    Arrives(t, rank, root, k, seen, frontier);
    truncated := frontier != [];
  }

  // ---------------------------------------------------------------------------
  // De-duplication, exclusion and the cap
  // ---------------------------------------------------------------------------

  /** The first 256 distinct processes that are not part of the host's own lineage. */
  method Collect(found: seq<int>, excluded: set<int>) returns (kept: seq<int>, truncated: bool)
    ensures Distinct(kept) && |kept| <= MAX_NODES
    ensures forall p :: p in kept ==> p in found && p !in excluded
    ensures !truncated ==> forall p :: p in found && p !in excluded ==> p in kept
    ensures truncated ==> |kept| == MAX_NODES
  {
    kept, truncated := [], false;
    for i := 0 to |found|
      invariant Distinct(kept) && |kept| <= MAX_NODES
      invariant forall p :: p in kept ==> p in found && p !in excluded
      invariant !truncated ==> forall p :: p in found[..i] && p !in excluded ==> p in kept
      invariant truncated ==> |kept| == MAX_NODES
    {
      assert found[..i + 1] == found[..i] + [found[i]];
      if found[i] in excluded || found[i] in kept {
        continue;
      }
      if |kept| >= MAX_NODES {
        truncated := true;
        continue;
      }
      kept := kept + [found[i]];
    }
    assert found[..|found|] == found;
  }

  // ---------------------------------------------------------------------------
  // Depth
  // ---------------------------------------------------------------------------

  /** The number of collected ancestors in an unbroken line. */
  ghost function Depth(t: Table, rank: int -> nat, known: set<int>, p: int): nat
    requires Acyclic(t, rank)
    decreases rank(p)
  {
    if p in t && t[p] in known && t[p] != p then 1 + Depth(t, rank, known, t[p]) else 0
  }

  /** The memo table is right about every process older than `p`. */
  ghost predicate CacheBelow(cache: map<int, nat>, t: Table, rank: int -> nat, known: set<int>, p: int)
    requires Acyclic(t, rank)
  {
    forall q :: q in cache && rank(q) <= rank(p) ==> cache[q] == Depth(t, rank, known, q)
  }

  /** The memoised depth, with the entry of `p` itself set to 0 while it is being computed. */
  method DepthOf(t: Table, ghost rank: int -> nat, known: set<int>, p: int, cache: map<int, nat>)
    returns (depth: nat, cache': map<int, nat>)
    requires Acyclic(t, rank) && p in known && known <= t.Keys
    requires CacheBelow(cache, t, rank, known, p)
    ensures depth == Depth(t, rank, known, p) && p in cache'
    ensures forall q :: q in cache' && (q !in cache || cache'[q] != cache[q]) ==>
      rank(q) <= rank(p) && cache'[q] == Depth(t, rank, known, q)
    ensures cache.Keys <= cache'.Keys
    decreases rank(p)
  {
    cache' := cache;
    if p in cache {
      return cache[p], cache;
    }
    cache' := cache'[p := 0];
    var parent := t[p];
    if parent in known && parent != p {
      var above: nat;
      above, cache' := DepthOf(t, rank, known, parent, cache');
      depth := 1 + above;
    } else {
      depth := 0;
    }
    cache' := cache'[p := depth];
  }

  lemma ChildIsDeeper(t: Table, rank: int -> nat, known: set<int>, p: int)
    requires Acyclic(t, rank) && p in t && t[p] in known
    ensures Depth(t, rank, known, p) == 1 + Depth(t, rank, known, t[p])
  {
    assert rank(t[p]) < rank(p);
  }

  // ---------------------------------------------------------------------------
  // Ordering
  // ---------------------------------------------------------------------------

  predicate Descending(s: seq<int>, key: map<int, nat>) {
    && (forall i :: 0 <= i < |s| ==> s[i] in key)
    && (forall i, j :: 0 <= i < j < |s| ==> key[s[i]] >= key[s[j]])
  }

  /** `p` behind the last entry that is at least as deep. */
  function Insert(s: seq<int>, key: map<int, nat>, p: int): seq<int>
    requires p in key && forall q :: q in s ==> q in key
  {
    if s == [] then [p]
    else
      var front, last := s[..|s| - 1], s[|s| - 1];
      if key[last] >= key[p] then s + [p] else Insert(front, key, p) + [last]
  }

  lemma {:induction false} InsertAdds(s: seq<int>, key: map<int, nat>, p: int)
    requires p in key && (forall q :: q in s ==> q in key) && Distinct(s) && p !in s
    ensures var r := Insert(s, key, p); Distinct(r) && |r| == |s| + 1 && forall q :: q in r <==> q in s || q == p
    decreases |s|
  {
    AppendDistinct(s, p);
    if s != [] {
      var front, last := s[..|s| - 1], s[|s| - 1];
      assert s == front + [last];
      assert last in s;
      if key[last] < key[p] {
        InsertAdds(front, key, p);
        AppendDistinct(Insert(front, key, p), last);
      }
    }
  }

  lemma AppendDescending(s: seq<int>, key: map<int, nat>, p: int)
    requires Descending(s, key) && p in key && forall q :: q in s ==> key[q] >= key[p]
    ensures Descending(s + [p], key)
  {
    forall i | 0 <= i < |s| ensures key[s[i]] >= key[p] {
      var q := s[i];
      assert q in s;
    }
  }

  lemma LastIsLeast(front: seq<int>, last: int, key: map<int, nat>)
    requires Descending(front + [last], key)
    ensures Descending(front, key) && last in key && forall q :: q in front ==> q in key && key[q] >= key[last]
  {
    var s := front + [last];
    assert last in s && s[|front|] == last;
    forall q | q in front ensures q in key && key[q] >= key[last] {
      var i :| 0 <= i < |front| && front[i] == q;
      assert s[i] == q && q in s;
    }
    assert forall i :: 0 <= i < |front| ==> s[i] == front[i];
  }

  lemma {:induction false} InsertKeepsOrder(s: seq<int>, key: map<int, nat>, p: int)
    requires p in key && Descending(s, key) && Distinct(s) && p !in s
    ensures Descending(Insert(s, key, p), key)
    decreases |s|
  {
    if s != [] {
      var front, last := s[..|s| - 1], s[|s| - 1];
      assert s == front + [last];
      LastIsLeast(front, last, key);
      if key[last] >= key[p] {
        AppendDescending(s, key, p);
      } else {
        InsertAdds(front, key, p);
        InsertKeepsOrder(front, key, p);
        AppendDescending(Insert(front, key, p), key, last);
      }
    }
  }

  /** sorted(pids, key=depth, reverse=True), which is stable. */
  method SortDescending(pids: seq<int>, key: map<int, nat>) returns (sorted: seq<int>)
    requires Distinct(pids) && forall p :: p in pids ==> p in key
    ensures Descending(sorted, key) && Distinct(sorted) && |sorted| == |pids|
    ensures forall p :: p in sorted <==> p in pids
  {
    sorted := [];
    for i := 0 to |pids|
      invariant Descending(sorted, key) && Distinct(sorted) && |sorted| == i
      invariant forall p :: p in sorted <==> p in pids[..i]
    {
      assert pids[..i + 1] == pids[..i] + [pids[i]];
      var p := pids[i];
      assert p in pids && p !in pids[..i];
      InsertAdds(sorted, key, p);
      InsertKeepsOrder(sorted, key, p);
      sorted := Insert(sorted, key, p);
    }
    assert pids[..|pids|] == pids;
  }

  // ---------------------------------------------------------------------------
  // The snapshot
  // ---------------------------------------------------------------------------

  /** Every process stands before its own parent. */
  predicate DeepestFirst(s: seq<int>, t: Table) {
    forall i, j :: 0 <= i < |s| && 0 <= j < |s| && s[i] in t && t[s[i]] == s[j] ==> i < j
  }

  /** The recursive query fails, with nothing, or names everything below a process that exists. */
  ghost predicate IsQuery(recursive: seq<int>, t: Table, rank: int -> nat, root: int)
    requires Acyclic(t, rank)
  {
    recursive == [] || (root in t && forall p :: p in recursive <==> Below(t, rank, p, root))
  }

  /** What is found before de-duplication: the answer of the query, or else of the walk. */
  ghost function Found(t: Table, root: int, recursive: seq<int>): set<int> {
    if root <= 0 then {}
    else if recursive != [] then set p | p in recursive
    else if root in t then Walked(t, root)
    else {}
  }

  /** What `_process_tree` may return: at most 256 of what is found, in order; all of it if it is fewer. */
  ghost predicate IsSnapshot(tree: seq<int>, t: Table, root: int, recursive: seq<int>, excluded: set<int>) {
    && |tree| <= MAX_NODES && Distinct(tree) && DeepestFirst(tree, t)
    && (forall p :: p in tree ==> p in Found(t, root, recursive) && p !in excluded)
    && (|tree| < MAX_NODES ==> forall p :: p in Found(t, root, recursive) && p !in excluded ==> p in tree)
  }

  /** Nobody below the root is missing, apart from the excluded. */
  ghost predicate Covers(t: Table, rank: int -> nat, root: int, tree: seq<int>, excluded: set<int>)
    requires Acyclic(t, rank)
  {
    forall p :: Below(t, rank, p, root) && p !in excluded ==> p in tree
  }

  /** The root is gone while somebody below it is still on record. */
  ghost predicate IsBereft(t: Table, rank: int -> nat, root: int, excluded: set<int>)
    requires Acyclic(t, rank)
  {
    (root <= 0 || root !in t) && exists p :: Below(t, rank, p, root) && p !in excluded
  }

  /** The walk ends at the cap before it reaches somebody. */
  ghost predicate IsCut(t: Table, rank: int -> nat, root: int, excluded: set<int>)
    requires Acyclic(t, rank)
  {
    exists p :: Below(t, rank, p, root) && p !in excluded && p !in Walked(t, root)
  }

  lemma FoundIsBelow(t: Table, rank: int -> nat, root: int, recursive: seq<int>, p: int)
    requires Acyclic(t, rank) && IsQuery(recursive, t, rank, root) && p in Found(t, root, recursive)
    ensures Below(t, rank, p, root)
  {
    if recursive == [] {
      WithinIsBelow(t, rank, root, LastGeneration(t, root, 0), p);
    }
  }

  lemma SizeOfMembers(s: seq<int>, members: set<int>)
    requires forall p :: p in members ==> p in s
    ensures |members| <= |s|
    decreases |s|
  {
    if s == [] {
      IsEmpty(members);
    } else {
      var last := s[|s| - 1];
      var front := s[..|s| - 1];
      forall p: int | p in members - {last} ensures p in front {
        assert p in s;
      }
      SizeOfMembers(front, members - {last});
    }
  }

  /** Only a host below the root can make a walk that was cut look short. */
  lemma CutNeedsHosts(tree: seq<int>, t: Table, rank: int -> nat, root: int, excluded: set<int>)
    requires Acyclic(t, rank) && root > 0 && root in t
    requires IsSnapshot(tree, t, root, [], excluded) && |tree| < MAX_NODES
    requires forall p :: p in excluded ==> !Below(t, rank, p, root)
    ensures Covers(t, rank, root, tree, excluded)
  {
    forall p | p in Walked(t, root) ensures p in tree {
      FoundIsBelow(t, rank, root, [], p);
    }
    SizeOfMembers(tree, Walked(t, root));
    forall p | Below(t, rank, p, root) ensures p in tree {
      WalkedIsAll(t, rank, root, p);
    }
  }

  /** A process that exists, with the host's lineage outside its tree. */
  ghost predicate IsAnswerable(t: Table, rank: int -> nat, root: int, excluded: set<int>)
    requires Acyclic(t, rank)
  {
    root > 0 && root in t && forall p :: p in excluded ==> !Below(t, rank, p, root)
  }

  /** For such a process a snapshot below the cap is exactly its tree. */
  lemma ShortSnapshotCovers(tree: seq<int>, t: Table, rank: int -> nat, root: int, recursive: seq<int>, excluded: set<int>)
    requires Acyclic(t, rank) && IsQuery(recursive, t, rank, root) && IsAnswerable(t, rank, root, excluded)
    requires IsSnapshot(tree, t, root, recursive, excluded) && |tree| < MAX_NODES
    ensures forall p :: p in tree <==> Below(t, rank, p, root)
  {
    if recursive == [] {
      CutNeedsHosts(tree, t, rank, root, excluded);
    }
    forall p | p in tree ensures Below(t, rank, p, root) {
      FoundIsBelow(t, rank, root, recursive, p);
    }
  }

  /**
    A corollary of what the walk sees, for any root and any host: a snapshot below the cap misses
    somebody exactly if the root is gone, or if the recursive query failed and the walk was cut.
   */
  lemma ShortSnapshotMisses(tree: seq<int>, t: Table, rank: int -> nat, root: int, recursive: seq<int>, excluded: set<int>)
    requires Acyclic(t, rank) && IsQuery(recursive, t, rank, root)
    requires IsSnapshot(tree, t, root, recursive, excluded) && |tree| < MAX_NODES
    ensures !Covers(t, rank, root, tree, excluded) <==>
            IsBereft(t, rank, root, excluded)
            || (recursive == [] && root > 0 && root in t && IsCut(t, rank, root, excluded))
  {
    assert forall p: int :: p !in excluded ==> (p in tree <==> p in Found(t, root, recursive));
  }

  /** Depths of all collected processes, one memo table for all. */
  method Depths(t: Table, ghost rank: int -> nat, kept: seq<int>) returns (cache: map<int, nat>)
    requires Acyclic(t, rank) && forall p :: p in kept ==> p in t
    ensures forall p :: p in kept ==> p in cache && cache[p] == Depth(t, rank, (set q | q in kept), p)
  {
    var known := set q | q in kept;
    assert forall q: int :: q in known ==> q in kept && q in t;
    cache := map[];
    for i := 0 to |kept|
      invariant forall q :: q in cache ==> cache[q] == Depth(t, rank, known, q)
      invariant forall p :: p in kept[..i] ==> p in cache
    {
      assert kept[..i + 1] == kept[..i] + [kept[i]];
      var p := kept[i];
      assert p in kept;
      var depth;
      depth, cache := DepthOf(t, rank, known, p, cache);
    }
    assert kept[..|kept|] == kept;
  }

  lemma DescendingIsDeepestFirst(s: seq<int>, t: Table, rank: int -> nat, known: set<int>, key: map<int, nat>)
    requires Acyclic(t, rank) && Descending(s, key) && Distinct(s)
    requires forall p :: p in s ==> p in t && p in known && key[p] == Depth(t, rank, known, p)
    ensures DeepestFirst(s, t)
  {
    forall i, j | 0 <= i < |s| && 0 <= j < |s| && s[i] in t && t[s[i]] == s[j] ensures i < j {
      assert s[j] in s && s[i] in s;
      ChildIsDeeper(t, rank, known, s[i]);
    }
  }

  /** `_process_tree`: `recursive` is what the recursive query of the process library returns. */
  method Snapshot(t: Table, ghost rank: int -> nat, list: seq<int>, root: int, recursive: seq<int>, excluded: set<int>)
    returns (tree: seq<int>)
    requires Acyclic(t, rank) && t.Keys == set p | p in list
    requires IsQuery(recursive, t, rank, root)
    ensures IsSnapshot(tree, t, root, recursive, excluded)
    ensures forall p :: p in tree ==> Below(t, rank, p, root)
  {
    if root <= 0 {
      return [];
    }
    var found := recursive;
    if found == [] && root in t {
      var seen, _ := Walk(t, rank, list, root);
      found := Listed(seen);
    }
    assert forall p: int :: p in found <==> p in Found(t, root, recursive);
    var kept, truncated := Collect(found, excluded);
    forall p | p in kept ensures Below(t, rank, p, root) {
      assert p in found;
      FoundIsBelow(t, rank, root, recursive, p);
    }
    var key := Depths(t, rank, kept);
    tree := SortDescending(kept, key);
    DescendingIsDeepestFirst(tree, t, rank, (set q | q in kept), key);
  }

  method Listed(s: set<int>) returns (l: seq<int>)
    ensures forall p :: p in l <==> p in s
    ensures Distinct(l) && |l| == |s|
  {
    l := [];
    var rest := s;
    while rest != {}
      invariant rest <= s && Distinct(l) && |l| + |rest| == |s|
      invariant forall p :: p in l <==> p in s - rest
    {
      HasMember(rest);
      var p :| p in rest;
      AppendDistinct(l, p);
      l := l + [p];
      rest := rest - {p};
    }
  }

  // ---------------------------------------------------------------------------
  // A table for which a short snapshot is incomplete
  // ---------------------------------------------------------------------------

  /** Root 1 with the children 2 to 257, of which 2 has the child 258. */
  function WideTable(): Table {
    map p | 1 <= p < 259 && IsBetween(1, p, 259) :: if p == 1 then 0 else if p == 258 then 2 else 1
  }

  function WideRank(p: int): nat {
    if p <= 0 then 0 else if p == 1 then 1 else if p == 258 then 3 else 2
  }

  /** The host and its parent. */
  const WIDE_HOSTS: set<int> := {1, 3}

  predicate IsBetween(low: int, p: int, high: int) {
    low <= p < high
  }

  function Interval(low: int, high: int): set<int> {
    set p | low <= p < high && IsBetween(low, p, high)
  }

  lemma {:induction false} IntervalSize(low: int, high: int)
    requires low <= high
    ensures |Interval(low, high)| == high - low
    decreases high - low
  {
    if low == high {
      IsEmpty(Interval(low, high));
    } else {
      IntervalSize(low, high - 1);
      assert Interval(low, high) == Interval(low, high - 1) + {high - 1};
    }
  }

  lemma {:induction false} DistinctFits(s: seq<int>, members: set<int>)
    requires Distinct(s) && forall p :: p in s ==> p in members
    ensures |s| <= |members|
    decreases |s|
  {
    if s != [] {
      var last, front := s[|s| - 1], s[..|s| - 1];
      assert last in s;
      forall p | p in front ensures p in members - {last} {
        assert p in s;
      }
      DistinctFits(front, members - {last});
    }
  }

  lemma WideWalk()
    ensures Acyclic(WideTable(), WideRank) && Walked(WideTable(), 1) == Interval(2, 258)
    ensures Below(WideTable(), WideRank, 258, 1)
  {
    var t := WideTable();
    IntervalSize(2, 258);
    assert forall p :: p in Within(t, 1, 1) <==> p in t && (t[p] == 1 || t[p] in Within(t, 1, 0));
    assert Within(t, 1, 1) == Interval(2, 258);
    assert 2 in Within(t, 1, 1) && 2 !in Within(t, 1, 0);
    StopsOrGoesOn(t, 1, 0);
    StopsOrGoesOn(t, 1, 1);
    assert Below(t, WideRank, 2, 1);
  }

  /** The recursive query fails, the walk is cut at 256, the host is dropped: 255 nodes, and 258 is not among them. */
  method CutSnapshotLooksShort() returns (tree: seq<int>)
    ensures |tree| == MAX_NODES - 1 && 258 !in tree && 258 !in WIDE_HOSTS
    ensures Acyclic(WideTable(), WideRank) && Below(WideTable(), WideRank, 258, 1)
  {
    WideWalk();
    var t := WideTable();
    var list := Listed(t.Keys);
    assert t.Keys == set p | p in list;
    tree := Snapshot(t, WideRank, list, 1, [], WIDE_HOSTS);
    ghost var kept := Interval(2, 258) - {3};
    IntervalSize(2, 258);
    DistinctFits(tree, kept);
    SizeOfMembers(tree, kept);
  }
}
