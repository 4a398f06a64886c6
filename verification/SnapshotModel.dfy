/** UpdateSnapshot of scheduler/internal/cache/cache.go on values: what one call makes of a
    snapshot, when the result is the whole cache, and what runs of calls and cache events
    keep. A list of NodeInfo pointers is the list of their names: the source updates a
    NodeInfo in place, so an entry always shows the contents filed under its name. */
module SnapshotModel {
  import opened Wrappers
  import opened NodeInfo
  import opened RecencyList
  import opened CacheModel
  import opened CacheConservation
  import opened CacheRuns
  import opened CacheSums

  datatype Snap = Snap(contents: map<Name, Info>, list: seq<Name>, affinity: seq<Name>, generation: int)

  const EmptySnap: Snap := Snap(map[], [], [], 0)

  predicate HasAffinity(v: Info) {
    v.withAffinity != []
  }

  /** The contents filed under a name; those of a zero NodeInfo if there are none. */
  function Existing(contents: map<Name, Info>, n: Name): Info {
    if n in contents then contents[n] else ZeroInfo
  }

  /** The contents and the two flags of the loop over the recency list. */
  datatype Scan = Scan(contents: map<Name, Info>, added: bool, flipped: bool)

  function ScanItem(sc: Scan, v: Info): Scan {
    match v.node
    case None => sc
    case Some(node) =>
      Scan(sc.contents[node.name := v],
           sc.added || node.name !in sc.contents,
           sc.flipped || HasAffinity(Existing(sc.contents, node.name)) != HasAffinity(v))
  }

  /** The walk from the head up to the first item that is not newer than the snapshot. */
  function ScanList(nodes: map<Name, Info>, order: seq<Name>, g: int, sc: Scan): Scan {
    if order == [] || order[0] !in nodes || nodes[order[0]].generation <= g then sc
    else ScanList(nodes, order[1..], g, ScanItem(sc, nodes[order[0]]))
  }

  /** The names that have contents, in order. */
  function Kept(names: seq<Name>, contents: map<Name, Info>): seq<Name> {
    if names == [] then []
    else Kept(names[..|names| - 1], contents) + (if names[|names| - 1] in contents then [names[|names| - 1]] else [])
  }

  /** The names whose contents list pods with affinity terms, in order. */
  function WithAffinity(names: seq<Name>, contents: map<Name, Info>): seq<Name> {
    if names == [] then []
    else
      var n := names[|names| - 1];
      WithAffinity(names[..|names| - 1], contents) + if n in contents && HasAffinity(contents[n]) then [n] else []
  }

  /** The lists made from an enumeration of the node tree. */
  function Relist(contents: map<Name, Info>, enumeration: seq<Name>, generation: int): Snap {
    Snap(contents, Kept(enumeration, contents), WithAffinity(enumeration, contents), generation)
  }

  /** removeDeletedNodesFromSnapshot: as many names without an item as there are names too
      many, in the order of a map range, which is any. */
  ghost predicate Deletes(nodes: map<Name, Info>, contents: map<Name, Info>, deleted: set<Name>) {
    && deleted <= contents.Keys - nodes.Keys
    && |deleted| == if |contents| > |nodes| then |contents| - |nodes| else 0
  }

  function Scanned(s: CacheState, order: seq<Name>, a: Snap): Scan {
    ScanList(s.nodes, order, a.generation, Scan(a.contents, false, false))
  }

  function HeadGeneration(nodes: map<Name, Info>, order: seq<Name>, default: int): int {
    if order != [] && order[0] in nodes then nodes[order[0]].generation else default
  }

  /** Deleting names, and making lists anew where needed. */
  function Made(sc: Scan, enumeration: seq<Name>, a: Snap, deleted: set<Name>, g: int): Snap {
    var contents := sc.contents - deleted;
    if sc.added || deleted != {} then Relist(contents, enumeration, g)
    else Snap(contents, a.list, if sc.flipped then WithAffinity(a.list, contents) else a.affinity, g)
  }

  /** What is left of UpdateSnapshot after its loop, for a tree of `treeSize` nodes, with the
      check at the end. */
  function Completed(
    sc: Scan, treeSize: nat, enumeration: seq<Name>, a: Snap, deleted: set<Name>, g: int): (Snap, bool)
  {
    var b := Made(sc, enumeration, a, deleted, g);
    if |b.list| == treeSize then (b, true) else (Relist(b.contents, enumeration, g), false)
  }

  /** UpdateSnapshot, with the recency list, an enumeration of the tree and the names it
      deletes; false is the source's error for an inconsistent snapshot. */
  function Refresh(s: CacheState, order: seq<Name>, enumeration: seq<Name>, a: Snap, deleted: set<Name>): (Snap, bool) {
    Completed(Scanned(s, order, a), |s.tree|, enumeration, a, deleted, HeadGeneration(s.nodes, order, a.generation))
  }

  // ---------- The walk finds every change ----------

  /** The nodes that changed after generation g. */
  ghost function Changed(nodes: map<Name, Info>, g: int): set<Name> {
    set n | n in nodes && Live(nodes, n) && nodes[n].generation > g
  }

  ghost function Overlaid(contents: map<Name, Info>, nodes: map<Name, Info>, g: int): map<Name, Info> {
    map n | n in contents.Keys + Changed(nodes, g) :: if n in Changed(nodes, g) then nodes[n] else contents[n]
  }

  ghost predicate Adds(contents: map<Name, Info>, nodes: map<Name, Info>, g: int) {
    exists n :: n in Changed(nodes, g) && n !in contents
  }

  ghost predicate Flips(contents: map<Name, Info>, nodes: map<Name, Info>, g: int) {
    exists n :: n in Changed(nodes, g) && HasAffinity(Existing(contents, n)) != HasAffinity(nodes[n])
  }

  lemma OneItem(nodes: map<Name, Info>, n: Name, g: int, sc: Scan)
    requires n in nodes && Named(nodes) && nodes[n].generation > g
    ensures var rest, next := nodes - {n}, ScanItem(sc, nodes[n]);
      && Overlaid(next.contents, rest, g) == Overlaid(sc.contents, nodes, g)
      && (next.added || Adds(next.contents, rest, g) <==> sc.added || Adds(sc.contents, nodes, g))
      && (next.flipped || Flips(next.contents, rest, g) <==> sc.flipped || Flips(sc.contents, nodes, g))
  {
    assert Changed(nodes, g) == Changed(nodes - {n}, g) + if nodes[n].node.Some? then {n} else {};
  }

  /** Stopping at the first old item loses no change. */
  lemma {:induction false} ScanFindsChanges(
    all: map<Name, Info>, nodes: map<Name, Info>, order: seq<Name>, g: int, sc: Scan)
    requires Listed(nodes, order) && Named(nodes)
    requires forall n :: n in nodes ==> n in all && all[n] == nodes[n]
    ensures ScanList(all, order, g, sc).contents == Overlaid(sc.contents, nodes, g)
    ensures ScanList(all, order, g, sc).added <==> sc.added || Adds(sc.contents, nodes, g)
    ensures ScanList(all, order, g, sc).flipped <==> sc.flipped || Flips(sc.contents, nodes, g)
    decreases |order|
  {
    if order == [] || nodes[order[0]].generation <= g {
      assert Changed(nodes, g) == {};
    } else {
      ScanFindsChanges(all, nodes - {order[0]}, order[1..], g, ScanItem(sc, nodes[order[0]]));
      OneItem(nodes, order[0], g, sc);
    }
  }

  // ---------- What a snapshot keeps between calls ----------

  /** Every live node that has not changed since the snapshot has its contents in it; the
      lists are duplicate-free lists of its names. */
  ghost predicate Fresh(nodes: map<Name, Info>, a: Snap) {
    forall n :: Live(nodes, n) && nodes[n].generation <= a.generation ==> n in a.contents && a.contents[n] == nodes[n]
  }

  ghost predicate WellFormed(a: Snap) {
    NoDup(a.list) && Elements(a.list) <= a.contents.Keys && a.affinity == WithAffinity(a.list, a.contents)
  }

  ghost predicate SnapInv(s: CacheState, a: Snap) {
    a.generation <= s.generation && Fresh(s.nodes, a) && WellFormed(a)
  }

  /** The list names all of the snapshot. */
  ghost predicate Complete(a: Snap) {
    Elements(a.list) == a.contents.Keys
  }

  ghost predicate NoGhosts(nodes: map<Name, Info>) {
    forall n :: n in nodes ==> Live(nodes, n)
  }

  ghost function Ghosts(nodes: map<Name, Info>): set<Name> {
    set n | n in nodes && nodes[n].node.None?
  }

  ghost predicate Enumerates(enumeration: seq<Name>, tree: set<Name>) {
    NoDup(enumeration) && Elements(enumeration) == tree
  }

  /** The arguments under which a call runs: the cache's list, an enumeration of its tree,
      and a choice of names to delete. */
  ghost predicate Callable(s: CacheState, order: seq<Name>, enumeration: seq<Name>, a: Snap, deleted: set<Name>) {
    && Listed(s.nodes, order) && Enumerates(enumeration, s.tree)
    && Deletes(s.nodes, Scanned(s, order, a).contents, deleted)
  }

  // ---------- Lists ----------

  lemma {:induction false} KeptNames(names: seq<Name>, contents: map<Name, Info>)
    requires NoDup(names)
    ensures NoDup(Kept(names, contents))
    ensures Elements(Kept(names, contents)) == Elements(names) * contents.Keys
  {
    if names != [] {
      LastElement(names);
      KeptNames(names[..|names| - 1], contents);
      var k, n := Kept(names[..|names| - 1], contents), names[|names| - 1];
      if n in contents { AppendElement(k, n); } else { assert k + [] == k; }
    }
  }

  lemma {:induction false} KeptAll(names: seq<Name>, contents: map<Name, Info>)
    requires Elements(names) <= contents.Keys
    ensures Kept(names, contents) == names
  {
    if names != [] {
      var front, n := names[..|names| - 1], names[|names| - 1];
      assert n in Elements(names);
      assert forall i :: 0 <= i < |front| ==> front[i] == names[i];
      assert Elements(front) <= Elements(names);
      KeptAll(front, contents);
    }
  }

  /** Names without contents have no pods with affinity terms to list. */
  lemma {:induction false} AffinityOfKept(names: seq<Name>, contents: map<Name, Info>)
    ensures WithAffinity(Kept(names, contents), contents) == WithAffinity(names, contents)
  {
    if names != [] {
      var front := names[..|names| - 1];
      AffinityOfKept(front, contents);
      var k, n := Kept(front, contents), names[|names| - 1];
      if n in contents {
        assert (k + [n])[..|k|] == k && (k + [n])[|k|] == n;
      } else {
        assert k + [] == k && WithAffinity(front, contents) + [] == WithAffinity(front, contents);
      }
    }
  }

  lemma AffinityNext(names: seq<Name>, n: Name, contents: map<Name, Info>)
    ensures WithAffinity(names + [n], contents)
         == if n in contents && HasAffinity(contents[n]) then WithAffinity(names, contents) + [n]
           else WithAffinity(names, contents)
  {
    assert (names + [n])[..|names|] == names;
    assert WithAffinity(names, contents) + [] == WithAffinity(names, contents);
  }

  lemma KeptNext(names: seq<Name>, n: Name, contents: map<Name, Info>)
    ensures Kept(names + [n], contents) == if n in contents then Kept(names, contents) + [n] else Kept(names, contents)
  {
    assert (names + [n])[..|names|] == names;
    assert Kept(names, contents) + [] == Kept(names, contents);
  }

  lemma {:induction false} AffinityDependsOnFlags(names: seq<Name>, a: map<Name, Info>, b: map<Name, Info>)
    requires forall n :: n in Elements(names) ==> n in a && n in b && (HasAffinity(a[n]) <==> HasAffinity(b[n]))
    ensures WithAffinity(names, a) == WithAffinity(names, b)
  {
    if names != [] {
      var front := names[..|names| - 1];
      assert names[|names| - 1] in Elements(names);
      assert forall i :: 0 <= i < |front| ==> front[i] == names[i];
      assert Elements(front) <= Elements(names);
      AffinityDependsOnFlags(front, a, b);
    }
  }

  lemma {:induction false} LengthIsCardinality(s: seq<Name>)
    requires NoDup(s)
    ensures |s| == |Elements(s)|
  {
    if s != [] {
      LastElement(s);
      LengthIsCardinality(s[..|s| - 1]);
    }
  }

  lemma RelistIsWellFormed(contents: map<Name, Info>, enumeration: seq<Name>, generation: int)
    requires NoDup(enumeration)
    ensures WellFormed(Relist(contents, enumeration, generation))
  {
    KeptNames(enumeration, contents);
    AffinityOfKept(enumeration, contents);
  }

  // ---------- One call ----------

  lemma SoundTreeAgrees(s: CacheState)
    requires Sound(s)
    ensures TreeAgrees(s)
  {
  }

  /** A walk that starts with contents adds a name exactly when a name of the tree has none. */
  lemma AddsIff(s: CacheState, a: Snap)
    requires TreeAgrees(s) && Fresh(s.nodes, a)
    ensures Adds(a.contents, s.nodes, a.generation) <==> !(s.tree <= a.contents.Keys)
  {
    forall n | n in s.tree && n !in a.contents ensures Adds(a.contents, s.nodes, a.generation) {
      assert n in Changed(s.nodes, a.generation);
    }
  }

  /** The contents after the walk: every live node up to date, and the rest as it was. */
  lemma OverlaidContents(s: CacheState, a: Snap)
    requires TreeAgrees(s) && Fresh(s.nodes, a)
    ensures var o := Overlaid(a.contents, s.nodes, a.generation);
      && o.Keys == a.contents.Keys + s.tree
      && (forall n :: n in s.tree ==> o[n] == s.nodes[n])
      && (forall n :: n in a.contents && n !in s.tree ==> o[n] == a.contents[n])
      && (!Flips(a.contents, s.nodes, a.generation) ==>
           forall n :: n in a.contents ==> (HasAffinity(o[n]) <==> HasAffinity(a.contents[n])))
  {
  }

  lemma ScannedContents(s: CacheState, order: seq<Name>, a: Snap)
    requires TreeAgrees(s) && Listed(s.nodes, order) && Fresh(s.nodes, a)
    ensures var sc := Scanned(s, order, a);
      && sc.contents.Keys == a.contents.Keys + s.tree
      && (forall n :: n in s.tree ==> sc.contents[n] == s.nodes[n])
      && (forall n :: n in a.contents && n !in s.tree ==> sc.contents[n] == a.contents[n])
      && (sc.added <==> !(s.tree <= a.contents.Keys))
      && (!sc.flipped ==> forall n :: n in a.contents ==> (HasAffinity(sc.contents[n]) <==> HasAffinity(a.contents[n])))
  {
    ScanFindsChanges(s.nodes, s.nodes, order, a.generation, Scan(a.contents, false, false));
    AddsIff(s, a);
    OverlaidContents(s, a);
  }

  /** Every call leaves the names of the tree, with the contents of the cache, and of the old
      names those that were not deleted. */
  lemma RefreshContents(s: CacheState, order: seq<Name>, enumeration: seq<Name>, a: Snap, deleted: set<Name>)
    requires TreeAgrees(s) && Fresh(s.nodes, a) && Callable(s, order, enumeration, a, deleted)
    ensures var b := Refresh(s, order, enumeration, a, deleted).0;
      && b.contents.Keys == (a.contents.Keys + s.tree) - deleted
      && deleted !! s.tree
      && (forall n :: n in s.tree ==> b.contents[n] == s.nodes[n])
  {
    ScannedContents(s, order, a);
    CompletedContents(Scanned(s, order, a), |s.tree|, enumeration, a, deleted,
      HeadGeneration(s.nodes, order, a.generation));
  }

  lemma CompletedContents(sc: Scan, treeSize: nat, enumeration: seq<Name>, a: Snap, deleted: set<Name>, g: int)
    ensures Completed(sc, treeSize, enumeration, a, deleted, g).0.contents == sc.contents - deleted
  {
  }

  /** The lists after a call. */
  lemma CompletedIsWellFormed(sc: Scan, treeSize: nat, enumeration: seq<Name>, a: Snap, deleted: set<Name>, g: int)
    requires WellFormed(a) && NoDup(enumeration) && a.contents.Keys <= sc.contents.Keys
    requires !sc.flipped ==> forall n :: n in a.contents ==>
      (HasAffinity(sc.contents[n]) <==> HasAffinity(a.contents[n]))
    ensures WellFormed(Completed(sc, treeSize, enumeration, a, deleted, g).0)
  {
    RelistIsWellFormed(sc.contents - deleted, enumeration, g);
    if !sc.added && deleted == {} {
      assert sc.contents - deleted == sc.contents;
      if !sc.flipped { AffinityDependsOnFlags(a.list, a.contents, sc.contents); }
    }
  }

  lemma HeadBounds(s: CacheState, order: seq<Name>, a: Snap)
    requires Bounded(s) && Listed(s.nodes, order) && a.generation <= s.generation
    ensures HeadGeneration(s.nodes, order, a.generation) <= s.generation
  {
  }

  /** Every call, with or without ghosts, leaves a snapshot that the next one can build on. */
  lemma RefreshKeepsInv(s: CacheState, order: seq<Name>, enumeration: seq<Name>, a: Snap, deleted: set<Name>)
    requires TreeAgrees(s) && Bounded(s) && SnapInv(s, a) && Callable(s, order, enumeration, a, deleted)
    ensures SnapInv(s, Refresh(s, order, enumeration, a, deleted).0)
  {
    HeadBounds(s, order, a);
    RefreshContents(s, order, enumeration, a, deleted);
    ScannedContents(s, order, a);
    CompletedIsWellFormed(Scanned(s, order, a), |s.tree|, enumeration, a, deleted,
      HeadGeneration(s.nodes, order, a.generation));
  }

  lemma {:induction false} Split(x: set<Name>, y: set<Name>)
    ensures |x| == |x * y| + |x - y|
  {
    assert x == x * y + (x - y);
  }

  /** How many names are deleted, from old names `k`, a tree and ghosts. */
  lemma DeletedCount(k: set<Name>, tree: set<Name>, ghosts: set<Name>, d: nat)
    requires tree !! ghosts
    requires d == if |k + tree| > |tree + ghosts| then |k + tree| - |tree + ghosts| else 0
    ensures var stale, unseen := |k - (tree + ghosts)|, |ghosts - k|;
      d == if stale > unseen then stale - unseen else 0
  {
    Split(k + tree, tree + ghosts);
    Split(ghosts, k);
    assert (k + tree) - (tree + ghosts) == k - (tree + ghosts);
    assert (k + tree) * (tree + ghosts) == tree + ghosts * k;
  }

  lemma KeysIff(k: set<Name>, tree: set<Name>, ghosts: set<Name>, deleted: set<Name>)
    requires tree !! ghosts
    requires deleted <= k - (tree + ghosts)
    requires |deleted| == if |k + tree| > |tree + ghosts| then |k + tree| - |tree + ghosts| else 0
    ensures (k + tree) - deleted == tree <==> k !! ghosts && (k <= tree + ghosts || ghosts == {})
  {
    var stale := k - (tree + ghosts);
    DeletedCount(k, tree, ghosts, |deleted|);
    assert (k + tree) - deleted == tree + k * ghosts + (stale - deleted);
    if |deleted| == |stale| { SubsetOfSameSize(deleted, stale); }
    if k !! ghosts { assert ghosts - k == ghosts; }
  }

  /** A call leaves exactly the nodes of the tree if and only if no ghost had contents in the
      snapshot and, besides, no deleted node did or there are no ghosts at all: for each ghost
      the pruning test lets one deleted node pass. */
  lemma RefreshKeysIff(s: CacheState, order: seq<Name>, enumeration: seq<Name>, a: Snap, deleted: set<Name>)
    requires TreeAgrees(s) && Fresh(s.nodes, a) && Callable(s, order, enumeration, a, deleted)
    ensures Refresh(s, order, enumeration, a, deleted).0.contents.Keys == s.tree <==>
      a.contents.Keys !! Ghosts(s.nodes) && (a.contents.Keys <= s.nodes.Keys || Ghosts(s.nodes) == {})
  {
    TreeAndGhosts(s);
    ScannedContents(s, order, a);
    RefreshContents(s, order, enumeration, a, deleted);
    KeysIff(a.contents.Keys, s.tree, Ghosts(s.nodes), deleted);
  }

  lemma TreeAndGhosts(s: CacheState)
    requires TreeAgrees(s)
    ensures s.nodes.Keys == s.tree + Ghosts(s.nodes) && s.tree !! Ghosts(s.nodes)
  {
  }

  lemma SubsetOfSameSize(x: set<Name>, y: set<Name>)
    requires x <= y && |x| == |y|
    ensures x == y
  {
    assert y == x + (y - x);
  }

  /** After a call on a snapshot whose list names all of it, the list enumerates the tree,
      ghosts or not. */
  lemma RefreshListsTheTree(s: CacheState, order: seq<Name>, enumeration: seq<Name>, a: Snap, deleted: set<Name>)
    requires TreeAgrees(s) && SnapInv(s, a) && Complete(a) && Callable(s, order, enumeration, a, deleted)
    ensures var b := Refresh(s, order, enumeration, a, deleted).0;
      NoDup(b.list) && Elements(b.list) == s.tree
  {
    hide Listed, WithAffinity, ScanList, ItemHolds;
    RefreshContents(s, order, enumeration, a, deleted);
    ScannedContents(s, order, a);
    var sc := Scanned(s, order, a);
    KeptAll(enumeration, sc.contents - deleted);
    if !sc.added && deleted == {} && |a.list| == |s.tree| {
      LengthIsCardinality(a.list);
      SubsetOfSameSize(s.tree, Elements(a.list));
    }
  }

  lemma RefreshHasContents(s: CacheState, order: seq<Name>, enumeration: seq<Name>, a: Snap, deleted: set<Name>)
    requires TreeAgrees(s) && NoGhosts(s.nodes) && Fresh(s.nodes, a) && Callable(s, order, enumeration, a, deleted)
    ensures Refresh(s, order, enumeration, a, deleted).0.contents == s.nodes
    ensures s.nodes.Keys == s.tree
    ensures (a.contents.Keys + s.tree) - deleted == s.tree
  {
    assert Ghosts(s.nodes) == {};
    TreeAndGhosts(s);
    RefreshKeysIff(s, order, enumeration, a, deleted);
    RefreshContents(s, order, enumeration, a, deleted);
    SameMap(Refresh(s, order, enumeration, a, deleted).0.contents, s.nodes);
  }

  lemma SameMap(a: map<Name, Info>, b: map<Name, Info>)
    requires a.Keys == b.Keys && forall n :: n in b.Keys ==> a[n] == b[n]
    ensures a == b
  {
  }

  lemma RefreshIsCache(s: CacheState, order: seq<Name>, enumeration: seq<Name>, a: Snap, deleted: set<Name>)
    requires TreeAgrees(s) && NoGhosts(s.nodes)
    requires SnapInv(s, a) && Complete(a) && Callable(s, order, enumeration, a, deleted)
    ensures Refresh(s, order, enumeration, a, deleted).1
    ensures Refresh(s, order, enumeration, a, deleted).0.contents == s.nodes
    ensures s.nodes.Keys == s.tree
  {
    RefreshHasContents(s, order, enumeration, a, deleted);
    RefreshSucceedsIff(s, order, enumeration, a, deleted);
    LengthIsCardinality(a.list);
    if s.tree <= a.contents.Keys { EqualIfNotLarger(s.tree, a.contents.Keys); }
  }

  /** A set that is no larger than one of its subsets is that subset. */
  lemma EqualIfNotLarger(x: set<Name>, y: set<Name>)
    requires x <= y
    ensures y + x == y
    ensures |y| <= |x| ==> x == y
  {
    assert y + x == y;
    assert y == x + (y - x);
    assert |y| == |x| + |y - x|;
  }

  /** Incremental equals full: if no cached item is a ghost when UpdateSnapshot is called, it
      succeeds, and the snapshot is the cache: the same names with the same contents, listed
      once each, and the affinity list is their filter. */
  lemma RefreshEqualsCache(s: CacheState, order: seq<Name>, enumeration: seq<Name>, a: Snap, deleted: set<Name>)
    requires TreeAgrees(s) && Bounded(s) && NoGhosts(s.nodes)
    requires SnapInv(s, a) && Complete(a) && Callable(s, order, enumeration, a, deleted)
    ensures var (b, ok) := Refresh(s, order, enumeration, a, deleted);
      && ok && b.contents == s.nodes
      && NoDup(b.list) && Elements(b.list) == s.nodes.Keys
      && b.affinity == WithAffinity(b.list, s.nodes)
      && SnapInv(s, b) && Complete(b)
  {
    RefreshIsCache(s, order, enumeration, a, deleted);
    RefreshListsTheTree(s, order, enumeration, a, deleted);
    RefreshKeepsInv(s, order, enumeration, a, deleted);
  }

  /** The affinity list has, in the order of the list, each name whose contents list a pod with
      affinity terms. */
  lemma {:induction false} AffinityIsFilter(names: seq<Name>, contents: map<Name, Info>)
    requires NoDup(names)
    ensures NoDup(WithAffinity(names, contents))
    ensures forall n :: n in WithAffinity(names, contents) <==>
      n in names && n in contents && contents[n].withAffinity != []
    ensures forall m: nat :: m <= |names| ==> WithAffinity(names[..m], contents) <= WithAffinity(names, contents)
  {
    if names != [] {
      var front, n := names[..|names| - 1], names[|names| - 1];
      AffinityIsFilter(front, contents);
      assert names == front + [n];
      AffinityNext(front, n, contents);
      assert n !in front;
      forall m: nat | m <= |names| ensures WithAffinity(names[..m], contents) <= WithAffinity(names, contents) {
        if m < |names| { assert names[..m] == front[..m]; } else { assert names[..m] == names; }
      }
    }
  }

  /** A call that finds everything up to date walks no further than the head of the list and
      leaves the snapshot as it is; such is any call right after one without ghosts. */
  lemma SecondUpdateChangesNothing(
    s: CacheState, order: seq<Name>, enumeration: seq<Name>, a: Snap, deleted: set<Name>, again: seq<Name>)
    requires TreeAgrees(s) && Bounded(s) && NoGhosts(s.nodes)
    requires SnapInv(s, a) && Complete(a) && Callable(s, order, enumeration, a, deleted) && Enumerates(again, s.tree)
    ensures var b := Refresh(s, order, enumeration, a, deleted).0;
      && (forall n :: n in s.nodes ==> s.nodes[n].generation <= b.generation)
      && Callable(s, order, again, b, {}) && Refresh(s, order, again, b, {}) == (b, true)
  {
    hide *;
    var b := Refresh(s, order, enumeration, a, deleted).0;
    RefreshEqualsCache(s, order, enumeration, a, deleted);
    RefreshIsCache(s, order, enumeration, a, deleted);
    LengthIsCardinality(b.list);
    RefreshGeneration(s, order, enumeration, a, deleted);
    UpToDateStays(s, order, again, b);
  }

  lemma HeadOfListed(nodes: map<Name, Info>, order: seq<Name>)
    requires Listed(nodes, order)
    ensures order == [] <==> nodes == map[]
    ensures order != [] ==>
      order[0] in nodes && forall n :: n in nodes ==> nodes[n].generation <= nodes[order[0]].generation
  {
  }

  lemma RefreshGeneration(s: CacheState, order: seq<Name>, enumeration: seq<Name>, a: Snap, deleted: set<Name>)
    requires Callable(s, order, enumeration, a, deleted)
    ensures var b := Refresh(s, order, enumeration, a, deleted).0;
      && (forall n :: n in s.nodes ==> s.nodes[n].generation <= b.generation)
      && Listed(s.nodes, order) && HeadGeneration(s.nodes, order, b.generation) == b.generation
  {
    hide WithAffinity, Listed, Kept, Scanned;
    HeadOfListed(s.nodes, order);
  }

  lemma UpToDateStays(s: CacheState, order: seq<Name>, enumeration: seq<Name>, b: Snap)
    requires Listed(s.nodes, order) && Enumerates(enumeration, s.tree) && b.contents == s.nodes
    requires |b.list| == |s.tree| && HeadGeneration(s.nodes, order, b.generation) == b.generation
    requires forall n :: n in s.nodes ==> s.nodes[n].generation <= b.generation
    ensures Callable(s, order, enumeration, b, {}) && Refresh(s, order, enumeration, b, {}) == (b, true)
  {
    hide Listed, Scanned;
    NothingNewer(s, order, b);
    NoneDeleted(s.nodes, b.contents);
    assert b.contents - {} == b.contents;
  }

  lemma NothingNewer(s: CacheState, order: seq<Name>, b: Snap)
    requires forall n :: n in s.nodes ==> s.nodes[n].generation <= b.generation
    ensures Scanned(s, order, b) == Scan(b.contents, false, false)
  {
  }

  /** After any call, whatever it returns, the list is as long as the tree. */
  lemma RefreshListLength(s: CacheState, order: seq<Name>, enumeration: seq<Name>, a: Snap, deleted: set<Name>)
    requires TreeAgrees(s) && SnapInv(s, a) && Callable(s, order, enumeration, a, deleted)
    ensures |Refresh(s, order, enumeration, a, deleted).0.list| == |s.tree|
  {
    RefreshContents(s, order, enumeration, a, deleted);
    KeptAll(enumeration, Refresh(s, order, enumeration, a, deleted).0.contents);
    LengthIsCardinality(enumeration);
  }

  /** A call succeeds exactly when it finds a new node, has more names than there are items, or
      the old list has as many names as the tree. */
  lemma RefreshSucceedsIff(s: CacheState, order: seq<Name>, enumeration: seq<Name>, a: Snap, deleted: set<Name>)
    requires TreeAgrees(s) && SnapInv(s, a) && Callable(s, order, enumeration, a, deleted)
    ensures Refresh(s, order, enumeration, a, deleted).1 <==>
      || !(s.tree <= a.contents.Keys)
      || |a.contents.Keys + s.tree| > |s.nodes|
      || |a.list| == |s.tree|
  {
    ScannedContents(s, order, a);
    RefreshContents(s, order, enumeration, a, deleted);
    var sc := Scanned(s, order, a);
    assert |sc.contents| == |sc.contents.Keys|;
    KeptAll(enumeration, sc.contents - deleted);
    LengthIsCardinality(enumeration);
  }

  // ---------- Runs of cache events and snapshot updates ----------

  datatype Action =
    | Do(event: Event)
    | Call(order: seq<Name>, enumeration: seq<Name>, deleted: set<Name>)

  ghost function Act(s: CacheState, a: Snap, x: Action): (CacheState, Snap) {
    match x
    case Do(e) => (Step(s, e).0, a)
    case Call(order, enumeration, deleted) => (s, Refresh(s, order, enumeration, a, deleted).0)
  }

  ghost function Play(s: CacheState, a: Snap, xs: seq<Action>): (CacheState, Snap) {
    if xs == [] then (s, a)
    else
      var (t, b) := Play(s, a, xs[..|xs| - 1]);
      Act(t, b, xs[|xs| - 1])
  }

  /** Node updates name nodes of the tree or unknown ones, and no item is a ghost when a snapshot
      is updated. */
  ghost predicate Allowed(s: CacheState, a: Snap, x: Action) {
    match x
    case Do(e) => NodeExpected(s, e)
    case Call(order, enumeration, deleted) => NoGhosts(s.nodes) && Callable(s, order, enumeration, a, deleted)
  }

  ghost predicate AllowedRun(s: CacheState, a: Snap, xs: seq<Action>) {
    xs == [] ||
    (AllowedRun(s, a, xs[..|xs| - 1]) &&
     var (t, b) := Play(s, a, xs[..|xs| - 1]); Allowed(t, b, xs[|xs| - 1]))
  }

  lemma ActKeeps(s: CacheState, a: Snap, x: Action)
    requires RunInv(s) && SnapInv(s, a) && Complete(a) && Allowed(s, a, x)
    ensures var (t, b) := Act(s, a, x); RunInv(t) && SnapInv(t, b) && Complete(b)
  {
    match x
    case Do(e) =>
      StepKeepsRunInv(s, e);
      StepTouches(s, e);
    case Call(order, enumeration, deleted) =>
      RefreshEqualsCache(s, order, enumeration, a, deleted);
  }

  lemma {:induction false} PlayKeeps(s: CacheState, a: Snap, xs: seq<Action>)
    requires RunInv(s) && SnapInv(s, a) && Complete(a) && AllowedRun(s, a, xs)
    ensures var (t, b) := Play(s, a, xs); RunInv(t) && SnapInv(t, b) && Complete(b)
  {
    if xs != [] {
      PlayKeeps(s, a, xs[..|xs| - 1]);
      var (t, b) := Play(s, a, xs[..|xs| - 1]);
      ActKeeps(t, b, xs[|xs| - 1]);
    }
  }

  /** In every run from an empty cache and an empty snapshot, every UpdateSnapshot succeeds
      and leaves the whole cache in the snapshot. */
  lemma EveryUpdateSucceeds(xs: seq<Action>, order: seq<Name>, enumeration: seq<Name>, deleted: set<Name>)
    requires AllowedRun(EmptyCache, EmptySnap, xs)
    requires var (s, a) := Play(EmptyCache, EmptySnap, xs);
      NoGhosts(s.nodes) && Callable(s, order, enumeration, a, deleted)
    ensures var (s, a) := Play(EmptyCache, EmptySnap, xs);
      var (b, ok) := Refresh(s, order, enumeration, a, deleted);
      && ok && b.contents == s.nodes
      && NoDup(b.list) && Elements(b.list) == s.nodes.Keys
      && b.affinity == WithAffinity(b.list, s.nodes)
  {
    EmptyCacheRunInv();
    assert Elements(EmptySnap.list) == {};
    PlayKeeps(EmptyCache, EmptySnap, xs);
    var (s, a) := Play(EmptyCache, EmptySnap, xs);
    RefreshEqualsCache(s, order, enumeration, a, deleted);
  }

  /** The pods and the Node objects of the cached items. */
  ghost predicate CachedObjects(nodes: map<Name, Info>, pods: seq<Pod>, objects: seq<Node>) {
    && DistinctUids(pods)
    && (forall p :: p in pods <==> p.nodeName in nodes && p in nodes[p.nodeName].pods)
    && (forall m :: m in objects <==> m.name in nodes && nodes[m.name].node == Some(m))
  }

  /** The contents are those a full rebuild from these objects computes; the used ports only
      where `ports` is set. */
  ghost predicate IsRebuild(contents: map<Name, Info>, pods: seq<Pod>, objects: seq<Node>, ports: bool) {
    && contents.Keys == CreateNodeInfoMap(pods, objects).Keys
    && forall n :: n in contents ==> SameContents(contents[n], CreateNodeInfoMap(pods, objects)[n], ports)
  }

  /** The incremental update agrees with the full rebuild from the cached pods and Nodes. */
  lemma UpdateEqualsRebuild(
    s: CacheState, order: seq<Name>, enumeration: seq<Name>, a: Snap, deleted: set<Name>,
    pods: seq<Pod>, objects: seq<Node>, ports: bool)
    requires Inv(s) && ItemsExact(s.nodes, s.podStates, ports) && NoGhosts(s.nodes)
    requires SnapInv(s, a) && Complete(a) && Callable(s, order, enumeration, a, deleted)
    requires CachedObjects(s.nodes, pods, objects)
    ensures IsRebuild(Refresh(s, order, enumeration, a, deleted).0.contents, pods, objects, ports)
  {
    SoundTreeAgrees(s);
    RefreshEqualsCache(s, order, enumeration, a, deleted);
    CacheEqualsRebuild(s, pods, objects, ports);
  }

  /** The cache events of a run. */
  ghost function EventsOf(xs: seq<Action>): seq<Event> {
    if xs == [] then []
    else
      var events, x := EventsOf(xs[..|xs| - 1]), xs[|xs| - 1];
      if x.Do? then events + [x.event] else events
  }

  /** Snapshot updates do not change the cache. */
  lemma {:induction false} PlayRuns(s: CacheState, a: Snap, xs: seq<Action>)
    ensures Play(s, a, xs).0 == Run(s, EventsOf(xs))
  {
    if xs != [] {
      var front, x := xs[..|xs| - 1], xs[|xs| - 1];
      PlayRuns(s, a, front);
      if x.Do? {
        var es := EventsOf(xs);
        assert es[..|es| - 1] == EventsOf(front);
      }
    }
  }

  /** In every run from an empty cache and an empty snapshot in which, besides, updates pass
      expected versions of pods that ask for the same, every UpdateSnapshot leaves what a full
      rebuild from the pods and Nodes in the cache computes. */
  lemma EveryUpdateEqualsRebuild(
    xs: seq<Action>, order: seq<Name>, enumeration: seq<Name>, deleted: set<Name>,
    pods: seq<Pod>, objects: seq<Node>, ports: bool)
    requires AllowedRun(EmptyCache, EmptySnap, xs)
    requires ExpectedRun(EmptyCache, EventsOf(xs)) && AgreeingRun(EmptyCache, EventsOf(xs), ports)
    requires var (s, a) := Play(EmptyCache, EmptySnap, xs);
      NoGhosts(s.nodes) && Callable(s, order, enumeration, a, deleted) && CachedObjects(s.nodes, pods, objects)
    ensures var (s, a) := Play(EmptyCache, EmptySnap, xs);
      IsRebuild(Refresh(s, order, enumeration, a, deleted).0.contents, pods, objects, ports)
  {
    EmptyCacheInv();
    EmptyCacheRunInv();
    assert Elements(EmptySnap.list) == {};
    PlayKeeps(EmptyCache, EmptySnap, xs);
    PlayRuns(EmptyCache, EmptySnap, xs);
    RunKeepsInv(EmptyCache, EventsOf(xs));
    RunConserves(EmptyCache, EventsOf(xs), ports);
    var (s, a) := Play(EmptyCache, EmptySnap, xs);
    UpdateEqualsRebuild(s, order, enumeration, a, deleted, pods, objects, ports);
  }

  /** The names and, for each, the Node, pods, sums and ports of a full rebuild. */
  ghost predicate HasRebuiltSums(contents: map<Name, Info>, pods: seq<Pod>, objects: seq<Node>, ports: bool) {
    && contents.Keys == CreateNodeInfoMap(pods, objects).Keys
    && forall n :: n in contents ==> SameSums(contents[n], CreateNodeInfoMap(pods, objects)[n], ports)
  }

  lemma CacheHasRebuiltSums(s: CacheState, known: set<Pod>, pods: seq<Pod>, objects: seq<Node>, ports: bool)
    requires TreeAgrees(s) && NoGhosts(s.nodes) && ItemsKnown(s.nodes, known) && AllSums(s.nodes, ports)
    requires CachedMultiset(s.nodes, pods, objects)
    ensures HasRebuiltSums(s.nodes, pods, objects, ports)
  {
    hide Sums, SameSums, Rebuilt;
    var r := CreateNodeInfoMap(pods, objects);
    forall n | n in s.nodes ensures n in r {
      assert s.nodes[n].node.value in objects;
    }
    forall n | n in r ensures n in s.nodes {
      if p :| p in pods && p.nodeName == n { assert multiset(pods)[p] > 0; }
    }
    forall n | n in s.nodes ensures SameSums(s.nodes[n], r[n], ports) {
      ItemHasRebuiltSums(s, known, pods, objects, n, ports);
    }
  }

  /** Whatever versions the updates of a run pass: as long as those of one pod ask for the same,
      every UpdateSnapshot leaves the pods and the sums that a full rebuild has, from the pods
      of the cache, each as often as it is there. */
  lemma EveryUpdateHasRebuiltSums(
    xs: seq<Action>, order: seq<Name>, enumeration: seq<Name>, deleted: set<Name>,
    pods: seq<Pod>, objects: seq<Node>, ports: bool)
    requires AllowedRun(EmptyCache, EmptySnap, xs) && EqualDemands(Versions(EventsOf(xs)), ports)
    requires ports ==> NoSharedPortsDuring(EmptyCache, EventsOf(xs))
    requires var (s, a) := Play(EmptyCache, EmptySnap, xs);
      NoGhosts(s.nodes) && Callable(s, order, enumeration, a, deleted) && CachedMultiset(s.nodes, pods, objects)
    ensures var (s, a) := Play(EmptyCache, EmptySnap, xs);
      HasRebuiltSums(Refresh(s, order, enumeration, a, deleted).0.contents, pods, objects, ports)
  {
    var es := EventsOf(xs);
    EmptyCacheRunInv();
    assert Elements(EmptySnap.list) == {};
    PlayKeeps(EmptyCache, EmptySnap, xs);
    PlayRuns(EmptyCache, EmptySnap, xs);
    KnownRunAgrees(EmptyCache, es, Versions(es), ports);
    RunKeepsSums(EmptyCache, es, ports);
    var (s, a) := Play(EmptyCache, EmptySnap, xs);
    RefreshEqualsCache(s, order, enumeration, a, deleted);
    CacheHasRebuiltSums(s, Versions(es), pods, objects, ports);
  }

  /** An empty cache in which a node arrives. */
  ghost function OneNode(x: Name): CacheState {
    Step(EmptyCache, NodeAdd(Node(x, map[], 0))).0
  }

  lemma OneNodeIs(x: Name)
    ensures var s := OneNode(x);
      && s.nodes.Keys == {x} && s.tree == {x} && s.podStates == map[] && s.assumed == {} && s.generation == 2
      && s.nodes[x] == SetNodeOf(ZeroInfo.(generation := 1), Node(x, map[], 0), 2)
  {
  }

  /** Then a pod arrives at an unknown node, which makes a ghost, and the node goes. */
  ghost function GhostOnly(x: Name, pod: Pod): CacheState {
    Step(Step(OneNode(x), Add(pod)).0, NodeRemove(x)).0
  }

  lemma GhostOnlyIs(x: Name, pod: Pod)
    requires x != pod.nodeName && pod.uid != EmptyName
    ensures var s := GhostOnly(x, pod);
      && s.nodes.Keys == {pod.nodeName} && s.tree == {} && s.nodes[pod.nodeName].node == None
  {
    OneNodeIs(x);
    var s := Step(OneNode(x), Add(pod)).0;
    assert s.nodes == Place(OneNode(x), pod).nodes && s.tree == {x};
    PlaceSetsItem(OneNode(x), pod);
    assert s.nodes.Keys == {x, pod.nodeName};
  }

  lemma OneItemListed(n: Name, nodes: map<Name, Info>)
    requires nodes.Keys == {n}
    ensures Listed(nodes, [n]) && NoDup([n]) && Elements([n]) == {n} && Elements([]) == {} && |nodes| == 1
  {
    assert nodes == map[n := nodes[n]];
    assert nodes - {n} == map[];
    assert [n][1..] == [];
    assert [n][0] == n;
  }

  /** Why ghosts must be away: after this run there are as many items as names in the
      snapshot, so nothing is pruned, and the update reports an inconsistent snapshot. */
  lemma GhostHidesADeletion(x: Name, pod: Pod)
    requires x != pod.nodeName && pod.uid != EmptyName
    ensures Callable(OneNode(x), [x], [x], EmptySnap, {})
    ensures var a, s, g := Refresh(OneNode(x), [x], [x], EmptySnap, {}).0, GhostOnly(x, pod), [pod.nodeName];
      && Callable(s, g, [], a, {})
      && !Refresh(s, g, [], a, {}).1 && x in Refresh(s, g, [], a, {}).0.contents
  {
    FirstSnapshot(x);
    GhostOnlyIs(x, pod);
    var a, s, n := Refresh(OneNode(x), [x], [x], EmptySnap, {}).0, GhostOnly(x, pod), pod.nodeName;
    OneItemListed(n, s.nodes);
    ScanGhost(s.nodes, n, a);
    InconsistentLists(x, a, HeadGeneration(s.nodes, [n], a.generation));
  }

  /** A node with a pod, the node gone, and the node back. */
  ghost function Returning(x: Name, pod: Pod): (CacheState, CacheState, CacheState) {
    var s := Step(OneNode(x), Add(pod)).0;
    var gone := Step(s, NodeRemove(x)).0;
    (s, gone, Step(gone, NodeAdd(Node(x, map[], 0))).0)
  }

  lemma ReturningIs(x: Name, pod: Pod)
    requires x == pod.nodeName && pod.uid != EmptyName
    ensures var (s, gone, back) := Returning(x, pod);
      && RunInv(s) && s.nodes.Keys == {x} && s.tree == {x} && NoGhosts(s.nodes)
      && RunInv(gone) && gone.nodes.Keys == {x} && gone.tree == {}
      && RunInv(back) && back.nodes.Keys == {x} && back.tree == {x} && NoGhosts(back.nodes)
  {
    OneNodeIs(x);
    EmptyCacheRunInv();
    StepKeepsRunInv(EmptyCache, NodeAdd(Node(x, map[], 0)));
    PodArrives(OneNode(x), x, pod);
    NodeLeaves(Returning(x, pod).0, x);
    NodeReturns(Returning(x, pod).1, x);
  }

  lemma PodArrives(s: CacheState, x: Name, pod: Pod)
    requires RunInv(s) && s.nodes.Keys == {x} && s.tree == {x} && s.podStates == map[]
    requires x == pod.nodeName && pod.uid != EmptyName
    ensures var t := Step(s, Add(pod)).0;
      RunInv(t) && t.nodes.Keys == {x} && t.tree == {x} && NoGhosts(t.nodes) && t.nodes[x].pods != []
  {
    StepKeepsRunInv(s, Add(pod));
    assert Step(s, Add(pod)).0.nodes == Place(s, pod).nodes;
    PlaceSetsItem(s, pod);
  }

  lemma NodeLeaves(s: CacheState, x: Name)
    requires RunInv(s) && s.nodes.Keys == {x} && s.tree == {x} && s.nodes[x].pods != []
    ensures var t := Step(s, NodeRemove(x)).0; RunInv(t) && t.nodes.Keys == {x} && t.tree == {}
  {
    StepKeepsRunInv(s, NodeRemove(x));
  }

  lemma NodeReturns(s: CacheState, x: Name)
    requires RunInv(s) && s.nodes.Keys == {x} && s.tree == {}
    ensures var t := Step(s, NodeAdd(Node(x, map[], 0))).0;
      RunInv(t) && t.nodes.Keys == {x} && t.tree == {x} && NoGhosts(t.nodes)
  {
    StepKeepsRunInv(s, NodeAdd(Node(x, map[], 0)));
  }

  /** One update during which there is a ghost spoils a later one during which there is none:
      when a node with a pod goes, and comes back after an update, that update's empty list
      is kept, and the next update reports an inconsistent snapshot. */
  lemma GhostSpoilsALaterUpdate(x: Name, pod: Pod)
    requires x == pod.nodeName && pod.uid != EmptyName
    ensures var (s, gone, back) := Returning(x, pod);
      && Callable(s, [x], [x], EmptySnap, {})
      && var a := Refresh(s, [x], [x], EmptySnap, {}).0;
      && Callable(gone, [x], [], a, {}) && !Refresh(gone, [x], [], a, {}).1
      && var b := Refresh(gone, [x], [], a, {}).0;
      && NoGhosts(back.nodes) && Callable(back, [x], [x], b, {}) && !Refresh(back, [x], [x], b, {}).1
  {
    ReturningIs(x, pod);
    var (s, gone, back) := Returning(x, pod);
    OneItemListed(x, s.nodes);
    assert Elements(EmptySnap.list) == {};
    RefreshOne(s, x, [x], EmptySnap);
    var a := Refresh(s, [x], [x], EmptySnap, {}).0;
    SnapAfterStep(s, NodeRemove(x), a);
    RefreshOne(gone, x, [], a);
    SnapAfterStep(gone, NodeAdd(Node(x, map[], 0)), Refresh(gone, [x], [], a, {}).0);
    RefreshOne(back, x, [x], Refresh(gone, [x], [], a, {}).0);
  }

  lemma SnapAfterStep(s: CacheState, e: Event, a: Snap)
    requires RunInv(s) && SnapInv(s, a)
    ensures SnapInv(Step(s, e).0, a)
  {
    StepTouches(s, e);
  }

  /** An update of a cache with the one item x, on a snapshot of no other name. */
  lemma RefreshOne(s: CacheState, x: Name, enumeration: seq<Name>, a: Snap)
    requires RunInv(s) && SnapInv(s, a) && s.nodes.Keys == {x} && a.contents.Keys <= {x}
    requires Enumerates(enumeration, s.tree)
    ensures Callable(s, [x], enumeration, a, {})
    ensures var (b, ok) := Refresh(s, [x], enumeration, a, {});
      && SnapInv(s, b) && b.contents.Keys == a.contents.Keys + s.tree && |b.list| == |s.tree|
      && (ok <==> !(s.tree <= a.contents.Keys) || |a.list| == |s.tree|)
  {
    NothingToDelete(s, x, enumeration, a);
    RefreshSucceedsIff(s, [x], enumeration, a, {});
    RefreshKeepsInv(s, [x], enumeration, a, {});
    RefreshContents(s, [x], enumeration, a, {});
    RefreshListLength(s, [x], enumeration, a, {});
  }

  lemma NothingToDelete(s: CacheState, x: Name, enumeration: seq<Name>, a: Snap)
    requires RunInv(s) && SnapInv(s, a) && s.nodes.Keys == {x} && a.contents.Keys <= {x}
    requires Enumerates(enumeration, s.tree)
    ensures Callable(s, [x], enumeration, a, {})
    ensures |a.contents.Keys + s.tree| <= |s.nodes|
  {
    OneItemListed(x, s.nodes);
    ScannedContents(s, [x], a);
    NoMoreThanOne(a.contents.Keys + s.tree, x);
    NoneDeleted(s.nodes, Scanned(s, [x], a).contents);
  }

  lemma NoMoreThanOne(k: set<Name>, x: Name)
    requires k <= {x}
    ensures |k| <= 1
  {
    assert {x} == k + ({x} - k);
  }

  lemma NoneDeleted(nodes: map<Name, Info>, contents: map<Name, Info>)
    requires |contents.Keys| <= |nodes|
    ensures Deletes(nodes, contents, {}) == true
  {
    assert |contents| == |contents.Keys|;
  }

  lemma ScanGhost(nodes: map<Name, Info>, n: Name, a: Snap)
    requires nodes.Keys == {n} && nodes[n].node == None
    ensures ScanList(nodes, [n], a.generation, Scan(a.contents, false, false)) == Scan(a.contents, false, false)
  {
    assert [n][1..] == [];
  }

  lemma InconsistentLists(x: Name, a: Snap, g: int)
    requires a.contents.Keys == {x} && a.list == [x]
    ensures |a.contents| == 1
    ensures var (b, ok) := Completed(Scan(a.contents, false, false), 0, [], a, {}, g); !ok && x in b.contents
  {
    assert |a.contents.Keys| == 1;
    assert a.contents - {} == a.contents;
  }

  lemma FirstSnapshot(x: Name)
    ensures Callable(OneNode(x), [x], [x], EmptySnap, {})
    ensures var a := Refresh(OneNode(x), [x], [x], EmptySnap, {}).0; a.contents.Keys == {x} && a.list == [x]
  {
    OneNodeIs(x);
    var s := OneNode(x);
    OneItemListed(x, s.nodes);
    ScanOne(s.nodes, x);
    var contents := Scanned(s, [x], EmptySnap).contents;
    assert contents - {} == contents;
    KeptAll([x], contents);
  }

  lemma ScanOne(nodes: map<Name, Info>, x: Name)
    requires nodes.Keys == {x} && nodes[x].generation == 2 && nodes[x].node == Some(Node(x, map[], 0))
    ensures ScanList(nodes, [x], 0, Scan(map[], false, false)).contents.Keys == {x}
    ensures ScanList(nodes, [x], 0, Scan(map[], false, false)).added
  {
    assert [x][1..] == [];
  }
}
