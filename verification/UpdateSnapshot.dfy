/** UpdateSnapshot of scheduler/internal/cache/cache.go on the linked list, the node tree and
    the snapshot's objects: the walk along the list, the pruning, the lists. */
module UpdateSnapshot {
  import opened Wrappers
  import opened NodeInfo
  import opened RecencyList
  import opened CacheModel
  import opened CacheRuns
  import opened ItemList
  import opened SnapshotModel
  import opened SnapshotObject
  import opened SchedulerCache
  import NodeTree

  lemma ScanStep(nodes: map<Name, Info>, order: seq<Name>, i: nat, j: nat, g: int, sc: Scan)
    requires i < |order| && j == i + 1 && order[i] in nodes && nodes[order[i]].generation > g
    ensures ScanList(nodes, order[i..], g, sc) == ScanList(nodes, order[j..], g, ScanItem(sc, nodes[order[i]]))
  {
    assert order[i..][1..] == order[j..];
  }

  lemma ScanStop(nodes: map<Name, Info>, order: seq<Name>, i: nat, g: int, sc: Scan)
    requires i <= |order|
    requires i < |order| ==> order[i] in nodes && nodes[order[i]].generation <= g
    ensures ScanList(nodes, order[i..], g, sc) == sc
  {
  }

  /** The walk has got to position i of the list. */
  ghost predicate AtItem(cache: Cache, i: nat, node: NodeItem?)
    reads cache, cache.items, cache.items.nodes.Values
  {
    && cache.items.Valid() && cache.items.nodes.Keys == cache.infos.Keys && i <= |cache.items.order|
    && node == At(cache.items.nodes, cache.items.order, i)
  }

  lemma ItemAt(cache: Cache, i: nat, node: NodeItem?)
    requires AtItem(cache, i, node) == true
    ensures node == null <==> i == |cache.items.order|
    ensures node != null ==> i < |cache.items.order| && node.name == cache.items.order[i] && node.name in cache.infos
  {
  }

  lemma NextItem(cache: Cache, i: nat, j: nat, node: NodeItem)
    requires AtItem(cache, i, node) == true
    requires j == i + 1
    ensures AtItem(cache, j, node.next) == true
  {
    ItemAt(cache, i, node);
    Neighbours(cache.items.nodes, cache.items.order, i, Nexts(cache.items.nodes), Prevs(cache.items.nodes));
  }

  lemma WalkStarts(cache: Cache)
    requires cache.items.Valid() == true
    requires cache.items.nodes.Keys == cache.infos.Keys
    ensures AtItem(cache, 0, cache.items.headNode) == true
  {
  }

  method ScanTurn(cache: Cache, snap: Snapshot, node: NodeItem, ghost i: nat, ghost j: nat, all: bool, affinity: bool)
    returns (all2: bool, affinity2: bool)
    requires AtItem(cache, i, node) == true
    requires snap.Valid() == true
    requires j == i + 1 && node.name in cache.infos
    modifies snap`nodeInfoMap, snap`contents, snap.nodeInfoMap.Values
    ensures AtItem(cache, j, node.next) == true
    ensures snap.Valid() == true
    ensures fresh(snap.nodeInfoMap.Values - old(snap.nodeInfoMap.Values))
    ensures Scan(snap.contents, all2, affinity2)
      == ScanItem(Scan(old(snap.contents), all, affinity), cache.infos[node.name])
  {
    hide *;
    all2, affinity2 := snap.ScanInfo(cache.infos[node.name], all, affinity);
    NextItem(cache, i, j, node);
  }

  /** The walk from the head of the list; it stops at the first old item. */
  method ScanCache(cache: Cache, snap: Snapshot) returns (all: bool, affinity: bool)
    requires cache.items.Valid() == true
    requires cache.items.nodes.Keys == cache.infos.Keys
    requires snap.Valid() == true
    modifies snap`nodeInfoMap, snap`contents, snap.nodeInfoMap.Values
    ensures snap.Valid() == true
    ensures fresh(snap.nodeInfoMap.Values - old(snap.nodeInfoMap.Values))
    ensures Scan(snap.contents, all, affinity)
         == ScanList(cache.infos, cache.items.order, snap.generation, Scan(old(snap.contents), false, false))
  {
    hide *;
    all, affinity := false, false;
    var g := snap.generation;
    ghost var infos, order := cache.infos, cache.items.order;
    ghost var target := ScanList(infos, order, g, Scan(snap.contents, false, false));
    var node := cache.items.headNode;
    ghost var i := 0;
    assert order[0..] == order;
    WalkStarts(cache);
    ItemAt(cache, 0, node);
    while node != null && cache.infos[node.name].generation > g
      invariant AtItem(cache, i, node) == true
      invariant node == null <==> i == |order|
      invariant node != null ==> i < |order| && node.name == order[i] && node.name in infos
      invariant snap.Valid() == true
      invariant fresh(snap.nodeInfoMap.Values - old(snap.nodeInfoMap.Values))
      invariant ScanList(infos, order[i..], g, Scan(snap.contents, all, affinity)) == target
      decreases |order| - i
    {
      ghost var j := i + 1;
      ScanStep(infos, order, i, j, g, Scan(snap.contents, all, affinity));
      all, affinity := ScanTurn(cache, snap, node, i, j, all, affinity);
      node := node.next;
      i := j;
      ItemAt(cache, i, node);
    }
    ScanStop(infos, order, i, g, Scan(snap.contents, all, affinity));
  }

  // ---------- The lists ----------

  /** The tree is part way through its enumeration: `done` has been returned, `pending` comes
      next. */
  ghost predicate Handing(tree: NodeTree.Tree, names: set<Name>, e: seq<Name>, done: seq<Name>, pending: seq<Name>)
    reads tree
  {
    && tree.Valid() && tree.Names() == names && tree.Enumeration() == e && tree.numNodes == |e|
    && e == done + pending && tree.WillReturn(pending)
  }

  /** resetExhausted: the next names are the whole enumeration of the tree. */
  method Restart(tree: NodeTree.Tree)
    requires tree.Valid() == true
    modifies tree
    ensures Handing(tree, old(tree.Names()), old(tree.Enumeration()), [], old(tree.Enumeration())) == true
    ensures Enumerates(old(tree.Enumeration()), old(tree.Names()))
  {
    hide NodeTree.Consistent, NodeTree.NamesIn, NodeTree.Rounds, NodeTree.Lists, NodeTree.AtPosition,
      NodeTree.PendingFrom;
    tree.ResetExhausted();
    NodeTree.SameNodesSameTree(tree.zones, old(tree.tree), tree.tree, tree.zoneOf);
    NodeTree.ResetStartsEnumeration(tree);
    NodeTree.EnumerationIsPermutation(tree.zones, tree.tree, tree.zoneOf);
  }

  method NextName(
    tree: NodeTree.Tree, ghost names: set<Name>, ghost e: seq<Name>, ghost done: seq<Name>, ghost pending: seq<Name>,
    ghost done2: seq<Name>, ghost pending2: seq<Name>)
    returns (name: Name)
    requires Handing(tree, names, e, done, pending) == true
    requires pending != [] && done2 == done + [pending[0]] && pending2 == pending[1..]
    modifies tree
    ensures name == pending[0]
    ensures Handing(tree, names, e, done2, pending2) == true
  {
    hide NodeTree.Tree.Valid, NodeTree.Tree.Names, NodeTree.Tree.Enumeration, NodeTree.Tree.WillReturn;
    assert done + pending == done2 + pending2;
    name := tree.Next(pending);
  }

  lemma HandingLength(tree: NodeTree.Tree, names: set<Name>, e: seq<Name>, done: seq<Name>, pending: seq<Name>)
    requires Handing(tree, names, e, done, pending) == true
    ensures tree.numNodes == |done| + |pending| && (pending == [] ==> e == done)
  {
    if pending == [] { assert done + pending == done; }
  }

  /** The snapshot lists the names that have been returned. */
  ghost predicate Listing(
    snap: Snapshot, infos: map<Name, NodeInfo>, contents: map<Name, Info>, done: seq<Name>, g: int)
    reads snap, snap.nodeInfoMap.Values
  {
    snap.Valid() && snap.nodeInfoMap == infos && snap.View() == Relist(contents, done, g)
  }

  method ListNext(
    tree: NodeTree.Tree, snap: Snapshot, ghost names: set<Name>, ghost e: seq<Name>, ghost done: seq<Name>,
    ghost pending: seq<Name>, ghost done2: seq<Name>, ghost pending2: seq<Name>,
    ghost infos: map<Name, NodeInfo>, ghost contents: map<Name, Info>, ghost g: int)
    requires Handing(tree, names, e, done, pending) == true
    requires Listing(snap, infos, contents, done, g) == true
    requires pending != [] && done2 == done + [pending[0]] && pending2 == pending[1..]
    modifies tree, snap
    ensures Handing(tree, names, e, done2, pending2) == true
    ensures Listing(snap, infos, contents, done2, g) == true
  {
    hide *;
    var nodeName := NextName(tree, names, e, done, pending, done2, pending2);
    ListOne(snap, nodeName, done, done2, infos, contents, g);
  }

  method ListOne(
    snap: Snapshot, nodeName: Name, ghost done: seq<Name>, ghost done2: seq<Name>,
    ghost infos: map<Name, NodeInfo>, ghost contents: map<Name, Info>, ghost g: int)
    requires Listing(snap, infos, contents, done, g) == true
    requires done2 == done + [nodeName]
    modifies snap
    ensures Listing(snap, infos, contents, done2, g) == true
  {
    snap.ListNode(nodeName, done);
  }

  method ListAll(
    tree: NodeTree.Tree, snap: Snapshot, ghost names: set<Name>, ghost e: seq<Name>,
    ghost infos: map<Name, NodeInfo>, ghost contents: map<Name, Info>, ghost g: int)
    requires Handing(tree, names, e, [], e) == true
    requires Listing(snap, infos, contents, [], g) == true
    modifies tree, snap
    ensures Handing(tree, names, e, e, []) == true
    ensures Listing(snap, infos, contents, e, g) == true
  {
    hide *;
    ghost var done, pending := [], e;
    var i := 0;
    HandingLength(tree, names, e, done, pending);
    while i < tree.numNodes
      invariant i == |done| && tree.numNodes == |done| + |pending| && (pending == [] ==> e == done)
      invariant Handing(tree, names, e, done, pending) == true
      invariant Listing(snap, infos, contents, done, g) == true
    {
      ghost var done2, pending2 := done + [pending[0]], pending[1..];
      ListNext(tree, snap, names, e, done, pending, done2, pending2, infos, contents, g);
      done, pending := done2, pending2;
      HandingLength(tree, names, e, done, pending);
      i := i + 1;
    }
  }

  /** updateNodeInfoSnapshotList for all lists: the names of the tree, in its order. */
  method RelistNodes(tree: NodeTree.Tree, snap: Snapshot)
    requires tree.Valid() == true
    requires snap.Synced() == true
    modifies snap, tree
    ensures tree.Valid() == true
    ensures tree.Names() == old(tree.Names()) && tree.Enumeration() == old(tree.Enumeration())
    ensures Listing(snap, old(snap.nodeInfoMap), old(snap.contents), old(tree.Enumeration()), old(snap.generation))
      == true
  {
    hide NodeTree.Tree.Valid, NodeTree.Tree.Names, NodeTree.Tree.Enumeration, Snapshot.Synced, Snapshot.Shows;
    ghost var names, e, infos, contents, g := tree.Names(), tree.Enumeration(), snap.nodeInfoMap, snap.contents,
      snap.generation;
    Restart(tree);
    snap.ClearLists();
    ListAll(tree, snap, names, e, infos, contents, g);
  }

  // ---------- The whole update ----------

  /** Making the lists anew, as far as needed. */
  method MakeLists(tree: NodeTree.Tree, snap: Snapshot, all: bool, affinity: bool)
    requires tree.Valid() == true
    requires snap.Synced() == true
    requires !all ==> snap.Valid()
    modifies tree, snap
    ensures tree.Valid() == true
    ensures tree.Names() == old(tree.Names()) && tree.Enumeration() == old(tree.Enumeration())
    ensures snap.Valid() == true
    ensures snap.nodeInfoMap == old(snap.nodeInfoMap)
    ensures snap.View() ==
      if all then Relist(old(snap.contents), tree.Enumeration(), old(snap.generation))
      else if affinity then old(snap.View()).(affinity := WithAffinity(old(snap.list), old(snap.contents)))
      else old(snap.View())
  {
    hide NodeTree.Tree.Valid, NodeTree.Tree.Names, NodeTree.Tree.Enumeration, Snapshot.Valid, Snapshot.Synced;
    if all {
      RelistNodes(tree, snap);
    } else if affinity {
      snap.RelistAffinity();
    }
  }

  /** UpdateSnapshot after its loop. */
  method FinishUpdate(tree: NodeTree.Tree, snap: Snapshot, cached: map<Name, Info>, all: bool, affinity: bool)
    returns (ghost deleted: set<Name>)
    requires tree.Valid() == true
    requires snap.Valid() == true
    modifies tree, snap
    ensures tree.Valid() == true
    ensures tree.Names() == old(tree.Names()) && tree.Enumeration() == old(tree.Enumeration())
    ensures snap.Valid() == true
    ensures snap.nodeInfoMap.Values <= old(snap.nodeInfoMap.Values)
    ensures Deletes(cached, old(snap.contents), deleted)
    ensures snap.View() == Made(Scan(old(snap.contents), all, affinity), tree.Enumeration(), old(snap.View()),
      deleted, old(snap.generation))
  {
    hide NodeTree.Tree.Valid, NodeTree.Tree.Names, NodeTree.Tree.Enumeration, Snapshot.Valid, Snapshot.Synced, Relist;
    var pruned;
    pruned, deleted := snap.Prune(cached);
    MakeLists(tree, snap, all || pruned, affinity);
  }

  /** The check at the end, with its attempt to recover. */
  method CheckLength(tree: NodeTree.Tree, snap: Snapshot) returns (ok: bool)
    requires tree.Valid() == true
    requires snap.Valid() == true
    modifies tree, snap
    ensures tree.Valid() == true
    ensures tree.Names() == old(tree.Names()) && tree.Enumeration() == old(tree.Enumeration())
    ensures snap.Valid() == true
    ensures snap.nodeInfoMap == old(snap.nodeInfoMap)
    ensures ok == (|old(snap.list)| == |tree.Names()|)
    ensures snap.View() == if ok then old(snap.View())
      else Relist(old(snap.contents), tree.Enumeration(), old(snap.generation))
  {
    hide NodeTree.Consistent, NodeTree.NamesIn, NodeTree.Rounds, Snapshot.Synced, Kept, WithAffinity;
    ok := |snap.nodeInfoList| == tree.numNodes;
    if !ok {
      RelistNodes(tree, snap);
    }
  }

  /** The snapshot takes over the newest generation of the cache. */
  method SetGeneration(cache: Cache, snap: Snapshot)
    requires cache.items.Valid() == true
    requires cache.items.nodes.Keys == cache.infos.Keys
    requires snap.Valid() == true
    modifies snap`generation
    ensures snap.Valid() == true
    ensures snap.generation == HeadGeneration(cache.infos, cache.items.order, old(snap.generation))
  {
    WalkStarts(cache);
    ItemAt(cache, 0, cache.items.headNode);
    if cache.items.headNode != null {
      snap.generation := cache.infos[cache.items.headNode.name].generation;
    }
  }

  /** The walk and the new generation. */
  method WalkCache(cache: Cache, snap: Snapshot) returns (all: bool, affinity: bool)
    requires cache.Valid() == true
    requires snap.Valid() == true
    modifies snap, snap.nodeInfoMap.Values
    ensures cache.Valid() == true
    ensures cache.View() == old(cache.View())
    ensures snap.Valid() == true
    ensures fresh(snap.nodeInfoMap.Values - old(snap.nodeInfoMap.Values))
    ensures Scan(snap.contents, all, affinity)
         == ScanList(cache.infos, cache.items.order, old(snap.generation), Scan(old(snap.contents), false, false))
    ensures snap.generation == HeadGeneration(cache.infos, cache.items.order, old(snap.generation))
    ensures snap.list == old(snap.list) && snap.affinity == old(snap.affinity)
  {
    hide ItemList.Items.Valid, Listed, Snapshot.Valid, Snapshot.Synced, Bounded, NodeTree.Tree.Valid;
    all, affinity := ScanCache(cache, snap);
    SetGeneration(cache, snap);
  }

  lemma EnumerationOfTree(tree: NodeTree.Tree)
    requires tree.Valid() == true
    ensures Enumerates(tree.Enumeration(), tree.Names())
  {
    NodeTree.EnumerationIsPermutation(tree.zones, tree.tree, tree.zoneOf);
  }

  /** All of UpdateSnapshot after its loop, on the tree and the snapshot. */
  method PruneAndList(tree: NodeTree.Tree, snap: Snapshot, cached: map<Name, Info>, all: bool, affinity: bool)
    returns (ok: bool, ghost deleted: set<Name>)
    requires tree.Valid() == true
    requires snap.Valid() == true
    modifies tree, snap
    ensures tree.Valid() == true
    ensures tree.Names() == old(tree.Names()) && tree.Enumeration() == old(tree.Enumeration())
    ensures snap.Valid() == true
    ensures snap.nodeInfoMap.Values <= old(snap.nodeInfoMap.Values)
    ensures Deletes(cached, old(snap.contents), deleted)
    ensures (snap.View(), ok) == Completed(Scan(old(snap.contents), all, affinity), |tree.Names()|, tree.Enumeration(),
      old(snap.View()), deleted, old(snap.generation))
  {
    hide NodeTree.Tree.Valid, NodeTree.Tree.Names, NodeTree.Tree.Enumeration, Snapshot.Valid, Snapshot.Synced, Kept,
      WithAffinity;
    deleted := FinishUpdate(tree, snap, cached, all, affinity);
    ok := CheckLength(tree, snap);
  }

  method PruneAndListBesideCache(cache: Cache, snap: Snapshot, all: bool, affinity: bool)
    returns (ok: bool, ghost deleted: set<Name>)
    requires cache.Linked() == true
    requires cache.nodeTree.Valid() == true
    requires snap.Valid() == true
    modifies cache.nodeTree, snap
    ensures cache.Linked() == true
    ensures cache.nodeTree.Valid() == true
    ensures cache.View() == old(cache.View())
    ensures cache.nodeTree.Enumeration() == old(cache.nodeTree.Enumeration())
    ensures snap.Valid() == true
    ensures snap.nodeInfoMap.Values <= old(snap.nodeInfoMap.Values)
    ensures Deletes(cache.infos, old(snap.contents), deleted)
    ensures (snap.View(), ok) == Completed(Scan(old(snap.contents), all, affinity), |cache.View().tree|,
      cache.nodeTree.Enumeration(), old(snap.View()), deleted, old(snap.generation))
  {
    hide NodeTree.Tree.Valid, NodeTree.Tree.Names, NodeTree.Tree.Enumeration, Snapshot.Valid, ItemList.Items.Valid,
      Listed;
    ok, deleted := PruneAndList(cache.nodeTree, snap, cache.infos, all, affinity);
  }

  /** The same, with what it leaves alone in the cache. */
  method RestOfUpdate(cache: Cache, snap: Snapshot, all: bool, affinity: bool)
    returns (ok: bool, ghost deleted: set<Name>)
    requires cache.Valid() == true
    requires snap.Valid() == true
    modifies cache.nodeTree, snap
    ensures cache.Valid() == true
    ensures cache.View() == old(cache.View()) && cache.nodeTree.Enumeration() == old(cache.nodeTree.Enumeration())
    ensures snap.Valid() == true
    ensures snap.nodeInfoMap.Values <= old(snap.nodeInfoMap.Values)
    ensures Deletes(cache.infos, old(snap.contents), deleted)
    ensures (snap.View(), ok) == Completed(Scan(old(snap.contents), all, affinity), |cache.View().tree|,
      cache.nodeTree.Enumeration(), old(snap.View()), deleted, old(snap.generation))
  {
    hide *;
    ghost var s := cache.View();
    StillBounded(cache);
    ok, deleted := PruneAndListBesideCache(cache, snap, all, affinity);
    StillValid(cache, s);
  }

  lemma StillBounded(cache: Cache)
    requires cache.Valid() == true
    ensures cache.Linked() == true
    ensures cache.nodeTree.Valid() == true
    ensures Bounded(cache.View()) == true
  {
  }

  lemma StillValid(cache: Cache, s: CacheState)
    requires cache.Linked() == true
    requires cache.nodeTree.Valid() == true
    requires cache.View() == s
    requires Bounded(s) == true
    ensures cache.Valid() == true
  {
  }

  /** The parts of `Refresh` put together. */
  lemma RefreshByParts(
    s: CacheState, order: seq<Name>, e: seq<Name>, a: Snap, deleted: set<Name>, sc: Scan, walked: Snap)
    requires sc == ScanList(s.nodes, order, a.generation, Scan(a.contents, false, false))
    requires walked.generation == HeadGeneration(s.nodes, order, a.generation)
    requires walked.list == a.list && walked.affinity == a.affinity
    ensures Completed(sc, |s.tree|, e, walked, deleted, walked.generation) == Refresh(s, order, e, a, deleted)
  {
  }

  /** UpdateSnapshot: what it makes of the snapshot is what `Refresh` says, for the order of
      the recency list, the enumeration of the tree and the names it happened to delete. */
  method Update(cache: Cache, snap: Snapshot) returns (ok: bool, ghost deleted: set<Name>)
    requires cache.Valid() == true
    requires snap.Valid() == true
    modifies snap, snap.nodeInfoMap.Values, cache.nodeTree
    ensures cache.Valid() == true
    ensures cache.View() == old(cache.View())
    ensures snap.Valid() == true
    ensures fresh(snap.nodeInfoMap.Values - old(snap.nodeInfoMap.Values))
    ensures Enumerates(cache.nodeTree.Enumeration(), cache.nodeTree.Names())
    ensures Deletes(cache.infos, Scanned(cache.View(), cache.items.order, old(snap.View())).contents, deleted)
    ensures (snap.View(), ok)
         == Refresh(cache.View(), cache.items.order, cache.nodeTree.Enumeration(), old(snap.View()), deleted)
  {
    hide Cache.Valid, Snapshot.Valid, Completed, ScanList, Refresh, Deletes, Enumerates, NodeTree.Tree.Valid,
      NodeTree.Tree.Enumeration;
    ghost var s, order, a := cache.View(), cache.items.order, snap.View();
    var all, affinity := WalkCache(cache, snap);
    ghost var sc, walked := Scan(snap.contents, all, affinity), snap.View();
    ok, deleted := RestOfUpdate(cache, snap, all, affinity);
    StillBounded(cache);
    RefreshByParts(s, order, cache.nodeTree.Enumeration(), a, deleted, sc, walked);
    EnumerationOfTree(cache.nodeTree);
  }

  /** UpdateSnapshot as the scheduler may rely on it: without ghosts it succeeds, and the
      objects of the snapshot hold the contents of all cached items, each listed once. */
  method UpdateWithoutGhosts(cache: Cache, snap: Snapshot) returns (ok: bool)
    requires cache.Valid() == true
    requires snap.Valid() == true
    requires TreeAgrees(cache.View()) == true
    requires SnapInv(cache.View(), snap.View()) == true
    requires NoGhosts(cache.infos) && Complete(snap.View())
    modifies snap, snap.nodeInfoMap.Values, cache.nodeTree
    ensures cache.Valid() == true
    ensures cache.View() == old(cache.View())
    ensures snap.Valid() == true
    ensures SnapInv(cache.View(), snap.View()) == true
    ensures ok && snap.contents == cache.infos && Complete(snap.View())
    ensures snap.affinity == WithAffinity(snap.list, cache.infos)
  {
    ghost var s, a := cache.View(), snap.View();
    ghost var deleted;
    ok, deleted := Update(cache, snap);
    RefreshEqualsCache(s, cache.items.order, cache.nodeTree.Enumeration(), a, deleted);
  }
}
