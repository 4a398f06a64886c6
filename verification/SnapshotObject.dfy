/** The snapshot of scheduler/internal/cache/snapshot.go: NodeInfo objects by node name, and
    two lists that share these objects, so that an update in place shows in all of them. */
module SnapshotObject {
  import opened Wrappers
  import opened NodeInfo
  import opened SnapshotModel

  class Snapshot {
    var nodeInfoMap: map<Name, NodeInfo>
    var nodeInfoList: seq<NodeInfo>
    var havePodsWithAffinityNodeInfoList: seq<NodeInfo>
    var generation: int
    /** The contents of the NodeInfos. */
    ghost var contents: map<Name, Info>
    /** The names of the NodeInfos in the two lists. */
    ghost var list: seq<Name>
    ghost var affinity: seq<Name>

    constructor ()
      ensures Valid() && View() == EmptySnap && nodeInfoMap == map[]
    {
      nodeInfoMap, nodeInfoList, havePodsWithAffinityNodeInfoList, generation := map[], [], [], 0;
      contents, list, affinity := map[], [], [];
    }

    ghost function View(): Snap
      reads this
    {
      Snap(contents, list, affinity, generation)
    }

    /** No two names share a NodeInfo, and `contents` is what the NodeInfos hold. */
    ghost predicate Synced()
      reads this`nodeInfoMap, this`contents, nodeInfoMap.Values
    {
      && contents.Keys == nodeInfoMap.Keys
      && (forall n :: n in nodeInfoMap ==> nodeInfoMap[n].home == n)
      && (forall n :: n in nodeInfoMap ==> nodeInfoMap[n].Value() == contents[n])
    }

    /** The list's entries are the NodeInfos of these names. */
    ghost predicate Shows(infos: seq<NodeInfo>, names: seq<Name>)
      reads this`nodeInfoMap
    {
      |infos| == |names| && forall i :: 0 <= i < |names| ==>
        names[i] in nodeInfoMap && nodeInfoMap[names[i]] == infos[i]
    }

    ghost predicate Valid()
      reads this, nodeInfoMap.Values
    {
      Synced() && Shows(nodeInfoList, list) && Shows(havePodsWithAffinityNodeInfoList, affinity)
    }

    /** A zero NodeInfo for a name without one. */
    method AddEntry(name: Name)
      requires Valid() == true
      requires name !in nodeInfoMap
      modifies this`nodeInfoMap, this`contents
      ensures Valid() == true
      ensures name in nodeInfoMap && fresh(nodeInfoMap[name])
      ensures nodeInfoMap == old(nodeInfoMap)[name := nodeInfoMap[name]]
      ensures contents == old(contents)[name := ZeroInfo]
    {
      hide NodeInfo.Value;
      var existing := new NodeInfo.Zero(name);
      nodeInfoMap := nodeInfoMap[name := existing];
      contents := contents[name := ZeroInfo];
      assert Synced();
    }

    method CopyClone(existing: NodeInfo, v: Info)
      modifies existing
      ensures existing.Value() == v
    {
      var clone := new NodeInfo.Of(v);
      existing.CopyFrom(clone);
    }

    /** `*existing = *clone`: the object stays, its contents change. */
    method Overwrite(name: Name, v: Info)
      requires Valid() == true
      requires name in nodeInfoMap
      modifies this`contents, nodeInfoMap[name]
      ensures Valid() == true
      ensures contents == old(contents)[name := v]
    {
      hide Snapshot.Shows, NodeInfo.Value;
      CopyClone(nodeInfoMap[name], v);
      contents := contents[name := v];
    }

    /** Files contents under a name, in a new NodeInfo if need be; tells whether the name is
        new and whether it gained or lost its last pod with affinity terms. */
    method Put(name: Name, v: Info) returns (added: bool, flipped: bool)
      requires Valid() == true
      modifies this`nodeInfoMap, this`contents, nodeInfoMap.Values
      ensures Valid() == true
      ensures fresh(nodeInfoMap.Values - old(nodeInfoMap.Values))
      ensures contents == old(contents)[name := v]
      ensures added == (name !in old(contents))
        && flipped == (HasAffinity(Existing(old(contents), name)) != HasAffinity(v))
    {
      hide Snapshot.Synced, Snapshot.Shows;
      EntryIs(name);
      added := name !in nodeInfoMap;
      if added {
        AddEntry(name);
        EntryIs(name);
      }
      flipped := (|nodeInfoMap[name].podsWithAffinity| > 0) != (|v.withAffinity| > 0);
      Overwrite(name, v);
    }

    /** One turn of the loop over the recency list, for the contents of one item. */
    method ScanInfo(v: Info, updateAllLists: bool, updateAffinity: bool) returns (all: bool, affinityFlag: bool)
      requires Valid() == true
      modifies this`nodeInfoMap, this`contents, nodeInfoMap.Values
      ensures Valid() == true
      ensures fresh(nodeInfoMap.Values - old(nodeInfoMap.Values))
      ensures Scan(contents, all, affinityFlag) == ScanItem(Scan(old(contents), updateAllLists, updateAffinity), v)
    {
      all, affinityFlag := updateAllLists, updateAffinity;
      if v.node.Some? {
        var added, flipped := Put(v.node.value.name, v);
        all, affinityFlag := all || added, affinityFlag || flipped;
      }
    }

    method ClearLists()
      requires Synced() == true
      modifies this
      ensures Valid() == true
      ensures nodeInfoMap == old(nodeInfoMap) && View() == Snap(old(contents), [], [], old(generation))
    {
      nodeInfoList, havePodsWithAffinityNodeInfoList := [], [];
      list, affinity := [], [];
    }

    /** What the NodeInfo of a name holds. */
    lemma EntryIs(name: Name)
      requires Synced() == true
      ensures name in nodeInfoMap <==> name in contents
      ensures name in nodeInfoMap ==> nodeInfoMap[name].podsWithAffinity == contents[name].withAffinity
    {
    }

    lemma OneMoreShown(infos: seq<NodeInfo>, names: seq<Name>, name: Name)
      requires Shows(infos, names) == true
      requires name in nodeInfoMap
      ensures Shows(infos + [nodeInfoMap[name]], names + [name]) == true
    {
    }

    /** One turn of the loop that lists the nodes of the tree. */
    method ListNode(name: Name, ghost done: seq<Name>)
      requires Valid() == true
      requires list == Kept(done, contents) && affinity == WithAffinity(done, contents)
      modifies this`nodeInfoList, this`havePodsWithAffinityNodeInfoList, this`list, this`affinity
      ensures Valid() == true
      ensures list == Kept(done + [name], contents) && affinity == WithAffinity(done + [name], contents)
    {
      hide Snapshot.Synced, Snapshot.Shows, Kept, WithAffinity;
      KeptNext(done, name, contents);
      AffinityNext(done, name, contents);
      EntryIs(name);
      if name in nodeInfoMap {
        var n := nodeInfoMap[name];
        OneMoreShown(nodeInfoList, list, name);
        OneMoreShown(havePodsWithAffinityNodeInfoList, affinity, name);
        nodeInfoList, list := nodeInfoList + [n], list + [name];
        if |n.podsWithAffinity| > 0 {
          havePodsWithAffinityNodeInfoList, affinity := havePodsWithAffinityNodeInfoList + [n], affinity + [name];
        }
      }
    }

    /** One turn of the loop that makes the affinity list anew from the node list. */
    method ListAffinity(i: nat, ghost done: seq<Name>)
      requires Valid() == true
      requires i < |list| && affinity == WithAffinity(done, contents)
      modifies this`havePodsWithAffinityNodeInfoList, this`affinity
      ensures Valid() == true
      ensures affinity == WithAffinity(done + [list[i]], contents)
    {
      hide Snapshot.Synced, WithAffinity;
      var n := nodeInfoList[i];
      assert n == nodeInfoMap[list[i]];
      EntryIs(list[i]);
      AffinityNext(done, list[i], contents);
      OneMoreShown(havePodsWithAffinityNodeInfoList, affinity, list[i]);
      if |n.podsWithAffinity| > 0 {
        havePodsWithAffinityNodeInfoList, affinity := havePodsWithAffinityNodeInfoList + [n], affinity + [list[i]];
      }
    }

    /** The affinity list, made anew from the node list. */
    method RelistAffinity()
      requires Valid() == true
      modifies this`havePodsWithAffinityNodeInfoList, this`affinity
      ensures Valid() == true
      ensures affinity == WithAffinity(list, contents)
    {
      hide Snapshot.Synced;
      havePodsWithAffinityNodeInfoList, affinity := [], [];
      ghost var done: seq<Name> := [];
      var i := 0;
      while i < |nodeInfoList|
        invariant 0 <= i <= |list| && |nodeInfoList| == |list| && done == list[..i]
        invariant Valid() == true
        invariant affinity == WithAffinity(done, contents)
      {
        ListAffinity(i, done);
        done := done + [list[i]];
        i := i + 1;
      }
      assert done == list;
    }

    method DeleteEntry(name: Name)
      requires Synced() == true
      modifies this`nodeInfoMap, this`contents
      ensures Synced() == true
      ensures nodeInfoMap.Values <= old(nodeInfoMap.Values)
      ensures contents == old(contents) - {name}
    {
      nodeInfoMap := nodeInfoMap - {name};
      contents := contents - {name};
    }

    /** removeDeletedNodesFromSnapshot, for a cache with these items. */
    method RemoveDeletedNodes(cached: map<Name, Info>) returns (ghost deleted: set<Name>)
      requires Synced() == true
      modifies this`nodeInfoMap, this`contents
      ensures Synced() == true
      ensures nodeInfoMap.Values <= old(nodeInfoMap.Values)
      ensures contents == old(contents) - deleted && Deletes(cached, old(contents), deleted)
    {
      hide Snapshot.Synced, Pruning, Deletes;
      var toDelete := |nodeInfoMap| - |cached|;
      var todo := nodeInfoMap.Keys;
      ghost var before := contents;
      deleted := {};
      SameSize(this, cached);
      PruneStart(before.Keys, cached.Keys, toDelete);
      assert before - {} == before;
      while todo != {} && toDelete > 0
        invariant Synced() == true
        invariant nodeInfoMap.Values <= old(nodeInfoMap.Values)
        invariant contents == before - deleted
        invariant Pruning(before.Keys, cached.Keys, deleted, todo, toDelete) == true
        decreases todo
      {
        var name :| name in todo;
        if name in cached {
          PruneSkip(before.Keys, cached.Keys, deleted, todo, toDelete, name);
          todo := todo - {name};
        } else {
          ghost var left := toDelete;
          toDelete := toDelete - 1;
          PruneDelete(before.Keys, cached.Keys, deleted, todo, left, name, toDelete);
          MinusBoth(before, deleted, name);
          todo, deleted := todo - {name}, deleted + {name};
          DeleteEntry(name);
        }
      }
      PruneEnd(before.Keys, cached.Keys, deleted, todo, toDelete);
      PruneDeletes(before, cached, deleted);
    }

    /** The pruning test of UpdateSnapshot; tells whether names were deleted. */
    method Prune(cached: map<Name, Info>) returns (pruned: bool, ghost deleted: set<Name>)
      requires Valid() == true
      modifies this`nodeInfoMap, this`contents
      ensures Synced() == true
      ensures nodeInfoMap.Values <= old(nodeInfoMap.Values)
      ensures contents == old(contents) - deleted && Deletes(cached, old(contents), deleted)
      ensures pruned <==> deleted != {}
      ensures !pruned ==> Valid()
    {
      hide Snapshot.Shows;
      pruned := |nodeInfoMap| > |cached|;
      deleted := {};
      if pruned {
        deleted := RemoveDeletedNodes(cached);
      } else {
        assert contents - {} == contents;
      }
    }
  }

  /** Of the old names, `deleted` are gone, `todo` are still to be visited, and `left` more
      have to go. */
  ghost predicate Pruning(before: set<Name>, cached: set<Name>, deleted: set<Name>, todo: set<Name>, left: int) {
    && deleted <= before - cached && deleted !! todo && todo <= before
    && before - cached <= deleted + todo
    && |deleted| + left == |before| - |cached| && (left < 0 ==> deleted == {})
  }

  lemma MinusBoth<K, V>(m: map<K, V>, s: set<K>, k: K)
    ensures (m - s) - {k} == m - (s + {k})
  {
  }

  lemma SameSize(snap: Snapshot, cached: map<Name, Info>)
    requires snap.Synced() == true
    ensures snap.nodeInfoMap.Keys == snap.contents.Keys
    ensures |snap.nodeInfoMap| - |cached| == |snap.contents.Keys| - |cached.Keys|
  {
  }

  lemma PruneStart(before: set<Name>, cached: set<Name>, left: int)
    requires left == |before| - |cached|
    ensures Pruning(before, cached, {}, before, left) == true
  {
  }

  lemma PruneDeletes(before: map<Name, Info>, cached: map<Name, Info>, deleted: set<Name>)
    requires deleted <= before.Keys - cached.Keys
    requires |deleted| == if |before.Keys| > |cached.Keys| then |before.Keys| - |cached.Keys| else 0
    ensures Deletes(cached, before, deleted) == true
  {
  }

  lemma PruneSkip(before: set<Name>, cached: set<Name>, deleted: set<Name>, todo: set<Name>, left: int, name: Name)
    requires Pruning(before, cached, deleted, todo, left) == true
    requires name in todo && name in cached
    ensures Pruning(before, cached, deleted, todo - {name}, left) == true
  {
  }

  lemma PruneDelete(
    before: set<Name>, cached: set<Name>, deleted: set<Name>, todo: set<Name>, left: int, name: Name, rest: int)
    requires Pruning(before, cached, deleted, todo, left) == true
    requires name in todo && name !in cached && left > 0
    requires rest == left - 1
    ensures Pruning(before, cached, deleted + {name}, todo - {name}, rest) == true
  {
  }

  lemma PruneEnd(before: set<Name>, cached: set<Name>, deleted: set<Name>, todo: set<Name>, left: int)
    requires Pruning(before, cached, deleted, todo, left) == true
    requires todo == {} || left <= 0
    ensures deleted <= before - cached
    ensures |deleted| == if |before| > |cached| then |before| - |cached| else 0
  {
    if todo == {} {
      assert deleted == before - cached;
      Split(before, cached);
      Split(cached, before);
      assert before * cached == cached * before;
    }
  }
}
