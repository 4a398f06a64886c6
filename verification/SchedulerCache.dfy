/** The scheduler cache of scheduler/internal/cache/cache.go: a doubly linked list of items,
    their node contents, pod states and the node tree, updated in place. Every method is
    proved to do to `View()` what the state machine of module CacheModel says, and to keep
    the list well linked, complete and sorted by generation. */
module SchedulerCache {
  import opened Wrappers
  import opened NodeInfo
  import opened RecencyList
  import opened CacheModel
  import opened ItemList
  import NodeTree

  /** The names in the tree after an update of a Node's zone. */
  function Rezoned(zoneOf: Name -> Name, names: set<Name>, oldName: Name, newName: Name): set<Name> {
    if zoneOf(oldName) == zoneOf(newName) then names else names - {oldName} + {newName}
  }

  class Cache {
    const gens: Generations
    const nodeTree: NodeTree.Tree
    const items: Items
    const ttl: int
    /** The contents of the items, by node name. */
    var infos: map<Name, Info>
    var podStates: map<Name, PodState>
    var assumedPods: set<Name>

    constructor (ttl: int, gens: Generations, zoneOf: Name -> Name)
      requires gens.last >= 0
      ensures Valid() && fresh(items) && fresh(nodeTree) && items.nodes == map[]
      ensures View() == EmptyCache.(generation := gens.last)
      ensures this.ttl == ttl && this.gens == gens
    {
      var list := new Items();
      var tree := new NodeTree.Tree(zoneOf);
      this.ttl, this.gens, nodeTree, items := ttl, gens, tree, list;
      infos, podStates, assumedPods := map[], map[], {};
    }

    /** The abstract state. */
    ghost function View(): CacheState
      reads this, nodeTree, gens
    {
      CacheState(infos, podStates, assumedPods, nodeTree.Names(), gens.last)
    }

    /** The list is well linked, holds every item once, and is sorted by generation. */
    ghost predicate Linked()
      reads this, items, items.nodes.Values
    {
      items.Valid() && items.nodes.Keys == infos.Keys && Listed(infos, items.order)
    }

    /** Besides, the tree is consistent and generations have been given out by the counter. */
    ghost predicate Valid()
      reads this, items, items.nodes.Values, nodeTree, gens
    {
      Linked() && nodeTree.Valid() && Bounded(View())
    }

    // ---------- Pods ----------

    /** The list is in order, and the node has an item, linked or new. */
    ghost predicate Ready(name: Name)
      reads this, items, items.nodes.Values
    {
      && items.Valid() && items.nodes.Keys == infos.Keys + {name} && Listed(infos, items.order)
      && (name !in items.order ==> Unlinked(items.nodes, items.order, name))
    }

    /** The contents of a node's item; those of a new, unlinked one if there is none. */
    method GetOrAddItem(name: Name) returns (v: Info)
      requires Linked() == true
      modifies items`nodes, gens
      ensures Ready(name) == true
      ensures fresh(items.nodes.Values - old(items.nodes.Values))
      ensures gens.last == old(ItemGeneration(View(), name)) && v == old(Item(View(), name))
    {
      hide Listed, Chain;
      ListedMember(infos, items.order, name);
      if name in items.nodes {
        v := infos[name];
      } else {
        var info := new NodeInfo.New(gens);
        items.AddItem(name);
        v := info.Value();
      }
    }

    method AddPodToInfo(v: Info, pod: Pod) returns (w: Info)
      modifies gens
      ensures gens.last == old(gens.last) + 1 && w == AddPodTo(v, pod, gens.last)
    {
      var info := new NodeInfo.Of(v);
      info.AddPod(pod, gens);
      w := info.Value();
    }

    /** The item of a node gets its new contents and becomes the head of the list. */
    method StoreAtHead(name: Name, v: Info)
      requires Ready(name) == true
      requires forall n :: n in infos ==> infos[n].generation < v.generation
      modifies this`infos, items`headNode, items`order, items.nodes.Values`next, items.nodes.Values`prev
      ensures Linked() == true
      ensures infos == old(infos)[name := v]
    {
      hide Items.Valid, Listed;
      TouchListed(infos, items.order, name, v);
      infos := infos[name := v];
      items.MoveToHead(name);
    }

    /** addPod: the pod joins its node, which becomes the head of the list. */
    method AddPodToList(pod: Pod)
      requires Linked() == true
      requires forall n :: n in infos ==> infos[n].generation <= gens.last
      modifies this`infos, items, items.nodes.Values, gens
      ensures Linked() == true
      ensures fresh(items.nodes.Values - old(items.nodes.Values))
      ensures gens.last == old(ItemGeneration(View(), pod.nodeName)) + 1
      ensures infos == old(infos)[pod.nodeName := AddPodTo(old(Item(View(), pod.nodeName)), pod, gens.last)]
    {
      hide Cache.Linked, Cache.Ready, Plus, Amount;
      var v := GetOrAddItem(pod.nodeName);
      v := AddPodToInfo(v, pod);
      StoreAtHead(pod.nodeName, v);
    }

    method PlacePod(pod: Pod)
      requires Valid() == true
      modifies this`infos, items, items.nodes.Values, gens
      ensures Valid() == true
      ensures fresh(items.nodes.Values - old(items.nodes.Values))
      ensures View() == Place(old(View()), pod)
    {
      hide Cache.Linked, NodeTree.Tree.Valid, NodeTree.Tree.Names, Plus, Amount;
      AddPodToList(pod);
      PlaceKeepsBounded(old(View()), pod);
    }

    method RemovePodFromInfo(v: Info, pod: Pod) returns (w: Info, r: Outcome)
      modifies gens
      ensures r == RemovalOutcome(v, pod.uid)
      ensures gens.last == old(gens.last) + if r == Ok then 1 else 0
      ensures w == Removed(v, pod, gens.last)
    {
      var info := new NodeInfo.Of(v);
      r := info.RemovePod(pod, gens);
      w := info.Value();
    }

    method DropItem(name: Name)
      requires Linked() == true
      requires name in items.nodes
      modifies this`infos, items, items.nodes.Values
      ensures Linked() == true
      ensures infos == old(infos) - {name}
      ensures items.nodes.Values <= old(items.nodes.Values)
    {
      ListedMember(infos, items.order, name);
      DropListed(infos, items.order, name);
      infos := infos - {name};
      items.Remove(name);
    }

    /** Contents that change without a new generation leave the item where it is. */
    method StoreInPlace(name: Name, v: Info)
      requires Linked() == true
      requires name in infos && v.generation == infos[name].generation
      modifies this`infos
      ensures Linked() == true
      ensures infos == old(infos)[name := v]
    {
      SameGenerationListed(infos, items.order, name, v);
      infos := infos[name := v];
    }

    /** An item that lost a pod or its Node: forgotten when nothing is left of it, else moved
        to the head. */
    method StoreOrDrop(name: Name, v: Info)
      requires Linked() == true
      requires name in items.nodes && forall n :: n in infos ==> infos[n].generation < v.generation
      modifies this`infos, items, items.nodes.Values
      ensures Linked() == true
      ensures infos == if v.pods == [] && v.node.None? then old(infos) - {name} else old(infos)[name := v]
      ensures items.nodes.Values <= old(items.nodes.Values)
    {
      hide Listed;
      if |v.pods| == 0 && v.node == None {
        DropItem(name);
      } else {
        ListedMember(infos, items.order, name);
        StoreAtHead(name, v);
      }
    }

    /** removePod for a known node: a pod the node does not list is an error. */
    method RemoveFromItem(pod: Pod) returns (r: Outcome)
      requires Linked() == true
      requires forall n :: n in infos ==> infos[n].generation <= gens.last
      requires pod.nodeName in items.nodes
      modifies this`infos, items, items.nodes.Values, gens
      ensures Linked() == true
      ensures items.nodes.Values <= old(items.nodes.Values)
      ensures r == RemovalOutcome(old(infos)[pod.nodeName], pod.uid)
      ensures gens.last == old(gens.last) + if r == Ok then 1 else 0
      ensures infos == Left(old(infos), pod, gens.last)
    {
      hide Items.Valid, Listed, ItemGeneration;
      var v;
      v, r := RemovePodFromInfo(infos[pod.nodeName], pod);
      if r == Ok {
        StoreOrDrop(pod.nodeName, v);
      } else {
        StoreInPlace(pod.nodeName, v);
      }
    }

    method UnplaceKnownPod(pod: Pod) returns (r: Outcome)
      requires Valid() == true
      requires pod.nodeName in infos
      modifies this`infos, items, items.nodes.Values, gens
      ensures Valid() == true
      ensures items.nodes.Values <= old(items.nodes.Values)
      ensures (View(), r) == Unplace(old(View()), pod)
    {
      hide Items.Valid, Listed, NodeTree.Tree.Valid, NodeTree.Tree.Names, Left;
      r := RemoveFromItem(pod);
      UnplacedByField(old(View()), pod, View());
      UnplaceKeepsBounded(old(View()), pod);
    }

    /** removePod: a pod of an unknown node is ignored. */
    method UnplacePod(pod: Pod) returns (r: Outcome)
      requires Valid() == true
      modifies this`infos, items, items.nodes.Values, gens
      ensures Valid() == true
      ensures items.nodes.Values <= old(items.nodes.Values)
      ensures (View(), r) == Unplace(old(View()), pod)
    {
      r := Ok;
      if pod.nodeName in items.nodes {
        r := UnplaceKnownPod(pod);
      }
    }

    // ---------- Pod events ----------

    method SetPodStates(states: map<Name, PodState>, assumed: set<Name>)
      requires Valid() == true
      modifies this`podStates, this`assumedPods
      ensures Valid() == true
      ensures View() == old(View()).(podStates := states, assumed := assumed)
    {
      hide Items.Valid, Listed, NodeTree.Tree.Valid, NodeTree.Tree.Names;
      podStates, assumedPods := states, assumed;
    }

    method AssumePod(pod: Pod) returns (r: Outcome)
      requires Valid() == true
      modifies this, items, items.nodes.Values, gens
      ensures Valid() == true
      ensures fresh(items.nodes.Values - old(items.nodes.Values))
      ensures (View(), r) == CacheModel.AssumePod(old(View()), pod)
    {
      hide Cache.Valid, Place, NodeTree.Tree.Names;
      if pod.uid == EmptyName || pod.uid in podStates {
        return Err;
      }
      PlacePod(pod);
      SetPodStates(podStates[pod.uid := PodState(pod, None, false)], assumedPods + {pod.uid});
      return Ok;
    }

    method FinishBinding(uid: Name, now: int) returns (r: Outcome)
      requires Valid() == true
      modifies this`podStates
      ensures Valid() == true
      ensures (View(), r) == CacheModel.FinishBinding(old(View()), uid, now + ttl)
    {
      hide Items.Valid, Listed, NodeTree.Tree.Valid, NodeTree.Tree.Names;
      if uid == EmptyName {
        return Err;
      }
      if uid in podStates && uid in assumedPods {
        podStates := podStates[uid := PodState(podStates[uid].pod, Some(now + ttl), true)];
      }
      return Ok;
    }

    /** Takes a pod out of its node and its key out of the pod states. */
    method ReleasePod(pod: Pod, key: Name) returns (r: Outcome)
      requires Valid() == true
      modifies this, items, items.nodes.Values, gens
      ensures Valid() == true
      ensures items.nodes.Values <= old(items.nodes.Values)
      ensures (View(), r) == Release(old(View()), pod, key)
    {
      hide Cache.Valid, Unplace, NodeTree.Tree.Names;
      r := UnplacePod(pod);
      if r != Ok {
        return;
      }
      SetPodStates(podStates - {key}, assumedPods - {key});
      return Ok;
    }

    method ForgetPod(pod: Pod) returns (r: Outcome)
      requires Valid() == true
      modifies this, items, items.nodes.Values, gens
      ensures Valid() == true
      ensures items.nodes.Values <= old(items.nodes.Values)
      ensures (View(), r) == CacheModel.ForgetPod(old(View()), pod)
    {
      hide Cache.Valid, Unplace, Release, NodeTree.Tree.Names;
      if pod.uid == EmptyName {
        return Err;
      }
      if pod.uid in podStates && podStates[pod.uid].pod.nodeName != pod.nodeName {
        return Err;
      }
      if pod.uid in podStates && pod.uid in assumedPods {
        r := ReleasePod(pod, pod.uid);
      } else {
        r := Err;
      }
    }

    /** Takes a pod out of its node, if it is there, and adds it to another one. */
    method Relocate(oldPod: Pod, newPod: Pod) returns (r: Outcome)
      requires Valid() == true
      modifies this`infos, items, items.nodes.Values, gens
      ensures Valid() == true
      ensures fresh(items.nodes.Values - old(items.nodes.Values))
      ensures (View(), r) == CacheModel.Relocate(old(View()), oldPod, newPod)
    {
      hide Cache.Valid, Place, Unplace, NodeTree.Tree.Names;
      r := UnplacePod(oldPod);
      if r == Fatal {
        return;
      }
      PlacePod(newPod);
      r := Ok;
    }

    /** Confirms an assumed pod, moving it when it was assumed on another node. */
    method Confirm(pod: Pod) returns (r: Outcome)
      requires Valid() == true
      requires pod.uid != EmptyName && pod.uid in podStates && pod.uid in assumedPods
      modifies this, items, items.nodes.Values, gens
      ensures Valid() == true
      ensures fresh(items.nodes.Values - old(items.nodes.Values))
      ensures (View(), r) == CacheModel.AddPod(old(View()), pod)
    {
      hide Cache.Valid, Place, Unplace, NodeTree.Tree.Names;
      var key := pod.uid;
      r := Ok;
      if podStates[key].pod.nodeName != pod.nodeName {
        r := Relocate(podStates[key].pod, pod);
        if r == Fatal {
          return;
        }
      }
      SetPodStates(podStates[key := PodState(pod, None, podStates[key].bindingFinished)], assumedPods - {key});
    }

    method AddPod(pod: Pod) returns (r: Outcome)
      requires Valid() == true
      modifies this, items, items.nodes.Values, gens
      ensures Valid() == true
      ensures fresh(items.nodes.Values - old(items.nodes.Values))
      ensures (View(), r) == CacheModel.AddPod(old(View()), pod)
    {
      hide Cache.Valid, Place, Unplace, NodeTree.Tree.Names;
      var key := pod.uid;
      if key == EmptyName {
        return Err;
      }
      if key in podStates && key in assumedPods {
        r := Confirm(pod);
        return;
      }
      if key !in podStates {
        PlacePod(pod);
        SetPodStates(podStates[key := PodState(pod, None, false)], assumedPods);
        return Ok;
      }
      return Err;
    }

    /** updatePod. */
    method ReplacePod(oldPod: Pod, newPod: Pod) returns (r: Outcome)
      requires Valid() == true
      modifies this`infos, items, items.nodes.Values, gens
      ensures Valid() == true
      ensures fresh(items.nodes.Values - old(items.nodes.Values))
      ensures r == Unplace(old(View()), oldPod).1
      ensures r == Ok ==> View() == Place(Unplace(old(View()), oldPod).0, newPod)
      ensures r != Ok ==> View() == Unplace(old(View()), oldPod).0
    {
      hide *;
      r := UnplacePod(oldPod);
      if r == Ok {
        PlacePod(newPod);
      }
    }

    method UpdatePod(oldPod: Pod, newPod: Pod) returns (r: Outcome)
      requires Valid() == true
      modifies this, items, items.nodes.Values, gens
      ensures Valid() == true
      ensures fresh(items.nodes.Values - old(items.nodes.Values))
      ensures (View(), r) == CacheModel.UpdatePod(old(View()), oldPod, newPod)
    {
      hide Cache.Valid, Place, Unplace, NodeTree.Tree.Names;
      var key := oldPod.uid;
      if key == EmptyName {
        return Err;
      }
      if key !in podStates || key in assumedPods {
        return Err;
      }
      if podStates[key].pod.nodeName != newPod.nodeName {
        return Fatal;
      }
      r := ReplacePod(oldPod, newPod);
      if r != Ok {
        return;
      }
      SetPodStates(podStates[key := podStates[key].(pod := newPod)], assumedPods);
      return Ok;
    }

    method RemovePod(pod: Pod) returns (r: Outcome)
      requires Valid() == true
      modifies this, items, items.nodes.Values, gens
      ensures Valid() == true
      ensures items.nodes.Values <= old(items.nodes.Values)
      ensures (View(), r) == CacheModel.RemovePod(old(View()), pod)
    {
      hide Cache.Valid, Release, NodeTree.Tree.Names;
      var key := pod.uid;
      if key == EmptyName {
        return Err;
      }
      if key in podStates && key !in assumedPods {
        if podStates[key].pod.nodeName != pod.nodeName {
          return Fatal;
        }
        r := ReleasePod(podStates[key].pod, key);
      } else {
        r := Err;
      }
    }

    /** One turn of cleanupAssumedPods. */
    method CleanUpPod(key: Name, now: int) returns (r: Outcome)
      requires Valid() == true
      modifies this, items, items.nodes.Values, gens
      ensures Valid() == true
      ensures items.nodes.Values <= old(items.nodes.Values)
      ensures (View(), r) == CleanUp(old(View()), key, now)
    {
      hide Cache.Valid, Release, NodeTree.Tree.Names;
      if key !in podStates {
        return Fatal;
      }
      if !podStates[key].bindingFinished {
        return Ok;
      }
      if podStates[key].deadline.None? {
        return Fatal;
      }
      if now > podStates[key].deadline.value {
        r := ReleasePod(podStates[key].pod, key);
      } else {
        r := Ok;
      }
    }

    method CleanUpTurn(key: Name, now: int, ghost before: CacheState, ghost keys: seq<Name>) returns (o: Outcome)
      requires Valid() == true
      requires View() == CleanUpAll(before, keys, now)
      modifies this, items, items.nodes.Values, gens
      ensures Valid() == true
      ensures items.nodes.Values <= old(items.nodes.Values)
      ensures View() == CleanUpAll(before, keys + [key], now)
      ensures Uneventful(before, keys + [key], now) <==> Uneventful(before, keys, now) && o != Fatal
    {
      hide Cache.Valid, CleanUpAll, Uneventful, Unplace, NodeTree.Tree.Names;
      o := CleanUpPod(key, now);
      CleanUpNext(before, keys, key, now);
    }

    /** cleanupAssumedPods: every assumed pod gets one turn, in any order, up to one that ends the
        process. */
    method CleanUpAssumedPods(now: int) returns (r: Outcome, ghost keys: seq<Name>)
      requires Valid() == true
      modifies this, items, items.nodes.Values, gens
      ensures Valid() == true
      ensures items.nodes.Values <= old(items.nodes.Values)
      ensures NoDup(keys) && Elements(keys) <= old(assumedPods)
      ensures View() == CleanUpAll(old(View()), keys, now)
      ensures r == if Uneventful(old(View()), keys, now) then Ok else Fatal
      ensures r == Ok ==> Elements(keys) == old(assumedPods)
      ensures r == Fatal ==> keys != [] && Uneventful(old(View()), keys[..|keys| - 1], now)
    {
      hide Cache.Valid, CleanUp;
      keys := [];
      var todo := assumedPods;
      while todo != {}
        invariant Valid() == true
        invariant items.nodes.Values <= old(items.nodes.Values)
        invariant NoDup(keys) && Elements(keys) == old(assumedPods) - todo && todo <= old(assumedPods)
        invariant View() == CleanUpAll(old(View()), keys, now) && Uneventful(old(View()), keys, now)
        decreases todo
      {
        var key :| key in todo;
        AppendElement(keys, key);
        var o := CleanUpTurn(key, now, old(View()), keys);
        assert (keys + [key])[..|keys|] == keys;
        keys := keys + [key];
        if o == Fatal {
          return Fatal, keys;
        }
        todo := todo - {key};
      }
      r := Ok;
    }

    // ---------- Node events ----------

    method SetNodeInInfo(v: Info, node: Node) returns (w: Info)
      modifies gens
      ensures gens.last == old(gens.last) + 1 && w == SetNodeOf(v, node, gens.last)
    {
      var info := new NodeInfo.Of(v);
      info.SetNode(node, gens);
      w := info.Value();
    }

    /** The item of a node takes on a Node object. */
    method SetNodeInList(node: Node)
      requires Linked() == true
      requires forall n :: n in infos ==> infos[n].generation <= gens.last
      modifies this`infos, items, items.nodes.Values, gens
      ensures Linked() == true
      ensures fresh(items.nodes.Values - old(items.nodes.Values))
      ensures gens.last == old(ItemGeneration(View(), node.name)) + 1
      ensures infos == old(infos)[node.name := SetNodeOf(old(Item(View(), node.name)), node, gens.last)]
    {
      hide Cache.Linked, Cache.Ready, Allocatable;
      var v := GetOrAddItem(node.name);
      v := SetNodeInInfo(v, node);
      StoreAtHead(node.name, v);
    }

    method SetNode(node: Node)
      requires Valid() == true
      modifies this`infos, items, items.nodes.Values, gens
      ensures Valid() == true
      ensures fresh(items.nodes.Values - old(items.nodes.Values))
      ensures View() == CacheModel.SetNode(old(View()), node)
    {
      hide Cache.Linked, NodeTree.Tree.Valid, NodeTree.Tree.Names, Allocatable;
      SetNodeInList(node);
      NodeEventsKeepBounded(old(View()), node);
    }

    method AddToTree(name: Name)
      requires Valid() == true
      modifies nodeTree
      ensures Valid() == true
      ensures View() == old(View()).(tree := old(View()).tree + {name})
    {
      hide Cache.Linked, NodeTree.Consistent, NodeTree.NamesIn;
      nodeTree.AddNode(name);
    }

    method AddNode(node: Node) returns (r: Outcome)
      requires Valid() == true
      modifies this, items, items.nodes.Values, gens, nodeTree
      ensures Valid() == true
      ensures fresh(items.nodes.Values - old(items.nodes.Values))
      ensures (View(), r) == CacheModel.AddNode(old(View()), node)
    {
      hide Cache.Valid, CacheModel.SetNode, NodeTree.Tree.Names;
      SetNode(node);
      AddToTree(node.name);
      return Ok;
    }

    /** The old Node matters by its zone alone: an update between zones, of two names, moves the
        name in the tree as well. */
    method UpdateNode(oldName: Name, node: Node) returns (r: Outcome)
      requires Valid() == true
      modifies this, items, items.nodes.Values, gens, nodeTree
      ensures Valid() == true
      ensures fresh(items.nodes.Values - old(items.nodes.Values))
      ensures (View(), r) ==
        var (s, outcome) := CacheModel.UpdateNode(old(View()), node);
        (s.(tree := Rezoned(nodeTree.zoneOf, s.tree, oldName, node.name)), outcome)
      ensures oldName == node.name ==> (View(), r) == CacheModel.UpdateNode(old(View()), node)
    {
      hide Cache.Valid, CacheModel.SetNode, NodeTree.Tree.Names;
      var known := node.name in infos;
      SetNode(node);
      if !known {
        AddToTree(node.name);
      }
      UpdateTree(oldName, node.name);
      return Ok;
    }

    method UpdateTree(oldName: Name, newName: Name)
      requires Valid() == true
      modifies nodeTree
      ensures Valid() == true
      ensures View() == old(View()).(tree := Rezoned(nodeTree.zoneOf, old(View()).tree, oldName, newName))
    {
      hide Cache.Linked, NodeTree.Tree.Valid, NodeTree.Tree.Names;
      nodeTree.UpdateNode(oldName, newName);
    }

    method ClearNodeInInfo(v: Info) returns (w: Info)
      modifies gens
      ensures gens.last == old(gens.last) + 1 && w == v.(node := None, generation := gens.last)
    {
      var info := new NodeInfo.Of(v);
      info.RemoveNode(gens);
      w := info.Value();
    }

    /** The item of a node loses its Node object; it stays, as a ghost, while it has pods. */
    method ClearNodeInList(n: Name)
      requires Linked() == true
      requires n in infos && forall m :: m in infos ==> infos[m].generation <= gens.last
      modifies this`infos, items, items.nodes.Values, gens
      ensures Linked() == true
      ensures items.nodes.Values <= old(items.nodes.Values)
      ensures gens.last == old(gens.last) + 1
      ensures infos == Cleared(old(infos), n, gens.last)
    {
      hide Items.Valid, Listed;
      var v := ClearNodeInInfo(infos[n]);
      StoreOrDrop(n, v);
    }

    method ClearNode(n: Name)
      requires Valid() == true
      requires n in infos
      modifies this`infos, items, items.nodes.Values, gens
      ensures Valid() == true
      ensures items.nodes.Values <= old(items.nodes.Values)
      ensures View() == CacheModel.ClearNode(old(View()), n)
    {
      hide Cache.Linked, NodeTree.Tree.Valid, Cleared, CacheModel.ClearNode;
      ClearNodeInList(n);
      ClearedByField(old(View()), n, View());
      NodeEventsKeepBounded(old(View()), Node(n, map[], 0));
    }

    method RemoveFromTree(n: Name) returns (ok: bool)
      requires Valid() == true
      modifies nodeTree
      ensures Valid() == true
      ensures ok == (n in old(View()).tree)
      ensures View() == old(View()).(tree := old(View()).tree - {n})
    {
      hide Cache.Linked, NodeTree.Consistent, NodeTree.NamesIn;
      ok := nodeTree.RemoveNode(n);
    }

    method RemoveNode(n: Name) returns (r: Outcome)
      requires Valid() == true
      modifies this, items, items.nodes.Values, gens, nodeTree
      ensures Valid() == true
      ensures items.nodes.Values <= old(items.nodes.Values)
      ensures (View(), r) == CacheModel.RemoveNode(old(View()), n)
    {
      hide Items.Valid, Listed, Bounded, CacheModel.ClearNode, NodeTree.Tree.Valid, NodeTree.Tree.Names;
      if n !in items.nodes {
        return Err;
      }
      ClearNode(n);
      var ok := RemoveFromTree(n);
      return if ok then Ok else Err;
    }
  }

  lemma UnplacedByField(s: CacheState, pod: Pod, t: CacheState)
    requires pod.nodeName in s.nodes
    requires t.generation == s.generation + if RemovalOutcome(s.nodes[pod.nodeName], pod.uid) == Ok then 1 else 0
    requires t.nodes == Left(s.nodes, pod, t.generation)
    requires t.podStates == s.podStates && t.assumed == s.assumed && t.tree == s.tree
    ensures t == Unplace(s, pod).0
  {
  }

  lemma ClearedByField(s: CacheState, n: Name, t: CacheState)
    requires n in s.nodes
    requires t.generation == s.generation + 1
    requires t.nodes == Cleared(s.nodes, n, t.generation)
    requires t.podStates == s.podStates && t.assumed == s.assumed && t.tree == s.tree
    ensures t == CacheModel.ClearNode(s, n)
  {
  }
}
