/** Conservation over runs of the scheduler cache: every item's aggregates equal the sums
    over its pods, and hence what a full rebuild computes. */
module CacheConservation {
  import opened Wrappers
  import opened NodeInfo
  import opened CacheModel

  /** Two versions of a pod that ask for the same resources and, where `ports` is set, for the
      same host ports. */
  ghost predicate SameDemand(a: Pod, b: Pod, ports: bool) {
    SameRequests(a, b) && (ports ==> PortsOf(a) == PortsOf(b))
  }

  ghost predicate NoSharedPorts(pods: seq<Pod>) {
    forall i, j :: 0 <= i < j < |pods| ==> PortsOf(pods[i]) !! PortsOf(pods[j])
  }

  ghost predicate NoSharedPortsAnywhere(s: CacheState) {
    forall n :: n in s.nodes ==> NoSharedPorts(s.nodes[n].pods)
  }

  /** The derived fields of an item are those of its pods and its Node; the used ports only
      where `ports` is set. */
  ghost predicate Exact(v: Info, ports: bool) {
    && Conserved(v) && AffinityListed(v)
    && (ports ==> v.usedPorts == UnionPorts(v.pods))
    && (v.node.Some? ==> v.allocatable == Allocatable(v.node.value))
  }

  /** The versions an item holds ask for what the pod states say. */
  ghost predicate VersionsAgree(v: Info, ps: map<Name, PodState>, ports: bool) {
    forall i :: 0 <= i < |v.pods| && v.pods[i].uid in ps ==> SameDemand(ps[v.pods[i].uid].pod, v.pods[i], ports)
  }

  ghost predicate PodsName(v: Info, n: Name) {
    forall i :: 0 <= i < |v.pods| ==> v.pods[i].nodeName == n
  }

  ghost predicate ItemsExact(nodes: map<Name, Info>, ps: map<Name, PodState>, ports: bool) {
    forall n :: n in nodes ==> Exact(nodes[n], ports) && VersionsAgree(nodes[n], ps, ports) && PodsName(nodes[n], n)
  }

  /** What the events must pass: a version that is taken out of a node, or that confirms an
      assumed pod in place, asks for what the cached version asks for; and, where `ports` is
      set, no two pods of a node share a host port. */
  ghost predicate Agreeing(s: CacheState, e: Event, ports: bool) {
    && (ports ==> NoSharedPortsAnywhere(s))
    && match e
       case Forget(pod) => pod.uid in s.podStates ==> SameDemand(pod, s.podStates[pod.uid].pod, ports)
       case Add(pod) => pod.uid in s.podStates ==> SameDemand(pod, s.podStates[pod.uid].pod, ports)
       case Update(oldPod, _) => oldPod.uid in s.podStates ==> SameDemand(oldPod, s.podStates[oldPod.uid].pod, ports)
       case _ => true
  }

  ghost predicate AgreeingRun(s: CacheState, es: seq<Event>, ports: bool) {
    es == [] || (AgreeingRun(s, es[..|es| - 1], ports) && Agreeing(Run(s, es[..|es| - 1]), es[|es| - 1], ports))
  }

  // ---------- One item ----------

  lemma UnionAfterAdd(pods: seq<Pod>, pod: Pod)
    ensures UnionPorts(pods + [pod]) == UnionPorts(pods) + PortsOf(pod)
  {
    var q := pods + [pod];
    forall p ensures p in UnionPorts(q) <==> p in UnionPorts(pods) || p in PortsOf(pod) {
      if p in UnionPorts(pods) {
        var i :| 0 <= i < |pods| && p in PortsOf(pods[i]);
        assert p in PortsOf(q[i]);
      }
      if p in PortsOf(pod) { assert p in PortsOf(q[|pods|]); }
    }
  }

  lemma AddedIsExact(v: Info, pod: Pod, g: int, ports: bool)
    requires Exact(v, ports) && DistinctUids(v.pods) && pod.uid !in Uids(v)
    ensures Exact(AddPodTo(v, pod, g), ports)
  {
    HasUidMeansListed(v, pod.uid);
    AddPodConserves(v, pod, g);
    AddPodListsAffinity(v, pod, g);
    UnionAfterAdd(v.pods, pod);
  }

  lemma AddedAgrees(v: Info, ps: map<Name, PodState>, pod: Pod, g: int, st: PodState, ports: bool)
    requires VersionsAgree(v, ps, ports) && pod.uid !in Uids(v) && st.pod == pod
    ensures VersionsAgree(AddPodTo(v, pod, g), ps[pod.uid := st], ports)
  {
    var w := AddPodTo(v, pod, g);
    forall i | 0 <= i < |w.pods| && w.pods[i].uid in ps[pod.uid := st]
      ensures SameDemand(ps[pod.uid := st][w.pods[i].uid].pod, w.pods[i], ports)
    {
      if i < |v.pods| { assert v.pods[i].uid in Uids(v); }
    }
  }

  lemma OtherPortsDisjoint(pods: seq<Pod>, i: nat)
    requires NoSharedPorts(pods) && i < |pods|
    ensures PortsOf(pods[i]) !! UnionPorts(SwapRemove(pods, i))
  {
    var rest := SwapRemove(pods, i);
    SwapRemoveMembers(pods, i);
    forall p | p in UnionPorts(rest) ensures p !in PortsOf(pods[i]) {
      var j :| 0 <= j < |rest| && p in PortsOf(rest[j]);
      assert rest[j] in rest;
      var k :| 0 <= k < |pods| && k != i && pods[k] == rest[j];
      assert PortsOf(pods[if i < k then i else k]) !! PortsOf(pods[if i < k then k else i]);
    }
  }

  lemma RemovedIsExact(v: Info, ps: map<Name, PodState>, pod: Pod, g: int, ports: bool)
    requires Exact(v, ports) && VersionsAgree(v, ps, ports) && DistinctUids(v.pods)
    requires ports ==> NoSharedPorts(v.pods)
    requires HasUid(v, pod.uid) && pod.uid in ps && SameDemand(pod, ps[pod.uid].pod, ports)
    ensures Exact(RemovePodFrom(v, pod, g), ports)
    ensures VersionsAgree(RemovePodFrom(v, pod, g), ps - {pod.uid}, ports)
    ensures forall p :: p in RemovePodFrom(v, pod, g).pods ==> p in v.pods
  {
    var i := IndexOf(v.pods, pod.uid);
    assert SameDemand(ps[pod.uid].pod, v.pods[i], ports);
    RemovePodConservesIff(v, pod, g);
    RemovePodListsAffinity(v, pod, g);
    if ports {
      OtherPortsDisjoint(v.pods, i);
      RemovePodKeepsPortsIff(v, pod, g);
    }
    var w := RemovePodFrom(v, pod, g);
    SwapRemoveMembers(v.pods, i);
    forall j | 0 <= j < |w.pods| && w.pods[j].uid in ps - {pod.uid}
      ensures SameDemand(ps[w.pods[j].uid].pod, w.pods[j], ports)
    {
      assert w.pods[j] in w.pods;
    }
  }

  /** Pods with other keys do not matter to an item. */
  lemma OtherKeysDoNotMatter(v: Info, ps: map<Name, PodState>, key: Name, newPs: map<Name, PodState>, ports: bool)
    requires VersionsAgree(v, ps, ports) && key !in Uids(v)
    requires forall k :: k in newPs && k != key ==> k in ps && newPs[k] == ps[k]
    ensures VersionsAgree(v, newPs, ports)
  {
    forall i | 0 <= i < |v.pods| && v.pods[i].uid in newPs
      ensures SameDemand(newPs[v.pods[i].uid].pod, v.pods[i], ports)
    {
      assert v.pods[i].uid in Uids(v);
    }
  }

  /** A pod is in no item but that of its node. */
  lemma NotElsewhere(nodes: map<Name, Info>, tree: set<Name>, ps: map<Name, PodState>, key: Name, m: Name)
    requires ItemsHold(nodes, tree, ps) && m in nodes
    requires key !in ps || ps[key].pod.nodeName != m
    ensures key !in Uids(nodes[m])
  {
    assert ItemHolds(nodes[m], m, Assigned(ps, m), m in tree);
  }

  // ---------- The operations ----------

  lemma UnplaceExact(s: CacheState, pod: Pod, ports: bool)
    requires ItemsHold(s.nodes, s.tree, s.podStates) && ItemsExact(s.nodes, s.podStates, ports)
    requires pod.uid in s.podStates && s.podStates[pod.uid].pod.nodeName == pod.nodeName
    requires SameDemand(pod, s.podStates[pod.uid].pod, ports)
    requires ports ==> NoSharedPorts(s.nodes[pod.nodeName].pods)
    ensures ItemsExact(Unplace(s, pod).0.nodes, s.podStates - {pod.uid}, ports)
  {
    var n, key := pod.nodeName, pod.uid;
    var v := s.nodes[n];
    assert ItemHolds(v, n, Assigned(s.podStates, n), n in s.tree) && key in Assigned(s.podStates, n);
    HasUidMeansListed(v, key);
    RemovedIsExact(v, s.podStates, pod, s.generation + 1, ports);
    var w := RemovePodFrom(v, pod, s.generation + 1);
    assert PodsName(w, n) by {
      assert forall i :: 0 <= i < |w.pods| ==> w.pods[i] in w.pods;
    }
    forall m | m in s.nodes && m != n ensures VersionsAgree(s.nodes[m], s.podStates - {key}, ports) {
      NotElsewhere(s.nodes, s.tree, s.podStates, key, m);
      OtherKeysDoNotMatter(s.nodes[m], s.podStates, key, s.podStates - {key}, ports);
    }
    SetExactItem(s.nodes, n, w, s.podStates - {key}, ports);
    UnplaceRemoves(s, pod);
  }

  lemma PlaceExact(s: CacheState, pod: Pod, ps: map<Name, PodState>, st: PodState, ports: bool)
    requires ItemsHold(s.nodes, s.tree, ps) && ItemsExact(s.nodes, ps, ports)
    requires pod.uid !in ps && st.pod == pod
    ensures ItemsExact(Place(s, pod).nodes, ps[pod.uid := st], ports) == true
  {
    var n, g := pod.nodeName, ItemGeneration(s, pod.nodeName) + 1;
    ItemIsExact(s, ps, n, pod.uid, ports);
    AddedItemExact(Item(s, n), ps, pod, g, st, ports);
    AddedItemsExact(s.nodes, s.tree, ps, n, AddPodTo(Item(s, n), pod, g), pod.uid, st, ports);
    PlaceSetsItem(s, pod);
  }

  lemma AddedItemsExact(
    nodes: map<Name, Info>, tree: set<Name>, ps: map<Name, PodState>, n: Name, w: Info, key: Name, st: PodState,
      ports: bool)
    requires ItemsHold(nodes, tree, ps) && ItemsExact(nodes, ps, ports) && key !in ps
    requires Exact(w, ports) && VersionsAgree(w, ps[key := st], ports) && PodsName(w, n)
    ensures ItemsExact(nodes[n := w], ps[key := st], ports)
  {
    hide Exact, PodsName;
    forall m | m in nodes && m != n ensures VersionsAgree(nodes[m], ps[key := st], ports) {
      NotElsewhere(nodes, tree, ps, key, m);
      OtherKeysDoNotMatter(nodes[m], ps, key, ps[key := st], ports);
    }
  }

  lemma SetExactItem(nodes: map<Name, Info>, n: Name, v: Info, ps: map<Name, PodState>, ports: bool)
    requires forall m :: m in nodes && m != n ==>
      Exact(nodes[m], ports) && VersionsAgree(nodes[m], ps, ports) && PodsName(nodes[m], m)
    requires Exact(v, ports) && VersionsAgree(v, ps, ports) && PodsName(v, n)
    ensures ItemsExact(nodes[n := v], ps, ports) && ItemsExact(nodes - {n}, ps, ports)
  {
  }

  lemma ItemIsExact(s: CacheState, ps: map<Name, PodState>, n: Name, key: Name, ports: bool)
    requires ItemsHold(s.nodes, s.tree, ps) && ItemsExact(s.nodes, ps, ports) && key !in ps
    ensures var base := Item(s, n);
      Exact(base, ports) && VersionsAgree(base, ps, ports) && PodsName(base, n) && DistinctUids(base.pods)
        && key !in Uids(base)
  {
    if n in s.nodes {
      NotElsewhere(s.nodes, s.tree, ps, key, n);
      assert ItemHolds(s.nodes[n], n, Assigned(ps, n), n in s.tree);
    }
  }

  lemma AddedItemExact(base: Info, ps: map<Name, PodState>, pod: Pod, g: int, st: PodState, ports: bool)
    requires Exact(base, ports) && VersionsAgree(base, ps, ports) && PodsName(base, pod.nodeName)
    requires DistinctUids(base.pods) && pod.uid !in Uids(base) && st.pod == pod
    ensures var w := AddPodTo(base, pod, g);
      Exact(w, ports) && VersionsAgree(w, ps[pod.uid := st], ports) && PodsName(w, pod.nodeName)
  {
    AddedIsExact(base, pod, g, ports);
    AddedAgrees(base, ps, pod, g, st, ports);
  }

  lemma ReplaceExact(s: CacheState, oldPod: Pod, newPod: Pod, st: PodState, ports: bool)
    requires ItemsHold(s.nodes, s.tree, s.podStates) && ItemsExact(s.nodes, s.podStates, ports)
    requires oldPod.uid in s.podStates && s.podStates[oldPod.uid].pod.nodeName == oldPod.nodeName
    requires SameDemand(oldPod, s.podStates[oldPod.uid].pod, ports)
    requires ports ==> NoSharedPorts(s.nodes[oldPod.nodeName].pods)
    requires newPod.uid == oldPod.uid && st.pod == newPod
    ensures Unplace(s, oldPod).1 == Ok
    ensures ItemsExact(Place(Unplace(s, oldPod).0, newPod).nodes, s.podStates[oldPod.uid := st], ports)
  {
    hide Exact, VersionsAgree, PodsName, NoSharedPorts, DistinctUids, AffinityListed;
    UnplaceKeeps(s, oldPod);
    UnplaceExact(s, oldPod, ports);
    OnlyItemsChange(s, oldPod);
    PlaceExact(Unplace(s, oldPod).0, newPod, s.podStates - {oldPod.uid}, st, ports);
    Reinsert(s.podStates, oldPod.uid, st);
  }

  /** Confirming a pod in place with a version that asks for the same. */
  lemma ConfirmExact(s: CacheState, key: Name, st: PodState, ports: bool)
    requires ItemsExact(s.nodes, s.podStates, ports) && key in s.podStates
    requires SameDemand(st.pod, s.podStates[key].pod, ports)
    ensures ItemsExact(s.nodes, s.podStates[key := st], ports)
  {
  }

  lemma ReleaseExact(s: CacheState, pod: Pod, ports: bool)
    requires Sound(s) == true
    requires ItemsExact(s.nodes, s.podStates, ports) == true
    requires pod.uid in s.podStates && s.podStates[pod.uid].pod.nodeName == pod.nodeName
    requires SameDemand(pod, s.podStates[pod.uid].pod, ports)
    requires ports ==> NoSharedPorts(s.nodes[pod.nodeName].pods)
    ensures var t := Release(s, pod, pod.uid).0; ItemsExact(t.nodes, t.podStates, ports)
  {
    hide Exact, VersionsAgree, PodsName, NoSharedPorts, DistinctUids, AffinityListed;
    UnplaceKeeps(s, pod);
    UnplaceExact(s, pod, ports);
    OnlyItemsChange(s, pod);
  }

  lemma AddPodExact(s: CacheState, pod: Pod, ports: bool)
    requires Sound(s) && ItemsExact(s.nodes, s.podStates, ports) && Agreeing(s, Add(pod), ports)
    ensures var t := AddPod(s, pod).0; ItemsExact(t.nodes, t.podStates, ports)
  {
    hide Exact, VersionsAgree, PodsName, NoSharedPorts, DistinctUids, AffinityListed;
    var key := pod.uid;
    if key != EmptyName {
      if key in s.podStates && key in s.assumed {
        var cached := s.podStates[key].pod;
        var st := PodState(pod, None, s.podStates[key].bindingFinished);
        if cached.nodeName != pod.nodeName {
          ReplaceExact(s, cached, pod, st, ports);
          AddPodMoves(s, pod);
        } else {
          ConfirmExact(s, key, st, ports);
        }
      } else if key !in s.podStates {
        PlaceExact(s, pod, s.podStates, PodState(pod, None, false), ports);
      }
    }
  }

  lemma UpdatePodExact(s: CacheState, oldPod: Pod, newPod: Pod, ports: bool)
    requires Sound(s) && ItemsExact(s.nodes, s.podStates, ports)
    requires Agreeing(s, Update(oldPod, newPod), ports) && NoStraySource(s, oldPod, newPod)
    ensures var t := UpdatePod(s, oldPod, newPod).0; ItemsExact(t.nodes, t.podStates, ports)
  {
    hide Exact, VersionsAgree, PodsName, NoSharedPorts, DistinctUids, AffinityListed;
    var key := oldPod.uid;
    if Updates(s, oldPod, newPod) {
      var n := oldPod.nodeName;
      HasUidMeansListed(s.nodes[n], key);
      if HasUid(s.nodes[n], key) {
        assert ItemHolds(s.nodes[n], n, Assigned(s.podStates, n), n in s.tree);
        ReplaceExact(s, oldPod, newPod, s.podStates[key].(pod := newPod), ports);
        UpdatePodReplaces(s, oldPod, newPod);
      } else {
        MissedUnplace(s, oldPod);
      }
    }
  }

  /** An item whose Node and allocatable amounts change. */
  lemma SetNodeExact(nodes: map<Name, Info>, ps: map<Name, PodState>, base: Info, node: Node, g: int, ports: bool)
    requires ItemsExact(nodes, ps, ports) == true
    requires Exact(base, ports) == true && VersionsAgree(base, ps, ports) == true && PodsName(base, node.name) == true
    ensures ItemsExact(nodes[node.name := SetNodeOf(base, node, g)], ps, ports) == true
  {
    SetExactItem(nodes, node.name, SetNodeOf(base, node, g), ps, ports);
  }

  lemma ClearNodeExact(nodes: map<Name, Info>, ps: map<Name, PodState>, n: Name, g: int, ports: bool)
    requires ItemsExact(nodes, ps, ports) && n in nodes
    ensures ItemsExact(Cleared(nodes, n, g), ps, ports)
  {
    SetExactItem(nodes, n, nodes[n].(node := None, generation := g), ps, ports);
  }

  lemma BaseIsExact(s: CacheState, n: Name, ports: bool)
    requires ItemsExact(s.nodes, s.podStates, ports)
    ensures Exact(Item(s, n), ports) == true
    ensures VersionsAgree(Item(s, n), s.podStates, ports) == true
    ensures PodsName(Item(s, n), n) == true
  {
  }

  /** A node event changes no item but in its Node and allocatable amounts. */
  lemma NodeEventsExact(s: CacheState, node: Node, ports: bool)
    requires ItemsExact(s.nodes, s.podStates, ports)
    ensures ItemsExact(AddNode(s, node).0.nodes, s.podStates, ports) == true
    ensures ItemsExact(UpdateNode(s, node).0.nodes, s.podStates, ports) == true
    ensures ItemsExact(RemoveNode(s, node.name).0.nodes, s.podStates, ports) == true
  {
    var g: int := ItemGeneration(s, node.name) + 1;
    hide ItemsExact, Exact, VersionsAgree, PodsName;
    BaseIsExact(s, node.name, ports);
    SetNodeExact(s.nodes, s.podStates, Item(s, node.name), node, g, ports);
    if node.name in s.nodes { ClearNodeExact(s.nodes, s.podStates, node.name, s.generation + 1, ports); }
  }

  lemma AssumePodExact(s: CacheState, pod: Pod, ports: bool)
    requires Sound(s) && ItemsExact(s.nodes, s.podStates, ports)
    ensures var t := AssumePod(s, pod).0; ItemsExact(t.nodes, t.podStates, ports)
  {
    if pod.uid !in s.podStates { PlaceExact(s, pod, s.podStates, PodState(pod, None, false), ports); }
  }

  lemma FinishBindingExact(s: CacheState, uid: Name, deadline: int, ports: bool)
    requires ItemsExact(s.nodes, s.podStates, ports)
    ensures var t := FinishBinding(s, uid, deadline).0; ItemsExact(t.nodes, t.podStates, ports)
  {
    if uid in s.podStates { ConfirmExact(s, uid, PodState(s.podStates[uid].pod, Some(deadline), true), ports); }
  }

  lemma NodeStepKeepsExact(s: CacheState, e: Event, ports: bool)
    requires ItemsExact(s.nodes, s.podStates, ports)
    requires IsNodeEvent(e)
    ensures var t := Step(s, e).0; ItemsExact(t.nodes, t.podStates, ports)
  {
    hide ItemsExact;
    match e
    case NodeAdd(node) => NodeEventsExact(s, node, ports);
    case NodeUpdate(node) => NodeEventsExact(s, node, ports);
    case NodeRemove(n) => NodeEventsExact(s, Node(n, map[], 0), ports);
    case OtherGeneration =>
  }

  lemma ArrivalKeepsExact(s: CacheState, e: Event, ports: bool)
    requires Sound(s) && ItemsExact(s.nodes, s.podStates, ports) && Expected(s, e) && Agreeing(s, e, ports)
    requires e.Assume? || e.Finish? || e.Add? || e.Update?
    ensures var t := Step(s, e).0; ItemsExact(t.nodes, t.podStates, ports)
  {
    match e
    case Assume(pod) => AssumePodExact(s, pod, ports);
    case Finish(uid, deadline) => FinishBindingExact(s, uid, deadline, ports);
    case Add(pod) => AddPodExact(s, pod, ports);
    case Update(oldPod, newPod) => UpdatePodExact(s, oldPod, newPod, ports);
  }

  lemma ForgetPodExact(s: CacheState, pod: Pod, ports: bool)
    requires Sound(s) && ItemsExact(s.nodes, s.podStates, ports) && Agreeing(s, Forget(pod), ports)
    ensures var t := ForgetPod(s, pod).0; ItemsExact(t.nodes, t.podStates, ports)
  {
    hide Exact, VersionsAgree, PodsName, NoSharedPorts, DistinctUids, AffinityListed;
    if pod.uid in s.podStates && s.podStates[pod.uid].pod.nodeName == pod.nodeName { ReleaseExact(s, pod, ports); }
  }

  /** Releasing the cached version of a pod. */
  lemma CachedReleaseExact(s: CacheState, uid: Name, ports: bool)
    requires Sound(s) && ItemsExact(s.nodes, s.podStates, ports) && uid in s.podStates
    requires ports ==> NoSharedPortsAnywhere(s)
    ensures var t := Release(s, s.podStates[uid].pod, uid).0; ItemsExact(t.nodes, t.podStates, ports) == true
  {
    hide Exact, VersionsAgree, PodsName, NoSharedPorts, DistinctUids, AffinityListed;
    ReleaseExact(s, s.podStates[uid].pod, ports);
  }

  lemma RemovalKeepsExact(s: CacheState, e: Event, ports: bool)
    requires Sound(s) && ItemsExact(s.nodes, s.podStates, ports) && Agreeing(s, e, ports)
    requires IsRemoval(e)
    ensures var t := Step(s, e).0; ItemsExact(t.nodes, t.podStates, ports) == true
  {
    hide Exact, VersionsAgree, PodsName, NoSharedPorts, DistinctUids, AffinityListed;
    match e
    case Forget(pod) => ForgetPodExact(s, pod, ports);
    case Remove(pod) =>
      if pod.uid in s.podStates { CachedReleaseExact(s, pod.uid, ports); }
    case Clean(uid, now) =>
      if uid in s.podStates { CachedReleaseExact(s, uid, ports); }
  }

  lemma StepKeepsExact(s: CacheState, e: Event, ports: bool)
    requires Sound(s) && ItemsExact(s.nodes, s.podStates, ports)
    requires Expected(s, e) && Agreeing(s, e, ports)
    ensures var t := Step(s, e).0; ItemsExact(t.nodes, t.podStates, ports)
  {
    hide ItemsExact, ItemsHold;
    if IsNodeEvent(e) {
      NodeStepKeepsExact(s, e, ports);
    } else if IsRemoval(e) {
      RemovalKeepsExact(s, e, ports);
    } else {
      ArrivalKeepsExact(s, e, ports);
    }
  }

  /** After any run every item's derived fields are those of its pods. */
  lemma {:induction false} RunConserves(s: CacheState, es: seq<Event>, ports: bool)
    requires Inv(s) && ItemsExact(s.nodes, s.podStates, ports)
    requires ExpectedRun(s, es) && AgreeingRun(s, es, ports)
    ensures var t := Run(s, es); ItemsExact(t.nodes, t.podStates, ports)
  {
    if es != [] {
      var front := es[..|es| - 1];
      RunConserves(s, front, ports);
      RunKeepsInv(s, front);
      StepKeepsExact(Run(s, front), es[|es| - 1], ports);
    }
  }

  // ---------- The full rebuild ----------

  /** The NodeInfo that createNodeInfoMap builds for node n from a list of pods. */
  ghost function RebuiltPods(pods: seq<Pod>, n: Name): Info {
    if pods == [] then ZeroInfo
    else
      var v := RebuiltPods(pods[..|pods| - 1], n);
      var p := pods[|pods| - 1];
      if p.nodeName == n then AddPodTo(v, p, 0) else v
  }

  /** The last Node object of that name, as the loop over the nodes leaves it. */
  ghost function LastNode(nodes: seq<Node>, n: Name): Option<Node> {
    if nodes == [] then None
    else if nodes[|nodes| - 1].name == n then Some(nodes[|nodes| - 1])
    else LastNode(nodes[..|nodes| - 1], n)
  }

  ghost function Rebuilt(pods: seq<Pod>, nodes: seq<Node>, n: Name): Info {
    match LastNode(nodes, n)
    case None => RebuiltPods(pods, n)
    case Some(node) => SetNodeOf(RebuiltPods(pods, n), node, 0)
  }

  ghost function CreateNodeInfoMap(pods: seq<Pod>, nodes: seq<Node>): map<Name, Info> {
    map n | n in (set p | p in pods :: p.nodeName) + (set m | m in nodes :: m.name) :: Rebuilt(pods, nodes, n)
  }

  /** The same Node, the same pods, and the same aggregates. */
  ghost predicate SameContents(a: Info, b: Info, ports: bool) {
    && a.node == b.node && (a.node.Some? ==> a.allocatable == b.allocatable)
    && multiset(a.pods) == multiset(b.pods)
    && (forall p :: p in a.withAffinity <==> p in b.withAffinity)
    && (ports ==> a.usedPorts == b.usedPorts)
    && (forall k :: Get(a.requested, k) == Get(b.requested, k))
    && a.nonZeroCPU == b.nonZeroCPU && a.nonZeroMemory == b.nonZeroMemory
  }

  lemma {:induction false} SumsDependOnPodsOnly(a: seq<Pod>, b: seq<Pod>, k: Name, default: int)
    requires multiset(a) == multiset(b)
    ensures SumRequest(a, k) == SumRequest(b, k)
    ensures SumNonZero(a, k, default) == SumNonZero(b, k, default)
    decreases |a|
  {
    assert |multiset(a)| == |a| && |multiset(b)| == |b|;
    if a != [] {
      var n := |a| - 1;
      assert a == a[..n] + [a[n]];
      assert a[n] in multiset(b);
      var j :| 0 <= j < |b| && b[j] == a[n];
      SwapRemoveMultiset(b, j);
      FrontMultiset(a);
      SumsDependOnPodsOnly(a[..n], SwapRemove(b, j), k, default);
      SumAfterSwapRemove(b, j, k);
      NonZeroAfterSwapRemove(b, j, k, default);
    }
  }

  lemma SwapRemoveMultiset<T>(s: seq<T>, i: nat)
    requires i < |s|
    ensures multiset(SwapRemove(s, i)) == multiset(s) - multiset{s[i]}
  {
    var x := s[|s| - 1];
    assert multiset(s[i := x]) == multiset(s) - multiset{s[i]} + multiset{x};
    FrontMultiset(s[i := x]);
  }

  lemma FrontMultiset<T>(s: seq<T>)
    requires s != []
    ensures multiset(s[..|s| - 1]) == multiset(s) - multiset{s[|s| - 1]}
  {
    assert s == s[..|s| - 1] + [s[|s| - 1]];
  }

  lemma SameMembers<T>(a: seq<T>, b: seq<T>)
    requires multiset(a) == multiset(b)
    ensures forall x :: x in a <==> x in b
  {
    forall x ensures x in a <==> x in b {
      assert x in a <==> x in multiset(a);
      assert x in b <==> x in multiset(b);
    }
  }

  lemma SamePortsUnion(a: seq<Pod>, b: seq<Pod>)
    requires forall x :: x in a ==> x in b
    ensures UnionPorts(a) <= UnionPorts(b)
  {
    forall p | p in UnionPorts(a) ensures p in UnionPorts(b) {
      var i :| 0 <= i < |a| && p in PortsOf(a[i]);
      assert a[i] in a;
      var j :| 0 <= j < |b| && b[j] == a[i];
    }
  }

  /** Exact items are determined by their Node and their pods, in whatever order. */
  lemma ExactDetermined(a: Info, b: Info, ports: bool)
    requires Exact(a, ports) && Exact(b, ports) && a.node == b.node && multiset(a.pods) == multiset(b.pods)
    ensures SameContents(a, b, ports)
  {
    SameMembers(a.pods, b.pods);
    SamePortsUnion(a.pods, b.pods);
    SamePortsUnion(b.pods, a.pods);
    forall k ensures Get(a.requested, k) == Get(b.requested, k) {
      SumsDependOnPodsOnly(a.pods, b.pods, k, 0);
    }
    SumsDependOnPodsOnly(a.pods, b.pods, CPU, DEFAULT_MILLI_CPU_REQUEST);
    SumsDependOnPodsOnly(a.pods, b.pods, MEMORY, DEFAULT_MEMORY_REQUEST);
  }

  /** A rebuild holds the pods of the node, and its aggregates are exact. */
  lemma {:induction false} RebuiltIsExact(pods: seq<Pod>, n: Name, ports: bool)
    requires DistinctUids(pods)
    ensures var v := RebuiltPods(pods, n);
      && Exact(v, ports) && DistinctUids(v.pods) && v.node.None?
      && (forall p :: p in v.pods <==> p in pods && p.nodeName == n)
  {
    if pods != [] {
      var front, p := pods[..|pods| - 1], pods[|pods| - 1];
      RebuiltIsExact(front, n, ports);
      var v := RebuiltPods(front, n);
      assert pods == front + [p];
      if p.nodeName == n {
        forall k | k in Uids(v) ensures k != p.uid {
          var i :| 0 <= i < |v.pods| && v.pods[i].uid == k;
          assert v.pods[i] in v.pods && v.pods[i] in front;
        }
        AddedIsExact(v, p, 0, ports);
        UidsAfterAdd(v, p, 0);
      }
    }
  }

  lemma {:induction false} DistinctSameMultiset(a: seq<Pod>, b: seq<Pod>)
    requires DistinctUids(a) && DistinctUids(b)
    requires forall p :: p in a <==> p in b
    ensures multiset(a) == multiset(b)
  {
    forall p ensures multiset(a)[p] == multiset(b)[p] {
      CountOnce(a, p);
      CountOnce(b, p);
    }
  }

  lemma {:induction false} CountOnce(a: seq<Pod>, p: Pod)
    requires DistinctUids(a)
    ensures multiset(a)[p] == if p in a then 1 else 0
  {
    if a != [] {
      var n := |a| - 1;
      assert a == a[..n] + [a[n]];
      CountOnce(a[..n], p);
    }
  }

  lemma ItemEqualsRebuild(s: CacheState, pods: seq<Pod>, nodes: seq<Node>, n: Name, ports: bool)
    requires Inv(s) && ItemsExact(s.nodes, s.podStates, ports)
    requires n in s.nodes && s.nodes[n].node.Some?
    requires DistinctUids(pods) && forall p :: p in pods <==> p.nodeName in s.nodes && p in s.nodes[p.nodeName].pods
    requires forall m :: m in nodes <==> m.name in s.nodes && s.nodes[m.name].node == Some(m)
    ensures SameContents(s.nodes[n], Rebuilt(pods, nodes, n), ports)
  {
    var v, base := s.nodes[n], RebuiltPods(pods, n);
    assert ItemHolds(v, n, Assigned(s.podStates, n), n in s.tree);
    assert v.node.value in nodes;
    LastNodeFound(nodes, v.node.value);
    RebuiltIsExact(pods, n, ports);
    forall p ensures p in v.pods <==> p in base.pods {
      if p in v.pods { assert p.nodeName == n; }
    }
    DistinctSameMultiset(v.pods, base.pods);
    ExactDetermined(v, Rebuilt(pods, nodes, n), ports);
  }

  /** With one Node object per name, the last one of a name is the one. */
  lemma {:induction false} LastNodeFound(nodes: seq<Node>, m: Node)
    requires m in nodes && forall x :: x in nodes && x.name == m.name ==> x == m
    ensures LastNode(nodes, m.name) == Some(m)
  {
    var k := |nodes| - 1;
    assert nodes == nodes[..k] + [nodes[k]];
    if nodes[k].name != m.name { LastNodeFound(nodes[..k], m); }
  }

  /** Every node of a ghost-free cache, after any run, has the contents a full rebuild from
      the cached pods and Node objects gives it. */
  lemma CacheEqualsRebuild(s: CacheState, pods: seq<Pod>, nodes: seq<Node>, ports: bool)
    requires Inv(s) && ItemsExact(s.nodes, s.podStates, ports)
    requires forall n :: n in s.nodes ==> s.nodes[n].node.Some?
    requires DistinctUids(pods) && forall p :: p in pods <==> p.nodeName in s.nodes && p in s.nodes[p.nodeName].pods
    requires forall m :: m in nodes <==> m.name in s.nodes && s.nodes[m.name].node == Some(m)
    ensures CreateNodeInfoMap(pods, nodes).Keys == s.nodes.Keys
    ensures forall n :: n in s.nodes ==> SameContents(s.nodes[n], CreateNodeInfoMap(pods, nodes)[n], ports)
  {
    hide SameContents, ItemsExact, Rebuilt, Bounded;
    var r := CreateNodeInfoMap(pods, nodes);
    forall n | n in s.nodes ensures n in r {
      assert ItemHolds(s.nodes[n], n, Assigned(s.podStates, n), n in s.tree);
      assert s.nodes[n].node.value in nodes;
    }
    forall n | n in r ensures n in s.nodes {
    }
    assert r.Keys == s.nodes.Keys;
    forall n | n in s.nodes ensures SameContents(s.nodes[n], r[n], ports) {
      ItemEqualsRebuild(s, pods, nodes, n, ports);
    }
  }

}
