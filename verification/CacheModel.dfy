/** The scheduler cache of scheduler/internal/cache/cache.go as a state machine: what each
    event does to the cached nodes, the recency list and the pod states, and what every
    run keeps. */
module CacheModel {
  import opened Wrappers
  import opened NodeInfo
  import opened RecencyList

  datatype PodState = PodState(pod: Pod, deadline: Option<int>, bindingFinished: bool)

  /** `nodes` are the items by node name, `tree` the names in the node tree, `generation` the
      last generation given out. The order of the linked list is not part of the state: it
      is the order of the items' generations (module RecencyList). */
  datatype CacheState = CacheState(
    nodes: map<Name, Info>, podStates: map<Name, PodState>, assumed: set<Name>,
    tree: set<Name>, generation: int)

  const EmptyCache: CacheState := CacheState(map[], map[], {}, {}, 0)

  // ---------- Pods ----------

  /** The item of a node, or a new one with its generation. */
  ghost function Item(s: CacheState, n: Name): Info {
    if n in s.nodes then s.nodes[n] else ZeroInfo.(generation := s.generation + 1)
  }

  ghost function ItemGeneration(s: CacheState, n: Name): int {
    if n in s.nodes then s.generation else s.generation + 1
  }

  /** The node n gets the value v, with the newest generation. */
  ghost function Touch(s: CacheState, n: Name, v: Info): CacheState {
    s.(nodes := s.nodes[n := v], generation := v.generation)
  }

  /** addPod. */
  ghost function Place(s: CacheState, pod: Pod): CacheState {
    var n := pod.nodeName;
    Touch(s, n, AddPodTo(Item(s, n), pod, ItemGeneration(s, n) + 1))
  }

  /** The items after removePod, for a known node: one that is left without pods and without
      a Node is dropped; a pod the node does not list only leaves its affinity list. */
  ghost function Left(nodes: map<Name, Info>, pod: Pod, generation: int): map<Name, Info>
    requires pod.nodeName in nodes
  {
    var n, v := pod.nodeName, nodes[pod.nodeName];
    var w := Removed(v, pod, generation);
    if RemovalOutcome(v, pod.uid) == Ok && w.pods == [] && w.node.None? then nodes - {n} else nodes[n := w]
  }

  /** removePod: a missing node is only logged; a missing pod is an error. */
  ghost function Unplace(s: CacheState, pod: Pod): (CacheState, Outcome) {
    if pod.nodeName !in s.nodes then (s, Ok)
    else
      var o := RemovalOutcome(s.nodes[pod.nodeName], pod.uid);
      var g := s.generation + if o == Ok then 1 else 0;
      (s.(nodes := Left(s.nodes, pod, g), generation := g), o)
  }

  ghost function AssumePod(s: CacheState, pod: Pod): (CacheState, Outcome) {
    if pod.uid == EmptyName || pod.uid in s.podStates then (s, Err)
    else
      var t := Place(s, pod);
      (t.(podStates := t.podStates[pod.uid := PodState(pod, None, false)], assumed := t.assumed + {pod.uid}), Ok)
  }

  ghost function FinishBinding(s: CacheState, uid: Name, deadline: int): (CacheState, Outcome) {
    if uid == EmptyName then (s, Err)
    else if uid in s.podStates && uid in s.assumed then
      (s.(podStates := s.podStates[uid := PodState(s.podStates[uid].pod, Some(deadline), true)]), Ok)
    else (s, Ok)
  }

  ghost function ForgetPod(s: CacheState, pod: Pod): (CacheState, Outcome) {
    if pod.uid == EmptyName then (s, Err)
    else if pod.uid in s.podStates && s.podStates[pod.uid].pod.nodeName != pod.nodeName then (s, Err)
    else if pod.uid in s.podStates && pod.uid in s.assumed then Release(s, pod, pod.uid)
    else (s, Err)
  }

  /** Takes `pod` out of its node and its key out of the pod states. */
  ghost function Release(s: CacheState, pod: Pod, key: Name): (CacheState, Outcome) {
    var (t, o) := Unplace(s, pod);
    if o != Ok then (t, o)
    else (t.(podStates := t.podStates - {key}, assumed := t.assumed - {key}), Ok)
  }

  /** A pod assumed on one node is added to another; an error of the removal is only logged. */
  ghost function Relocate(s: CacheState, oldPod: Pod, newPod: Pod): (CacheState, Outcome) {
    var (t, o) := Unplace(s, oldPod);
    if o == Fatal then (t, Fatal) else (Place(t, newPod), Ok)
  }

  ghost function AddPod(s: CacheState, pod: Pod): (CacheState, Outcome) {
    var key := pod.uid;
    if key == EmptyName then (s, Err)
    else if key in s.podStates && key in s.assumed then
      var cached := s.podStates[key].pod;
      var (t, o) := if cached.nodeName != pod.nodeName then Relocate(s, cached, pod) else (s, Ok);
      if o == Fatal then (t, Fatal)
      else
        (t.(podStates := t.podStates[key := PodState(pod, None, s.podStates[key].bindingFinished)],
            assumed := t.assumed - {key}), Ok)
    else if key !in s.podStates then
      var t := Place(s, pod);
      (t.(podStates := t.podStates[key := PodState(pod, None, false)]), Ok)
    else (s, Err)
  }

  ghost function UpdatePod(s: CacheState, oldPod: Pod, newPod: Pod): (CacheState, Outcome) {
    var key := oldPod.uid;
    if key == EmptyName then (s, Err)
    else if key in s.podStates && key !in s.assumed then
      if s.podStates[key].pod.nodeName != newPod.nodeName then (s, Fatal)
      else
        var (t, o) := Unplace(s, oldPod);
        if o != Ok then (t, o)
        else
          var u := Place(t, newPod);
          (u.(podStates := u.podStates[key := u.podStates[key].(pod := newPod)]), Ok)
    else (s, Err)
  }

  ghost function RemovePod(s: CacheState, pod: Pod): (CacheState, Outcome) {
    var key := pod.uid;
    if key == EmptyName then (s, Err)
    else if key in s.podStates && key !in s.assumed then
      if s.podStates[key].pod.nodeName != pod.nodeName then (s, Fatal)
      else Release(s, s.podStates[key].pod, key)
    else (s, Err)
  }

  /** What one turn of cleanupAssumedPods does for a key of `assumedPods`: `Fatal` when the
      key has no pod state or a finished binding has no deadline. */
  ghost function CleanUp(s: CacheState, key: Name, now: int): (CacheState, Outcome) {
    if key !in s.podStates then (s, Fatal)
    else if !s.podStates[key].bindingFinished then (s, Ok)
    else if s.podStates[key].deadline.None? then (s, Fatal)
    else if now > s.podStates[key].deadline.value then Release(s, s.podStates[key].pod, key)
    else (s, Ok)
  }

  /** cleanupAssumedPods, for the keys in the order in which they are visited. */
  ghost function CleanUpAll(s: CacheState, keys: seq<Name>, now: int): CacheState {
    if keys == [] then s else CleanUp(CleanUpAll(s, keys[..|keys| - 1], now), keys[|keys| - 1], now).0
  }

  /** No turn of the cleanup ended the process. */
  ghost predicate Uneventful(s: CacheState, keys: seq<Name>, now: int) {
    keys == [] || (
      && Uneventful(s, keys[..|keys| - 1], now)
      && CleanUp(CleanUpAll(s, keys[..|keys| - 1], now), keys[|keys| - 1], now).1 != Fatal)
  }

  lemma CleanUpNext(s: CacheState, keys: seq<Name>, key: Name, now: int)
    ensures CleanUpAll(s, keys + [key], now) == CleanUp(CleanUpAll(s, keys, now), key, now).0
    ensures Uneventful(s, keys + [key], now)
       <==> Uneventful(s, keys, now) && CleanUp(CleanUpAll(s, keys, now), key, now).1 != Fatal
  {
    assert (keys + [key])[..|keys|] == keys;
  }

  // ---------- Nodes ----------

  /** The item of a node takes on a Node object. */
  ghost function SetNode(s: CacheState, node: Node): CacheState {
    Touch(s, node.name, SetNodeOf(Item(s, node.name), node, ItemGeneration(s, node.name) + 1))
  }

  /** The items after one loses its Node object: it stays, as a ghost, while it has pods. */
  ghost function Cleared(nodes: map<Name, Info>, n: Name, generation: int): map<Name, Info>
    requires n in nodes
  {
    if nodes[n].pods == [] then nodes - {n} else nodes[n := nodes[n].(node := None, generation := generation)]
  }

  ghost function ClearNode(s: CacheState, n: Name): CacheState
    requires n in s.nodes
  {
    s.(nodes := Cleared(s.nodes, n, s.generation + 1), generation := s.generation + 1)
  }

  ghost function AddNode(s: CacheState, node: Node): (CacheState, Outcome) {
    (SetNode(s, node).(tree := s.tree + {node.name}), Ok)
  }

  ghost function UpdateNode(s: CacheState, node: Node): (CacheState, Outcome) {
    (SetNode(s, node).(tree := if node.name in s.nodes then s.tree else s.tree + {node.name}), Ok)
  }

  ghost function RemoveNode(s: CacheState, n: Name): (CacheState, Outcome) {
    if n !in s.nodes then (s, Err)
    else (ClearNode(s, n).(tree := s.tree - {n}), if n in s.tree then Ok else Err)
  }

  // ---------- Events and runs ----------

  /** `OtherGeneration` is any use of the generation counter outside the cache. */
  datatype Event =
    | Assume(pod: Pod)
    | Finish(uid: Name, deadline: int)
    | Forget(pod: Pod)
    | Add(pod: Pod)
    | Update(oldPod: Pod, newPod: Pod)
    | Remove(pod: Pod)
    | Clean(uid: Name, now: int)
    | NodeAdd(node: Node)
    | NodeUpdate(node: Node)
    | NodeRemove(name: Name)
    | OtherGeneration

  ghost function Step(s: CacheState, e: Event): (CacheState, Outcome) {
    match e
    case Assume(pod) => AssumePod(s, pod)
    case Finish(uid, deadline) => FinishBinding(s, uid, deadline)
    case Forget(pod) => ForgetPod(s, pod)
    case Add(pod) => AddPod(s, pod)
    case Update(oldPod, newPod) => UpdatePod(s, oldPod, newPod)
    case Remove(pod) => RemovePod(s, pod)
    case Clean(uid, now) => if uid in s.assumed then CleanUp(s, uid, now) else (s, Ok)
    case NodeAdd(node) => AddNode(s, node)
    case NodeUpdate(node) => UpdateNode(s, node)
    case NodeRemove(n) => RemoveNode(s, n)
    case OtherGeneration => (s.(generation := s.generation + 1), Ok)
  }

  ghost function Run(s: CacheState, es: seq<Event>): CacheState {
    if es == [] then s else Step(Run(s, es[..|es| - 1]), es[|es| - 1]).0
  }

  // ---------- Events as removals and placements ----------

  /** The version that an event takes out of its node, if it gets that far. */
  ghost function RemovedBy(s: CacheState, e: Event): Option<Pod> {
    match e
    case Forget(pod) =>
      if && pod.uid != EmptyName && pod.uid in s.podStates && pod.uid in s.assumed
         && s.podStates[pod.uid].pod.nodeName == pod.nodeName
      then Some(pod) else None
    case Add(pod) =>
      if && pod.uid != EmptyName && pod.uid in s.podStates && pod.uid in s.assumed
         && s.podStates[pod.uid].pod.nodeName != pod.nodeName
      then Some(s.podStates[pod.uid].pod) else None
    case Update(oldPod, newPod) => if Updates(s, oldPod, newPod) then Some(oldPod) else None
    case Remove(pod) =>
      if && pod.uid != EmptyName && pod.uid in s.podStates && pod.uid !in s.assumed
         && s.podStates[pod.uid].pod.nodeName == pod.nodeName
      then Some(s.podStates[pod.uid].pod) else None
    case Clean(uid, now) =>
      if uid in s.assumed && Expired(s, uid, now) then Some(s.podStates[uid].pod) else None
    case _ => None
  }

  /** The update passes the checks of UpdatePod. */
  ghost predicate Updates(s: CacheState, oldPod: Pod, newPod: Pod) {
    && oldPod.uid != EmptyName && oldPod.uid in s.podStates && oldPod.uid !in s.assumed
    && s.podStates[oldPod.uid].pod.nodeName == newPod.nodeName
  }

  /** An assumed pod whose binding finished and whose deadline has passed. */
  ghost predicate Expired(s: CacheState, k: Name, now: int) {
    && k in s.podStates && s.podStates[k].bindingFinished
    && s.podStates[k].deadline.Some? && now > s.podStates[k].deadline.value
  }

  ghost predicate SameItems(s: CacheState, t: CacheState) {
    s.nodes == t.nodes && s.generation == t.generation && s.tree == t.tree
  }

  /** The state after the removal that is part of an event. */
  ghost function AfterRemoval(s: CacheState, e: Event): CacheState {
    match RemovedBy(s, e)
    case None => s
    case Some(pod) => Unplace(s, pod).0
  }

  ghost function NewVersion(e: Event): Pod
    requires e.Assume? || e.Add? || e.Update?
  {
    if e.Update? then e.newPod else e.pod
  }

  predicate IsNodeEvent(e: Event) {
    e.NodeAdd? || e.NodeUpdate? || e.NodeRemove? || e.OtherGeneration?
  }

  /** What a pod event does to the items is its removal, and perhaps a placement after it. */
  lemma StepMoves(s: CacheState, e: Event)
    requires !IsNodeEvent(e)
    ensures var t := AfterRemoval(s, e);
      || SameItems(Step(s, e).0, t)
      || ((e.Assume? || e.Add? || e.Update?) && SameItems(Step(s, e).0, Place(t, NewVersion(e))))
  {
    hide Left, AddPodTo, Item;
  }

  // ---------- What every run keeps ----------

  /** Generations are positive and have been given out. */
  ghost predicate Bounded(s: CacheState) {
    s.generation >= 0 && forall n :: n in s.nodes ==> 0 < s.nodes[n].generation <= s.generation
  }

  ghost function Uids(v: Info): set<Name> {
    set i | 0 <= i < |v.pods| :: v.pods[i].uid
  }

  /** The keys whose pod state names the node n. */
  ghost function Assigned(ps: map<Name, PodState>, n: Name): set<Name> {
    set k | k in ps && ps[k].pod.nodeName == n
  }

  /** The item of node n holds each pod assigned to n once, and nothing else; its affinity
      list holds the pods with affinity terms; it has its Node object exactly when the tree
      names it; and it has a Node or a pod. */
  ghost predicate ItemHolds(v: Info, n: Name, pods: set<Name>, inTree: bool) {
    && Uids(v) == pods && DistinctUids(v.pods) && AffinityListed(v)
    && (v.node.Some? <==> inTree)
    && (v.node.Some? ==> v.node.value.name == n)
    && (v.node.None? ==> pods != {})
  }

  ghost predicate ItemsHold(nodes: map<Name, Info>, tree: set<Name>, ps: map<Name, PodState>) {
    && tree <= nodes.Keys
    && (forall n :: n in nodes ==> ItemHolds(nodes[n], n, Assigned(ps, n), n in tree))
    && (forall k :: k in ps ==> k != EmptyName && ps[k].pod.uid == k && ps[k].pod.nodeName in nodes)
  }

  /** Assumed pods have a pod state, and a deadline once their binding has finished. */
  ghost predicate AssumedTracked(s: CacheState) {
    forall k :: k in s.assumed ==>
      k in s.podStates && (s.podStates[k].bindingFinished ==> s.podStates[k].deadline.Some?)
  }

  ghost predicate Inv(s: CacheState) {
    Bounded(s) && ItemsHold(s.nodes, s.tree, s.podStates) && AssumedTracked(s)
  }

  /** What the cache's callers keep: a node update names a node of the tree or an unknown
      one, and a pod update passes two versions of one pod, the old one on a cached node. */
  ghost predicate Expected(s: CacheState, e: Event) {
    match e
    case Update(oldPod, newPod) => NoStraySource(s, oldPod, newPod)
    case NodeUpdate(node) => node.name in s.nodes ==> node.name in s.tree
    case _ => true
  }

  ghost predicate NoStraySource(s: CacheState, oldPod: Pod, newPod: Pod) {
    Updates(s, oldPod, newPod) ==> newPod.uid == oldPod.uid && oldPod.nodeName in s.nodes
  }

  ghost predicate ExpectedRun(s: CacheState, es: seq<Event>) {
    es == [] || (ExpectedRun(s, es[..|es| - 1]) && Expected(Run(s, es[..|es| - 1]), es[|es| - 1]))
  }

  lemma PlaceKeepsBounded(s: CacheState, pod: Pod)
    requires Bounded(s)
    ensures Bounded(Place(s, pod)) && Place(s, pod).generation > s.generation
  {
  }

  lemma NodeEventsKeepBounded(s: CacheState, node: Node)
    requires Bounded(s)
    ensures Bounded(SetNode(s, node)) && SetNode(s, node).generation > s.generation
    ensures node.name in s.nodes ==>
      Bounded(ClearNode(s, node.name)) && ClearNode(s, node.name).generation > s.generation
  {
  }

  lemma UnplaceKeepsBounded(s: CacheState, pod: Pod)
    requires Bounded(s)
    ensures Bounded(Unplace(s, pod).0) && Unplace(s, pod).0.generation >= s.generation
  {
  }

  lemma AddPodKeepsBounded(s: CacheState, pod: Pod)
    requires Bounded(s)
    ensures Bounded(AddPod(s, pod).0) && AddPod(s, pod).0.generation >= s.generation
  {
    hide AddPodTo, Left;
    PlaceKeepsBounded(s, pod);
    if pod.uid in s.podStates {
      UnplaceKeepsBounded(s, s.podStates[pod.uid].pod);
      PlaceKeepsBounded(Unplace(s, s.podStates[pod.uid].pod).0, pod);
    }
  }

  /** Every event keeps the generations bounded, whatever its arguments, and the counter
      never goes back. */
  lemma StepKeepsBounded(s: CacheState, e: Event)
    requires Bounded(s)
    ensures Bounded(Step(s, e).0)
    ensures Step(s, e).0.generation >= s.generation
  {
    hide Place, Left;
    match e
    case Assume(pod) => PlaceKeepsBounded(s, pod);
    case Forget(pod) => UnplaceKeepsBounded(s, pod);
    case Add(pod) => AddPodKeepsBounded(s, pod);
    case Update(oldPod, newPod) =>
      UnplaceKeepsBounded(s, oldPod);
      PlaceKeepsBounded(Unplace(s, oldPod).0, newPod);
    case Remove(pod) =>
      if pod.uid in s.podStates { UnplaceKeepsBounded(s, s.podStates[pod.uid].pod); }
    case Clean(uid, now) =>
      if uid in s.podStates { UnplaceKeepsBounded(s, s.podStates[uid].pod); }
    case _ =>
  }

  // ---------- Facts about the pods of one node ----------

  lemma HasUidMeansListed(v: Info, k: Name)
    ensures HasUid(v, k) <==> k in Uids(v)
  {
    if k in Uids(v) {
      var i :| 0 <= i < |v.pods| && v.pods[i].uid == k;
      assert IndexOf(v.pods, k) <= i;
    }
  }

  lemma UidsAfterAdd(v: Info, pod: Pod, g: int)
    ensures Uids(AddPodTo(v, pod, g)) == Uids(v) + {pod.uid}
    ensures DistinctUids(v.pods) && pod.uid !in Uids(v) ==> DistinctUids(v.pods + [pod])
  {
    var w := AddPodTo(v, pod, g);
    forall k ensures k in Uids(w) <==> k in Uids(v) || k == pod.uid {
      if k in Uids(v) {
        var i :| 0 <= i < |v.pods| && v.pods[i].uid == k;
        assert w.pods[i].uid == k;
      }
      assert w.pods[|v.pods|].uid == pod.uid;
    }
  }

  lemma UidsAfterRemove(v: Info, pod: Pod, g: int)
    requires HasUid(v, pod.uid) && DistinctUids(v.pods)
    ensures Uids(RemovePodFrom(v, pod, g)) == Uids(v) - {pod.uid}
    ensures DistinctUids(RemoveUid(v.pods, pod.uid))
  {
    var w := RemovePodFrom(v, pod, g);
    RemoveUidMembers(v.pods, pod.uid);
    forall k ensures k in Uids(w) <==> k in Uids(v) && k != pod.uid {
      if k in Uids(w) {
        var i :| 0 <= i < |w.pods| && w.pods[i].uid == k;
        assert w.pods[i] in w.pods && w.pods[i] in v.pods;
      }
      if k in Uids(v) && k != pod.uid {
        var i :| 0 <= i < |v.pods| && v.pods[i].uid == k;
        assert v.pods[i] in v.pods && v.pods[i] in w.pods;
      }
    }
  }

  lemma NoUidsNoPods(v: Info)
    ensures Uids(v) == {} <==> v.pods == []
  {
    if v.pods != [] { assert v.pods[0].uid in Uids(v); }
  }

  // ---------- Changing one item ----------

  /** Replacing or adding the item of n, with the pods assigned elsewhere unchanged. */
  lemma SetItem(
    nodes: map<Name, Info>, tree: set<Name>, ps: map<Name, PodState>,
    n: Name, v: Info, newTree: set<Name>, newPs: map<Name, PodState>)
    requires ItemsHold(nodes, tree, ps)
    requires ItemHolds(v, n, Assigned(newPs, n), n in newTree) == true
    requires forall m :: m != n ==> (m in newTree <==> m in tree)
    requires forall m :: m != n ==> Assigned(newPs, m) == Assigned(ps, m)
    requires forall k :: k in newPs ==> k != EmptyName && newPs[k].pod.uid == k
    requires forall k :: k in newPs ==> newPs[k].pod.nodeName == n || newPs[k].pod.nodeName in nodes
    ensures ItemsHold(nodes[n := v], newTree, newPs) == true
  {
  }

  /** Dropping the item of n, when no pod is assigned to it any more. */
  lemma DropItem(
    nodes: map<Name, Info>, tree: set<Name>, ps: map<Name, PodState>,
    n: Name, newTree: set<Name>, newPs: map<Name, PodState>)
    requires ItemsHold(nodes, tree, ps)
    requires Assigned(newPs, n) == {} && n !in newTree
    requires forall m :: m != n ==> (m in newTree <==> m in tree)
    requires forall m :: m != n ==> Assigned(newPs, m) == Assigned(ps, m)
    requires forall k :: k in newPs ==> k != EmptyName && newPs[k].pod.uid == k && newPs[k].pod.nodeName in nodes
    ensures ItemsHold(nodes - {n}, newTree, newPs)
  {
    forall k | k in newPs ensures newPs[k].pod.nodeName in nodes - {n} {
      assert k !in Assigned(newPs, n);
    }
  }

  lemma NoneAssigned(nodes: map<Name, Info>, tree: set<Name>, ps: map<Name, PodState>, n: Name)
    requires ItemsHold(nodes, tree, ps) && n !in nodes
    ensures Assigned(ps, n) == {}
  {
    assert forall k :: k in ps ==> ps[k].pod.nodeName != n;
  }

  lemma AssignedWithout(ps: map<Name, PodState>, key: Name, m: Name)
    requires key in ps
    ensures Assigned(ps - {key}, m) == if m == ps[key].pod.nodeName then Assigned(ps, m) - {key} else Assigned(ps, m)
  {
  }

  lemma AssignedWith(ps: map<Name, PodState>, key: Name, st: PodState, m: Name)
    requires key !in ps || ps[key].pod.nodeName == st.pod.nodeName
    ensures Assigned(ps[key := st], m) == if m == st.pod.nodeName then Assigned(ps, m) + {key} else Assigned(ps, m)
  {
  }

  /** What is left of an item after a pod it holds is removed. */
  lemma RemovedItem(v: Info, n: Name, pods: set<Name>, inTree: bool, pod: Pod, g: int)
    requires ItemHolds(v, n, pods, inTree) && pod.uid in pods
    ensures HasUid(v, pod.uid)
    ensures var w := RemovePodFrom(v, pod, g);
      && w.generation == g
      && (w.pods == [] <==> pods == {pod.uid})
      && (w.pods != [] || w.node.Some? ==> ItemHolds(w, n, pods - {pod.uid}, inTree))
  {
    HasUidMeansListed(v, pod.uid);
    UidsAfterRemove(v, pod, g);
    RemovePodListsAffinity(v, pod, g);
    NoUidsNoPods(RemovePodFrom(v, pod, g));
  }

  lemma UnplaceRemoves(s: CacheState, pod: Pod)
    requires pod.nodeName in s.nodes && pod.uid != EmptyName && HasUid(s.nodes[pod.nodeName], pod.uid)
    ensures Unplace(s, pod).1 == Ok
    ensures var n := pod.nodeName;
      var v := RemovePodFrom(s.nodes[n], pod, s.generation + 1);
      Unplace(s, pod).0.nodes == if v.pods == [] && v.node.None? then s.nodes - {n} else s.nodes[n := v]
  {
  }

  lemma UnplaceKeeps(s: CacheState, pod: Pod)
    requires ItemsHold(s.nodes, s.tree, s.podStates)
    requires pod.uid in s.podStates && s.podStates[pod.uid].pod.nodeName == pod.nodeName
    ensures Unplace(s, pod).1 == Ok
    ensures ItemsHold(Unplace(s, pod).0.nodes, s.tree, s.podStates - {pod.uid}) == true
  {
    var n, newPs := pod.nodeName, s.podStates - {pod.uid};
    var pods := Assigned(s.podStates, n);
    assert pod.uid in pods && ItemHolds(s.nodes[n], n, pods, n in s.tree);
    RemovedItem(s.nodes[n], n, pods, n in s.tree, pod, s.generation + 1);
    forall m ensures Assigned(newPs, m) == if m == n then pods - {pod.uid} else Assigned(s.podStates, m) {
      AssignedWithout(s.podStates, pod.uid, m);
    }
    var v := RemovePodFrom(s.nodes[n], pod, s.generation + 1);
    UnplaceRemoves(s, pod);
    if v.pods == [] && v.node.None? {
      DropItem(s.nodes, s.tree, s.podStates, n, s.tree, newPs);
    } else {
      SetItem(s.nodes, s.tree, s.podStates, n, v, s.tree, newPs);
    }
  }

  /** What an item holds after a pod is added to it. */
  lemma AddedItem(nodes: map<Name, Info>, tree: set<Name>, ps: map<Name, PodState>, base: Info, pod: Pod, g: int)
    requires ItemsHold(nodes, tree, ps) && pod.uid !in ps
    requires if pod.nodeName in nodes then base == nodes[pod.nodeName]
      else base.pods == base.withAffinity == [] && base.node.None?
    ensures ItemHolds(
      AddPodTo(base, pod, g), pod.nodeName, Assigned(ps, pod.nodeName) + {pod.uid}, pod.nodeName in tree) == true
  {
    if pod.nodeName !in nodes { NoneAssigned(nodes, tree, ps, pod.nodeName); }
    UidsAfterAdd(base, pod, g);
    HasUidMeansListed(base, pod.uid);
    AddPodListsAffinity(base, pod, g);
  }

  lemma PlaceSetsItem(s: CacheState, pod: Pod)
    ensures Place(s, pod).nodes
         == s.nodes[pod.nodeName := AddPodTo(Item(s, pod.nodeName), pod, ItemGeneration(s, pod.nodeName) + 1)]
  {
  }

  lemma PlaceKeeps(s: CacheState, pod: Pod, ps: map<Name, PodState>, st: PodState)
    requires ItemsHold(s.nodes, s.tree, ps)
    requires pod.uid !in ps && pod.uid != EmptyName && st.pod == pod
    ensures ItemsHold(Place(s, pod).nodes, s.tree, ps[pod.uid := st]) == true
  {
    var n, g := pod.nodeName, ItemGeneration(s, pod.nodeName) + 1;
    AddedItem(s.nodes, s.tree, ps, Item(s, n), pod, g);
    forall m ensures Assigned(ps[pod.uid := st], m) == if m == n then Assigned(ps, m) + {pod.uid} else Assigned(ps, m) {
      AssignedWith(ps, pod.uid, st, m);
    }
    SetItem(s.nodes, s.tree, ps, n, AddPodTo(Item(s, n), pod, g), s.tree, ps[pod.uid := st]);
    PlaceSetsItem(s, pod);
  }

  /** What addPod and removePod leave alone. */
  lemma OnlyItemsChange(s: CacheState, pod: Pod)
    ensures var t := Place(s, pod); t.podStates == s.podStates && t.assumed == s.assumed && t.tree == s.tree
    ensures var t := Unplace(s, pod).0; t.podStates == s.podStates && t.assumed == s.assumed && t.tree == s.tree
  {
  }

  lemma Reinsert<K, V>(m: map<K, V>, k: K, v: V)
    ensures (m - {k})[k := v] == m[k := v]
  {
  }

  /** Taking a pod out of its node and placing another version of it. */
  lemma ReplaceKeeps(s: CacheState, oldPod: Pod, newPod: Pod, st: PodState)
    requires ItemsHold(s.nodes, s.tree, s.podStates)
    requires oldPod.uid in s.podStates && s.podStates[oldPod.uid].pod.nodeName == oldPod.nodeName
    requires newPod.uid == oldPod.uid && st.pod == newPod
    ensures Unplace(s, oldPod).1 == Ok
    ensures ItemsHold(Place(Unplace(s, oldPod).0, newPod).nodes, s.tree, s.podStates[oldPod.uid := st]) == true
  {
    UnplaceKeeps(s, oldPod);
    OnlyItemsChange(s, oldPod);
    PlaceKeeps(Unplace(s, oldPod).0, newPod, s.podStates - {oldPod.uid}, st);
    Reinsert(s.podStates, oldPod.uid, st);
  }

  /** A new state of a known pod on its node changes no placement. */
  lemma ConfirmKeeps(s: CacheState, key: Name, st: PodState)
    requires ItemsHold(s.nodes, s.tree, s.podStates) && key in s.podStates
    requires st.pod.uid == key && st.pod.nodeName == s.podStates[key].pod.nodeName
    ensures ItemsHold(s.nodes, s.tree, s.podStates[key := st])
  {
    forall m ensures Assigned(s.podStates[key := st], m) == Assigned(s.podStates, m) {
      AssignedWith(s.podStates, key, st, m);
      assert m == st.pod.nodeName ==> key in Assigned(s.podStates, m);
    }
  }

  // ---------- Every event keeps the invariant ----------

  /** The part of the invariant that is about pods, nodes and the tree. */
  ghost predicate Sound(s: CacheState) {
    ItemsHold(s.nodes, s.tree, s.podStates) && AssumedTracked(s)
  }

  lemma ReleaseKeeps(s: CacheState, pod: Pod)
    requires Sound(s)
    requires pod.uid in s.podStates && s.podStates[pod.uid].pod.nodeName == pod.nodeName
    ensures Release(s, pod, pod.uid).1 == Ok && Sound(Release(s, pod, pod.uid).0)
  {
    UnplaceKeeps(s, pod);
    OnlyItemsChange(s, pod);
  }

  lemma AddPodMoves(s: CacheState, pod: Pod)
    requires pod.uid != EmptyName && pod.uid in s.podStates && pod.uid in s.assumed
    requires s.podStates[pod.uid].pod.nodeName != pod.nodeName && Unplace(s, s.podStates[pod.uid].pod).1 != Fatal
    ensures var t := AddPod(s, pod).0;
      && t.nodes == Place(Unplace(s, s.podStates[pod.uid].pod).0, pod).nodes && t.tree == s.tree
      && t.assumed == s.assumed - {pod.uid}
      && t.podStates == s.podStates[pod.uid := PodState(pod, None, s.podStates[pod.uid].bindingFinished)]
  {
  }

  lemma AddPodKeeps(s: CacheState, pod: Pod)
    requires Sound(s)
    ensures Sound(AddPod(s, pod).0)
  {
    hide ItemHolds, Assigned, AddPodTo, Left;
    var key := pod.uid;
    if key != EmptyName {
      if key in s.podStates && key in s.assumed {
        var st := PodState(pod, None, s.podStates[key].bindingFinished);
        if s.podStates[key].pod.nodeName != pod.nodeName {
          ReplaceKeeps(s, s.podStates[key].pod, pod, st);
          AddPodMoves(s, pod);
        } else {
          ConfirmKeeps(s, key, st);
        }
      } else if key !in s.podStates {
        PlaceKeeps(s, pod, s.podStates, PodState(pod, None, false));
      }
    }
  }

  lemma AssumePodKeeps(s: CacheState, pod: Pod)
    requires Sound(s)
    ensures Sound(AssumePod(s, pod).0)
  {
    hide ItemHolds, Assigned, AddPodTo;
    if pod.uid != EmptyName && pod.uid !in s.podStates {
      PlaceKeeps(s, pod, s.podStates, PodState(pod, None, false));
    }
  }

  lemma FinishBindingKeeps(s: CacheState, uid: Name, deadline: int)
    requires Sound(s)
    ensures Sound(FinishBinding(s, uid, deadline).0)
  {
    if uid in s.podStates {
      ConfirmKeeps(s, uid, PodState(s.podStates[uid].pod, Some(deadline), true));
    }
  }

  /** Taking out a pod that the node does not list changes nothing at all. */
  lemma MissedRemoval(v: Info, n: Name, pods: set<Name>, inTree: bool, uid: Name)
    requires ItemHolds(v, n, pods, inTree) && !HasUid(v, uid)
    ensures v.(withAffinity := RemoveUid(v.withAffinity, uid)) == v
  {
    HasUidMeansListed(v, uid);
    forall j | 0 <= j < |v.withAffinity| ensures v.withAffinity[j].uid != uid {
      assert v.withAffinity[j] in v.pods;
    }
  }

  lemma MissedUnplace(s: CacheState, pod: Pod)
    requires ItemsHold(s.nodes, s.tree, s.podStates)
    requires pod.nodeName in s.nodes && RemovalOutcome(s.nodes[pod.nodeName], pod.uid) != Ok
    ensures Unplace(s, pod) == (s, RemovalOutcome(s.nodes[pod.nodeName], pod.uid))
  {
    var n := pod.nodeName;
    if pod.uid != EmptyName { MissedRemoval(s.nodes[n], n, Assigned(s.podStates, n), n in s.tree, pod.uid); }
    assert s.nodes[n := s.nodes[n]] == s.nodes;
  }

  lemma UpdatePodReplaces(s: CacheState, oldPod: Pod, newPod: Pod)
    requires Updates(s, oldPod, newPod) && Unplace(s, oldPod).1 == Ok
    ensures var t := UpdatePod(s, oldPod, newPod).0;
      && t.nodes == Place(Unplace(s, oldPod).0, newPod).nodes && t.tree == s.tree && t.assumed == s.assumed
      && t.podStates == s.podStates[oldPod.uid := s.podStates[oldPod.uid].(pod := newPod)]
  {
  }

  lemma UpdatePodKeeps(s: CacheState, oldPod: Pod, newPod: Pod)
    requires Sound(s) && NoStraySource(s, oldPod, newPod)
    ensures Sound(UpdatePod(s, oldPod, newPod).0)
  {
    hide DistinctUids, AffinityListed, AddPodTo, Left;
    var key := oldPod.uid;
    if Updates(s, oldPod, newPod) {
      var v := s.nodes[oldPod.nodeName];
      HasUidMeansListed(v, key);
      if HasUid(v, key) {
        assert key in Assigned(s.podStates, oldPod.nodeName);
        ReplaceKeeps(s, oldPod, newPod, s.podStates[key].(pod := newPod));
        UpdatePodReplaces(s, oldPod, newPod);
      } else {
        MissedUnplace(s, oldPod);
      }
    }
  }

  /** A pod update keeps each pod in one place exactly when it passes two versions of one
      pod and the old one names a cached node: an unknown node is silently skipped and the
      new version placed beside the cached one. It ends the process exactly when the old
      version names a ghost that does not list the pod. */
  lemma UpdatePodKeepsIff(s: CacheState, oldPod: Pod, newPod: Pod)
    requires Sound(s) && Updates(s, oldPod, newPod)
    ensures Sound(UpdatePod(s, oldPod, newPod).0) <==>
      (oldPod.nodeName in s.nodes && !HasUid(s.nodes[oldPod.nodeName], oldPod.uid)) ||
      (oldPod.nodeName in s.nodes && newPod.uid == oldPod.uid)
    ensures UpdatePod(s, oldPod, newPod).1 == Fatal <==>
      && oldPod.nodeName in s.nodes && s.nodes[oldPod.nodeName].node.None?
      && !HasUid(s.nodes[oldPod.nodeName], oldPod.uid)
  {
    var key := oldPod.uid;
    var t := UpdatePod(s, oldPod, newPod).0;
    if oldPod.nodeName in s.nodes {
      if !HasUid(s.nodes[oldPod.nodeName], key) {
        MissedUnplace(s, oldPod);
      } else if newPod.uid == key {
        UpdatePodKeeps(s, oldPod, newPod);
      } else {
        assert t.podStates[key].pod.uid != key;
      }
    } else {
      StrayPodIsDoubled(s, oldPod, newPod);
    }
  }

  lemma StrayPodIsDoubled(s: CacheState, oldPod: Pod, newPod: Pod)
    requires Sound(s) && Updates(s, oldPod, newPod) && oldPod.nodeName !in s.nodes
    ensures !Sound(UpdatePod(s, oldPod, newPod).0)
  {
    var n, key := newPod.nodeName, oldPod.uid;
    var t := UpdatePod(s, oldPod, newPod).0;
    var v := s.nodes[n];
    assert key in Assigned(s.podStates, n) && key in Uids(v);
    if newPod.uid == key {
      var i :| 0 <= i < |v.pods| && v.pods[i].uid == key;
      assert t.nodes[n].pods == v.pods + [newPod];
      assert t.nodes[n].pods[i].uid == t.nodes[n].pods[|v.pods|].uid;
      assert !DistinctUids(t.nodes[n].pods);
      assert !ItemHolds(t.nodes[n], n, Assigned(t.podStates, n), n in t.tree);
    } else {
      assert t.podStates[key].pod.uid != key;
    }
  }

  /** The failing case is reached from an empty cache: a node and a pod on it arrive, and an
      update names an unknown node in the pod's old version. */
  lemma UpdatePodCanDouble(pod: Pod, oldPod: Pod, node: Node)
    requires pod.uid != EmptyName && oldPod.uid == pod.uid
    requires node.name == pod.nodeName && oldPod.nodeName != pod.nodeName
    ensures var s := Step(Step(EmptyCache, NodeAdd(node)).0, Add(pod)).0;
      var (t, o) := Step(s, Update(oldPod, pod));
      && Inv(s) && o == Ok && pod.nodeName in t.nodes && t.nodes[pod.nodeName].pods == [pod, pod]
  {
    PodOnItsNode(pod, node);
    var s := Step(Step(EmptyCache, NodeAdd(node)).0, Add(pod)).0;
    assert Unplace(s, oldPod) == (s, Ok);
    assert Place(s, pod).nodes[pod.nodeName].pods == [pod] + [pod];
  }

  lemma PodOnItsNode(pod: Pod, node: Node)
    requires pod.uid != EmptyName && node.name == pod.nodeName
    ensures var s := Step(Step(EmptyCache, NodeAdd(node)).0, Add(pod)).0;
      && Inv(s) && s.nodes.Keys == {pod.nodeName} && s.nodes[pod.nodeName].pods == [pod]
      && s.podStates == map[pod.uid := PodState(pod, None, false)] && s.assumed == {}
  {
    var r := Step(EmptyCache, NodeAdd(node)).0;
    EmptyCacheInv();
    StepKeepsInv(EmptyCache, NodeAdd(node));
    StepKeepsInv(r, Add(pod));
    assert r.nodes.Keys == {pod.nodeName} && r.nodes[pod.nodeName].pods == [];
    assert Step(r, Add(pod)).0.nodes == Place(r, pod).nodes;
    assert [] + [pod] == [pod];
  }

  /** So is that of a node update: a pod arrives before its node, which makes a ghost, and the
      node is then updated instead of added. */
  lemma UpdateNodeCanMissTree(pod: Pod, node: Node)
    requires pod.uid != EmptyName && node.name == pod.nodeName
    ensures var s := Step(EmptyCache, Add(pod)).0;
      var (t, o) := Step(s, NodeUpdate(node));
      && Inv(s) && o == Ok && node.name in t.nodes && t.nodes[node.name].node == Some(node) && t.tree == {}
  {
    EmptyCacheInv();
    StepKeepsInv(EmptyCache, Add(pod));
  }

  lemma StepKeepsInv(s: CacheState, e: Event)
    requires Inv(s) && Expected(s, e)
    ensures Inv(Step(s, e).0)
  {
    StepKeepsBounded(s, e);
    StepKeepsSound(s, e);
  }

  lemma RemoveNodeKeeps(s: CacheState, n: Name)
    requires Sound(s)
    ensures Sound(RemoveNode(s, n).0)
  {
    if n in s.nodes {
      var v := s.nodes[n].(node := None, generation := s.generation + 1);
      assert Uids(v) == Uids(s.nodes[n]);
      NoUidsNoPods(v);
      if v.pods == [] {
        DropItem(s.nodes, s.tree, s.podStates, n, s.tree - {n}, s.podStates);
      } else {
        SetItem(s.nodes, s.tree, s.podStates, n, v, s.tree - {n}, s.podStates);
      }
    }
  }

  lemma NodeSetItem(v: Info, n: Name, pods: set<Name>, inTree: bool, node: Node, g: int)
    requires ItemHolds(v, n, pods, inTree) || (v.pods == v.withAffinity == [] && pods == {})
    requires node.name == n
    ensures ItemHolds(SetNodeOf(v, node, g), n, pods, true) == true
  {
    assert Uids(SetNodeOf(v, node, g)) == Uids(v);
  }

  lemma SetNodeKeeps(s: CacheState, node: Node)
    requires Sound(s)
    ensures Sound(AddNode(s, node).0)
  {
    var n := node.name;
    var g := ItemGeneration(s, n) + 1;
    NodeItem(s, node);
    NodeSetItem(Item(s, n), n, Assigned(s.podStates, n), n in s.tree, node, g);
    SetItem(s.nodes, s.tree, s.podStates, n, SetNodeOf(Item(s, n), node, g), s.tree + {n}, s.podStates);
    AddNodeSets(s, node, g);
  }

  lemma NodeItem(s: CacheState, node: Node)
    requires ItemsHold(s.nodes, s.tree, s.podStates)
    ensures var v, pods := Item(s, node.name), Assigned(s.podStates, node.name);
      ItemHolds(v, node.name, pods, node.name in s.tree) || (v.pods == v.withAffinity == [] && pods == {})
  {
    if node.name !in s.nodes { NoneAssigned(s.nodes, s.tree, s.podStates, node.name); }
  }

  lemma AddNodeSets(s: CacheState, node: Node, g: int)
    requires g == ItemGeneration(s, node.name) + 1
    ensures AddNode(s, node).0.nodes == s.nodes[node.name := SetNodeOf(Item(s, node.name), node, g)]
  {
  }

  /** A node update keeps the tree in agreement with the items exactly when it names a node
      of the tree or an unknown one: for a ghost it sets the Node object but not the tree. */
  lemma UpdateNodeKeepsIff(s: CacheState, node: Node)
    requires Sound(s)
    ensures Sound(UpdateNode(s, node).0) <==> (node.name in s.nodes ==> node.name in s.tree)
  {
    var n := node.name;
    if n in s.nodes && n !in s.tree {
      var t := UpdateNode(s, node).0;
      assert t.nodes[n].node.Some? && n !in t.tree;
      assert !ItemHolds(t.nodes[n], n, Assigned(t.podStates, n), n in t.tree);
    } else {
      SetNodeKeeps(s, node);
      assert s.tree + {n} == if n in s.nodes then s.tree else s.tree + {n};
    }
  }

  /** Forgetting, removing and cleaning up a pod. */
  predicate IsRemoval(e: Event) {
    e.Forget? || e.Remove? || e.Clean?
  }

  lemma RemovalKeepsSound(s: CacheState, e: Event)
    requires Sound(s) && IsRemoval(e)
    ensures Sound(Step(s, e).0)
  {
    hide ItemHolds, Assigned, Unplace;
    match e
    case Forget(pod) =>
      if pod.uid in s.podStates && s.podStates[pod.uid].pod.nodeName == pod.nodeName { ReleaseKeeps(s, pod); }
    case Remove(pod) =>
      if pod.uid in s.podStates { ReleaseKeeps(s, s.podStates[pod.uid].pod); }
    case Clean(uid, now) =>
      if uid in s.podStates { ReleaseKeeps(s, s.podStates[uid].pod); }
  }

  lemma NodeStepKeepsSound(s: CacheState, e: Event)
    requires Sound(s) && Expected(s, e) && IsNodeEvent(e)
    ensures Sound(Step(s, e).0) == true
  {
    match e
    case NodeAdd(node) => SetNodeKeeps(s, node);
    case NodeUpdate(node) => UpdateNodeKeepsIff(s, node);
    case NodeRemove(n) => RemoveNodeKeeps(s, n);
    case OtherGeneration =>
  }

  /** Every expected event keeps pods, nodes and tree sound. */
  lemma StepKeepsSound(s: CacheState, e: Event)
    requires Sound(s) && Expected(s, e)
    ensures Sound(Step(s, e).0)
  {
    hide Sound;
    match e
    case Assume(pod) => AssumePodKeeps(s, pod);
    case Finish(uid, deadline) => FinishBindingKeeps(s, uid, deadline);
    case Add(pod) => AddPodKeeps(s, pod);
    case Update(oldPod, newPod) => UpdatePodKeeps(s, oldPod, newPod);
    case _ =>
      if IsRemoval(e) { RemovalKeepsSound(s, e); } else { NodeStepKeepsSound(s, e); }
  }

  /** Every run keeps the invariant. */
  lemma {:induction false} RunKeepsInv(s: CacheState, es: seq<Event>)
    requires Inv(s) && ExpectedRun(s, es)
    ensures Inv(Run(s, es))
  {
    if es != [] {
      RunKeepsInv(s, es[..|es| - 1]);
      StepKeepsInv(Run(s, es[..|es| - 1]), es[|es| - 1]);
    }
  }

  lemma EmptyCacheInv()
    ensures Inv(EmptyCache)
  {
  }

  /** Placement, read off the invariant: a pod with key k sits in the item of n, at exactly
      one position, when its state names n, and in no other case. */
  lemma PlacedExactlyOnce(s: CacheState, n: Name, k: Name)
    requires Inv(s)
    ensures (n in s.nodes && exists i :: 0 <= i < |s.nodes[n].pods| && s.nodes[n].pods[i].uid == k)
       <==> (k in s.podStates && s.podStates[k].pod.nodeName == n)
    ensures n in s.nodes ==> forall i, j :: 0 <= i < j < |s.nodes[n].pods| ==>
      s.nodes[n].pods[i].uid != s.nodes[n].pods[j].uid
  {
    if n in s.nodes {
      assert k in Uids(s.nodes[n]) <==> k in Assigned(s.podStates, n);
    }
  }

  /** In no run does the cleanup of an assumed pod end the process or fail. */
  lemma CleanUpNeverFails(es: seq<Event>, uid: Name, now: int)
    requires ExpectedRun(EmptyCache, es)
    ensures Step(Run(EmptyCache, es), Clean(uid, now)).1 == Ok
  {
    var s := Run(EmptyCache, es);
    EmptyCacheInv();
    RunKeepsInv(EmptyCache, es);
    if uid in s.assumed { ReleaseKeeps(s, s.podStates[uid].pod); }
  }

  lemma CleanUpStep(s: CacheState, key: Name, now: int)
    requires Sound(s) && key in s.assumed
    ensures var (t, o) := CleanUp(s, key, now);
      && o == Ok && Sound(t)
      && t.podStates == (if Expired(s, key, now) then s.podStates - {key} else s.podStates)
      && t.assumed == (if Expired(s, key, now) then s.assumed - {key} else s.assumed)
  {
    hide ItemHolds, Assigned, Left;
    ReleaseKeeps(s, s.podStates[key].pod);
    OnlyItemsChange(s, s.podStates[key].pod);
  }

  ghost function ExpiredKeys(s: CacheState, keys: set<Name>, now: int): set<Name> {
    set k | k in keys && Expired(s, k, now)
  }

  lemma OneMore(s: CacheState, keys: set<Name>, key: Name, now: int)
    ensures var e, f := ExpiredKeys(s, keys, now), ExpiredKeys(s, keys + {key}, now);
      if Expired(s, key, now) then
        s.podStates - f == (s.podStates - e) - {key} && s.assumed - f == (s.assumed - e) - {key}
      else f == e
  {
    var e, f := ExpiredKeys(s, keys, now), ExpiredKeys(s, keys + {key}, now);
    assert f == e + if Expired(s, key, now) then {key} else {};
  }

  /** A cleanup forgets exactly the expired pods, whatever the order of its visits, and keeps
      the rest of the cache sound. */
  lemma {:induction false} CleanUpIsExact(s: CacheState, keys: seq<Name>, now: int)
    requires Sound(s) && NoDup(keys) && Elements(keys) <= s.assumed
    ensures Sound(CleanUpAll(s, keys, now))
    ensures CleanUpAll(s, keys, now).podStates == s.podStates - ExpiredKeys(s, Elements(keys), now)
    ensures CleanUpAll(s, keys, now).assumed == s.assumed - ExpiredKeys(s, Elements(keys), now)
  {
    if keys == [] {
      assert ExpiredKeys(s, Elements(keys), now) == {};
    } else {
      var front, key := keys[..|keys| - 1], keys[|keys| - 1];
      LastElement(keys);
      CleanUpIsExact(s, front, now);
      KeyIsLeft(s, Elements(front), key, now);
      CleanUpStep(CleanUpAll(s, front, now), key, now);
      OneMore(s, Elements(front), key, now);
    }
  }

  lemma KeyIsLeft(s: CacheState, keys: set<Name>, key: Name, now: int)
    requires AssumedTracked(s) && key in s.assumed && key !in keys
    ensures key in s.assumed - ExpiredKeys(s, keys, now)
    ensures key in s.podStates - ExpiredKeys(s, keys, now)
    ensures (s.podStates - ExpiredKeys(s, keys, now))[key] == s.podStates[key]
  {
  }
}
