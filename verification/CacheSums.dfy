/** Conservation over all runs of the scheduler cache, also those that leave a pod in two
    places or a Node out of the tree: the aggregates of an item depend on the versions of the
    pods alone. */
module CacheSums {
  import opened Wrappers
  import opened NodeInfo
  import opened CacheModel
  import opened CacheConservation

  /** The aggregates of an item are those of its pods and its Node; the used ports only where
      `ports` is set. */
  ghost predicate Sums(v: Info, ports: bool) {
    && Conserved(v)
    && (ports ==> v.usedPorts == UnionPorts(v.pods))
    && (v.node.Some? ==> v.allocatable == Allocatable(v.node.value))
  }

  ghost predicate AllSums(nodes: map<Name, Info>, ports: bool) {
    forall n :: n in nodes ==> Sums(nodes[n], ports)
  }

  /** The version passed asks for what the listed version asks for and, where `ports` is set,
      shares no host port with another pod of the node. */
  ghost predicate Replaceable(v: Info, pod: Pod, ports: bool) {
    RemovalOutcome(v, pod.uid) == Ok ==>
      var i := IndexOf(v.pods, pod.uid);
      SameDemand(pod, v.pods[i], ports) && (ports ==> PortsOf(pod) !! UnionPorts(SwapRemove(v.pods, i)))
  }

  /** So does the version that an event takes out of a node, if it takes one out. */
  ghost predicate RemovalAgrees(s: CacheState, e: Event, ports: bool) {
    match RemovedBy(s, e)
    case None => true
    case Some(pod) => pod.nodeName in s.nodes ==> Replaceable(s.nodes[pod.nodeName], pod, ports)
  }

  ghost predicate RemovalsAgree(s: CacheState, es: seq<Event>, ports: bool) {
    es == [] ||
    (RemovalsAgree(s, es[..|es| - 1], ports) && RemovalAgrees(Run(s, es[..|es| - 1]), es[|es| - 1], ports))
  }

  // ---------- One item ----------

  lemma RemovedSums(v: Info, pod: Pod, g: int, ports: bool)
    requires Sums(v, ports) && Replaceable(v, pod, ports)
    ensures Sums(Removed(v, pod, g), ports)
  {
    if RemovalOutcome(v, pod.uid) == Ok {
      RemovePodConservesIff(v, pod, g);
      if ports { RemovePodKeepsPortsIff(v, pod, g); }
    }
  }

  lemma AddedSums(v: Info, pod: Pod, g: int, ports: bool)
    requires Sums(v, ports)
    ensures Sums(AddPodTo(v, pod, g), ports)
  {
    AddPodConserves(v, pod, g);
    UnionAfterAdd(v.pods, pod);
  }

  // ---------- One event ----------

  lemma UnplaceKeepsSums(s: CacheState, pod: Pod, ports: bool)
    requires AllSums(s.nodes, ports)
    requires pod.nodeName in s.nodes ==> Replaceable(s.nodes[pod.nodeName], pod, ports)
    ensures AllSums(Unplace(s, pod).0.nodes, ports)
  {
    hide Sums, Replaceable, Removed;
    if pod.nodeName in s.nodes {
      var v, g := s.nodes[pod.nodeName], Unplace(s, pod).0.generation;
      RemovedSums(v, pod, g, ports);
    }
  }

  lemma BaseSums(s: CacheState, n: Name, ports: bool)
    requires AllSums(s.nodes, ports)
    ensures Sums(Item(s, n), ports)
  {
  }

  lemma PlaceKeepsSums(s: CacheState, pod: Pod, ports: bool)
    requires AllSums(s.nodes, ports)
    ensures AllSums(Place(s, pod).nodes, ports)
  {
    hide Sums;
    BaseSums(s, pod.nodeName, ports);
    AddedSums(Item(s, pod.nodeName), pod, ItemGeneration(s, pod.nodeName) + 1, ports);
    PlaceSetsItem(s, pod);
  }

  lemma NodeEventKeepsSums(s: CacheState, e: Event, ports: bool)
    requires AllSums(s.nodes, ports) && IsNodeEvent(e)
    ensures AllSums(Step(s, e).0.nodes, ports)
  {
  }

  /** An event whose removal agrees keeps every aggregate. */
  lemma StepKeepsSums(s: CacheState, e: Event, ports: bool)
    requires AllSums(s.nodes, ports) && RemovalAgrees(s, e, ports)
    ensures AllSums(Step(s, e).0.nodes, ports)
  {
    hide AllSums, Place, Unplace, Step, Replaceable;
    if IsNodeEvent(e) {
      NodeEventKeepsSums(s, e, ports);
    } else {
      var t := AfterRemoval(s, e);
      if RemovedBy(s, e).Some? { UnplaceKeepsSums(s, RemovedBy(s, e).value, ports); }
      if e.Assume? || e.Add? || e.Update? { PlaceKeepsSums(t, NewVersion(e), ports); }
      StepMoves(s, e);
    }
  }

  /** After any run, from any state with exact aggregates, the aggregates are those of the
      pods, if each removal passed a version that asked for what the listed one asked for. */
  lemma {:induction false} RunKeepsSums(s: CacheState, es: seq<Event>, ports: bool)
    requires AllSums(s.nodes, ports) && RemovalsAgree(s, es, ports)
    ensures AllSums(Run(s, es).nodes, ports)
  {
    if es != [] {
      RunKeepsSums(s, es[..|es| - 1], ports);
      StepKeepsSums(Run(s, es[..|es| - 1]), es[|es| - 1], ports);
    }
  }

  // ---------- Versions that ask for the same ----------

  ghost function PodsOf(e: Event): set<Pod> {
    match e
    case Assume(pod) => {pod}
    case Forget(pod) => {pod}
    case Add(pod) => {pod}
    case Update(oldPod, newPod) => {oldPod, newPod}
    case Remove(pod) => {pod}
    case _ => {}
  }

  /** All versions of pods that a run passes to the cache. */
  ghost function Versions(es: seq<Event>): set<Pod> {
    if es == [] then {} else Versions(es[..|es| - 1]) + PodsOf(es[|es| - 1])
  }

  /** Versions with one UID ask for the same. */
  ghost predicate EqualDemands(known: set<Pod>, ports: bool) {
    forall p, q :: p in known && q in known && p.uid == q.uid ==> SameDemand(p, q, ports)
  }

  ghost predicate NoSharedPortsDuring(s: CacheState, es: seq<Event>) {
    es == [] || (NoSharedPortsDuring(s, es[..|es| - 1]) && NoSharedPortsAnywhere(Run(s, es[..|es| - 1])))
  }

  ghost predicate ItemKnown(v: Info, n: Name, known: set<Pod>) {
    forall i :: 0 <= i < |v.pods| ==> v.pods[i] in known && v.pods[i].nodeName == n
  }

  ghost predicate ItemsKnown(nodes: map<Name, Info>, known: set<Pod>) {
    forall n :: n in nodes ==> ItemKnown(nodes[n], n, known)
  }

  /** The cache holds nothing but versions it was given, each in the item of its node. */
  ghost predicate Known(s: CacheState, known: set<Pod>) {
    ItemsKnown(s.nodes, known) && forall k :: k in s.podStates ==> s.podStates[k].pod in known
  }

  lemma UnplaceKeepsKnown(s: CacheState, pod: Pod, known: set<Pod>)
    requires ItemsKnown(s.nodes, known)
    ensures ItemsKnown(Unplace(s, pod).0.nodes, known)
  {
    if pod.nodeName in s.nodes && RemovalOutcome(s.nodes[pod.nodeName], pod.uid) == Ok {
      var v := s.nodes[pod.nodeName];
      var rest := RemoveUid(v.pods, pod.uid);
      SwapRemoveMembers(v.pods, IndexOf(v.pods, pod.uid));
      forall i | 0 <= i < |rest| ensures rest[i] in known && rest[i].nodeName == pod.nodeName {
        assert rest[i] in rest;
      }
    }
  }

  lemma PlaceKeepsKnown(s: CacheState, pod: Pod, known: set<Pod>)
    requires ItemsKnown(s.nodes, known) && pod in known
    ensures ItemsKnown(Place(s, pod).nodes, known)
  {
    PlaceSetsItem(s, pod);
  }

  lemma NodeEventKeepsKnown(s: CacheState, e: Event, known: set<Pod>)
    requires ItemsKnown(s.nodes, known) && IsNodeEvent(e)
    ensures ItemsKnown(Step(s, e).0.nodes, known)
    ensures Step(s, e).0.podStates == s.podStates
  {
  }

  lemma StatesAreKnown(s: CacheState, e: Event, known: set<Pod>)
    requires PodsOf(e) <= known && forall k :: k in s.podStates ==> s.podStates[k].pod in known
    ensures forall k :: k in Step(s, e).0.podStates ==> Step(s, e).0.podStates[k].pod in known
  {
    hide Left, AddPodTo, Item;
  }

  lemma StepKeepsKnown(s: CacheState, e: Event, known: set<Pod>)
    requires Known(s, known) && PodsOf(e) <= known
    ensures Known(Step(s, e).0, known)
  {
    hide ItemsKnown, Place, Unplace, Step;
    StatesAreKnown(s, e, known);
    if IsNodeEvent(e) {
      NodeEventKeepsKnown(s, e, known);
    } else {
      if RemovedBy(s, e).Some? { UnplaceKeepsKnown(s, RemovedBy(s, e).value, known); }
      if e.Assume? || e.Add? || e.Update? { PlaceKeepsKnown(AfterRemoval(s, e), NewVersion(e), known); }
      StepMoves(s, e);
    }
  }

  /** Between known versions that ask for the same, every removal agrees. */
  lemma KnownAgrees(s: CacheState, e: Event, known: set<Pod>, ports: bool)
    requires Known(s, known) && PodsOf(e) <= known && EqualDemands(known, ports)
    requires ports ==> NoSharedPortsAnywhere(s)
    ensures RemovalAgrees(s, e, ports)
  {
    if RemovedBy(s, e).Some? {
      var pod := RemovedBy(s, e).value;
      assert pod in known;
      if pod.nodeName in s.nodes { KnownIsReplaceable(s, pod, known, ports); }
    }
  }

  lemma KnownIsReplaceable(s: CacheState, pod: Pod, known: set<Pod>, ports: bool)
    requires ItemsKnown(s.nodes, known) && pod in known && EqualDemands(known, ports) && pod.nodeName in s.nodes
    requires ports ==> NoSharedPortsAnywhere(s)
    ensures Replaceable(s.nodes[pod.nodeName], pod, ports)
  {
    var v := s.nodes[pod.nodeName];
    if RemovalOutcome(v, pod.uid) == Ok {
      var i := IndexOf(v.pods, pod.uid);
      assert v.pods[i] in known && v.pods[i].uid == pod.uid;
      if ports { OtherPortsDisjoint(v.pods, i); }
    }
  }

  lemma {:induction false} KnownRunAgrees(s: CacheState, es: seq<Event>, known: set<Pod>, ports: bool)
    requires Known(s, known) && Versions(es) <= known && EqualDemands(known, ports)
    requires ports ==> NoSharedPortsDuring(s, es)
    ensures Known(Run(s, es), known) && RemovalsAgree(s, es, ports)
  {
    if es != [] {
      var front := es[..|es| - 1];
      KnownRunAgrees(s, front, known, ports);
      KnownAgrees(Run(s, front), es[|es| - 1], known, ports);
      StepKeepsKnown(Run(s, front), es[|es| - 1], known);
    }
  }

  /** After any run in which the versions of one pod ask for the same resources, every node's
      requests are the sums over its pods. */
  lemma RunConservesRequests(es: seq<Event>)
    requires EqualDemands(Versions(es), false)
    ensures var nodes := Run(EmptyCache, es).nodes; forall n :: n in nodes ==> Conserved(nodes[n])
  {
    KnownRunAgrees(EmptyCache, es, Versions(es), false);
    RunKeepsSums(EmptyCache, es, false);
  }

  /** If, besides, they ask for the same ports and no two pods of a node share one, every
      node's used ports are those of its pods. */
  lemma RunKeepsPorts(es: seq<Event>)
    requires EqualDemands(Versions(es), true) && NoSharedPortsDuring(EmptyCache, es)
    ensures var nodes := Run(EmptyCache, es).nodes;
      forall n :: n in nodes ==> nodes[n].usedPorts == UnionPorts(nodes[n].pods)
  {
    KnownRunAgrees(EmptyCache, es, Versions(es), true);
    RunKeepsSums(EmptyCache, es, true);
  }

  // ---------- The full rebuild ----------

  /** The same Node, the same pods, and the same sums and ports. */
  ghost predicate SameSums(a: Info, b: Info, ports: bool) {
    && a.node == b.node && (a.node.Some? ==> a.allocatable == b.allocatable)
    && multiset(a.pods) == multiset(b.pods)
    && (ports ==> a.usedPorts == b.usedPorts)
    && (forall k :: Get(a.requested, k) == Get(b.requested, k))
    && a.nonZeroCPU == b.nonZeroCPU && a.nonZeroMemory == b.nonZeroMemory
  }

  lemma SumsDetermined(a: Info, b: Info, ports: bool)
    requires Sums(a, ports) && Sums(b, ports) && a.node == b.node && multiset(a.pods) == multiset(b.pods)
    ensures SameSums(a, b, ports)
  {
    SameMembers(a.pods, b.pods);
    SamePortsUnion(a.pods, b.pods);
    SamePortsUnion(b.pods, a.pods);
    forall k ensures Get(a.requested, k) == Get(b.requested, k) {
      SumsDependOnPodsOnly(a.pods, b.pods, k, 0);
    }
    SumsDependOnPodsOnly(a.pods, b.pods, CPU, DEFAULT_MILLI_CPU_REQUEST);
    SumsDependOnPodsOnly(a.pods, b.pods, MEMORY, DEFAULT_MEMORY_REQUEST);
  }

  /** A rebuild holds the pods of the node, as often as they are given, and its sums. */
  lemma {:induction false} RebuiltSums(pods: seq<Pod>, n: Name, ports: bool)
    ensures var v := RebuiltPods(pods, n);
      && Sums(v, ports) && v.node.None?
      && forall p :: multiset(v.pods)[p] == if p.nodeName == n then multiset(pods)[p] else 0
  {
    if pods != [] {
      var front, p := pods[..|pods| - 1], pods[|pods| - 1];
      RebuiltSums(front, n, ports);
      assert pods == front + [p];
      if p.nodeName == n { AddedSums(RebuiltPods(front, n), p, 0, ports); }
    }
  }

  /** The pods in all items, each as often as it is there, and the Node objects. */
  ghost predicate CachedMultiset(nodes: map<Name, Info>, pods: seq<Pod>, objects: seq<Node>) {
    && (forall p :: multiset(pods)[p] == if p.nodeName in nodes then multiset(nodes[p.nodeName].pods)[p] else 0)
    && (forall m :: m in objects <==> m.name in nodes && nodes[m.name].node == Some(m))
  }

  lemma ItemHasRebuiltSums(s: CacheState, known: set<Pod>, pods: seq<Pod>, objects: seq<Node>, n: Name, ports: bool)
    requires ItemsKnown(s.nodes, known) && AllSums(s.nodes, ports) && CachedMultiset(s.nodes, pods, objects)
    requires n in s.nodes && s.nodes[n].node.Some? && s.nodes[n].node.value.name == n
    ensures SameSums(s.nodes[n], Rebuilt(pods, objects, n), ports)
  {
    var v, base := s.nodes[n], RebuiltPods(pods, n);
    assert v.node.value in objects;
    LastNodeFound(objects, v.node.value);
    RebuiltSums(pods, n, ports);
    forall p ensures multiset(v.pods)[p] == multiset(base.pods)[p] {
      if p in v.pods { assert p.nodeName == n; }
      if p.nodeName != n { assert p !in multiset(v.pods); }
    }
    assert multiset(v.pods) == multiset(base.pods);
    SumsDetermined(v, Rebuilt(pods, objects, n), ports);
  }
}
