/** What all runs of the scheduler cache keep, whatever versions of pods they pass: assumed pods
    are tracked, affinity lists are covered by the lists of pods and, as long as node updates
    name nodes of the tree or unknown ones, the tree names the items with a Node. */
module CacheRuns {
  import opened Wrappers
  import opened NodeInfo
  import opened CacheModel

  // ---------- Assumed pods ----------

  lemma StepKeepsTracked(s: CacheState, e: Event)
    requires AssumedTracked(s)
    ensures AssumedTracked(Step(s, e).0)
  {
    hide Left, AddPodTo, Item;
  }

  lemma {:induction false} RunKeepsTracked(s: CacheState, es: seq<Event>)
    requires AssumedTracked(s)
    ensures AssumedTracked(Run(s, es))
  {
    if es != [] {
      RunKeepsTracked(s, es[..|es| - 1]);
      StepKeepsTracked(Run(s, es[..|es| - 1]), es[|es| - 1]);
    }
  }

  /** The node of a pod is a ghost that does not list it, so that the message of the failed
      removal reads the name of no Node. */
  ghost predicate Unnameable(nodes: map<Name, Info>, pod: Pod) {
    && pod.nodeName in nodes && nodes[pod.nodeName].node.None?
    && pod.uid != EmptyName && !HasUid(nodes[pod.nodeName], pod.uid)
  }

  /** After any run, the cleanup of a key ends the process only where the pod it forgets is not
      listed by a ghost: no key is without a pod state, and no finished binding without a
      deadline. */
  lemma CleanUpIsFatalIff(es: seq<Event>, uid: Name, now: int)
    ensures var s := Run(EmptyCache, es);
      Step(s, Clean(uid, now)).1 == Fatal <==>
        uid in s.assumed && Expired(s, uid, now) && Unnameable(s.nodes, s.podStates[uid].pod)
  {
    hide Left;
    RunKeepsTracked(EmptyCache, es);
  }

  /** Between sound states an event ends the process only by passing a pod that was updated or
      removed to another node than the cached one, or an old version on a ghost that does not
      list it. */
  lemma StepIsFatalIff(s: CacheState, e: Event)
    requires Sound(s)
    ensures Step(s, e).1 == Fatal <==> match e
      case Update(oldPod, newPod) =>
        && oldPod.uid in s.podStates && oldPod.uid !in s.assumed
        && (s.podStates[oldPod.uid].pod.nodeName != newPod.nodeName || Unnameable(s.nodes, oldPod))
      case Remove(pod) =>
        && pod.uid in s.podStates && pod.uid !in s.assumed
        && s.podStates[pod.uid].pod.nodeName != pod.nodeName
      case _ => false
  {
    hide Left, ItemHolds, AddPodTo, Item;
    if RemovedBy(s, e).Some? && !e.Update? {
      var pod := RemovedBy(s, e).value;
      assert pod.uid in s.podStates && s.podStates[pod.uid].pod.nodeName == pod.nodeName;
      UnplaceKeeps(s, pod);
    }
  }

  // ---------- Affinity lists ----------

  /** How many pods of a list have this UID. */
  function Count(pods: seq<Pod>, uid: Name): nat {
    if pods == [] then 0 else Count(pods[..|pods| - 1], uid) + if pods[|pods| - 1].uid == uid then 1 else 0
  }

  /** No UID is more often in the affinity list than among the pods. */
  ghost predicate Covered(v: Info) {
    forall uid :: Count(v.withAffinity, uid) <= Count(v.pods, uid)
  }

  ghost predicate AllCovered(nodes: map<Name, Info>) {
    forall n :: n in nodes ==> Covered(nodes[n])
  }

  lemma CountAppended(pods: seq<Pod>, pod: Pod, uid: Name)
    ensures Count(pods + [pod], uid) == Count(pods, uid) + if pod.uid == uid then 1 else 0
  {
    assert (pods + [pod])[..|pods|] == pods;
  }

  lemma {:induction false} CountUpdated(pods: seq<Pod>, i: nat, pod: Pod, uid: Name)
    requires i < |pods|
    ensures Count(pods[i := pod], uid)
         == Count(pods, uid) - (if pods[i].uid == uid then 1 else 0) + if pod.uid == uid then 1 else 0
  {
    var n := |pods| - 1;
    if i == n {
      assert pods[i := pod][..n] == pods[..n];
    } else {
      CountUpdated(pods[..n], i, pod, uid);
      assert pods[i := pod][..n] == pods[..n][i := pod];
    }
  }

  lemma {:induction false} CountIsPositive(pods: seq<Pod>, uid: Name)
    ensures Count(pods, uid) > 0 <==> IndexOf(pods, uid) < |pods|
  {
    if pods != [] {
      var n := |pods| - 1;
      CountIsPositive(pods[..n], uid);
      var i := IndexOf(pods[..n], uid);
      if i < n { assert pods[i].uid == uid; }
      var j := IndexOf(pods, uid);
      if j < n { assert pods[..n][j].uid == uid; }
    }
  }

  lemma CountRemoved(pods: seq<Pod>, gone: Name, uid: Name)
    ensures Count(RemoveUid(pods, gone), uid)
         == Count(pods, uid) - if gone == uid && Count(pods, uid) > 0 then 1 else 0
  {
    CountIsPositive(pods, gone);
    var i := IndexOf(pods, gone);
    if i < |pods| { CountUpdated(pods, i, pods[|pods| - 1], uid); }
  }

  lemma AddedIsCovered(v: Info, pod: Pod, g: int)
    requires Covered(v)
    ensures Covered(AddPodTo(v, pod, g))
  {
    forall uid ensures Count(AddPodTo(v, pod, g).withAffinity, uid) <= Count(AddPodTo(v, pod, g).pods, uid) {
      CountAppended(v.pods, pod, uid);
      CountAppended(v.withAffinity, pod, uid);
    }
  }

  /** A removal keeps the affinity list covered, and one that fails changes nothing. */
  lemma RemovedIsCovered(v: Info, pod: Pod, g: int)
    requires Covered(v)
    ensures Covered(Removed(v, pod, g))
    ensures RemovalOutcome(v, pod.uid) != Ok ==> Removed(v, pod, g) == v
  {
    forall uid ensures Count(Removed(v, pod, g).withAffinity, uid) <= Count(Removed(v, pod, g).pods, uid) {
      CountRemoved(v.pods, pod.uid, uid);
      CountRemoved(v.withAffinity, pod.uid, uid);
      CountIsPositive(v.pods, pod.uid);
    }
    CountIsPositive(v.pods, pod.uid);
    CountIsPositive(v.withAffinity, pod.uid);
  }

  // ---------- The tree ----------

  ghost predicate Live(nodes: map<Name, Info>, n: Name) {
    n in nodes && nodes[n].node.Some?
  }

  ghost predicate Named(nodes: map<Name, Info>) {
    forall n :: n in nodes && nodes[n].node.Some? ==> nodes[n].node.value.name == n
  }

  /** The tree names the items with a Node, and these are filed under their names. */
  ghost predicate TreeAgrees(s: CacheState) {
    Named(s.nodes) && forall n :: n in s.tree <==> Live(s.nodes, n)
  }

  /** The part of `Expected` that is about nodes: node updates name nodes of the tree or unknown
      ones. */
  ghost predicate NodeExpected(s: CacheState, e: Event) {
    e.NodeUpdate? && e.node.name in s.nodes ==> e.node.name in s.tree
  }

  // ---------- Every event ----------

  /** What every run keeps in which node updates are expected. */
  ghost predicate RunInv(s: CacheState) {
    Bounded(s) && TreeAgrees(s) && AllCovered(s.nodes)
  }

  lemma UnplaceKeepsCovered(s: CacheState, pod: Pod)
    requires AllCovered(s.nodes)
    ensures AllCovered(Unplace(s, pod).0.nodes)
    ensures Unplace(s, pod).1 != Ok ==> Unplace(s, pod).0 == s
  {
    hide Covered, Removed;
    if pod.nodeName in s.nodes {
      var v, t := s.nodes[pod.nodeName], Unplace(s, pod).0;
      RemovedIsCovered(v, pod, t.generation);
      if Unplace(s, pod).1 != Ok { assert s.nodes[pod.nodeName := v] == s.nodes; }
    }
  }

  lemma UnplaceKeepsTree(s: CacheState, pod: Pod)
    requires TreeAgrees(s)
    ensures TreeAgrees(Unplace(s, pod).0)
  {
  }

  lemma PlaceKeepsCovered(s: CacheState, pod: Pod)
    requires AllCovered(s.nodes)
    ensures AllCovered(Place(s, pod).nodes)
  {
    var base := Item(s, pod.nodeName);
    assert Covered(base);
    AddedIsCovered(base, pod, ItemGeneration(s, pod.nodeName) + 1);
    PlaceSetsItem(s, pod);
  }

  lemma PlaceKeepsTree(s: CacheState, pod: Pod)
    requires TreeAgrees(s)
    ensures TreeAgrees(Place(s, pod))
  {
  }

  lemma NodeEventKeepsCovered(s: CacheState, e: Event)
    requires AllCovered(s.nodes) && IsNodeEvent(e)
    ensures AllCovered(Step(s, e).0.nodes)
  {
    assert Covered(ZeroInfo);
  }

  lemma NodeEventKeepsTree(s: CacheState, e: Event)
    requires TreeAgrees(s) && IsNodeEvent(e) && NodeExpected(s, e)
    ensures TreeAgrees(Step(s, e).0)
  {
  }

  lemma StepKeepsCovered(s: CacheState, e: Event)
    requires AllCovered(s.nodes)
    ensures AllCovered(Step(s, e).0.nodes)
  {
    hide AllCovered, Place, Unplace, Step;
    if IsNodeEvent(e) {
      NodeEventKeepsCovered(s, e);
    } else {
      if RemovedBy(s, e).Some? { UnplaceKeepsCovered(s, RemovedBy(s, e).value); }
      if e.Assume? || e.Add? || e.Update? { PlaceKeepsCovered(AfterRemoval(s, e), NewVersion(e)); }
      StepMoves(s, e);
    }
  }

  /** Every event keeps tree and items in agreement, but a node update of a ghost. */
  lemma StepKeepsTree(s: CacheState, e: Event)
    requires TreeAgrees(s)
    ensures TreeAgrees(Step(s, e).0) <==> NodeExpected(s, e)
  {
    hide Place, Unplace;
    if IsNodeEvent(e) {
      if NodeExpected(s, e) {
        NodeEventKeepsTree(s, e);
      } else {
        assert Live(Step(s, e).0.nodes, e.node.name) && e.node.name !in Step(s, e).0.tree;
      }
    } else {
      if RemovedBy(s, e).Some? { UnplaceKeepsTree(s, RemovedBy(s, e).value); }
      if e.Assume? || e.Add? || e.Update? { PlaceKeepsTree(AfterRemoval(s, e), NewVersion(e)); }
      StepMoves(s, e);
    }
  }

  lemma StepKeepsRunInv(s: CacheState, e: Event)
    requires RunInv(s) && NodeExpected(s, e)
    ensures RunInv(Step(s, e).0)
  {
    hide Step;
    StepKeepsBounded(s, e);
    StepKeepsTree(s, e);
    StepKeepsCovered(s, e);
  }

  lemma EmptyCacheRunInv()
    ensures RunInv(EmptyCache)
  {
  }

  // ---------- Generations ----------

  /** From s to t the contents of an item change only together with its generation. */
  ghost predicate Touches(s: CacheState, t: CacheState) {
    && t.generation >= s.generation
    && forall n :: n in t.nodes ==> t.nodes[n].generation > s.generation || (n in s.nodes && t.nodes[n] == s.nodes[n])
  }

  lemma TouchesBoth(s: CacheState, t: CacheState, u: CacheState)
    requires Touches(s, t) && Touches(t, u)
    ensures Touches(s, u)
  {
  }

  lemma PlaceTouches(s: CacheState, pod: Pod)
    ensures Touches(s, Place(s, pod))
  {
  }

  lemma UnplaceTouches(s: CacheState, pod: Pod)
    requires AllCovered(s.nodes)
    ensures Touches(s, Unplace(s, pod).0)
  {
    hide AllCovered;
    UnplaceKeepsCovered(s, pod);
  }

  lemma NodeEventTouches(s: CacheState, e: Event)
    requires IsNodeEvent(e)
    ensures Touches(s, Step(s, e).0)
  {
  }

  /** Every event gives a new generation to whatever it changes. */
  lemma StepTouches(s: CacheState, e: Event)
    requires AllCovered(s.nodes)
    ensures Touches(s, Step(s, e).0)
  {
    hide AllCovered, Place, Unplace, Step;
    if IsNodeEvent(e) {
      NodeEventTouches(s, e);
    } else {
      var t := AfterRemoval(s, e);
      if RemovedBy(s, e).Some? { UnplaceTouches(s, RemovedBy(s, e).value); }
      if e.Assume? || e.Add? || e.Update? {
        var u := Place(t, NewVersion(e));
        PlaceTouches(t, NewVersion(e));
        TouchesBoth(s, t, u);
      }
      StepMoves(s, e);
    }
  }
}
