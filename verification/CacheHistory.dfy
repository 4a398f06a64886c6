/** The life of a pod as scheduler/internal/cache/interface.go draws it: unknown, assumed or
    confirmed, by the calls that succeeded so far and nothing else. The cache keeps exactly this
    about every key, in every run, and its answers follow from it. */
module CacheHistory {
  import opened Wrappers
  import opened NodeInfo
  import opened CacheModel
  import opened CacheRuns

  // ---------- Pods ----------

  datatype Fate = Unknown | Assumed(version: Pod, deadline: Option<int>) | Confirmed(version: Pod)

  /** An assumed pod expires once its deadline has passed. */
  predicate Expires(f: Fate, now: int) {
    f.Assumed? && f.deadline.Some? && now > f.deadline.value
  }

  /** What a call that succeeded means for the pod with key k. */
  function NextFate(f: Fate, e: Event, k: Name): Fate {
    match e
    case Assume(pod) => if pod.uid == k then Assumed(pod, None) else f
    case Finish(uid, deadline) => if uid == k && f.Assumed? then f.(deadline := Some(deadline)) else f
    case Forget(pod) => if pod.uid == k then Unknown else f
    case Add(pod) => if pod.uid == k then Confirmed(pod) else f
    case Update(oldPod, newPod) => if oldPod.uid == k then Confirmed(newPod) else f
    case Remove(pod) => if pod.uid == k then Unknown else f
    case Clean(uid, now) => if uid == k && Expires(f, now) then Unknown else f
    case _ => f
  }

  ghost predicate Succeeds(es: seq<Event>, e: Event) {
    Step(Run(EmptyCache, es), e).1 == Ok
  }

  /** What the successful calls of a run say about the pod with key k. */
  ghost function FateOf(es: seq<Event>, k: Name): Fate {
    if es == [] then Unknown
    else
      var front, e := es[..|es| - 1], es[|es| - 1];
      if Succeeds(front, e) then NextFate(FateOf(front, k), e, k) else FateOf(front, k)
  }

  /** The cache keeps this about k. */
  ghost predicate Remembers(s: CacheState, k: Name, f: Fate) {
    && (k in s.podStates <==> !f.Unknown?)
    && (k in s.assumed <==> f.Assumed?)
    && (k in s.podStates ==>
          var st := s.podStates[k];
          && st.pod == f.version
          && st.deadline == (if f.Assumed? then f.deadline else None)
          && (f.Assumed? ==> (st.bindingFinished <==> f.deadline.Some?)))
  }

  lemma StepRemembers(s: CacheState, e: Event, k: Name, f: Fate)
    requires Remembers(s, k, f)
    ensures var (t, o) := Step(s, e); Remembers(t, k, if o == Ok then NextFate(f, e, k) else f)
  {
    hide Left, AddPodTo, Item;
  }

  /** After any run the cache knows, of every key, what the successful calls say: whether it is
      assumed or confirmed, in which version, and with which deadline. */
  lemma {:induction false} FateIsKept(es: seq<Event>, k: Name)
    ensures Remembers(Run(EmptyCache, es), k, FateOf(es, k))
  {
    if es != [] {
      FateIsKept(es[..|es| - 1], k);
      StepRemembers(Run(EmptyCache, es[..|es| - 1]), es[|es| - 1], k, FateOf(es[..|es| - 1], k));
    }
  }

  // ---------- The last decision ----------

  /** The event decides whether k is assumed. */
  ghost predicate Decides(es: seq<Event>, e: Event, k: Name) {
    && Succeeds(es, e)
    && match e
       case Assume(pod) => pod.uid == k
       case Add(pod) => pod.uid == k
       case Forget(pod) => pod.uid == k
       case Remove(pod) => pod.uid == k
       case Clean(uid, now) => uid == k && Expires(FateOf(es, k), now)
       case _ => false
  }

  ghost function LastDecision(es: seq<Event>, k: Name): Option<Event> {
    if es == [] then None
    else if Decides(es[..|es| - 1], es[|es| - 1], k) then Some(es[|es| - 1])
    else LastDecision(es[..|es| - 1], k)
  }

  lemma UpdatesAreConfirmed(es: seq<Event>, oldPod: Pod, newPod: Pod)
    requires Succeeds(es, Update(oldPod, newPod))
    ensures FateOf(es, oldPod.uid).Confirmed?
  {
    FateIsKept(es, oldPod.uid);
  }

  lemma {:induction false} DecisionIsFate(es: seq<Event>, k: Name)
    ensures FateOf(es, k).Assumed? <==> LastDecision(es, k).Some? && LastDecision(es, k).value.Assume?
    ensures FateOf(es, k).Confirmed? <==> LastDecision(es, k).Some? && LastDecision(es, k).value.Add?
  {
    if es != [] {
      var front, e := es[..|es| - 1], es[|es| - 1];
      DecisionIsFate(front, k);
      if Succeeds(front, e) && e.Update? { UpdatesAreConfirmed(front, e.oldPod, e.newPod); }
    }
  }

  /** A key is assumed exactly when its last successful Assume, Add, Forget, Remove or expiring
      cleanup was an Assume, and known exactly when it was an Assume or an Add. */
  lemma AssumedIff(es: seq<Event>, k: Name)
    ensures var s, last := Run(EmptyCache, es), LastDecision(es, k);
      && (k in s.assumed <==> last.Some? && last.value.Assume?)
      && (k in s.podStates <==> last.Some? && (last.value.Assume? || last.value.Add?))
  {
    FateIsKept(es, k);
    DecisionIsFate(es, k);
  }

  // ---------- Confirmed pods stay ----------

  lemma RunFollows(es: seq<Event>, e: Event)
    ensures Run(EmptyCache, es + [e]) == Step(Run(EmptyCache, es), e).0
    ensures forall k :: FateOf(es + [e], k) == if Succeeds(es, e) then NextFate(FateOf(es, k), e, k) else FateOf(es, k)
  {
    hide Step;
    assert (es + [e])[..|es|] == es;
  }

  /** No event of `more`, which follows `es`, assumes the pod with key k anew. */
  ghost predicate NotAssumedAgain(es: seq<Event>, more: seq<Event>, k: Name) {
    forall i :: 0 <= i < |more| && more[i].Assume? && more[i].pod.uid == k ==> !Succeeds(es + more[..i], more[i])
  }

  lemma {:induction false} StaysUnassumed(es: seq<Event>, more: seq<Event>, k: Name)
    requires !FateOf(es, k).Assumed? && NotAssumedAgain(es, more, k)
    ensures !FateOf(es + more, k).Assumed?
  {
    hide Step, Run, Succeeds, FateOf;
    if more == [] {
      assert es + more == es;
    } else {
      var n := |more| - 1;
      forall i | 0 <= i < n && more[..n][i].Assume? && more[..n][i].pod.uid == k
        ensures !Succeeds(es + more[..n][..i], more[..n][i])
      {
        assert more[..n][..i] == more[..i];
      }
      StaysUnassumed(es, more[..n], k);
      RunFollows(es + more[..n], more[n]);
      assert es + more[..n] + [more[n]] == es + more;
    }
  }

  /** Once a pod is added, be it assumed before on the same node or another one or not at all,
      its state has the version added and no deadline; and however the run goes on, unless the
      pod is assumed anew, no cleanup does anything about it. */
  lemma ConfirmedStays(es: seq<Event>, pod: Pod, more: seq<Event>, now: int)
    requires Succeeds(es, Add(pod))
    ensures var s := Run(EmptyCache, es + [Add(pod)]);
      && pod.uid in s.podStates && s.podStates[pod.uid].pod == pod && s.podStates[pod.uid].deadline == None
      && pod.uid !in s.assumed
    ensures NotAssumedAgain(es + [Add(pod)], more, pod.uid) ==>
      var t := Run(EmptyCache, es + [Add(pod)] + more); Step(t, Clean(pod.uid, now)) == (t, Ok)
  {
    hide Step, Run, Succeeds, FateOf;
    var all := es + [Add(pod)];
    RunFollows(es, Add(pod));
    FateIsKept(all, pod.uid);
    if NotAssumedAgain(all, more, pod.uid) {
      StaysUnassumed(all, more, pod.uid);
      FateIsKept(all + more, pod.uid);
      NothingToClean(Run(EmptyCache, all + more), pod.uid, now);
    }
  }

  lemma NothingToClean(s: CacheState, k: Name, now: int)
    requires k !in s.assumed
    ensures Step(s, Clean(k, now)) == (s, Ok)
  {
  }

  // ---------- Nodes ----------

  /** The Node object of n, by the last node event about n. */
  ghost function LatestNode(es: seq<Event>, n: Name): Option<Node> {
    if es == [] then None
    else
      match es[|es| - 1]
      case NodeAdd(node) => if node.name == n then Some(node) else LatestNode(es[..|es| - 1], n)
      case NodeUpdate(node) => if node.name == n then Some(node) else LatestNode(es[..|es| - 1], n)
      case NodeRemove(name) => if name == n then None else LatestNode(es[..|es| - 1], n)
      case _ => LatestNode(es[..|es| - 1], n)
  }

  ghost function NodeOf(s: CacheState, n: Name): Option<Node> {
    if n in s.nodes then s.nodes[n].node else None
  }

  lemma UnplaceKeepsNode(s: CacheState, pod: Pod, n: Name)
    ensures NodeOf(Unplace(s, pod).0, n) == NodeOf(s, n)
  {
  }

  lemma PlaceKeepsNode(s: CacheState, pod: Pod, n: Name)
    ensures NodeOf(Place(s, pod), n) == NodeOf(s, n)
  {
  }

  lemma PodEventKeepsNode(s: CacheState, e: Event, n: Name)
    requires !IsNodeEvent(e)
    ensures NodeOf(Step(s, e).0, n) == NodeOf(s, n)
  {
    hide Place, Unplace, Step;
    var t := AfterRemoval(s, e);
    if RemovedBy(s, e).Some? { UnplaceKeepsNode(s, RemovedBy(s, e).value, n); }
    if e.Assume? || e.Add? || e.Update? { PlaceKeepsNode(t, NewVersion(e), n); }
    StepMoves(s, e);
  }

  lemma NodeEventSetsNode(s: CacheState, e: Event, n: Name)
    requires IsNodeEvent(e)
    ensures NodeOf(Step(s, e).0, n) == match e
      case NodeAdd(node) => if node.name == n then Some(node) else NodeOf(s, n)
      case NodeUpdate(node) => if node.name == n then Some(node) else NodeOf(s, n)
      case NodeRemove(name) => if name == n then None else NodeOf(s, n)
      case _ => NodeOf(s, n)
  {
  }

  /** After any run an item has the Node object of the last node event about its name. */
  lemma {:induction false} NodeIsLatest(es: seq<Event>, n: Name)
    ensures NodeOf(Run(EmptyCache, es), n) == LatestNode(es, n)
  {
    hide Step;
    if es != [] {
      var s, e := Run(EmptyCache, es[..|es| - 1]), es[|es| - 1];
      NodeIsLatest(es[..|es| - 1], n);
      if IsNodeEvent(e) {
        NodeEventSetsNode(s, e, n);
      } else {
        PodEventKeepsNode(s, e, n);
      }
    }
  }

  // ---------- Answers ----------

  lemma {:induction false} RunIsCovered(es: seq<Event>)
    ensures AllCovered(Run(EmptyCache, es).nodes)
  {
    hide Step, AllCovered;
    if es == [] {
      EmptyCacheRunInv();
    } else {
      RunIsCovered(es[..|es| - 1]);
      StepKeepsCovered(Run(EmptyCache, es[..|es| - 1]), es[|es| - 1]);
    }
  }

  /** After any run a pod event that reports an error changes nothing at all. */
  lemma FailsQuietly(es: seq<Event>, e: Event)
    requires !IsNodeEvent(e)
    ensures var s := Run(EmptyCache, es); Step(s, e).1 == Err ==> Step(s, e).0 == s
  {
    hide AllCovered, Place, Left, Run;
    var s := Run(EmptyCache, es);
    RunIsCovered(es);
    if RemovedBy(s, e).Some? { UnplaceKeepsCovered(s, RemovedBy(s, e).value); }
  }

  /** The key that an event is about. */
  function KeyOf(e: Event): Name {
    match e
    case Assume(pod) => pod.uid
    case Forget(pod) => pod.uid
    case Add(pod) => pod.uid
    case Remove(pod) => pod.uid
    case Finish(uid, _) => uid
    case Clean(uid, _) => uid
    case Update(oldPod, _) => oldPod.uid
    case _ => EmptyName
  }

  /** The answer to a call about a pod, by what is known of it; that to an update also depends on
      the item its old version names. */
  ghost predicate Answers(s: CacheState, e: Event, f: Fate, o: Outcome)
    requires !IsNodeEvent(e)
  {
    match e
    case Assume(pod) => o == if pod.uid != EmptyName && f.Unknown? then Ok else Err
    case Finish(uid, _) => o == if uid != EmptyName then Ok else Err
    case Forget(pod) => o == if f.Assumed? && f.version.nodeName == pod.nodeName then Ok else Err
    case Add(pod) => o == if pod.uid != EmptyName && !f.Confirmed? then Ok else Err
    case Update(oldPod, newPod) =>
      if !f.Confirmed? then o == Err
      else if f.version.nodeName != newPod.nodeName then o == Fatal
      else if f.version.nodeName == oldPod.nodeName then o == Ok
      else o == Ok <==> oldPod.nodeName !in s.nodes
    case Remove(pod) =>
      o == if !f.Confirmed? then Err else if f.version.nodeName != pod.nodeName then Fatal else Ok
    case _ => o == Ok
  }

  /** After an expected run the answer to every call follows from what the successful calls say
      about its pod, or its node. */
  lemma AnswerIs(es: seq<Event>, e: Event)
    requires ExpectedRun(EmptyCache, es)
    ensures var s := Run(EmptyCache, es);
      var o := Step(s, e).1;
      if !IsNodeEvent(e) then Answers(s, e, FateOf(es, KeyOf(e)), o)
      else if e.NodeRemove? then o == if LatestNode(es, e.name).Some? then Ok else Err
      else o == Ok
  {
    hide FateOf, LatestNode, Run, Inv, Answers;
    EmptyCacheInv();
    RunKeepsInv(EmptyCache, es);
    var s := Run(EmptyCache, es);
    if e.NodeRemove? {
      NodeIsLatest(es, e.name);
      NodeAnswer(s, e.name);
    } else if !IsNodeEvent(e) {
      FateIsKept(es, KeyOf(e));
      PodAnswer(s, e, FateOf(es, KeyOf(e)));
    }
  }

  lemma NodeAnswer(s: CacheState, n: Name)
    requires Inv(s)
    ensures Step(s, NodeRemove(n)).1 == if NodeOf(s, n).Some? then Ok else Err
  {
  }

  lemma PodAnswer(s: CacheState, e: Event, f: Fate)
    requires Inv(s) && !IsNodeEvent(e) && Remembers(s, KeyOf(e), f)
    ensures Answers(s, e, f, Step(s, e).1)
  {
    hide ItemHolds, Place, Left, Bounded;
    match e
    case Update(oldPod, newPod) =>
      if f.Confirmed? && f.version.nodeName == newPod.nodeName && oldPod.nodeName in s.nodes {
        ListedIff(s, oldPod.nodeName, oldPod.uid);
      }
    case Add(pod) => if f.Assumed? { UnplaceKeeps(s, f.version); }
    case Forget(pod) => if f.Assumed? && f.version.nodeName == pod.nodeName { UnplaceKeeps(s, pod); }
    case Remove(pod) => if f.Confirmed? && f.version.nodeName == pod.nodeName { UnplaceKeeps(s, f.version); }
    case Clean(uid, now) => if f.Assumed? { UnplaceKeeps(s, f.version); }
    case _ =>
  }

  lemma ListedIff(s: CacheState, n: Name, k: Name)
    requires Inv(s) && n in s.nodes
    ensures HasUid(s.nodes[n], k) <==> k in s.podStates && s.podStates[k].pod.nodeName == n
  {
    HasUidMeansListed(s.nodes[n], k);
    assert k in Assigned(s.podStates, n) <==> k in s.podStates && s.podStates[k].pod.nodeName == n;
  }

  // ---------- The versions in the items ----------

  /** The event puts a version of its pod into an item, when it succeeds: an Add does so unless it
      confirms a pod on the node it was assumed on. */
  predicate Places(f: Fate, e: Event) {
    match e
    case Assume(_) => true
    case Add(pod) => !(f.Assumed? && f.version.nodeName == pod.nodeName)
    case Update(_, _) => true
    case _ => false
  }

  /** The last version of the pod with key k that was put into an item. */
  ghost function LatestPlaced(es: seq<Event>, k: Name): Option<Pod> {
    if es == [] then None
    else
      var front, e := es[..|es| - 1], es[|es| - 1];
      if KeyOf(e) == k && Places(FateOf(front, k), e) && Succeeds(front, e) then Some(NewVersion(e))
      else LatestPlaced(front, k)
  }

  lemma StepItems(s: CacheState, e: Event, f: Fate)
    requires !IsNodeEvent(e) && Remembers(s, KeyOf(e), f)
    ensures SameItems(Step(s, e).0,
      if Places(f, e) && Step(s, e).1 == Ok then Place(AfterRemoval(s, e), NewVersion(e)) else AfterRemoval(s, e))
  {
    hide Left, AddPodTo, Item;
  }

  ghost predicate Lists(s: CacheState, n: Name, p: Pod) {
    n in s.nodes && p in s.nodes[n].pods
  }

  lemma UnplaceLists(s: CacheState, pod: Pod, n: Name, p: Pod)
    requires Lists(Unplace(s, pod).0, n, p)
    ensures Lists(s, n, p)
  {
    if pod.nodeName in s.nodes {
      var pods := s.nodes[pod.nodeName].pods;
      if IndexOf(pods, pod.uid) < |pods| { SwapRemoveMembers(pods, IndexOf(pods, pod.uid)); }
    }
  }

  lemma PlaceLists(s: CacheState, pod: Pod, n: Name, p: Pod)
    ensures Lists(Place(s, pod), n, p) <==> Lists(s, n, p) || (n == pod.nodeName && p == pod)
  {
    PlaceSetsItem(s, pod);
  }

  lemma NodeEventLists(s: CacheState, e: Event, n: Name, p: Pod)
    requires IsNodeEvent(e) && Lists(Step(s, e).0, n, p)
    ensures Lists(s, n, p)
  {
  }

  /** Two pods with one key are listed in one place only. */
  lemma ListedOnce(s: CacheState, n: Name, p: Pod, m: Name, q: Pod)
    requires Inv(s) && Lists(s, n, p) && Lists(s, m, q) && p.uid == q.uid
    ensures n == m && p == q
  {
    var i :| 0 <= i < |s.nodes[n].pods| && s.nodes[n].pods[i] == p;
    var j :| 0 <= j < |s.nodes[m].pods| && s.nodes[m].pods[j] == q;
    assert p.uid in Uids(s.nodes[n]) && q.uid in Uids(s.nodes[m]);
    assert p.uid in Assigned(s.podStates, n) && q.uid in Assigned(s.podStates, m);
  }

  lemma StepLists(s: CacheState, e: Event, f: Fate, n: Name, p: Pod)
    requires Inv(s) && Expected(s, e) && !IsNodeEvent(e) && Remembers(s, KeyOf(e), f) && Lists(Step(s, e).0, n, p)
    ensures if p.uid == KeyOf(e) && Places(f, e) && Step(s, e).1 == Ok then p == NewVersion(e) else Lists(s, n, p)
  {
    hide Step, Place, Unplace, Lists, Inv, Remembers;
    var t, u := Step(s, e).0, AfterRemoval(s, e);
    StepItems(s, e, f);
    SameItemsList(t, if Places(f, e) && Step(s, e).1 == Ok then Place(u, NewVersion(e)) else u, n, p);
    if Places(f, e) && Step(s, e).1 == Ok {
      var q := NewVersion(e);
      PlaceLists(u, q, n, p);
      PlaceLists(u, q, q.nodeName, q);
      SameItemsList(t, Place(u, q), q.nodeName, q);
      StepKeepsInv(s, e);
      if p.uid == q.uid { ListedOnce(t, n, p, q.nodeName, q); }
      PlacedKey(s, e);
    }
    if Lists(u, n, p) && RemovedBy(s, e).Some? { UnplaceLists(s, RemovedBy(s, e).value, n, p); }
  }

  lemma PlacedKey(s: CacheState, e: Event)
    requires Expected(s, e) && (e.Assume? || e.Add? || e.Update?) && Step(s, e).1 == Ok
    ensures NewVersion(e).uid == KeyOf(e)
  {
    hide Place, Unplace;
  }

  lemma SameItemsList(s: CacheState, t: CacheState, n: Name, p: Pod)
    requires SameItems(s, t)
    ensures Lists(s, n, p) <==> Lists(t, n, p)
  {
  }

  /** After an expected run every item lists its pods in the last version that was put there. */
  lemma {:induction false} ItemsListLatest(es: seq<Event>, n: Name, p: Pod)
    requires ExpectedRun(EmptyCache, es) && Lists(Run(EmptyCache, es), n, p)
    ensures LatestPlaced(es, p.uid) == Some(p)
  {
    hide Step, Inv, Expected, Remembers, FateOf;
    if es != [] {
      var front, e := es[..|es| - 1], es[|es| - 1];
      var s := Run(EmptyCache, front);
      EmptyCacheInv();
      RunKeepsInv(EmptyCache, front);
      if IsNodeEvent(e) {
        NodeEventLists(s, e, n, p);
      } else {
        FateIsKept(front, KeyOf(e));
        StepLists(s, e, FateOf(front, KeyOf(e)), n, p);
      }
      if Lists(s, n, p) { ItemsListLatest(front, n, p); }
    }
  }
}
