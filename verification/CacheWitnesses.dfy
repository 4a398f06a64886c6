/** Runs of the scheduler cache, from an empty one, in which an error message reads the name of a
    Node that is not there, which ends the process. */
module CacheWitnesses {
  import opened Wrappers
  import opened NodeInfo
  import opened CacheModel
  import opened CacheRuns

  /** The pods that items without Nodes list. */
  type Lists = map<Name, seq<Pod>>

  ghost predicate Shows(s: CacheState, lists: Lists, ps: map<Name, PodState>, assumed: set<Name>) {
    && s.nodes.Keys == lists.Keys && s.podStates == ps && s.assumed == assumed
    && forall n :: n in lists ==> s.nodes[n].node.None? && s.nodes[n].pods == lists[n]
  }

  function With(lists: Lists, pod: Pod): Lists {
    lists[pod.nodeName := (if pod.nodeName in lists then lists[pod.nodeName] else []) + [pod]]
  }

  function Without(lists: Lists, pod: Pod): Lists {
    if pod.nodeName in lists then lists[pod.nodeName := RemoveUid(lists[pod.nodeName], pod.uid)] else lists
  }

  /** A removal that leaves another pod. */
  ghost predicate Removable(lists: Lists, pod: Pod) {
    && pod.uid != EmptyName && pod.nodeName in lists
    && IndexOf(lists[pod.nodeName], pod.uid) < |lists[pod.nodeName]|
    && RemoveUid(lists[pod.nodeName], pod.uid) != []
  }

  lemma PlaceShows(s: CacheState, lists: Lists, ps: map<Name, PodState>, assumed: set<Name>, pod: Pod)
    requires Shows(s, lists, ps, assumed)
    ensures Shows(Place(s, pod), With(lists, pod), ps, assumed)
  {
  }

  lemma UnplaceShows(s: CacheState, lists: Lists, ps: map<Name, PodState>, assumed: set<Name>, pod: Pod)
    requires Shows(s, lists, ps, assumed) && Removable(lists, pod)
    ensures Unplace(s, pod).1 == Ok && Shows(Unplace(s, pod).0, Without(lists, pod), ps, assumed)
  {
    hide RemoveUid, IndexOf;
  }

  lemma AddShows(s: CacheState, lists: Lists, ps: map<Name, PodState>, assumed: set<Name>, pod: Pod)
    requires Shows(s, lists, ps, assumed) && pod.uid != EmptyName && pod.uid !in ps
    ensures Shows(Step(s, Add(pod)).0, With(lists, pod), ps[pod.uid := PodState(pod, None, false)], assumed)
  {
    hide Place, Unplace;
    PlaceShows(s, lists, ps, assumed, pod);
  }

  lemma AssumeShows(s: CacheState, lists: Lists, ps: map<Name, PodState>, assumed: set<Name>, pod: Pod)
    requires Shows(s, lists, ps, assumed) && pod.uid != EmptyName && pod.uid !in ps
    ensures Shows(
      Step(s, Assume(pod)).0, With(lists, pod), ps[pod.uid := PodState(pod, None, false)], assumed + {pod.uid})
  {
    hide Place, Unplace;
    PlaceShows(s, lists, ps, assumed, pod);
  }

  lemma UpdateShows(
    s: CacheState, lists: Lists, ps: map<Name, PodState>, assumed: set<Name>, oldPod: Pod, newPod: Pod)
    requires Shows(s, lists, ps, assumed) && Removable(lists, oldPod)
    requires oldPod.uid in ps && oldPod.uid !in assumed && ps[oldPod.uid].pod.nodeName == newPod.nodeName
    ensures Shows(
      Step(s, Update(oldPod, newPod)).0, With(Without(lists, oldPod), newPod),
      ps[oldPod.uid := ps[oldPod.uid].(pod := newPod)], assumed)
  {
    hide Place, Unplace, RemoveUid, IndexOf;
    UnplaceShows(s, lists, ps, assumed, oldPod);
    PlaceShows(Unplace(s, oldPod).0, Without(lists, oldPod), ps, assumed, newPod);
  }

  lemma RemoveShows(s: CacheState, lists: Lists, ps: map<Name, PodState>, assumed: set<Name>, pod: Pod)
    requires Shows(s, lists, ps, assumed) && pod.uid in ps && pod.uid !in assumed && pod.uid != EmptyName
    requires ps[pod.uid].pod.nodeName == pod.nodeName && Removable(lists, ps[pod.uid].pod)
    ensures Shows(Step(s, Remove(pod)).0, Without(lists, ps[pod.uid].pod), ps - {pod.uid}, assumed)
  {
    hide Place, Unplace, RemoveUid, IndexOf;
    UnplaceShows(s, lists, ps, assumed, ps[pod.uid].pod);
    assert assumed - {pod.uid} == assumed;
  }

  lemma TwoPods(a: Pod, b: Pod)
    ensures a.uid != b.uid ==> IndexOf([a, b], b.uid) == 1
    ensures RemoveUid([a, b], b.uid) == if a.uid == b.uid then [b] else [a]
    ensures IndexOf([a, b], b.uid) < 2
    ensures a.uid != b.uid ==> IndexOf([a], b.uid) == 1
  {
  }

  lemma OneNode(n: Name, pods: seq<Pod>, pod: Pod)
    requires pod.nodeName == n
    ensures With(map[], pod) == map[n := [pod]]
    ensures With(map[n := pods], pod) == map[n := pods + [pod]]
    ensures Without(map[n := pods], pod) == map[n := RemoveUid(pods, pod.uid)]
  {
    hide RemoveUid;
    assert [] + [pod] == [pod];
  }

  lemma NothingShown()
    ensures Shows(EmptyCache, map[], map[], {})
  {
  }

  lemma TwoGhosts(a: Pod, b: Pod)
    requires a.uid != EmptyName && b.uid != EmptyName && a.uid != b.uid && a.nodeName != b.nodeName
    ensures Shows(
      Step(Step(EmptyCache, Add(a)).0, Add(b)).0, map[a.nodeName := [a], b.nodeName := [b]],
      map[a.uid := PodState(a, None, false), b.uid := PodState(b, None, false)], {})
  {
    hide Shows, Step;
    NothingShown();
    AddShows(EmptyCache, map[], map[], {}, a);
    OneNode(a.nodeName, [], a);
    AddShows(Step(EmptyCache, Add(a)).0, map[a.nodeName := [a]], map[a.uid := PodState(a, None, false)], {}, b);
    assert [] + [b] == [b];
  }

  lemma TwoAddsKeepInv(a: Pod, b: Pod)
    ensures Inv(Step(Step(EmptyCache, Add(a)).0, Add(b)).0)
  {
    hide Step;
    EmptyCacheInv();
    StepKeepsInv(EmptyCache, Add(a));
    StepKeepsInv(Step(EmptyCache, Add(a)).0, Add(b));
  }

  /** An update names, in the old version of a pod, another ghost than the one that lists it. */
  lemma UpdatePodCanPanic(other: Pod, oldPod: Pod, pod: Pod)
    requires other.uid != EmptyName && pod.uid != EmptyName && other.uid != pod.uid
    requires oldPod.uid == pod.uid && oldPod.nodeName == other.nodeName && pod.nodeName != other.nodeName
    ensures var s := Step(Step(EmptyCache, Add(other)).0, Add(pod)).0;
      Inv(s) && Step(s, Update(oldPod, pod)).1 == Fatal
  {
    hide Step;
    var s := Step(Step(EmptyCache, Add(other)).0, Add(pod)).0;
    TwoAddsKeepInv(other, pod);
    TwoGhosts(other, pod);
    TwoPods(other, pod);
    StepIsFatalIff(s, Update(oldPod, pod));
  }

  // ---------- The cleanup ----------

  /** The first two pods and the last are on one node, the third on another, and the last two
      are versions of one pod. */
  ghost predicate Cast(x: Pod, q: Pod, elsewhere: Pod, p: Pod) {
    && x.uid != EmptyName && q.uid != EmptyName && p.uid != EmptyName
    && x.uid != q.uid && x.uid != p.uid && q.uid != p.uid && elsewhere.uid == p.uid
    && x.nodeName == p.nodeName && q.nodeName == p.nodeName && elsewhere.nodeName != p.nodeName
  }

  function First(x: Pod, q: Pod, p: Pod): seq<Event> {
    [Add(x), Add(q), Update(q, p)]
  }

  function Second(elsewhere: Pod, p: Pod): seq<Event> {
    [Add(elsewhere), Update(p, elsewhere), Remove(elsewhere)]
  }

  function Third(q: Pod, p: Pod, deadline: int): seq<Event> {
    [Assume(p), Remove(q), Finish(p.uid, deadline)]
  }

  lemma RunNext(s: CacheState, es: seq<Event>, e: Event)
    ensures Run(s, es + [e]) == Step(Run(s, es), e).0
  {
    hide Step;
    assert (es + [e])[..|es|] == es;
  }

  /** A run may be cut after three of its events. */
  lemma RunThree(s: CacheState, es: seq<Event>, a: Event, b: Event, c: Event)
    ensures Run(s, es + [a, b, c]) == Step(Step(Step(Run(s, es), a).0, b).0, c).0
  {
    hide Step, Run;
    RunNext(s, es, a);
    RunNext(s, es + [a], b);
    RunNext(s, es + [a] + [b], c);
    assert es + [a] + [b] + [c] == es + [a, b, c];
  }

  /** A pod takes the place of another in its item and in its pod state. */
  lemma FirstShows(x: Pod, q: Pod, elsewhere: Pod, p: Pod)
    requires Cast(x, q, elsewhere, p)
    ensures Shows(
      Run(EmptyCache, First(x, q, p)), map[p.nodeName := [x, p]],
      map[x.uid := PodState(x, None, false), q.uid := PodState(p, None, false)], {})
  {
    hide Shows, Step, RemoveUid, IndexOf, Run, With, Without;
    var n := p.nodeName;
    var ps := map[x.uid := PodState(x, None, false)];
    var r := Step(EmptyCache, Add(x)).0;
    var s := Step(r, Add(q)).0;
    RunThree(EmptyCache, [], Add(x), Add(q), Update(q, p));
    assert [] + First(x, q, p) == First(x, q, p);
    EmptyRun(EmptyCache);
    NothingShown();
    AddShows(EmptyCache, map[], map[], {}, x);
    OneNode(n, [x], x);
    AddShows(r, map[n := [x]], ps, {}, q);
    OneNode(n, [x], q);
    OneNode(n, [x, q], q);
    OneNode(n, [x], p);
    TwoPods(x, q);
    assert [x] + [q] == [x, q] && [x] + [p] == [x, p];
    var qs := ps[q.uid := PodState(q, None, false)];
    assert qs[q.uid := qs[q.uid].(pod := p)] == ps[q.uid := PodState(p, None, false)];
    UpdateShows(s, map[n := [x, q]], qs, {}, q, p);
  }

  lemma EmptyRun(s: CacheState)
    ensures Run(s, []) == s
  {
  }

  /** The same pod is put on another node as well, which takes it out of its item, and then
      removed; the pod state of the other pod still names it. */
  lemma SecondShows(s: CacheState, x: Pod, q: Pod, elsewhere: Pod, p: Pod)
    requires Cast(x, q, elsewhere, p)
    requires Shows(
      s, map[p.nodeName := [x, p]],
      map[x.uid := PodState(x, None, false), q.uid := PodState(p, None, false)], {})
    ensures Shows(
      Step(Step(Step(s, Add(elsewhere)).0, Update(p, elsewhere)).0, Remove(elsewhere)).0,
      map[p.nodeName := [x], elsewhere.nodeName := [elsewhere]],
      map[x.uid := PodState(x, None, false), q.uid := PodState(p, None, false)], {})
  {
    hide Shows, Step, RemoveUid, IndexOf, With, Without;
    var n, m, e := p.nodeName, elsewhere.nodeName, elsewhere;
    var ps := map[x.uid := PodState(x, None, false), q.uid := PodState(p, None, false)];
    var r := Step(s, Add(e)).0;
    var t := Step(r, Update(p, e)).0;
    var qs := ps[p.uid := PodState(e, None, false)];
    AddShows(s, map[n := [x, p]], ps, {}, e);
    TwoNodes(n, m, [x, p], [], e);
    TwoPods(x, p);
    UpdateShows(r, map[n := [x, p], m := [e]], qs, {}, p, e);
    TwoNodes(m, n, [e], [x, p], p);
    AnyOrder(n, m, [x, p], [e]);
    AnyOrder(n, m, [x], [e]);
    TwoNodes(n, m, [x], [e], e);
    assert [e] + [e] == [e, e] && qs[p.uid := qs[p.uid].(pod := e)] == qs;
    TwoPods(e, e);
    RemoveShows(t, map[n := [x], m := [e, e]], qs, {}, e);
    TwoNodes(n, m, [x], [e, e], e);
    assert qs - {p.uid} == ps;
  }

  lemma AnyOrder(n: Name, m: Name, a: seq<Pod>, b: seq<Pod>)
    requires n != m
    ensures map[n := a, m := b] == map[m := b, n := a]
  {
  }

  lemma TwoNodes(n: Name, m: Name, a: seq<Pod>, b: seq<Pod>, pod: Pod)
    requires n != m && pod.nodeName == m
    ensures With(map[n := a], pod) == map[n := a, m := [pod]]
    ensures With(map[n := a, m := b], pod) == map[n := a, m := b + [pod]]
    ensures Without(map[n := a, m := b], pod) == map[n := a, m := RemoveUid(b, pod.uid)]
  {
    hide RemoveUid;
    assert [] + [pod] == [pod];
  }

  /** The pod is assumed anew, and the removal of the other one takes it out of its item. */
  lemma ThirdShows(s: CacheState, x: Pod, q: Pod, elsewhere: Pod, p: Pod, deadline: int)
    requires Cast(x, q, elsewhere, p)
    requires Shows(
      s, map[p.nodeName := [x], elsewhere.nodeName := [elsewhere]],
      map[x.uid := PodState(x, None, false), q.uid := PodState(p, None, false)], {})
    ensures Shows(
      Step(Step(Step(s, Assume(p)).0, Remove(q)).0, Finish(p.uid, deadline)).0,
      map[p.nodeName := [x], elsewhere.nodeName := [elsewhere]],
      map[x.uid := PodState(x, None, false), p.uid := PodState(p, Some(deadline), true)], {p.uid})
  {
    hide Shows, Step, RemoveUid, IndexOf, With, Without;
    var n, m, e := p.nodeName, elsewhere.nodeName, elsewhere;
    var ps := map[x.uid := PodState(x, None, false), q.uid := PodState(p, None, false)];
    var qs := ps[p.uid := PodState(p, None, false)];
    var r := Step(s, Assume(p)).0;
    var t := Step(r, Remove(q)).0;
    AssumeShows(s, map[n := [x], m := [e]], ps, {}, p);
    TwoNodes(m, n, [e], [x], p);
    AnyOrder(n, m, [x, p], [e]);
    AnyOrder(n, m, [x], [e]);
    assert [x] + [p] == [x, p] && {} + {p.uid} == {p.uid};
    TwoPods(x, p);
    RemoveShows(r, map[n := [x, p], m := [e]], qs, {p.uid}, q);
    TwoNodes(m, n, [e], [x, p], p);
    FinishShows(t, map[n := [x], m := [e]], qs - {q.uid}, {p.uid}, p.uid, deadline);
    assert (qs - {q.uid})[p.uid := PodState(p, Some(deadline), true)]
        == map[x.uid := PodState(x, None, false), p.uid := PodState(p, Some(deadline), true)];
  }

  lemma FinishShows(
    s: CacheState, lists: Lists, ps: map<Name, PodState>, assumed: set<Name>, uid: Name, deadline: int)
    requires Shows(s, lists, ps, assumed) && uid != EmptyName && uid in ps && uid in assumed
    ensures Shows(
      Step(s, Finish(uid, deadline)).0, lists, ps[uid := PodState(ps[uid].pod, Some(deadline), true)], assumed)
  {
  }

  /** So ends the cleanup of an assumed pod: updates of one pod by another, and of one version
      by a version on another node, have taken it out of its item. */
  lemma CleanUpCanPanic(x: Pod, q: Pod, elsewhere: Pod, p: Pod, deadline: int, now: int)
    requires Cast(x, q, elsewhere, p) && now > deadline
    ensures var s := Run(EmptyCache, First(x, q, p) + Second(elsewhere, p) + Third(q, p, deadline));
      p.uid in s.assumed && Step(s, Clean(p.uid, now)).1 == Fatal
  {
    hide Shows, Step, Run;
    var es := First(x, q, p) + Second(elsewhere, p);
    var s := Run(EmptyCache, es + Third(q, p, deadline));
    FirstShows(x, q, elsewhere, p);
    SecondShows(Run(EmptyCache, First(x, q, p)), x, q, elsewhere, p);
    RunThree(EmptyCache, First(x, q, p), Add(elsewhere), Update(p, elsewhere), Remove(elsewhere));
    ThirdShows(Run(EmptyCache, es), x, q, elsewhere, p, deadline);
    RunThree(EmptyCache, es, Assume(p), Remove(q), Finish(p.uid, deadline));
    TwoPods(x, p);
    ShownIsFatal(
      s, map[p.nodeName := [x], elsewhere.nodeName := [elsewhere]],
      map[x.uid := PodState(x, None, false), p.uid := PodState(p, Some(deadline), true)], {p.uid}, p, now);
  }

  lemma ShownIsFatal(s: CacheState, lists: Lists, ps: map<Name, PodState>, assumed: set<Name>, p: Pod, now: int)
    requires Shows(s, lists, ps, assumed) && p.uid in ps && p.uid in assumed && p.uid != EmptyName
    requires ps[p.uid].pod == p && ps[p.uid].bindingFinished
    requires ps[p.uid].deadline.Some? && now > ps[p.uid].deadline.value
    requires p.nodeName in lists && IndexOf(lists[p.nodeName], p.uid) == |lists[p.nodeName]|
    ensures p.uid in s.assumed && Step(s, Clean(p.uid, now)).1 == Fatal
  {
    hide IndexOf, Left;
  }
}
