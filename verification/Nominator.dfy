/** The nominated pods of scheduler/internal/queue/scheduling_queue.go: per node the pods
    nominated to run on it, and per pod its node, kept in agreement. */
module Nominator {
  import opened Wrappers

  /** A pod, with the node its status nominates, or the empty name. */
  datatype NPod = NPod(uid: Name, nominatedNode: Name, version: int)

  datatype Nominations = Nominations(pods: map<Name, seq<NPod>>, nodeOf: map<Name, Name>)

  /** The first position of a pod with this UID, or the length. */
  function Find(list: seq<NPod>, uid: Name): (i: nat)
    ensures i <= |list|
    ensures i < |list| ==> list[i].uid == uid
    ensures forall j :: 0 <= j < i ==> list[j].uid != uid
  {
    if list == [] || list[0].uid == uid then 0
    else
      var i := Find(list[1..], uid);
      assert forall j :: 1 <= j < i + 1 ==> list[j] == list[1..][j - 1];
      i + 1
  }

  function ListOf(s: Nominations, n: Name): seq<NPod> {
    if n in s.pods then s.pods[n] else []
  }

  function SetList(pods: map<Name, seq<NPod>>, n: Name, list: seq<NPod>): map<Name, seq<NPod>> {
    if list == [] then pods - {n} else pods[n := list]
  }

  function Deleted(s: Nominations, uid: Name): Nominations {
    if uid !in s.nodeOf then s
    else
      var n := s.nodeOf[uid];
      var list := ListOf(s, n);
      var i := Find(list, uid);
      Nominations(
        if i < |list| then SetList(s.pods, n, list[..i] + list[i + 1..]) else s.pods,
        s.nodeOf - {uid})
  }

  /** The node under which a pod is added. */
  function Target(pod: NPod, node: Name): Name {
    if node == EmptyName then pod.nominatedNode else node
  }

  function Added(s: Nominations, pod: NPod, node: Name): Nominations {
    var t, n := Deleted(s, pod.uid), Target(pod, node);
    if n == EmptyName then t
    else
      var list := ListOf(t, n);
      Nominations(
        if Find(list, pod.uid) < |list| then t.pods else t.pods[n := list + [pod]],
        t.nodeOf[pod.uid := n])
  }

  function Updated(s: Nominations, prev: NPod, pod: NPod): Nominations {
    var reserved :=
      if prev.nominatedNode == EmptyName && pod.nominatedNode == EmptyName && prev.uid in s.nodeOf
      then s.nodeOf[prev.uid] else EmptyName;
    Added(Deleted(s, prev.uid), pod, reserved)
  }

  // ---------- Agreement of the two maps ----------

  ghost predicate DistinctUids(list: seq<NPod>) {
    forall i, j :: 0 <= i < j < |list| ==> list[i].uid != list[j].uid
  }

  ghost predicate Lists(list: seq<NPod>, uid: Name) {
    Find(list, uid) < |list|
  }

  /** A pod is in the list of a node exactly when that is its node; lists are not empty and
      name no pod twice; no pod is nominated to the empty name. */
  ghost predicate Agree(s: Nominations) {
    && (forall n :: n in s.pods ==> s.pods[n] != [] && DistinctUids(s.pods[n]))
    && (forall n, uid :: Lists(ListOf(s, n), uid) <==> uid in s.nodeOf && s.nodeOf[uid] == n)
    && EmptyName !in s.nodeOf.Values
  }

  lemma FindOther(list: seq<NPod>, i: nat, uid: Name)
    requires DistinctUids(list) && i < |list|
    ensures var rest := list[..i] + list[i + 1..];
      DistinctUids(rest) && (Lists(rest, uid) <==> Lists(list, uid) && uid != list[i].uid)
  {
    var rest := list[..i] + list[i + 1..];
    assert forall j :: 0 <= j < |rest| ==> rest[j] == list[if j < i then j else j + 1];
    var k := Find(list, uid);
    if k < |list| && k != i {
      assert rest[if k < i then k else k - 1].uid == uid;
    }
    var m := Find(rest, uid);
    if m < |rest| {
      assert list[if m < i then m else m + 1].uid == uid;
    }
  }

  lemma FindAppended(list: seq<NPod>, pod: NPod, uid: Name)
    requires DistinctUids(list) && !Lists(list, pod.uid)
    ensures DistinctUids(list + [pod])
    ensures Lists(list + [pod], uid) <==> Lists(list, uid) || uid == pod.uid
  {
    assert (list + [pod])[|list|] == pod;
    var k := Find(list, uid);
    if k < |list| { assert (list + [pod])[k].uid == uid; }
    forall i | 0 <= i < |list| ensures list[i].uid != pod.uid {
    }
  }

  lemma DeletedAgrees(s: Nominations, uid: Name)
    requires Agree(s)
    ensures Agree(Deleted(s, uid)) && Deleted(s, uid).nodeOf == s.nodeOf - {uid}
  {
    if uid in s.nodeOf {
      var t, n := Deleted(s, uid), s.nodeOf[uid];
      assert Lists(ListOf(s, n), uid);
      var list := s.pods[n];
      var i := Find(list, uid);
      forall m, u ensures Lists(ListOf(t, m), u) <==> u in t.nodeOf && t.nodeOf[u] == m {
        assert Lists(ListOf(s, m), u) <==> u in s.nodeOf && s.nodeOf[u] == m;
        FindOther(list, i, u);
      }
      FindOther(list, i, uid);
    }
  }

  /** A deletion leaves all other pods where they are, in the versions they have. */
  lemma DeletedLeavesOthers(s: Nominations, uid: Name, n: Name, p: NPod)
    requires Agree(s) && p.uid != uid
    ensures p in ListOf(Deleted(s, uid), n) <==> p in ListOf(s, n)
  {
    if uid in s.nodeOf && n == s.nodeOf[uid] {
      var list := ListOf(s, n);
      var i := Find(list, uid);
      if i < |list| {
        assert list == list[..i] + [list[i]] + list[i + 1..];
        assert p in list <==> p in list[..i] + list[i + 1..];
      }
    }
  }

  /** So does an addition. */
  lemma AddedLeavesOthers(s: Nominations, pod: NPod, node: Name, n: Name, p: NPod)
    requires Agree(s) && p.uid != pod.uid
    ensures p in ListOf(Added(s, pod, node), n) <==> p in ListOf(s, n)
  {
    DeletedLeavesOthers(s, pod.uid, n, p);
  }

  /** A pod is nominated to the node given or, if none is, to the one its status names. */
  lemma AddedAgrees(s: Nominations, pod: NPod, node: Name)
    requires Agree(s)
    ensures var t, n := Added(s, pod, node), if node != EmptyName then node else pod.nominatedNode;
      && Agree(t)
      && t.nodeOf == (if n == EmptyName then s.nodeOf - {pod.uid} else s.nodeOf[pod.uid := n])
      && (n != EmptyName ==> n in t.pods && pod in t.pods[n])
  {
    hide Find, Deleted;
    var t, n := Deleted(s, pod.uid), Target(pod, node);
    DeletedAgrees(s, pod.uid);
    if n != EmptyName {
      var list, u := ListOf(t, n), Added(s, pod, node);
      assert !Lists(list, pod.uid);
      forall m, uid ensures Lists(ListOf(u, m), uid) <==> uid in u.nodeOf && u.nodeOf[uid] == m {
        assert Lists(ListOf(t, m), uid) <==> uid in t.nodeOf && t.nodeOf[uid] == m;
        FindAppended(list, pod, uid);
      }
      FindAppended(list, pod, pod.uid);
      assert (list + [pod])[|list|] == pod;
    }
  }

  /** An update keeps the maps in agreement and replaces the old pod by the new one, also when
      that is another pod of the same name: on the node it names or, when neither version names
      one, on the node reserved in memory for the old one. */
  lemma UpdatedAgrees(s: Nominations, prev: NPod, pod: NPod)
    requires Agree(s)
    ensures var t := Updated(s, prev, pod);
      var n :=
        if pod.nominatedNode != EmptyName then pod.nominatedNode
        else if prev.nominatedNode == EmptyName && prev.uid in s.nodeOf then s.nodeOf[prev.uid]
        else EmptyName;
      && Agree(t)
      && t.nodeOf == (if n == EmptyName then s.nodeOf - {prev.uid, pod.uid}
                      else (s.nodeOf - {prev.uid})[pod.uid := n])
      && (n != EmptyName ==> n in t.pods && pod in t.pods[n])
  {
    hide Agree, Find;
    var reserved :=
      if prev.nominatedNode == EmptyName && pod.nominatedNode == EmptyName && prev.uid in s.nodeOf
      then s.nodeOf[prev.uid] else EmptyName;
    DeletedAgrees(s, prev.uid);
    AddedAgrees(Deleted(s, prev.uid), pod, reserved);
    assert s.nodeOf - {prev.uid} - {pod.uid} == s.nodeOf - {prev.uid, pod.uid};
  }

  // ---------- The object ----------

  class NominatedPodMap {
    var nominatedPods: map<Name, seq<NPod>>
    var nominatedPodToNode: map<Name, Name>

    constructor ()
      ensures View() == Nominations(map[], map[])
    {
      nominatedPods, nominatedPodToNode := map[], map[];
    }

    ghost function View(): Nominations
      reads this
    {
      Nominations(nominatedPods, nominatedPodToNode)
    }

    method Delete(uid: Name)
      requires Agree(View())
      modifies this
      ensures View() == Deleted(old(View()), uid) && Agree(View())
    {
      DeletedAgrees(View(), uid);
      if uid !in nominatedPodToNode {
        return;
      }
      var n := nominatedPodToNode[uid];
      assert Lists(ListOf(View(), n), uid);
      var list := nominatedPods[n];
      var i := 0;
      while i < |list| && list[i].uid != uid
        invariant 0 <= i <= Find(list, uid)
      {
        i := i + 1;
      }
      list := list[..i] + list[i + 1..];
      nominatedPods := if |list| == 0 then nominatedPods - {n} else nominatedPods[n := list];
      nominatedPodToNode := nominatedPodToNode - {uid};
    }

    method Add(pod: NPod, node: Name)
      requires Agree(View())
      modifies this
      ensures View() == Added(old(View()), pod, node) && Agree(View())
    {
      AddedAgrees(View(), pod, node);
      Delete(pod.uid);
      var n := node;
      if n == EmptyName {
        n := pod.nominatedNode;
        if n == EmptyName {
          return;
        }
      }
      var list := if n in nominatedPods then nominatedPods[n] else [];
      nominatedPodToNode := nominatedPodToNode[pod.uid := n];
      var i := 0;
      while i < |list|
        invariant 0 <= i <= Find(list, pod.uid)
      {
        if list[i].uid == pod.uid {
          return;
        }
        i := i + 1;
      }
      nominatedPods := nominatedPods[n := list + [pod]];
    }

    method UpdateNominatedPod(prev: NPod, pod: NPod)
      requires Agree(View())
      modifies this
      ensures View() == Updated(old(View()), prev, pod) && Agree(View())
    {
      UpdatedAgrees(View(), prev, pod);
      var node := EmptyName;
      if prev.nominatedNode == EmptyName && pod.nominatedNode == EmptyName && prev.uid in nominatedPodToNode {
        node := nominatedPodToNode[prev.uid];
      }
      Delete(prev.uid);
      Add(pod, node);
    }
  }
}
