/** The recommender's cluster state of recommender/model/cluster.go and recommender/model/vpa.go:
    pods, autoscalers (VPAs) with their pod counts and their links to aggregations, all kept
    up to date step by step. */
module ClusterState {
  import opened Wrappers

  datatype PodID = PodID(namespace: Name, name: Name)
  datatype VpaID = VpaID(namespace: Name, name: Name)

  /** Labels stand for a set of labels, by its string. */
  datatype Key = Key(namespace: Name, container: Name, labels: Name)
  datatype PodState = PodState(labels: Name, containers: set<Name>, running: bool)

  /** An aggregation of samples; which one a VPA uses matters, so it is an object. */
  class Aggregate {
    var totalSamplesCount: int
    var lastSampleStart: int
    const creationTime: int

    constructor (now: int)
      ensures totalSamplesCount == 0 && creationTime == now
    {
      totalSamplesCount, lastSampleStart, creationTime := 0, 0, now;
    }

    predicate IsEmpty()
      reads this
    {
      totalSamplesCount == 0
    }

    /** Too old to give a meaningful recommendation, for a window of this length. */
    predicate IsExpired(now: int, window: int)
      reads this
    {
      now - (if IsEmpty() then creationTime else lastSampleStart) >= window
    }
  }

  /** A selector is its string. */
  datatype Vpa = Vpa(selector: Name, podCount: int, aggregations: map<Key, Aggregate>)

  /** Whether a selector matches a set of labels. */
  type Matcher = (Name, Name) -> bool

  predicate MatchesLabels(m: Matcher, id: VpaID, selector: Name, namespace: Name, labels: Name) {
    id.namespace == namespace && m(selector, labels)
  }

  function MatchingPods(m: Matcher, pods: map<PodID, PodState>, id: VpaID, selector: Name): set<PodID> {
    set p | p in pods && MatchesLabels(m, id, selector, p.namespace, pods[p].labels)
  }

  /** The aggregations whose keys match, with the same objects. */
  function MatchingAggregations(m: Matcher, aggs: map<Key, Aggregate>, id: VpaID, selector: Name): map<Key, Aggregate> {
    map k | k in aggs && MatchesLabels(m, id, selector, k.namespace, k.labels) :: aggs[k]
  }

  /** Every VPA counts the pods that match it. */
  ghost predicate CountsAgree(m: Matcher, pods: map<PodID, PodState>, vpas: map<VpaID, Vpa>) {
    forall v :: v in vpas ==> vpas[v].podCount == |MatchingPods(m, pods, v, vpas[v].selector)|
  }

  ghost predicate Linked(m: Matcher, aggs: map<Key, Aggregate>, v: VpaID, vpa: Vpa) {
    vpa.aggregations == MatchingAggregations(m, aggs, v, vpa.selector)
  }

  /** Every VPA is linked to exactly the aggregations that match it. */
  ghost predicate LinksAgree(m: Matcher, aggs: map<Key, Aggregate>, vpas: map<VpaID, Vpa>) {
    forall v :: v in vpas ==> Linked(m, aggs, v, vpas[v])
  }

  // ---------- Counting pods ----------

  function OneIf(b: bool): int {
    if b then 1 else 0
  }

  lemma CountWithout(m: Matcher, pods: map<PodID, PodState>, p: PodID, v: VpaID, selector: Name)
    requires p in pods
    ensures |MatchingPods(m, pods - {p}, v, selector)|
         == |MatchingPods(m, pods, v, selector)| - OneIf(MatchesLabels(m, v, selector, p.namespace, pods[p].labels))
  {
    var rest := MatchingPods(m, pods - {p}, v, selector);
    assert MatchingPods(m, pods, v, selector) ==
      rest + if MatchesLabels(m, v, selector, p.namespace, pods[p].labels) then {p} else {};
  }

  lemma CountWith(m: Matcher, pods: map<PodID, PodState>, p: PodID, pod: PodState, v: VpaID, selector: Name)
    requires p !in pods
    ensures |MatchingPods(m, pods[p := pod], v, selector)|
         == |MatchingPods(m, pods, v, selector)| + OneIf(MatchesLabels(m, v, selector, p.namespace, pod.labels))
  {
    assert MatchingPods(m, pods[p := pod], v, selector) ==
      MatchingPods(m, pods, v, selector) + if MatchesLabels(m, v, selector, p.namespace, pod.labels) then {p} else {};
  }

  /** The VPAs after the count of those that match some labels changed. */
  function Recounted(m: Matcher, vpas: map<VpaID, Vpa>, namespace: Name, labels: Name, delta: int): map<VpaID, Vpa> {
    map v | v in vpas ::
      vpas[v].(podCount := vpas[v].podCount + delta * OneIf(MatchesLabels(m, v, vpas[v].selector, namespace, labels)))
  }

  lemma RecountedWithout(m: Matcher, pods: map<PodID, PodState>, vpas: map<VpaID, Vpa>, p: PodID)
    requires CountsAgree(m, pods, vpas) && p in pods
    ensures CountsAgree(m, pods - {p}, Recounted(m, vpas, p.namespace, pods[p].labels, -1))
  {
    forall v | v in vpas { CountWithout(m, pods, p, v, vpas[v].selector); }
  }

  lemma RecountedWith(m: Matcher, pods: map<PodID, PodState>, vpas: map<VpaID, Vpa>, p: PodID, pod: PodState)
    requires CountsAgree(m, pods, vpas) && p !in pods
    ensures CountsAgree(m, pods[p := pod], Recounted(m, vpas, p.namespace, pod.labels, 1))
  {
    forall v | v in vpas { CountWith(m, pods, p, pod, v, vpas[v].selector); }
  }

  /** A pod that keeps its labels is counted as before. */
  lemma SameLabelsSameCounts(m: Matcher, pods: map<PodID, PodState>, vpas: map<VpaID, Vpa>, p: PodID, pod: PodState)
    requires CountsAgree(m, pods, vpas) && p in pods && pod.labels == pods[p].labels
    ensures CountsAgree(m, pods[p := pod], vpas)
  {
    forall v | v in vpas
      ensures MatchingPods(m, pods[p := pod], v, vpas[v].selector) == MatchingPods(m, pods, v, vpas[v].selector)
    {
    }
  }

  // ---------- Linking aggregations ----------

  /** A VPA after an aggregation was offered to it. */
  function Offered(m: Matcher, v: VpaID, vpa: Vpa, k: Key, a: Aggregate): Vpa {
    if k in vpa.aggregations then vpa
    else if MatchesLabels(m, v, vpa.selector, k.namespace, k.labels) then vpa.(aggregations := vpa.aggregations[k := a])
    else vpa
  }

  lemma OfferedIsLinked(m: Matcher, aggs: map<Key, Aggregate>, v: VpaID, vpa: Vpa, k: Key, a: Aggregate)
    requires Linked(m, aggs, v, vpa) && k !in aggs
    ensures Linked(m, aggs[k := a], v, Offered(m, v, vpa, k, a))
  {
  }

  lemma DeletedIsLinked(m: Matcher, aggs: map<Key, Aggregate>, v: VpaID, vpa: Vpa, k: Key)
    requires Linked(m, aggs, v, vpa)
    ensures Linked(m, aggs - {k}, v, vpa.(aggregations := vpa.aggregations - {k}))
  {
  }

  /** The same VPAs with the same selectors and counts, but perhaps other links. */
  ghost predicate SameVpas(a: map<VpaID, Vpa>, b: map<VpaID, Vpa>) {
    a.Keys == b.Keys && forall v :: v in a ==> a[v].selector == b[v].selector && a[v].podCount == b[v].podCount
  }

  /** The same VPAs with the same selectors and links, but perhaps other counts. */
  ghost predicate SameLinks(a: map<VpaID, Vpa>, b: map<VpaID, Vpa>) {
    && a.Keys == b.Keys
    && forall v :: v in a ==> a[v].selector == b[v].selector && a[v].aggregations == b[v].aggregations
  }

  ghost predicate SameSelectors(a: map<VpaID, Vpa>, b: map<VpaID, Vpa>) {
    a.Keys == b.Keys && forall v :: v in a ==> a[v].selector == b[v].selector
  }

  /** All aggregations of `a` are there with the same objects, and besides them those of `keys`. */
  ghost predicate GrownBy(a: map<Key, Aggregate>, b: map<Key, Aggregate>, keys: set<Key>) {
    b.Keys == a.Keys + keys && forall k :: k in a ==> b[k] == a[k]
  }

  /** The keys of a pod's containers. */
  function ContainerKeys(p: PodID, pod: PodState): set<Key> {
    set c | c in pod.containers :: Key(p.namespace, c, pod.labels)
  }

  /** What agreement means, spelled out: a VPA counts the pods of its own namespace whose labels its
      selector matches, and is linked to the aggregations of its own namespace whose labels it
      matches, by the very objects. */
  lemma IndexIs(m: Matcher, pods: map<PodID, PodState>, aggs: map<Key, Aggregate>, vpas: map<VpaID, Vpa>, v: VpaID)
    requires CountsAgree(m, pods, vpas) && LinksAgree(m, aggs, vpas) && v in vpas
    ensures vpas[v].podCount
         == |set p | p in pods && p.namespace == v.namespace && m(vpas[v].selector, pods[p].labels)|
    ensures forall k :: k in vpas[v].aggregations <==>
      k in aggs && k.namespace == v.namespace && m(vpas[v].selector, k.labels)
    ensures forall k :: k in vpas[v].aggregations ==> vpas[v].aggregations[k] == aggs[k]
  {
    assert Linked(m, aggs, v, vpas[v]);
    assert MatchingPods(m, pods, v, vpas[v].selector)
        == set p | p in pods && p.namespace == v.namespace && m(vpas[v].selector, pods[p].labels);
  }

  // ---------- The cluster ----------

  class ClusterState {
    const matches: Matcher
    /** The length of the memory aggregation window. */
    const window: int
    var pods: map<PodID, PodState>
    var vpas: map<VpaID, Vpa>
    var aggregateStateMap: map<Key, Aggregate>

    constructor (matches: Matcher, window: int)
      ensures Valid() && pods == map[] && vpas == map[] && aggregateStateMap == map[]
      ensures this.matches == matches && this.window == window
    {
      this.matches, this.window := matches, window;
      pods, vpas, aggregateStateMap := map[], map[], map[];
    }

    /** Every VPA counts exactly the pods that match it and uses exactly the aggregations that
        match it. */
    ghost predicate Valid()
      reads this
    {
      CountsAgree(matches, pods, vpas) && LinksAgree(matches, aggregateStateMap, vpas)
    }

    method Recount(namespace: Name, labels: Name, delta: int)
      modifies this`vpas
      ensures vpas == Recounted(matches, old(vpas), namespace, labels, delta)
    {
      var todo := vpas.Keys;
      while todo != {}
        invariant todo <= vpas.Keys && vpas.Keys == old(vpas).Keys
        invariant forall v :: v in vpas ==>
          vpas[v] == if v in todo then old(vpas)[v] else Recounted(matches, old(vpas), namespace, labels, delta)[v]
        decreases todo
      {
        var v :| v in todo;
        if MatchesLabels(matches, v, vpas[v].selector, namespace, labels) {
          vpas := vpas[v := vpas[v].(podCount := vpas[v].podCount + delta)];
        }
        todo := todo - {v};
      }
    }

    /** Links a new aggregation to the VPAs it matches. */
    method Offer(k: Key, a: Aggregate)
      requires LinksAgree(matches, aggregateStateMap, vpas) && k !in aggregateStateMap
      modifies this`vpas
      ensures LinksAgree(matches, aggregateStateMap[k := a], vpas) && SameVpas(old(vpas), vpas)
    {
      var todo := vpas.Keys;
      while todo != {}
        invariant todo <= vpas.Keys && SameVpas(old(vpas), vpas)
        invariant forall v :: v in vpas ==>
          Linked(matches, if v in todo then aggregateStateMap else aggregateStateMap[k := a], v, vpas[v])
        decreases todo
      {
        var v :| v in todo;
        OfferedIsLinked(matches, aggregateStateMap, v, vpas[v], k, a);
        vpas := vpas[v := Offered(matches, v, vpas[v], k, a)];
        todo := todo - {v};
      }
    }

    /** The aggregation of a key; a new one, linked to the VPAs, if there is none. */
    method FindOrCreate(k: Key, now: int) returns (a: Aggregate)
      requires LinksAgree(matches, aggregateStateMap, vpas)
      modifies this`vpas, this`aggregateStateMap
      ensures LinksAgree(matches, aggregateStateMap, vpas) && SameVpas(old(vpas), vpas)
      ensures k in aggregateStateMap && aggregateStateMap[k] == a
      ensures k in old(aggregateStateMap) ==> aggregateStateMap == old(aggregateStateMap)
      ensures k !in old(aggregateStateMap) ==>
        && fresh(a) && a.IsEmpty() && a.creationTime == now
        && aggregateStateMap == old(aggregateStateMap)[k := a]
    {
      if k in aggregateStateMap {
        return aggregateStateMap[k];
      }
      a := new Aggregate(now);
      Offer(k, a);
      aggregateStateMap := aggregateStateMap[k := a];
    }

    /** The aggregations of all containers of a pod, for its current labels. */
    method FindOrCreateAll(p: PodID, pod: PodState, now: int)
      requires LinksAgree(matches, aggregateStateMap, vpas)
      modifies this`vpas, this`aggregateStateMap
      ensures LinksAgree(matches, aggregateStateMap, vpas) && SameVpas(old(vpas), vpas)
      ensures GrownBy(old(aggregateStateMap), aggregateStateMap, ContainerKeys(p, pod))
    {
      var todo := pod.containers;
      while todo != {}
        invariant todo <= pod.containers
        invariant LinksAgree(matches, aggregateStateMap, vpas) && SameVpas(old(vpas), vpas)
        invariant aggregateStateMap.Keys
               == old(aggregateStateMap).Keys + (set c | c in pod.containers - todo :: Key(p.namespace, c, pod.labels))
        invariant forall k :: k in old(aggregateStateMap) ==>
          k in aggregateStateMap && aggregateStateMap[k] == old(aggregateStateMap)[k]
        decreases todo
      {
        var c :| c in todo;
        var _ := FindOrCreate(Key(p.namespace, c, pod.labels), now);
        todo := todo - {c};
      }
    }

    lemma SameVpasSameCounts(before: map<VpaID, Vpa>)
      requires CountsAgree(matches, pods, before) && SameVpas(before, vpas)
      ensures CountsAgree(matches, pods, vpas)
    {
    }

    method AddOrUpdatePod(p: PodID, labels: Name, running: bool, now: int)
      requires Valid()
      modifies this
      ensures Valid()
      ensures pods == old(pods)[p := PodState(labels, if p in old(pods) then old(pods)[p].containers else {}, running)]
      ensures p in old(pods) && old(pods)[p].labels == labels ==>
        vpas == old(vpas) && aggregateStateMap == old(aggregateStateMap)
      ensures !(p in old(pods) && old(pods)[p].labels == labels) ==>
        && SameSelectors(old(vpas), vpas)
        && GrownBy(old(aggregateStateMap), aggregateStateMap, ContainerKeys(p, pods[p]))
    {
      var pod := if p in pods then pods[p].(labels := labels, running := running) else PodState(labels, {}, running);
      if p in pods && pods[p].labels == labels {
        SameLabelsSameCounts(matches, pods, vpas, p, pod);
        pods := pods[p := pod];
        return;
      }
      if p in pods {
        RecountedWithout(matches, pods, vpas, p);
        Recount(p.namespace, pods[p].labels, -1);
        pods := pods - {p};
      }
      AddPod(p, pod, now);
    }

    /** A pod with new labels: its aggregations are found, and it is counted. */
    method AddPod(p: PodID, pod: PodState, now: int)
      requires Valid() && p !in pods
      modifies this
      ensures Valid() && pods == old(pods)[p := pod]
      ensures SameSelectors(old(vpas), vpas)
      ensures GrownBy(old(aggregateStateMap), aggregateStateMap, ContainerKeys(p, pod))
    {
      FindOrCreateAll(p, pod, now);
      SameVpasSameCounts(old(vpas));
      RecountedWith(matches, pods, vpas, p, pod);
      Recount(p.namespace, pod.labels, 1);
      pods := pods[p := pod];
    }

    method DeletePod(p: PodID)
      requires Valid()
      modifies this`pods, this`vpas
      ensures Valid() && pods == old(pods) - {p} && SameLinks(old(vpas), vpas)
    {
      if p in pods {
        RecountedWithout(matches, pods, vpas, p);
        Recount(p.namespace, pods[p].labels, -1);
      } else {
        assert pods - {p} == pods;
      }
      pods := pods - {p};
    }

    /** A container of an unknown pod is an error. */
    method AddOrUpdateContainer(p: PodID, container: Name, now: int) returns (r: Outcome)
      requires Valid()
      modifies this
      ensures Valid()
      ensures r == if p in old(pods) then Ok else Err
      ensures r == Err ==> pods == old(pods) && vpas == old(vpas) && aggregateStateMap == old(aggregateStateMap)
      ensures r == Ok ==> pods == old(pods)[p := old(pods)[p].(containers := old(pods)[p].containers + {container})]
      ensures SameVpas(old(vpas), vpas)
      ensures r == Ok ==>
        GrownBy(old(aggregateStateMap), aggregateStateMap,
          if container in old(pods)[p].containers then {} else {Key(p.namespace, container, pods[p].labels)})
    {
      if p !in pods {
        return Err;
      }
      var pod := pods[p].(containers := pods[p].containers + {container});
      if container !in pods[p].containers {
        var _ := FindOrCreate(Key(p.namespace, container, pods[p].labels), now);
        SameVpasSameCounts(old(vpas));
      }
      SameLabelsSameCounts(matches, pods, vpas, p, pod);
      pods := pods[p := pod];
      r := Ok;
    }

    /** What the aggregator of a container does before a sample reaches its aggregation. */
    method AggregationFor(p: PodID, container: Name, now: int) returns (a: Aggregate)
      requires Valid() && p in pods
      modifies this`vpas, this`aggregateStateMap
      ensures Valid() && SameVpas(old(vpas), vpas)
      ensures GrownBy(old(aggregateStateMap), aggregateStateMap, {Key(p.namespace, container, pods[p].labels)})
      ensures a == aggregateStateMap[Key(p.namespace, container, pods[p].labels)]
      ensures forall v :: v in vpas && MatchesLabels(matches, v, vpas[v].selector, p.namespace, pods[p].labels) ==>
        var k := Key(p.namespace, container, pods[p].labels);
        k in vpas[v].aggregations && vpas[v].aggregations[k] == a
    {
      a := FindOrCreate(Key(p.namespace, container, pods[p].labels), now);
      SameVpasSameCounts(old(vpas));
      assert forall v :: v in vpas ==> Linked(matches, aggregateStateMap, v, vpas[v]);
    }

    /** A new VPA, or one with a new selector, is linked and counted anew. */
    method AddOrUpdateVpa(id: VpaID, selector: Name)
      requires Valid()
      modifies this`vpas
      ensures Valid()
      ensures vpas.Keys == old(vpas).Keys + {id} && vpas[id].selector == selector
      ensures forall v :: v in old(vpas) && v != id ==> vpas[v] == old(vpas)[v]
    {
      if id in vpas && vpas[id].selector != selector {
        var _ := DeleteVpa(id);
      }
      if id !in vpas {
        var vpa := LinkAll(id, selector);
        vpas := vpas[id := vpa];
      }
    }

    /** A VPA with all aggregations offered to it in turn, and its pods counted. */
    method LinkAll(id: VpaID, selector: Name) returns (vpa: Vpa)
      ensures vpa.selector == selector && Linked(matches, aggregateStateMap, id, vpa)
      ensures vpa.podCount == |MatchingPods(matches, pods, id, selector)|
    {
      vpa := Vpa(selector, 0, map[]);
      var todo := aggregateStateMap.Keys;
      ghost var done: map<Key, Aggregate> := map[];
      while todo != {}
        invariant todo <= aggregateStateMap.Keys && done == aggregateStateMap - todo
        invariant vpa.selector == selector && vpa.podCount == 0 && Linked(matches, done, id, vpa)
        decreases todo
      {
        var k :| k in todo;
        OfferedIsLinked(matches, done, id, vpa, k, aggregateStateMap[k]);
        vpa := Offered(matches, id, vpa, k, aggregateStateMap[k]);
        done := done[k := aggregateStateMap[k]];
        todo := todo - {k};
      }
      assert aggregateStateMap - todo == aggregateStateMap;
      vpa := vpa.(podCount := |MatchingPods(matches, pods, id, selector)|);
    }

    method DeleteVpa(id: VpaID) returns (r: Outcome)
      requires Valid()
      modifies this`vpas
      ensures Valid() && vpas == old(vpas) - {id}
      ensures r == if id in old(vpas) then Ok else Err
    {
      r := if id in vpas then Ok else Err;
      vpas := vpas - {id};
    }

    // ---------- Garbage collection ----------

    /** The keys of the containers of pods that still run. */
    ghost function ActiveKeys(): set<Key>
      reads this
    {
      set p, c | p in pods && pods[p].running && c in pods[p].containers :: Key(p.namespace, c, pods[p].labels)
    }

    method GetActiveKeys() returns (keys: set<Key>)
      ensures keys == ActiveKeys()
    {
      keys := {};
      var todo := pods.Keys;
      while todo != {}
        invariant todo <= pods.Keys
        invariant keys == set p, c | p in pods && p !in todo && pods[p].running && c in pods[p].containers
          :: Key(p.namespace, c, pods[p].labels)
        decreases todo
      {
        var p :| p in todo;
        if pods[p].running {
          keys := keys + set c | c in pods[p].containers :: Key(p.namespace, c, pods[p].labels);
        }
        todo := todo - {p};
      }
    }

    predicate Obsolete(k: Key, active: bool, now: int)
      requires k in aggregateStateMap
      reads this, aggregateStateMap.Values
    {
      (!active && aggregateStateMap[k].IsEmpty()) || aggregateStateMap[k].IsExpired(now, window)
    }

    /** Removes the aggregations that are empty and inactive, or too old, with their links. */
    method GarbageCollect(now: int)
      requires Valid()
      modifies this`vpas, this`aggregateStateMap
      ensures Valid() && SameVpas(old(vpas), vpas)
      ensures forall k :: k in aggregateStateMap <==>
        k in old(aggregateStateMap) && !old(Obsolete(k, k in ActiveKeys(), now))
      ensures forall k :: k in aggregateStateMap ==> aggregateStateMap[k] == old(aggregateStateMap)[k]
      ensures forall k :: k in old(aggregateStateMap) ==>
        var a := old(aggregateStateMap)[k];
        k !in aggregateStateMap <==>
          || (a.totalSamplesCount == 0 && k !in old(ActiveKeys()))
          || (a.totalSamplesCount != 0 && now >= a.lastSampleStart + window)
          || (a.totalSamplesCount == 0 && now >= a.creationTime + window)
    {
      var active := GetActiveKeys();
      var keysToDelete := set k | k in aggregateStateMap && Obsolete(k, k in active, now);
      ghost var gone := keysToDelete;
      var todo := keysToDelete;
      while todo != {}
        invariant todo <= gone && LinksAgree(matches, aggregateStateMap, vpas) && SameVpas(old(vpas), vpas)
        invariant aggregateStateMap == old(aggregateStateMap) - (gone - todo)
        decreases todo
      {
        var k :| k in todo;
        Unlink(k);
        todo := todo - {k};
      }
      SameVpasSameCounts(old(vpas));
    }

    /** Removes one aggregation and its links. */
    method Unlink(k: Key)
      requires LinksAgree(matches, aggregateStateMap, vpas)
      modifies this`vpas, this`aggregateStateMap
      ensures LinksAgree(matches, aggregateStateMap, vpas) && SameVpas(old(vpas), vpas)
      ensures aggregateStateMap == old(aggregateStateMap) - {k}
    {
      ghost var aggs := aggregateStateMap;
      aggregateStateMap := aggregateStateMap - {k};
      var todo := vpas.Keys;
      while todo != {}
        invariant todo <= vpas.Keys && SameVpas(old(vpas), vpas) && aggregateStateMap == aggs - {k}
        invariant forall v :: v in vpas ==> Linked(matches, if v in todo then aggs else aggs - {k}, v, vpas[v])
        decreases todo
      {
        var v :| v in todo;
        DeletedIsLinked(matches, aggs, v, vpas[v], k);
        vpas := vpas[v := vpas[v].(aggregations := vpas[v].aggregations - {k})];
        todo := todo - {v};
      }
    }
  }
}
