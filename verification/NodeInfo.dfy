/** Node-level aggregates of scheduler/framework/v1alpha1/types.go: what a NodeInfo keeps
    about the pods of one node, and how adding and removing pods changes it. */
module NodeInfo {
  import opened Wrappers
  import opened Arithmetic

  // ---------- API objects ----------

  /** Quantities by resource name, in thousandths of a unit. */
  type ResourceList = map<Name, int>

  const CPU: Name := Name("cpu")
  const MEMORY: Name := Name("memory")
  const PODS: Name := Name("pods")

  const DEFAULT_MILLI_CPU_REQUEST: int := 100
  const DEFAULT_MEMORY_REQUEST: int := 200 * 1024 * 1024

  datatype ContainerPort = ContainerPort(hostIP: Name, protocol: Name, hostPort: int)
  datatype Container = Container(requests: ResourceList, ports: seq<ContainerPort>)
  datatype Pod = Pod(
    uid: Name, nodeName: Name, containers: seq<Container>, initContainers: seq<Container>,
    overhead: Option<ResourceList>, hasAffinity: bool, version: int)
  datatype Node = Node(name: Name, allocatable: ResourceList, version: int)

  // ---------- Amounts: a Resource, with absent and zero entries identified ----------

  /** Amounts by resource name. */
  type Amounts = map<Name, int>

  predicate Canonical(m: Amounts) {
    forall k :: k in m ==> m[k] != 0
  }

  function Get(m: map<Name, int>, k: Name): int {
    if k in m then m[k] else 0
  }

  function Set(m: Amounts, k: Name, v: int): (r: Amounts)
    ensures forall j :: Get(r, j) == if j == k then v else Get(m, j)
    ensures Canonical(m) ==> Canonical(r)
  {
    if v == 0 then m - {k} else m[k := v]
  }

  lemma SameAmounts(a: Amounts, b: Amounts)
    requires Canonical(a) && Canonical(b)
    requires forall k :: Get(a, k) == Get(b, k)
    ensures a == b
  {
    forall k ensures k in a <==> k in b {
      assert Get(a, k) == Get(b, k);
    }
    forall k | k in a ensures a[k] == b[k] {
      assert Get(a, k) == Get(b, k);
    }
  }

  function Plus(a: Amounts, b: Amounts): Amounts {
    map k | k in a.Keys + b.Keys && Get(a, k) + Get(b, k) != 0 :: Get(a, k) + Get(b, k)
  }

  function Minus(a: Amounts, b: Amounts): Amounts {
    map k | k in a.Keys + b.Keys && Get(a, k) - Get(b, k) != 0 :: Get(a, k) - Get(b, k)
  }

  lemma PlusIsPointwise(a: Amounts, b: Amounts)
    ensures forall k :: Get(Plus(a, b), k) == Get(a, k) + Get(b, k)
    ensures forall k :: Get(Minus(a, b), k) == Get(a, k) - Get(b, k)
  {
  }

  /** MilliValue for the CPU, Value (rounded up) for anything else. */
  function Unit(k: Name, quantity: int): int {
    if k == CPU then quantity else (quantity + 999) / 1000
  }

  // ---------- calculateResource ----------

  /** What Add contributes to resource k; the number of pods is kept apart. */
  function Added(rl: ResourceList, k: Name): int {
    if k in rl && k != PODS then Unit(k, rl[k]) else 0
  }

  /** What SetMaxResource leaves of the amount v of resource k. */
  function MaxWith(v: int, rl: ResourceList, k: Name): int {
    if k in rl then Max(v, Unit(k, rl[k])) else v
  }

  function ContainerSum(cs: seq<Container>, k: Name): int {
    if cs == [] then 0 else ContainerSum(cs[..|cs| - 1], k) + Added(cs[|cs| - 1].requests, k)
  }

  function InitMax(cs: seq<Container>, v: int, k: Name): int {
    if cs == [] then v else MaxWith(InitMax(cs[..|cs| - 1], v, k), cs[|cs| - 1].requests, k)
  }

  /** The request of a pod for resource k. */
  function Request(pod: Pod, k: Name): int {
    InitMax(pod.initContainers, ContainerSum(pod.containers, k), k)
    + (if pod.overhead.Some? then Added(pod.overhead.value, k) else 0)
  }

  function NonZero(rl: ResourceList, k: Name, default: int): int {
    if k in rl then Unit(k, rl[k]) else default
  }

  function NonZeroSum(cs: seq<Container>, k: Name, default: int): int {
    if cs == [] then 0 else NonZeroSum(cs[..|cs| - 1], k, default) + NonZero(cs[|cs| - 1].requests, k, default)
  }

  function NonZeroMax(cs: seq<Container>, v: int, k: Name, default: int): int {
    if cs == [] then v else Max(NonZeroMax(cs[..|cs| - 1], v, k, default), NonZero(cs[|cs| - 1].requests, k, default))
  }

  /** The request used for scoring: containers that name no amount count with a default. */
  function NonZeroRequest(pod: Pod, k: Name, default: int): int {
    NonZeroMax(pod.initContainers, NonZeroSum(pod.containers, k, default), k, default)
    + (if pod.overhead.Some? then Added(pod.overhead.value, k) else 0)
  }

  function NonZeroCPU(pod: Pod): int { NonZeroRequest(pod, CPU, DEFAULT_MILLI_CPU_REQUEST) }
  function NonZeroMemory(pod: Pod): int { NonZeroRequest(pod, MEMORY, DEFAULT_MEMORY_REQUEST) }

  /** Without its overhead a pod requests the larger of the sum over its containers and
      the largest amount one of its init containers names. */
  lemma {:induction false} RequestIsMaxOfSumAndInit(cs: seq<Container>, v: int, k: Name)
    ensures InitMax(cs, v, k) >= v
    ensures forall i :: 0 <= i < |cs| && k in cs[i].requests ==> InitMax(cs, v, k) >= Unit(k, cs[i].requests[k])
    ensures InitMax(cs, v, k) == v
      || exists i :: 0 <= i < |cs| && k in cs[i].requests && InitMax(cs, v, k) == Unit(k, cs[i].requests[k])
  {
    if cs != [] {
      var front := cs[..|cs| - 1];
      RequestIsMaxOfSumAndInit(front, v, k);
      if InitMax(cs, v, k) == InitMax(front, v, k) && InitMax(front, v, k) != v {
        var i :| 0 <= i < |front| && k in front[i].requests && InitMax(front, v, k) == Unit(k, front[i].requests[k]);
        assert cs[i] == front[i];
      }
    }
  }

  ghost predicate HasRequest(res: Amounts, pod: Pod) {
    forall k :: Get(res, k) == Request(pod, k)
  }

  /** Resource.Add. */
  method AddList(r: Amounts, rl: ResourceList) returns (res: Amounts)
    ensures forall k :: Get(res, k) == Get(r, k) + Added(rl, k)
    ensures Canonical(r) ==> Canonical(res)
  {
    res := r;
    var todo := rl.Keys;
    while todo != {}
      invariant todo <= rl.Keys && (Canonical(r) ==> Canonical(res))
      invariant forall k :: Get(res, k) == Get(r, k) + if k in todo then 0 else Added(rl, k)
      decreases todo
    {
      var k :| k in todo;
      if k != PODS {
        res := Set(res, k, Get(res, k) + Unit(k, rl[k]));
      }
      todo := todo - {k};
    }
  }

  /** Resource.SetMaxResource. */
  method SetMaxResource(r: Amounts, rl: ResourceList) returns (res: Amounts)
    ensures forall k :: Get(res, k) == MaxWith(Get(r, k), rl, k)
    ensures Canonical(r) ==> Canonical(res)
  {
    res := r;
    var todo := rl.Keys;
    while todo != {}
      invariant todo <= rl.Keys && (Canonical(r) ==> Canonical(res))
      invariant forall k :: Get(res, k) == if k in todo then Get(r, k) else MaxWith(Get(r, k), rl, k)
      decreases todo
    {
      var k :| k in todo;
      if Unit(k, rl[k]) > Get(res, k) {
        res := Set(res, k, Unit(k, rl[k]));
      }
      todo := todo - {k};
    }
  }

  method CalculateResource(pod: Pod) returns (res: Amounts, non0CPU: int, non0Mem: int)
    ensures res == Amount(pod)
    ensures non0CPU == NonZeroCPU(pod) && non0Mem == NonZeroMemory(pod)
  {
    res, non0CPU, non0Mem := map[], 0, 0;
    var i := 0;
    while i < |pod.containers|
      invariant 0 <= i <= |pod.containers| && Canonical(res)
      invariant forall k :: Get(res, k) == ContainerSum(pod.containers[..i], k)
      invariant non0CPU == NonZeroSum(pod.containers[..i], CPU, DEFAULT_MILLI_CPU_REQUEST)
      invariant non0Mem == NonZeroSum(pod.containers[..i], MEMORY, DEFAULT_MEMORY_REQUEST)
    {
      assert pod.containers[..i + 1][..i] == pod.containers[..i];
      var rl := pod.containers[i].requests;
      res := AddList(res, rl);
      non0CPU := non0CPU + NonZero(rl, CPU, DEFAULT_MILLI_CPU_REQUEST);
      non0Mem := non0Mem + NonZero(rl, MEMORY, DEFAULT_MEMORY_REQUEST);
      i := i + 1;
    }
    assert pod.containers[..i] == pod.containers;
    ghost var sum, sumCPU, sumMem := res, non0CPU, non0Mem;
    i := 0;
    while i < |pod.initContainers|
      invariant 0 <= i <= |pod.initContainers| && Canonical(res)
      invariant forall k :: Get(res, k) == InitMax(pod.initContainers[..i], Get(sum, k), k)
      invariant non0CPU == NonZeroMax(pod.initContainers[..i], sumCPU, CPU, DEFAULT_MILLI_CPU_REQUEST)
      invariant non0Mem == NonZeroMax(pod.initContainers[..i], sumMem, MEMORY, DEFAULT_MEMORY_REQUEST)
    {
      assert pod.initContainers[..i + 1][..i] == pod.initContainers[..i];
      var rl := pod.initContainers[i].requests;
      res := SetMaxResource(res, rl);
      non0CPU := Max(non0CPU, NonZero(rl, CPU, DEFAULT_MILLI_CPU_REQUEST));
      non0Mem := Max(non0Mem, NonZero(rl, MEMORY, DEFAULT_MEMORY_REQUEST));
      i := i + 1;
    }
    assert pod.initContainers[..i] == pod.initContainers;
    if pod.overhead.Some? {
      var o := pod.overhead.value;
      res := AddList(res, o);
      if CPU in o { non0CPU := non0CPU + Unit(CPU, o[CPU]); }
      if MEMORY in o { non0Mem := non0Mem + Unit(MEMORY, o[MEMORY]); }
    }
    SameAmounts(res, Amount(pod));
  }

  // ---------- Host ports ----------

  datatype HostPort = HostPort(ip: Name, protocol: Name, port: int)

  const DEFAULT_BIND_ALL: Name := Name("0.0.0.0")
  const TCP: Name := Name("TCP")

  function Sanitize(p: ContainerPort): HostPort {
    HostPort(
      if p.hostIP == EmptyName then DEFAULT_BIND_ALL else p.hostIP,
      if p.protocol == EmptyName then TCP else p.protocol,
      p.hostPort)
  }

  function PortsOf(pod: Pod): set<HostPort> {
    set i, j | 0 <= i < |pod.containers| && 0 <= j < |pod.containers[i].ports|
               && pod.containers[i].ports[j].hostPort > 0 :: Sanitize(pod.containers[i].ports[j])
  }

  /** The ports of all pods of a list. */
  function UnionPorts(pods: seq<Pod>): set<HostPort> {
    set i, p | 0 <= i < |pods| && p in PortsOf(pods[i]) :: p
  }

  // ---------- The value of a NodeInfo ----------

  datatype Info = Info(
    node: Option<Node>, pods: seq<Pod>, withAffinity: seq<Pod>, usedPorts: set<HostPort>,
    requested: Amounts, nonZeroCPU: int, nonZeroMemory: int, allocatable: Amounts, generation: int)

  const ZeroInfo: Info := Info(None, [], [], {}, map[], 0, 0, map[], 0)

  /** The first position of a pod with this UID, or the length. */
  function IndexOf(pods: seq<Pod>, uid: Name): (i: nat)
    ensures i <= |pods|
    ensures i < |pods| ==> pods[i].uid == uid
    ensures forall j :: 0 <= j < i ==> pods[j].uid != uid
  {
    if pods == [] then 0
    else if pods[0].uid == uid then 0
    else
      var i := IndexOf(pods[1..], uid);
      assert forall j :: 1 <= j < i + 1 ==> pods[j] == pods[1..][j - 1];
      i + 1
  }

  /** Removal by moving the last element into the gap. */
  function SwapRemove<T>(s: seq<T>, i: nat): seq<T>
    requires i < |s|
  {
    s[i := s[|s| - 1]][..|s| - 1]
  }

  function RemoveUid(pods: seq<Pod>, uid: Name): seq<Pod> {
    var i := IndexOf(pods, uid);
    if i < |pods| then SwapRemove(pods, i) else pods
  }

  /** The amounts a pod requests, as one map. */
  ghost function Amount(pod: Pod): (r: Amounts)
    ensures HasRequest(r, pod) && Canonical(r)
  {
    var names := Mentioned(pod);
    UnmentionedIsZero(pod);
    map k | k in names && Request(pod, k) != 0 :: Request(pod, k)
  }

  ghost function MentionedIn(cs: seq<Container>): set<Name> {
    set i, k | 0 <= i < |cs| && k in cs[i].requests :: k
  }

  ghost function Mentioned(pod: Pod): set<Name> {
    MentionedIn(pod.containers) + MentionedIn(pod.initContainers)
    + (if pod.overhead.Some? then pod.overhead.value.Keys else {})
  }

  lemma UnmentionedIsZero(pod: Pod)
    ensures forall k :: k !in Mentioned(pod) ==> Request(pod, k) == 0
  {
    forall k | k !in Mentioned(pod) ensures Request(pod, k) == 0 {
      UnmentionedSum(pod.containers, k);
      UnmentionedMax(pod.initContainers, 0, k);
    }
  }

  lemma UnmentionedSum(cs: seq<Container>, k: Name)
    requires forall i :: 0 <= i < |cs| ==> k !in cs[i].requests
    ensures ContainerSum(cs, k) == 0
  {
  }

  lemma UnmentionedMax(cs: seq<Container>, v: int, k: Name)
    requires forall i :: 0 <= i < |cs| ==> k !in cs[i].requests
    ensures InitMax(cs, v, k) == v
  {
  }

  ghost function AddPodTo(v: Info, pod: Pod, generation: int): Info {
    v.(pods := v.pods + [pod],
       withAffinity := if pod.hasAffinity then v.withAffinity + [pod] else v.withAffinity,
       usedPorts := v.usedPorts + PortsOf(pod),
       requested := Plus(v.requested, Amount(pod)),
       nonZeroCPU := v.nonZeroCPU + NonZeroCPU(pod),
       nonZeroMemory := v.nonZeroMemory + NonZeroMemory(pod),
       generation := generation)
  }

  ghost predicate HasUid(v: Info, uid: Name) {
    IndexOf(v.pods, uid) < |v.pods|
  }

  ghost function RemovePodFrom(v: Info, pod: Pod, generation: int): Info
    requires HasUid(v, pod.uid)
  {
    v.(pods := RemoveUid(v.pods, pod.uid),
       withAffinity := RemoveUid(v.withAffinity, pod.uid),
       usedPorts := v.usedPorts - PortsOf(pod),
       requested := Minus(v.requested, Amount(pod)),
       nonZeroCPU := v.nonZeroCPU - NonZeroCPU(pod),
       nonZeroMemory := v.nonZeroMemory - NonZeroMemory(pod),
       generation := generation)
  }

  /** What RemovePod returns: errors for a pod without a UID and for one that is not listed, whose
      message reads the name of the Node; `Fatal` is the nil dereference without one. */
  ghost function RemovalOutcome(v: Info, uid: Name): Outcome {
    if uid == EmptyName then Err
    else if HasUid(v, uid) then Ok
    else if v.node.None? then Fatal
    else Err
  }

  /** The contents after RemovePod, whatever it returns. */
  ghost function Removed(v: Info, pod: Pod, generation: int): Info {
    if pod.uid == EmptyName then v
    else if HasUid(v, pod.uid) then RemovePodFrom(v, pod, generation)
    else v.(withAffinity := RemoveUid(v.withAffinity, pod.uid))
  }

  lemma AddPodByField(v: Info, pod: Pod, w: Info)
    requires w.node == v.node && w.allocatable == v.allocatable
    requires w.pods == v.pods + [pod]
    requires w.withAffinity == if pod.hasAffinity then v.withAffinity + [pod] else v.withAffinity
    requires w.usedPorts == v.usedPorts + PortsOf(pod) && w.requested == Plus(v.requested, Amount(pod))
    requires w.nonZeroCPU == v.nonZeroCPU + NonZeroCPU(pod)
    requires w.nonZeroMemory == v.nonZeroMemory + NonZeroMemory(pod)
    ensures w == AddPodTo(v, pod, w.generation)
  {
  }

  lemma RemovePodByField(v: Info, pod: Pod, w: Info)
    requires HasUid(v, pod.uid)
    requires w.node == v.node && w.allocatable == v.allocatable
    requires w.pods == RemoveUid(v.pods, pod.uid) && w.withAffinity == RemoveUid(v.withAffinity, pod.uid)
    requires w.usedPorts == v.usedPorts - PortsOf(pod) && w.requested == Minus(v.requested, Amount(pod))
    requires w.nonZeroCPU == v.nonZeroCPU - NonZeroCPU(pod)
    requires w.nonZeroMemory == v.nonZeroMemory - NonZeroMemory(pod)
    ensures w == RemovePodFrom(v, pod, w.generation)
  {
  }

  // ---------- Conservation ----------

  function SumRequest(pods: seq<Pod>, k: Name): int {
    if pods == [] then 0 else SumRequest(pods[..|pods| - 1], k) + Request(pods[|pods| - 1], k)
  }

  function SumNonZero(pods: seq<Pod>, k: Name, default: int): int {
    if pods == [] then 0
    else SumNonZero(pods[..|pods| - 1], k, default) + NonZeroRequest(pods[|pods| - 1], k, default)
  }

  /** The aggregates of a node are the sums over its pods. */
  ghost predicate Conserved(v: Info) {
    && (forall k :: Get(v.requested, k) == SumRequest(v.pods, k))
    && v.nonZeroCPU == SumNonZero(v.pods, CPU, DEFAULT_MILLI_CPU_REQUEST)
    && v.nonZeroMemory == SumNonZero(v.pods, MEMORY, DEFAULT_MEMORY_REQUEST)
  }

  /** Two versions of a pod that ask for the same. */
  ghost predicate SameRequests(a: Pod, b: Pod) {
    && (forall k :: Request(a, k) == Request(b, k))
    && NonZeroCPU(a) == NonZeroCPU(b) && NonZeroMemory(a) == NonZeroMemory(b)
  }

  lemma AddPodConserves(v: Info, pod: Pod, generation: int)
    requires Conserved(v)
    ensures Conserved(AddPodTo(v, pod, generation))
  {
    var pods := v.pods + [pod];
    assert pods[..|pods| - 1] == v.pods;
    PlusIsPointwise(v.requested, Amount(pod));
  }

  lemma {:induction false} SumAfterUpdate(pods: seq<Pod>, i: nat, p: Pod, k: Name)
    requires i < |pods|
    ensures SumRequest(pods[i := p], k) == SumRequest(pods, k) - Request(pods[i], k) + Request(p, k)
  {
    var n := |pods| - 1;
    if i == n {
      assert pods[i := p][..n] == pods[..n];
    } else {
      SumAfterUpdate(pods[..n], i, p, k);
      assert pods[i := p][..n] == pods[..n][i := p];
    }
  }

  lemma {:induction false} NonZeroAfterUpdate(pods: seq<Pod>, i: nat, p: Pod, k: Name, default: int)
    requires i < |pods|
    ensures SumNonZero(pods[i := p], k, default)
         == SumNonZero(pods, k, default) - NonZeroRequest(pods[i], k, default) + NonZeroRequest(p, k, default)
  {
    var n := |pods| - 1;
    if i == n {
      assert pods[i := p][..n] == pods[..n];
    } else {
      NonZeroAfterUpdate(pods[..n], i, p, k, default);
      assert pods[i := p][..n] == pods[..n][i := p];
    }
  }

  lemma SumAfterSwapRemove(pods: seq<Pod>, i: nat, k: Name)
    requires i < |pods|
    ensures SumRequest(SwapRemove(pods, i), k) == SumRequest(pods, k) - Request(pods[i], k)
  {
    SumAfterUpdate(pods, i, pods[|pods| - 1], k);
  }

  lemma NonZeroAfterSwapRemove(pods: seq<Pod>, i: nat, k: Name, default: int)
    requires i < |pods|
    ensures SumNonZero(SwapRemove(pods, i), k, default)
         == SumNonZero(pods, k, default) - NonZeroRequest(pods[i], k, default)
  {
    NonZeroAfterUpdate(pods, i, pods[|pods| - 1], k, default);
  }

  /** Removing a pod by UID keeps the aggregates equal to the sums exactly when the version
      passed in asks for what the stored version asked for. */
  lemma RemovePodConservesIff(v: Info, pod: Pod, generation: int)
    requires Conserved(v) && HasUid(v, pod.uid)
    ensures Conserved(RemovePodFrom(v, pod, generation))
       <==> SameRequests(pod, v.pods[IndexOf(v.pods, pod.uid)])
  {
    var i := IndexOf(v.pods, pod.uid);
    var after := RemovePodFrom(v, pod, generation);
    PlusIsPointwise(v.requested, Amount(pod));
    forall k
      ensures (Get(after.requested, k) == SumRequest(after.pods, k)) <==> Request(pod, k) == Request(v.pods[i], k)
    {
      SumAfterSwapRemove(v.pods, i, k);
      assert Get(after.requested, k) == Get(v.requested, k) - Request(pod, k);
    }
    NonZeroAfterSwapRemove(v.pods, i, CPU, DEFAULT_MILLI_CPU_REQUEST);
    NonZeroAfterSwapRemove(v.pods, i, MEMORY, DEFAULT_MEMORY_REQUEST);
  }

  lemma SwapRemoveMembers<T>(s: seq<T>, i: nat)
    requires i < |s|
    ensures forall j :: 0 <= j < |s| && j != i ==> s[j] in SwapRemove(s, i)
    ensures forall x :: x in SwapRemove(s, i) ==> exists j :: 0 <= j < |s| && j != i && s[j] == x
  {
    var n := |s| - 1;
    var r := SwapRemove(s, i);
    forall j | 0 <= j < |s| && j != i ensures s[j] in r {
      assert r[if j == n then i else j] == s[j];
    }
    forall x | x in r ensures exists j :: 0 <= j < |s| && j != i && s[j] == x {
      var k :| 0 <= k < |r| && r[k] == x;
      assert s[if k == i then n else k] == x;
    }
  }

  /** Removing a pod leaves exactly the ports of the other pods when, and only when, no
      other pod of the node uses one of its ports. */
  lemma RemovePodKeepsPortsIff(v: Info, pod: Pod, generation: int)
    requires v.usedPorts == UnionPorts(v.pods) && HasUid(v, pod.uid)
    requires PortsOf(pod) == PortsOf(v.pods[IndexOf(v.pods, pod.uid)])
    ensures var after := RemovePodFrom(v, pod, generation);
      after.usedPorts == UnionPorts(after.pods) <==> PortsOf(pod) !! UnionPorts(after.pods)
  {
    var i := IndexOf(v.pods, pod.uid);
    var after := RemovePodFrom(v, pod, generation);
    SwapRemoveMembers(v.pods, i);
    forall p ensures p in v.usedPorts <==> p in PortsOf(pod) || p in UnionPorts(after.pods) {
      if p in v.usedPorts {
        var j :| 0 <= j < |v.pods| && p in PortsOf(v.pods[j]);
        if j != i { assert v.pods[j] in after.pods; }
      }
      if p in UnionPorts(after.pods) {
        var j :| 0 <= j < |after.pods| && p in PortsOf(after.pods[j]);
        assert after.pods[j] in after.pods;
      }
    }
    assert after.usedPorts == UnionPorts(after.pods) - PortsOf(pod);
  }

  predicate DistinctUids(pods: seq<Pod>) {
    forall i, j :: 0 <= i < j < |pods| ==> pods[i].uid != pods[j].uid
  }

  /** The affinity list holds exactly the pods with affinity terms. */
  ghost predicate AffinityListed(v: Info) {
    && DistinctUids(v.withAffinity)
    && forall p :: p in v.withAffinity <==> p in v.pods && p.hasAffinity
  }

  lemma AddPodListsAffinity(v: Info, pod: Pod, generation: int)
    requires AffinityListed(v) && DistinctUids(v.pods) && !HasUid(v, pod.uid)
    ensures AffinityListed(AddPodTo(v, pod, generation))
    ensures DistinctUids(v.pods + [pod])
  {
    forall j | 0 <= j < |v.withAffinity| ensures v.withAffinity[j].uid != pod.uid {
      assert v.withAffinity[j] in v.pods;
    }
  }

  lemma {:induction false} RemoveUidMembers(pods: seq<Pod>, uid: Name)
    requires DistinctUids(pods)
    ensures DistinctUids(RemoveUid(pods, uid))
    ensures forall p :: p in RemoveUid(pods, uid) <==> p in pods && p.uid != uid
  {
    var i := IndexOf(pods, uid);
    if i < |pods| { SwapRemoveMembers(pods, i); }
  }

  lemma RemovePodListsAffinity(v: Info, pod: Pod, generation: int)
    requires AffinityListed(v) && DistinctUids(v.pods) && HasUid(v, pod.uid)
    ensures AffinityListed(RemovePodFrom(v, pod, generation))
  {
    RemoveUidMembers(v.pods, pod.uid);
    RemoveUidMembers(v.withAffinity, pod.uid);
  }

  // ---------- The NodeInfo object ----------

  /** The package-level generation counter. */
  class Generations {
    var last: int

    constructor ()
      ensures last == 0
    {
      last := 0;
    }

    method Next() returns (g: int)
      modifies this
      ensures g == last == old(last) + 1
    {
      last := last + 1;
      g := last;
    }
  }

  class NodeInfo {
    var node: Option<Node>
    var pods: seq<Pod>
    var podsWithAffinity: seq<Pod>
    var usedPorts: set<HostPort>
    var requested: Amounts
    var nonZeroCPU: int
    var nonZeroMemory: int
    var allocatable: Amounts
    var generation: int
    /** The name under which a snapshot files this object. */
    ghost const home: Name

    function Value(): Info
      reads this
    {
      Info(node, pods, podsWithAffinity, usedPorts, requested, nonZeroCPU, nonZeroMemory, allocatable, generation)
    }

    /** The zero value, `&framework.NodeInfo{}`. */
    constructor Zero(ghost home: Name)
      ensures Value() == ZeroInfo && this.home == home
    {
      this.home := home;
      node, pods, podsWithAffinity, usedPorts := None, [], [], {};
      requested, nonZeroCPU, nonZeroMemory, allocatable, generation := map[], 0, 0, map[], 0;
    }

    constructor New(gens: Generations)
      modifies gens
      ensures gens.last == old(gens.last) + 1
      ensures Value() == ZeroInfo.(generation := gens.last)
    {
      home := EmptyName;
      node, pods, podsWithAffinity, usedPorts := None, [], [], {};
      requested, nonZeroCPU, nonZeroMemory, allocatable := map[], 0, 0, map[];
      var g := gens.Next();
      generation := g;
    }

    constructor Of(v: Info)
      ensures Value() == v
    {
      home := EmptyName;
      node, pods, podsWithAffinity, usedPorts := v.node, v.pods, v.withAffinity, v.usedPorts;
      requested, nonZeroCPU, nonZeroMemory := v.requested, v.nonZeroCPU, v.nonZeroMemory;
      allocatable, generation := v.allocatable, v.generation;
    }

    method Clone() returns (clone: NodeInfo)
      ensures fresh(clone) && clone.Value() == Value()
    {
      clone := new NodeInfo.Zero(home);
      clone.CopyFrom(this);
    }

    /** The struct assignment `*this = *other`. */
    method CopyFrom(other: NodeInfo)
      modifies this
      ensures Value() == old(other.Value())
    {
      node, pods, podsWithAffinity, usedPorts := other.node, other.pods, other.podsWithAffinity, other.usedPorts;
      requested, nonZeroCPU, nonZeroMemory := other.requested, other.nonZeroCPU, other.nonZeroMemory;
      allocatable, generation := other.allocatable, other.generation;
    }

    method UpdateUsedPorts(pod: Pod, add: bool)
      modifies this`usedPorts
      ensures usedPorts == if add then old(usedPorts) + PortsOf(pod) else old(usedPorts) - PortsOf(pod)
    {
      ghost var done: set<HostPort> := {};
      var j := 0;
      while j < |pod.containers|
        invariant 0 <= j <= |pod.containers|
        invariant done == PortsUpTo(pod, j, 0)
        invariant usedPorts == if add then old(usedPorts) + done else old(usedPorts) - done
      {
        var ports := pod.containers[j].ports;
        var k := 0;
        while k < |ports|
          invariant 0 <= k <= |ports|
          invariant done == PortsUpTo(pod, j, k)
          invariant usedPorts == if add then old(usedPorts) + done else old(usedPorts) - done
        {
          if ports[k].hostPort > 0 {
            var p := Sanitize(ports[k]);
            usedPorts := if add then usedPorts + {p} else usedPorts - {p};
            done := done + {p};
          }
          k := k + 1;
        }
        j := j + 1;
      }
      assert PortsUpTo(pod, j, 0) == PortsOf(pod);
    }

    /** The resource part of AddPod and RemovePod. */
    method UpdateRequested(pod: Pod, add: bool)
      modifies this`requested, this`nonZeroCPU, this`nonZeroMemory
      ensures requested == if add then Plus(old(requested), Amount(pod)) else Minus(old(requested), Amount(pod))
      ensures nonZeroCPU == old(nonZeroCPU) + if add then NonZeroCPU(pod) else -NonZeroCPU(pod)
      ensures nonZeroMemory == old(nonZeroMemory) + if add then NonZeroMemory(pod) else -NonZeroMemory(pod)
    {
      var res, non0CPU, non0Mem := CalculateResource(pod);
      if add {
        requested := Plus(requested, res);
        nonZeroCPU := nonZeroCPU + non0CPU;
        nonZeroMemory := nonZeroMemory + non0Mem;
      } else {
        requested := Minus(requested, res);
        nonZeroCPU := nonZeroCPU - non0CPU;
        nonZeroMemory := nonZeroMemory - non0Mem;
      }
    }

    method AddPod(pod: Pod, gens: Generations)
      modifies this, gens
      ensures gens.last == old(gens.last) + 1
      ensures Value() == AddPodTo(old(Value()), pod, gens.last)
    {
      UpdateRequested(pod, true);
      pods := pods + [pod];
      if pod.hasAffinity {
        podsWithAffinity := podsWithAffinity + [pod];
      }
      UpdateUsedPorts(pod, true);
      generation := gens.Next();
      AddPodByField(old(Value()), pod, Value());
    }

    /** Removes the pod with the UID of `pod`. In the error cases nothing but the affinity list
        may have changed; the message of one names the Node, which may be nil. */
    method RemovePod(pod: Pod, gens: Generations) returns (r: Outcome)
      modifies this, gens
      ensures r == RemovalOutcome(old(Value()), pod.uid)
      ensures gens.last == old(gens.last) + if r == Ok then 1 else 0
      ensures Value() == Removed(old(Value()), pod, gens.last)
    {
      if pod.uid == EmptyName {
        return Err;
      }
      RemoveFromAffinity(pod.uid);
      var i := 0;
      while i < |pods| && pods[i].uid != pod.uid
        invariant 0 <= i <= IndexOf(pods, pod.uid)
      {
        i := i + 1;
      }
      assert i == IndexOf(pods, pod.uid);
      if i == |pods| {
        return if node == None then Fatal else Err;
      }
      DeleteAt(i, pod, gens);
      RemovePodByField(old(Value()), pod, Value());
      return Ok;
    }

    /** Deletes the pod at position i and takes back what `pod` asks for. */
    method DeleteAt(i: nat, pod: Pod, gens: Generations)
      requires i < |pods|
      modifies this, gens
      ensures gens.last == old(gens.last) + 1
      ensures Value() == old(Value()).(
        pods := SwapRemove(old(pods), i), usedPorts := old(usedPorts) - PortsOf(pod),
        requested := Minus(old(requested), Amount(pod)), nonZeroCPU := old(nonZeroCPU) - NonZeroCPU(pod),
        nonZeroMemory := old(nonZeroMemory) - NonZeroMemory(pod), generation := gens.last)
    {
      pods := SwapRemove(pods, i);
      UpdateRequested(pod, false);
      UpdateUsedPorts(pod, false);
      generation := gens.Next();
    }

    method RemoveFromAffinity(uid: Name)
      modifies this`podsWithAffinity
      ensures podsWithAffinity == RemoveUid(old(podsWithAffinity), uid)
    {
      var i := 0;
      while i < |podsWithAffinity| && podsWithAffinity[i].uid != uid
        invariant 0 <= i <= IndexOf(podsWithAffinity, uid)
      {
        i := i + 1;
      }
      if i < |podsWithAffinity| {
        podsWithAffinity := SwapRemove(podsWithAffinity, i);
      }
    }

    method SetNode(n: Node, gens: Generations)
      modifies this, gens
      ensures gens.last == old(gens.last) + 1
      ensures Value().node == Some(n) && Value().generation == gens.last
      ensures forall k :: Get(Value().allocatable, k) == Added(n.allocatable, k)
      ensures Value() == SetNodeOf(old(Value()), n, gens.last)
    {
      node := Some(n);
      var a := AddList(map[], n.allocatable);
      SameAmounts(a, Allocatable(n));
      allocatable := a;
      generation := gens.Next();
    }

    method RemoveNode(gens: Generations)
      modifies this, gens
      ensures gens.last == old(gens.last) + 1
      ensures Value() == old(Value()).(node := None, generation := gens.last)
    {
      node := None;
      generation := gens.Next();
    }
  }

  ghost function Allocatable(n: Node): (r: Amounts)
    ensures (forall k :: Get(r, k) == Added(n.allocatable, k)) && Canonical(r)
  {
    map k | k in n.allocatable && Added(n.allocatable, k) != 0 :: Added(n.allocatable, k)
  }

  ghost function SetNodeOf(v: Info, n: Node, generation: int): Info {
    v.(node := Some(n), allocatable := Allocatable(n), generation := generation)
  }

  /** The ports of the first j containers and of the first k ports of the next one. */
  ghost function PortsUpTo(pod: Pod, j: nat, k: nat): set<HostPort> {
    set a, b | 0 <= a < |pod.containers| && 0 <= b < |pod.containers[a].ports|
               && (a < j || (a == j && b < k))
               && pod.containers[a].ports[b].hostPort > 0 :: Sanitize(pod.containers[a].ports[b])
  }
}
