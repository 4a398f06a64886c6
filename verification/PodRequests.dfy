/** What a pod requests, by its parts, and which host ports conflict: calculateResource and
    HostPortInfo of scheduler/framework/v1alpha1/types.go, as laws about whole pods. */
module PodRequests {
  import opened Wrappers
  import opened Arithmetic
  import opened NodeInfo

  /** A pod of these containers and nothing else that requests. */
  ghost predicate Plain(pod: Pod) {
    pod.initContainers == [] && pod.overhead == None
  }

  /** What one pod requests, another does too, for scheduling and for scoring. */
  ghost predicate RequestsSum(r: Pod, p: Pod, q: Pod) {
    && (forall k :: Get(Amount(r), k) == Get(Amount(p), k) + Get(Amount(q), k))
    && NonZeroCPU(r) == NonZeroCPU(p) + NonZeroCPU(q)
    && NonZeroMemory(r) == NonZeroMemory(p) + NonZeroMemory(q)
  }

  lemma {:induction false} SumOfBoth(a: seq<Container>, b: seq<Container>, k: Name)
    ensures ContainerSum(a + b, k) == ContainerSum(a, k) + ContainerSum(b, k)
  {
    if b == [] {
      assert a + b == a;
    } else {
      var n := |b| - 1;
      SumOfBoth(a, b[..n], k);
      assert (a + b)[..|a| + n] == a + b[..n];
    }
  }

  lemma {:induction false} NonZeroOfBoth(a: seq<Container>, b: seq<Container>, k: Name, default: int)
    ensures NonZeroSum(a + b, k, default) == NonZeroSum(a, k, default) + NonZeroSum(b, k, default)
  {
    if b == [] {
      assert a + b == a;
    } else {
      var n := |b| - 1;
      NonZeroOfBoth(a, b[..n], k, default);
      assert (a + b)[..|a| + n] == a + b[..n];
    }
  }

  /** A pod of all the containers of two pods requests what the two request together. */
  lemma RequestsAdd(r: Pod, p: Pod, q: Pod)
    requires Plain(r) && Plain(p) && Plain(q) && r.containers == p.containers + q.containers
    ensures RequestsSum(r, p, q)
  {
    forall k ensures Get(Amount(r), k) == Get(Amount(p), k) + Get(Amount(q), k) {
      SumOfBoth(p.containers, q.containers, k);
      assert Get(Amount(r), k) == Request(r, k);
    }
    NonZeroOfBoth(p.containers, q.containers, CPU, DEFAULT_MILLI_CPU_REQUEST);
    NonZeroOfBoth(p.containers, q.containers, MEMORY, DEFAULT_MEMORY_REQUEST);
  }

  /** An amount in whole units, of a quantity in thousandths: rounded up. */
  predicate RoundedUp(amount: int, quantity: int) {
    1000 * (amount - 1) < quantity <= 1000 * amount
  }

  /** One container requests what it names: thousandths of a CPU, and anything else in whole
      units; scoring counts 100 thousandths and 200 MB for what it does not name. */
  lemma OneContainer(pod: Pod, c: Container)
    requires Plain(pod) && pod.containers == [c]
    ensures forall k :: k in c.requests && k != PODS ==>
      if k == CPU then Get(Amount(pod), k) == c.requests[k] else RoundedUp(Get(Amount(pod), k), c.requests[k])
    ensures forall k :: k !in c.requests || k == PODS ==> Get(Amount(pod), k) == 0
    ensures NonZeroCPU(pod) == if CPU in c.requests then c.requests[CPU] else 100
    ensures if MEMORY in c.requests then RoundedUp(NonZeroMemory(pod), c.requests[MEMORY])
            else NonZeroMemory(pod) == 209_715_200
  {
    forall k ensures Get(Amount(pod), k) == Added(c.requests, k) {
      assert Get(Amount(pod), k) == Request(pod, k);
      Single(c, k, 0);
    }
    Single(c, CPU, DEFAULT_MILLI_CPU_REQUEST);
    Single(c, MEMORY, DEFAULT_MEMORY_REQUEST);
  }

  lemma Single(c: Container, k: Name, default: int)
    ensures ContainerSum([c], k) == Added(c.requests, k)
    ensures NonZeroSum([c], k, default) == NonZero(c.requests, k, default)
  {
    assert [c][..0] == [];
    assert ContainerSum([c], k) == ContainerSum([c][..0], k) + Added(c.requests, k);
    assert NonZeroSum([c], k, default) == NonZeroSum([c][..0], k, default) + NonZero(c.requests, k, default);
  }

  lemma NoContainers(pod: Pod)
    requires Plain(pod) && pod.containers == []
    ensures Amount(pod) == map[] && NonZeroCPU(pod) == 0 && NonZeroMemory(pod) == 0
  {
    forall k ensures Get(Amount(pod), k) == 0 {
      assert Get(Amount(pod), k) == Request(pod, k);
    }
    SameAmounts(Amount(pod), map[]);
  }

  /** An overhead is requested besides, and counts in scoring only as far as it is named. */
  lemma OverheadAdds(pod: Pod, overhead: ResourceList, bare: Pod, extra: Pod)
    requires pod.overhead == Some(overhead) && bare == pod.(overhead := None)
    requires Plain(extra) && extra.containers == [Container(overhead, [])]
    ensures forall k :: Get(Amount(pod), k) == Get(Amount(bare), k) + Get(Amount(extra), k)
    ensures NonZeroCPU(pod) == NonZeroCPU(bare) + Get(Amount(extra), CPU)
    ensures NonZeroMemory(pod) == NonZeroMemory(bare) + Get(Amount(extra), MEMORY)
  {
    forall k
      ensures Get(Amount(pod), k) == Get(Amount(bare), k) + Get(Amount(extra), k)
      ensures Get(Amount(extra), k) == Added(overhead, k)
    {
      assert Get(Amount(pod), k) == Request(pod, k) && Get(Amount(bare), k) == Request(bare, k);
      assert Get(Amount(extra), k) == Request(extra, k);
      Single(Container(overhead, []), k, 0);
    }
  }

  /** Init containers run one by one before the others: each raises what is requested to its own
      amount, if that is more. `longer` has one init container more than `pod`, and this one
      is the only container of `alone`. */
  lemma InitContainersRaise(longer: Pod, pod: Pod, c: Container, alone: Pod)
    requires pod.overhead == None && longer == pod.(initContainers := pod.initContainers + [c])
    requires Plain(alone) && alone.containers == [c]
    ensures forall k | k != PODS ::
      Get(Amount(longer), k) ==
      if k in c.requests then Max(Get(Amount(pod), k), Get(Amount(alone), k)) else Get(Amount(pod), k)
    ensures NonZeroCPU(longer) == Max(NonZeroCPU(pod), NonZeroCPU(alone))
    ensures NonZeroMemory(longer) == Max(NonZeroMemory(pod), NonZeroMemory(alone))
  {
    var all := longer.initContainers;
    assert all[..|all| - 1] == pod.initContainers;
    forall k | k != PODS
      ensures Get(Amount(longer), k) ==
        if k in c.requests then Max(Get(Amount(pod), k), Get(Amount(alone), k)) else Get(Amount(pod), k)
    {
      assert Get(Amount(longer), k) == Request(longer, k) && Get(Amount(pod), k) == Request(pod, k);
      assert Get(Amount(alone), k) == Request(alone, k);
      Single(c, k, 0);
    }
    Single(c, CPU, DEFAULT_MILLI_CPU_REQUEST);
    Single(c, MEMORY, DEFAULT_MEMORY_REQUEST);
  }

  // ---------- Host ports ----------

  function ProtocolOf(protocol: Name): Name {
    if protocol == EmptyName then TCP else protocol
  }

  /** No address and this one stand for all addresses of the host. */
  predicate AnyAddress(ip: Name) {
    ip == EmptyName || ip == DEFAULT_BIND_ALL
  }

  /** Two host ports that cannot both be bound. */
  predicate Collide(a: ContainerPort, b: ContainerPort) {
    && a.hostPort == b.hostPort && ProtocolOf(a.protocol) == ProtocolOf(b.protocol)
    && (AnyAddress(a.hostIP) || AnyAddress(b.hostIP) || a.hostIP == b.hostIP)
  }

  /** Some container of the pod has a host port that collides with this one. */
  ghost predicate HasColliding(pod: Pod, port: ContainerPort) {
    exists i, j :: 0 <= i < |pod.containers| && 0 <= j < |pod.containers[i].ports|
      && Collide(pod.containers[i].ports[j], port)
  }

  /** HostPortInfo.CheckConflict, for the used ports as a set. */
  method CheckConflict(used: set<HostPort>, port: ContainerPort) returns (conflict: bool)
    ensures conflict <==> port.hostPort > 0 && exists u :: u in used && Taken(u, Sanitize(port))
  {
    if port.hostPort <= 0 {
      return false;
    }
    var p := Sanitize(port);
    if p.ip == DEFAULT_BIND_ALL {
      conflict := false;
      var todo := used;
      while todo != {} && !conflict
        invariant todo <= used
        invariant conflict ==> exists u :: u in used && Taken(u, p)
        invariant !conflict ==> forall u :: u in used - todo ==> !Taken(u, p)
        decreases todo
      {
        var u :| u in todo;
        conflict := u.protocol == p.protocol && u.port == p.port;
        assert conflict ==> Taken(u, p);
        todo := todo - {u};
      }
    } else {
      conflict := p.(ip := DEFAULT_BIND_ALL) in used || p in used;
      assert p.(ip := DEFAULT_BIND_ALL) in used ==> Taken(p.(ip := DEFAULT_BIND_ALL), p);
      assert p in used ==> Taken(p, p);
      assert forall u :: Taken(u, p) ==> u == p || u == p.(ip := DEFAULT_BIND_ALL);
    }
  }

  predicate Taken(u: HostPort, p: HostPort) {
    && u.protocol == p.protocol && u.port == p.port
    && (p.ip == DEFAULT_BIND_ALL || u.ip == DEFAULT_BIND_ALL || u.ip == p.ip)
  }

  lemma CollideIff(a: ContainerPort, b: ContainerPort)
    ensures Taken(Sanitize(a), Sanitize(b)) <==> Collide(a, b)
  {
  }

  lemma CollidingIsPositive(a: ContainerPort, b: ContainerPort)
    requires Collide(a, b)
    ensures a.hostPort == b.hostPort
  {
  }

  /** On a node whose used ports are those of its pods, a port conflicts exactly when a container
      of one of the pods has one that collides with it. */
  lemma ConflictIff(v: Info, port: ContainerPort)
    requires v.usedPorts == UnionPorts(v.pods) && port.hostPort > 0
    ensures (exists u :: u in v.usedPorts && Taken(u, Sanitize(port))) <==>
      exists i :: 0 <= i < |v.pods| && HasColliding(v.pods[i], port)
  {
    hide Taken, Collide, Sanitize;
    forall u | u in v.usedPorts && Taken(u, Sanitize(port))
      ensures exists i :: 0 <= i < |v.pods| && HasColliding(v.pods[i], port)
    {
      var i :| 0 <= i < |v.pods| && u in PortsOf(v.pods[i]);
      var a, b :| 0 <= a < |v.pods[i].containers| && 0 <= b < |v.pods[i].containers[a].ports|
        && u == Sanitize(v.pods[i].containers[a].ports[b]);
      CollideIff(v.pods[i].containers[a].ports[b], port);
      assert HasColliding(v.pods[i], port);
    }
    forall i | 0 <= i < |v.pods| && HasColliding(v.pods[i], port)
      ensures exists u :: u in v.usedPorts && Taken(u, Sanitize(port))
    {
      var a, b :| 0 <= a < |v.pods[i].containers| && 0 <= b < |v.pods[i].containers[a].ports|
        && Collide(v.pods[i].containers[a].ports[b], port);
      var u := Sanitize(v.pods[i].containers[a].ports[b]);
      CollideIff(v.pods[i].containers[a].ports[b], port);
      CollidingIsPositive(v.pods[i].containers[a].ports[b], port);
      assert u in PortsOf(v.pods[i]);
    }
  }
}
