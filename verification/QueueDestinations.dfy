/** Where each event of scheduler/internal/queue/scheduling_queue.go takes each pod, pod by pod,
    and how long a failed pod is kept from the active queue. */
module QueueDestinations {
  import opened Wrappers
  import opened Arithmetic
  import opened PodBackoff
  import opened QueueModel

  // ---------- Moves ----------

  /** From s to t exactly the chosen unschedulable pods were moved: those whose backoff goes on
      to the backoff queue, the others to the active queue, and all as they were. */
  ghost predicate MovedExactly(l: Limits, s: QState, chosen: set<Name>, now: int, t: QState) {
    && (forall k :: k in t.backoff <==>
          k in s.backoff || (k in s.unsched && k in chosen && BackoffTime(l, s.unsched[k]) > now))
    && (forall k :: k in t.active <==>
          k in s.active || (k in s.unsched && k in chosen && BackoffTime(l, s.unsched[k]) <= now))
    && (forall k :: k in t.unsched <==> k in s.unsched && k !in chosen)
    && Pending(t) == Pending(s) && t.cycle == s.cycle && t.moved == s.cycle
  }

  lemma MoveIsExact(l: Limits, s: QState, keys: set<Name>, now: int)
    requires QInv(s)
    ensures MovedExactly(l, s, keys, now, Move(l, s, keys, now)) && QInv(Move(l, s, keys, now))
  {
    MoveKeeps(l, s, keys, now);
  }

  /** A move request moves all unschedulable pods, or those it names; the periodic one moves
      those that failed more than a minute ago, and is no move request when there are none. */
  lemma MoveEventsAreExact(l: Limits, s: QState, e: Event)
    requires QInv(s) && (e.MoveAll? || e.MoveSome? || e.LeftoverTick?)
    ensures e.MoveAll? ==> MovedExactly(l, s, s.unsched.Keys, e.now, Step(l, s, e))
    ensures e.MoveSome? ==> MovedExactly(l, s, e.keys, e.now, Step(l, s, e))
    ensures e.LeftoverTick? ==>
      var late := set k | k in s.unsched && s.unsched[k].timestamp + 60_000_000_000 < e.now;
      if late == {} then Step(l, s, e) == s else MovedExactly(l, s, late, e.now, Step(l, s, e))
  {
    match e
    case MoveAll(now) => MoveIsExact(l, s, s.unsched.Keys, now);
    case MoveSome(keys, now) => MoveIsExact(l, s, keys, now);
    case LeftoverTick(now) =>
      assert Leftover(s, now) == set k | k in s.unsched && s.unsched[k].timestamp + 60_000_000_000 < now;
      MoveIsExact(l, s, Leftover(s, now), now);
  }

  // ---------- Events about one pod ----------

  /** All pods but this one are where they were, as they were. */
  ghost predicate OthersStay(s: QState, t: QState, id: Name) {
    t.active - {id} == s.active - {id} && t.backoff - {id} == s.backoff - {id} && t.unsched - {id} == s.unsched - {id}
  }

  /** An update of a pod leaves it among the unschedulable ones exactly when it was there and its
      contents are the same; else it is active afterwards. It keeps its timestamps and attempts,
      and starts with none when it was not pending. */
  lemma UpdateIsExact(s: QState, prev: QPod, pod: QPod, now: int)
    requires QInv(s) && prev.id == pod.id
    ensures var (t, o), id := Update(s, Some(prev), pod, now), pod.id;
      && o == Ok && OthersStay(s, t, id) && t.cycle == s.cycle && t.moved == s.moved
      && (id in t.unsched <==> id in s.unsched && prev.contents == pod.contents)
      && (id in t.active <==> id !in t.unsched) && id !in t.backoff
      && id in Pending(t)
      && Pending(t)[id] ==
           if id in Pending(s) then Pending(s)[id].(pod := pod) else PodInfo(pod, now, 0, now)
  {
  }

  /** A new pod is active, has not been tried yet, and its time starts now. */
  lemma AddIsExact(s: QState, pod: QPod, now: int)
    requires QInv(s)
    ensures var t, id := Add(s, pod, now), pod.id;
      && OthersStay(s, t, id) && t.cycle == s.cycle && t.moved == s.moved
      && id in t.active && id !in t.backoff && id !in t.unsched && t.active[id] == PodInfo(pod, now, 0, now)
  {
  }

  /** A failed pod that is pending already is an error, and nothing changes. Otherwise it waits,
      with the attempts it has and the time of its failure, in backoff if the recorded move is
      as recent as its cycle, and else among the unschedulable pods. */
  lemma FailedIsExact(s: QState, info: PodInfo, c: int, now: int)
    requires QInv(s)
    ensures var (t, o), id := AddUnschedulable(s, info, c, now), info.pod.id;
      if id in Pending(s) then o == Err && t == s
      else
        && o == Ok && OthersStay(s, t, id) && t.cycle == s.cycle && t.moved == s.moved
        && id !in t.active && (id in t.backoff <==> s.moved >= c) && (id in t.unsched <==> s.moved < c)
        && Pending(t)[id] == PodInfo(info.pod, now, info.attempts, info.initialTimestamp)
  {
  }

  /** A popped pod is pending no more and has one more attempt; so has the cycle. */
  lemma PopIsExact(s: QState, k: Name)
    requires QInv(s) && k in s.active
    ensures var (t, info) := PopKey(s, k);
      && OthersStay(s, t, k) && k !in Pending(t) && t.cycle == s.cycle + 1 && t.moved == s.moved
      && info == PodInfo(s.active[k].pod, s.active[k].timestamp, s.active[k].attempts + 1, s.active[k].initialTimestamp)
  {
  }

  lemma DeleteIsExact(s: QState, id: Name)
    requires QInv(s)
    ensures var t := Delete(s, id);
      OthersStay(s, t, id) && id !in Pending(t) && t.cycle == s.cycle && t.moved == s.moved
  {
  }

  // ---------- Backoff is served ----------

  /** When the backoff of an entry ends: doubled for each attempt after the first, up to the
      maximum. */
  function ServedAt(l: Limits, v: PodInfo): int
    requires v.attempts >= 1
  {
    v.timestamp + Min(l.initial * Pow2(v.attempts - 1), l.max)
  }

  predicate SafeLimits(l: Limits) {
    0 <= l.initial <= l.max <= INT64_MAX && DoublesSafely(l.initial, l.max)
  }

  lemma BackoffEnds(l: Limits, v: PodInfo)
    requires SafeLimits(l) && v.attempts >= 1
    ensures BackoffTime(l, v) == ServedAt(l, v)
  {
    BackoffIsExponentialIff(l.initial, l.max);
  }

  /** The event does not itself put the pod k anew, or take it out. */
  predicate LeavesAlone(e: Event, k: Name) {
    match e
    case AddPod(pod, _) => pod.id != k
    case UpdatePod(_, pod, _) => pod.id != k
    case DeletePod(id) => id != k
    case _ => true
  }

  /** The event comes before this time, if it moves pods at all. */
  predicate Before(e: Event, time: int) {
    (e.BackoffTick? || e.LeftoverTick? || e.MoveAll? || e.MoveSome?) ==> e.now < time
  }

  /** The pod waits, with this entry. */
  ghost predicate Waits(s: QState, k: Name, v: PodInfo) {
    k !in s.active && k in Pending(s) && Pending(s)[k] == v
  }

  lemma StepWaits(l: Limits, s: QState, e: Event, k: Name, v: PodInfo)
    requires QInv(s) && Possible(s, e) && Paired(e) && Waits(s, k, v)
    requires LeavesAlone(e, k) && Before(e, BackoffTime(l, v))
    ensures Waits(Step(l, s, e), k, v)
  {
    hide BackoffTime, Waits, Move, FlushBackoff, MovedExactly, OthersStay, QueueModel.Update, AddUnschedulable, PopKey,
      QueueModel.Delete, QueueModel.Add;
    var t := Step(l, s, e);
    match e
    case BackoffTick(now) => FlushWaits(l, s, now, k, v);
    case LeftoverTick(now) => MoveWaits(l, s, Leftover(s, now), now, k, v);
    case MoveAll(now) => MoveWaits(l, s, s.unsched.Keys, now, k, v);
    case MoveSome(keys, now) => MoveWaits(l, s, keys, now, k, v);
    case UpdatePod(prev, pod, now) => UpdateIsExact(s, prev.value, pod, now); OthersWait(s, t, pod.id, k, v);
    case AddPod(pod, now) => AddIsExact(s, pod, now); OthersWait(s, t, pod.id, k, v);
    case DeletePod(id) => DeleteIsExact(s, id); OthersWait(s, t, id, k, v);
    case Failed(info, c, now) =>
      FailedIsExact(s, info, c, now);
      if info.pod.id != k { if t != s { OthersWait(s, t, info.pod.id, k, v); } } else { WaitsIsPending(s, k, v); }
    case PopPod(j) =>
      PopIsExact(s, j);
      WaitsIsPending(s, k, v);
      OthersWait(s, t, j, k, v);
  }

  lemma WaitsIsPending(s: QState, k: Name, v: PodInfo)
    requires Waits(s, k, v)
    ensures k in Pending(s) && k !in s.active
  {
  }

  lemma OthersWait(s: QState, t: QState, id: Name, k: Name, v: PodInfo)
    requires Waits(s, k, v) && OthersStay(s, t, id) && k != id
    ensures Waits(t, k, v)
  {
    assert (k in t.active <==> k in t.active - {id}) && (k in s.active <==> k in s.active - {id});
    assert (k in t.backoff <==> k in t.backoff - {id}) && (k in s.backoff <==> k in s.backoff - {id});
    assert (k in t.unsched <==> k in t.unsched - {id}) && (k in s.unsched <==> k in s.unsched - {id});
  }

  lemma MoveWaits(l: Limits, s: QState, keys: set<Name>, now: int, k: Name, v: PodInfo)
    requires QInv(s) && Waits(s, k, v) && now < BackoffTime(l, v)
    ensures Waits(Move(l, s, keys, now), k, v)
  {
    hide Move, BackoffTime;
    MoveIsExact(l, s, keys, now);
  }

  lemma FlushWaits(l: Limits, s: QState, now: int, k: Name, v: PodInfo)
    requires QInv(s) && Waits(s, k, v) && now < BackoffTime(l, v)
    ensures Waits(FlushBackoff(l, s, now), k, v)
  {
    hide FlushBackoff, BackoffTime;
    FlushBackoffIsExact(l, s, now);
  }

  /** However a run goes on, a failed pod does not get back to the active queue before its backoff
      is served, unless it is itself added, updated or deleted. */
  lemma {:induction false} BackoffIsServed(l: Limits, s: QState, es: seq<Event>, k: Name, v: PodInfo)
    requires QInv(s) && PossibleRun(l, s, es) && SafeLimits(l) && v.attempts >= 1 && Waits(s, k, v)
    requires forall i :: 0 <= i < |es| ==> Paired(es[i]) && LeavesAlone(es[i], k) && Before(es[i], ServedAt(l, v))
    ensures Waits(Run(l, s, es), k, v)
    decreases |es|
  {
    hide Step, Waits;
    if es != [] {
      BackoffEnds(l, v);
      StepKeeps(l, s, es[0]);
      StepWaits(l, s, es[0], k, v);
      BackoffIsServed(l, Step(l, s, es[0]), es[1..], k, v);
    }
  }

  /** And from then on the next flush or move that reaches it activates it. */
  lemma ServedIsActivated(l: Limits, s: QState, e: Event, k: Name, v: PodInfo)
    requires QInv(s) && SafeLimits(l) && v.attempts >= 1 && Waits(s, k, v)
    requires e.BackoffTick? || e.MoveAll?
    ensures e.now >= ServedAt(l, v) && (k in s.backoff <==> e.BackoffTick?) ==>
      k in Step(l, s, e).active && Step(l, s, e).active[k] == v
  {
    BackoffEnds(l, v);
    match e
    case BackoffTick(now) => FlushBackoffIsExact(l, s, now);
    case MoveAll(now) => MoveIsExact(l, s, s.unsched.Keys, now);
  }
}
