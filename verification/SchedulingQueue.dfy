/** The priority queue of scheduler/internal/queue/scheduling_queue.go: two keyed heaps, a
    map, and two counters, updated in place. Every method is proved to do to `View()` what
    the state machine of module QueueModel says. */
module SchedulingQueue {
  import opened Wrappers
  import opened HeapOrder
  import opened KeyedHeap
  import opened PodBackoff
  import opened QueueModel

  /** podInfoKeyFunc. */
  function PodKey(p: PodInfo): Option<Name> {
    Some(p.pod.id)
  }

  class PriorityQueue {
    const activeQ: Heap<PodInfo>
    const podBackoffQ: Heap<PodInfo>
    const limits: Limits
    var unschedulableQ: map<Name, PodInfo>
    var schedulingCycle: int
    var moveRequestCycle: int

    constructor (less: (PodInfo, PodInfo) -> bool, limits: Limits)
      requires StrictWeak(less)
      ensures Valid() == true
      ensures View() == EmptyQueue && fresh(activeQ) && fresh(podBackoffQ)
      ensures this.limits == limits
    {
      var a := new Heap(PodKey, less);
      var b := new Heap(PodKey, (p: PodInfo, q: PodInfo) => BackoffTime(limits, p) < BackoffTime(limits, q));
      activeQ, podBackoffQ, this.limits := a, b, limits;
      unschedulableQ, schedulingCycle, moveRequestCycle := map[], 0, -1;
    }

    ghost function View(): QState
      reads this, activeQ, podBackoffQ
    {
      QState(activeQ.Contents(), podBackoffQ.Contents(), unschedulableQ, schedulingCycle, moveRequestCycle)
    }

    ghost predicate Valid()
      reads this, activeQ, podBackoffQ
    {
      && activeQ != podBackoffQ && activeQ.Valid() && podBackoffQ.Valid()
      && (forall p :: activeQ.keyFunc(p) == PodKey(p))
      && (forall p :: podBackoffQ.keyFunc(p) == PodKey(p))
      && (forall p, q :: podBackoffQ.lessFunc(p, q) <==> BackoffTime(limits, p) < BackoffTime(limits, q))
    }

    // ---------- The sub-queues ----------

    method AddActive(info: PodInfo)
      requires Valid() == true
      modifies activeQ
      ensures Valid() == true
      ensures View() == old(View()).(active := old(View()).active[info.pod.id := info])
    {
      var _ := activeQ.Add(info);
    }

    method DeleteActive(info: PodInfo) returns (r: Outcome)
      requires Valid() == true
      modifies activeQ
      ensures Valid() == true
      ensures View() == old(View()).(active := old(View()).active - {info.pod.id})
      ensures r == if info.pod.id in old(View()).active then Ok else Err
    {
      r := activeQ.Delete(info);
    }

    method AddBackoff(info: PodInfo)
      requires Valid() == true
      modifies podBackoffQ
      ensures Valid() == true
      ensures View() == old(View()).(backoff := old(View()).backoff[info.pod.id := info])
    {
      var _ := podBackoffQ.Add(info);
    }

    method DeleteBackoff(info: PodInfo)
      requires Valid() == true
      modifies podBackoffQ
      ensures Valid() == true
      ensures View() == old(View()).(backoff := old(View()).backoff - {info.pod.id})
    {
      var _ := podBackoffQ.Delete(info);
    }

    method SetUnschedulable(m: map<Name, PodInfo>)
      requires Valid() == true
      modifies this`unschedulableQ
      ensures Valid() == true
      ensures View() == old(View()).(unsched := m)
    {
      unschedulableQ := m;
    }

    // ---------- Operations ----------

    method Add(pod: QPod, now: int)
      requires Valid() == true
      modifies this, activeQ, podBackoffQ
      ensures Valid() == true
      ensures View() == QueueModel.Add(old(View()), pod, now)
    {
      var info := NewInfo(pod, now);
      AddActive(info);
      SetUnschedulable(unschedulableQ - {pod.id});
      DeleteBackoff(info);
    }

    /** The caller's record is refreshed unless the pod is already unschedulable, also when the
        call then fails. */
    method AddUnschedulableIfNotPresent(info: PodInfo, podSchedulingCycle: int, now: int)
      returns (r: Outcome, refreshed: PodInfo)
      requires Valid() == true
      modifies this, podBackoffQ
      ensures Valid() == true
      ensures (View(), r) == AddUnschedulable(old(View()), info, podSchedulingCycle, now)
      ensures refreshed == if info.pod.id in old(View()).unsched then info else info.(timestamp := now)
    {
      var id := info.pod.id;
      refreshed := info;
      if id in unschedulableQ {
        return Err, refreshed;
      }
      refreshed := info.(timestamp := now);
      var active := activeQ.GetByKey(id);
      if active.Some? {
        return Err, refreshed;
      }
      var backingOff := podBackoffQ.GetByKey(id);
      if backingOff.Some? {
        return Err, refreshed;
      }
      if moveRequestCycle >= podSchedulingCycle {
        AddBackoff(refreshed);
      } else {
        SetUnschedulable(unschedulableQ[id := refreshed]);
      }
      return Ok, refreshed;
    }

    /** Takes the head out of the backoff queue. */
    method PopBackoff() returns (info: PodInfo)
      requires Valid() == true
      requires podBackoffQ.Contents() != map[]
      modifies podBackoffQ
      ensures Valid() == true
      ensures info == old(podBackoffQ.First())
      ensures View() == old(View()).(backoff := old(View()).backoff - {info.pod.id})
    {
      hide Heap.Valid;
      info := podBackoffQ.Pop();
      assert podBackoffQ.keyFunc(info) == PodKey(info);
    }

    /** The head of the backoff queue is the pod whose backoff ends first. */
    method PeekBackoff() returns (head: Option<PodInfo>)
      requires Valid() == true
      ensures head.None? <==> View().backoff == map[]
      ensures head.Some? ==> head.value == podBackoffQ.First()
      ensures head.Some? ==>
        && head.value.pod.id in View().backoff && View().backoff[head.value.pod.id] == head.value
        && forall k :: k in View().backoff ==> BackoffTime(limits, View().backoff[k]) >= BackoffTime(limits, head.value)
    {
      head := podBackoffQ.Peek();
      if head.Some? {
        assert podBackoffQ.keyFunc(head.value) == PodKey(head.value);
      }
    }

    /** One turn of the flush: the head of the backoff queue, if its backoff is over, moves to
        the active queue. */
    method FlushHead(now: int) returns (done: bool)
      requires Valid() == true
      modifies activeQ, podBackoffQ
      ensures Valid() == true
      ensures FlushBackoff(limits, View(), now) == FlushBackoff(limits, old(View()), now)
      ensures done ==> View() == FlushBackoff(limits, old(View()), now)
      ensures !done ==> |View().backoff| < |old(View()).backoff|
    {
      hide Heap.Valid, Heap.Contents, Heap.First, FlushBackoff;
      var head := PeekBackoff();
      done := head.None? || BackingOff(limits, head.value, now);
      if done {
        FlushNone(limits, View(), now);
      } else {
        ActivateHead(head.value);
        FlushOne(limits, old(View()), head.value.pod.id, head.value, View(), now);
      }
    }

    /** The head of the backoff queue moves to the active queue. */
    method ActivateHead(head: PodInfo)
      requires Valid() == true
      requires podBackoffQ.Contents() != map[] && head == podBackoffQ.First()
      modifies activeQ, podBackoffQ
      ensures Valid() == true
      ensures View() == old(View()).(
        active := old(View()).active[head.pod.id := head], backoff := old(View()).backoff - {head.pod.id})
    {
      var _ := PopBackoff();
      AddActive(head);
    }

    /** flushBackoffQCompleted, at one reading of the clock. */
    method FlushBackoffQCompleted(now: int)
      requires Valid() == true
      modifies activeQ, podBackoffQ
      ensures Valid() == true
      ensures View() == FlushBackoff(limits, old(View()), now)
    {
      var done := false;
      while !done
        invariant Valid() == true
        invariant FlushBackoff(limits, View(), now) == FlushBackoff(limits, old(View()), now)
        invariant done ==> View() == FlushBackoff(limits, old(View()), now)
        decreases !done, |View().backoff|
      {
        done := FlushHead(now);
      }
    }

    /** The unschedulable pods that satisfy a condition. */
    method Collect(matches: PodInfo -> bool) returns (keys: set<Name>)
      ensures keys == set k | k in unschedulableQ && matches(unschedulableQ[k])
    {
      keys := {};
      var todo := unschedulableQ.Keys;
      while todo != {}
        invariant todo <= unschedulableQ.Keys
        invariant keys == set k | k in unschedulableQ && k !in todo && matches(unschedulableQ[k])
        decreases todo
      {
        var k :| k in todo;
        if matches(unschedulableQ[k]) {
          keys := keys + {k};
        }
        todo := todo - {k};
      }
    }

    method MoveOnePod(k: Name, now: int)
      requires Valid() == true
      requires k in unschedulableQ && unschedulableQ[k].pod.id == k
      modifies this`unschedulableQ, activeQ, podBackoffQ
      ensures Valid() == true
      ensures View() == MoveOne(limits, old(View()), k, now)
    {
      var info := unschedulableQ[k];
      if BackingOff(limits, info, now) {
        AddBackoff(info);
      } else {
        AddActive(info);
      }
      SetUnschedulable(unschedulableQ - {k});
    }

    method SetMoveRequestCycle()
      requires Valid() == true
      modifies this`moveRequestCycle
      ensures Valid() == true
      ensures View() == old(View()).(moved := old(View()).cycle)
    {
      moveRequestCycle := schedulingCycle;
    }

    /** movePodsToActiveOrBackoffQueue. */
    method MovePods(keys: set<Name>, now: int)
      requires Valid() == true
      requires keys <= unschedulableQ.Keys && Filed(unschedulableQ)
      modifies this, activeQ, podBackoffQ
      ensures Valid() == true
      ensures View() == Move(limits, old(View()), keys, now)
    {
      hide Heap.Valid, Heap.Contents;
      var todo := keys;
      while todo != {}
        invariant Valid() == true
        invariant todo <= unschedulableQ.Keys && Filed(unschedulableQ)
        invariant Move(limits, View(), todo, now) == Move(limits, old(View()), keys, now)
        decreases todo
      {
        var k :| k in todo;
        MoveStep(limits, View(), todo, k, now);
        MoveOnePod(k, now);
        todo := todo - {k};
      }
      MoveNone(limits, View(), now);
      SetMoveRequestCycle();
    }

    method FlushUnschedulableQLeftover(now: int)
      requires Valid() == true
      requires Filed(unschedulableQ)
      modifies this, activeQ, podBackoffQ
      ensures Valid() == true
      ensures View() == FlushLeftover(limits, old(View()), now)
    {
      var keys := Collect((p: PodInfo) => now - p.timestamp > UNSCHEDULABLE_TIMEOUT);
      assert keys == Leftover(View(), now);
      if keys != {} {
        MovePods(keys, now);
      }
    }

    method MoveAllToActiveOrBackoffQueue(now: int)
      requires Valid() == true
      requires Filed(unschedulableQ)
      modifies this, activeQ, podBackoffQ
      ensures Valid() == true
      ensures View() == Move(limits, old(View()), old(View()).unsched.Keys, now)
    {
      MovePods(unschedulableQ.Keys, now);
    }

    /** AssignedPodAdded and AssignedPodUpdated; `matches` says which pods have an affinity
        term that the assigned pod satisfies. */
    method AssignedPodAdded(matches: PodInfo -> bool, now: int)
      requires Valid() == true
      requires Filed(unschedulableQ)
      modifies this, activeQ, podBackoffQ
      ensures Valid() == true
      ensures View() == Move(limits, old(View()),
        (set k | k in old(View()).unsched && matches(old(View()).unsched[k])), now)
    {
      var keys := Collect(matches);
      MovePods(keys, now);
    }

    /** Pop, once the active queue has a pod: its head, which no other pod precedes. */
    method Pop() returns (info: PodInfo)
      requires Valid() == true
      requires activeQ.Contents() != map[]
      modifies this`schedulingCycle, activeQ
      ensures Valid() == true
      ensures info.pod.id in old(View()).active && (View(), info) == PopKey(old(View()), info.pod.id)
      ensures old(activeQ.IsHead(View().active[info.pod.id]))
    {
      hide Heap.Valid;
      var head := activeQ.Pop();
      assert activeQ.keyFunc(head) == PodKey(head);
      info := head.(attempts := head.attempts + 1);
      schedulingCycle := schedulingCycle + 1;
    }

    method Update(prev: Option<QPod>, pod: QPod, now: int) returns (r: Outcome)
      requires Valid() == true
      requires Filed(View().active) && Filed(View().backoff) && Filed(View().unsched)
      modifies this, activeQ, podBackoffQ
      ensures Valid() == true
      ensures (View(), r) == QueueModel.Update(old(View()), prev, pod, now)
    {
      if prev.Some? {
        var active := activeQ.GetByKey(prev.value.id);
        if active.Some? {
          AddActive(active.value.(pod := pod));
          return Ok;
        }
        var backingOff := podBackoffQ.GetByKey(prev.value.id);
        if backingOff.Some? {
          DeleteBackoff(backingOff.value);
          AddActive(backingOff.value.(pod := pod));
          return Ok;
        }
      }
      if pod.id in unschedulableQ {
        var info := unschedulableQ[pod.id];
        if prev.None? {
          return Fatal;
        }
        if prev.value.id != pod.id || prev.value.contents != pod.contents {
          SetUnschedulable(unschedulableQ - {pod.id});
          AddActive(info.(pod := pod));
        } else {
          SetUnschedulable(unschedulableQ[pod.id := info.(pod := pod)]);
        }
        return Ok;
      }
      AddActive(NewInfo(pod, now));
      return Ok;
    }

    method Delete(pod: QPod)
      requires Valid() == true
      modifies this, activeQ, podBackoffQ
      ensures Valid() == true
      ensures View() == QueueModel.Delete(old(View()), pod.id)
    {
      hide Heap.Valid;
      var info := PodInfo(pod, 0, 0, 0);
      var r := DeleteActive(info);
      if r == Err {
        DeleteBackoff(info);
        SetUnschedulable(unschedulableQ - {pod.id});
      }
    }
  }
}
