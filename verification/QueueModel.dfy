/** The scheduling queue of scheduler/internal/queue/scheduling_queue.go as a state machine:
    three sub-queues by pod key and two cycle counters. */
module QueueModel {
  import opened Wrappers
  import opened PodBackoff

  /** A pod: its namespace and name as one key, and its contents without resource version,
      generation and status. */
  datatype QPod = QPod(id: Name, contents: int, version: int)
  datatype PodInfo = PodInfo(pod: QPod, timestamp: int, attempts: int, initialTimestamp: int)

  datatype QState = QState(
    active: map<Name, PodInfo>, backoff: map<Name, PodInfo>, unsched: map<Name, PodInfo>,
    cycle: int, moved: int)

  const EmptyQueue: QState := QState(map[], map[], map[], 0, -1)

  const UNSCHEDULABLE_TIMEOUT: int := 60_000_000_000

  // ---------- Backoff ----------

  /** The two durations the queue was made with. */
  datatype Limits = Limits(initial: int, max: int)

  function BackoffTime(l: Limits, p: PodInfo): int {
    p.timestamp + Backoff(l.initial, l.max, p.attempts)
  }

  predicate BackingOff(l: Limits, p: PodInfo, now: int) {
    BackoffTime(l, p) > now
  }

  // ---------- Operations ----------

  function NewInfo(pod: QPod, now: int): PodInfo {
    PodInfo(pod, now, 0, now)
  }

  function Add(s: QState, pod: QPod, now: int): QState {
    s.(active := s.active[pod.id := NewInfo(pod, now)], unsched := s.unsched - {pod.id},
      backoff := s.backoff - {pod.id})
  }

  /** A pod whose attempt with cycle reading `c` failed. */
  function AddUnschedulable(s: QState, info: PodInfo, c: int, now: int): (QState, Outcome) {
    var id := info.pod.id;
    if id in s.unsched || id in s.active || id in s.backoff then (s, Err)
    else if s.moved >= c then (s.(backoff := s.backoff[id := info.(timestamp := now)]), Ok)
    else (s.(unsched := s.unsched[id := info.(timestamp := now)]), Ok)
  }

  /** The pods whose backoff is over. */
  function Completed(l: Limits, m: map<Name, PodInfo>, now: int): map<Name, PodInfo> {
    map k | k in m && !BackingOff(l, m[k], now) :: m[k]
  }

  function FlushBackoff(l: Limits, s: QState, now: int): QState {
    var done := Completed(l, s.backoff, now);
    s.(active := s.active + done, backoff := s.backoff - done.Keys)
  }

  function Chosen(m: map<Name, PodInfo>, keys: set<Name>): map<Name, PodInfo> {
    map k | k in m && k in keys :: m[k]
  }

  /** movePodsToActiveOrBackoffQueue, for the unschedulable pods with these keys. */
  function Move(l: Limits, s: QState, keys: set<Name>, now: int): QState {
    var gone := Chosen(s.unsched, keys);
    var done := Completed(l, gone, now);
    s.(active := s.active + done, backoff := s.backoff + (gone - done.Keys),
       unsched := s.unsched - gone.Keys, moved := s.cycle)
  }

  function Leftover(s: QState, now: int): set<Name> {
    set k | k in s.unsched && now - s.unsched[k].timestamp > UNSCHEDULABLE_TIMEOUT
  }

  function FlushLeftover(l: Limits, s: QState, now: int): QState {
    if Leftover(s, now) == {} then s else Move(l, s, Leftover(s, now), now)
  }

  /** Pop, when the pod k is the head. */
  function PopKey(s: QState, k: Name): (QState, PodInfo)
    requires k in s.active
  {
    (s.(active := s.active - {k}, cycle := s.cycle + 1), s.active[k].(attempts := s.active[k].attempts + 1))
  }

  /** The active or backoff queue holds the old version. */
  predicate HoldsOld(s: QState, prev: Option<QPod>) {
    prev.Some? && (prev.value.id in s.active || prev.value.id in s.backoff)
  }

  /** `Fatal` is the nil dereference for an unschedulable pod without an old version. The old
      version is looked up under its own key, and the new one filed under its own. */
  function Update(s: QState, prev: Option<QPod>, pod: QPod, now: int): (QState, Outcome) {
    var id := pod.id;
    if prev.Some? && prev.value.id in s.active then
      (s.(active := s.active[id := s.active[prev.value.id].(pod := pod)]), Ok)
    else if prev.Some? && prev.value.id in s.backoff then
      (s.(backoff := s.backoff - {prev.value.id}, active := s.active[id := s.backoff[prev.value.id].(pod := pod)]), Ok)
    else if id in s.unsched then
      if prev.None? then (s, Fatal)
      else if prev.value.id != id || prev.value.contents != pod.contents then
        (s.(unsched := s.unsched - {id}, active := s.active[id := s.unsched[id].(pod := pod)]), Ok)
      else (s.(unsched := s.unsched[id := s.unsched[id].(pod := pod)]), Ok)
    else (s.(active := s.active[id := NewInfo(pod, now)]), Ok)
  }

  function Delete(s: QState, id: Name): QState {
    if id in s.active then s.(active := s.active - {id})
    else s.(backoff := s.backoff - {id}, unsched := s.unsched - {id})
  }

  // ---------- Events and runs ----------

  datatype Event =
    | AddPod(pod: QPod, now: int)
    | Failed(info: PodInfo, c: int, now: int)
    | BackoffTick(now: int)
    | LeftoverTick(now: int)
    | PopPod(key: Name)
    | UpdatePod(prev: Option<QPod>, pod: QPod, now: int)
    | DeletePod(id: Name)
    | MoveAll(now: int)
    | MoveSome(keys: set<Name>, now: int)

  /** A pop takes a pod of the active queue. */
  predicate Possible(s: QState, e: Event) {
    e.PopPod? ==> e.key in s.active
  }

  /** The caller's part: an update passes two versions of one pod. */
  predicate Paired(e: Event) {
    e.UpdatePod? ==> e.prev.Some? && e.prev.value.id == e.pod.id
  }

  function Step(l: Limits, s: QState, e: Event): QState
    requires Possible(s, e)
  {
    match e
    case AddPod(pod, now) => Add(s, pod, now)
    case Failed(info, c, now) => AddUnschedulable(s, info, c, now).0
    case BackoffTick(now) => FlushBackoff(l, s, now)
    case LeftoverTick(now) => FlushLeftover(l, s, now)
    case PopPod(key) => PopKey(s, key).0
    case UpdatePod(prev, pod, now) => Update(s, prev, pod, now).0
    case DeletePod(id) => Delete(s, id)
    case MoveAll(now) => Move(l, s, s.unsched.Keys, now)
    case MoveSome(keys, now) => Move(l, s, keys, now)
  }

  ghost predicate PossibleRun(l: Limits, s: QState, es: seq<Event>)
    decreases |es|
  {
    es == [] || (Possible(s, es[0]) && PossibleRun(l, Step(l, s, es[0]), es[1..]))
  }

  ghost function Run(l: Limits, s: QState, es: seq<Event>): QState
    requires PossibleRun(l, s, es)
    decreases |es|
  {
    if es == [] then s else Run(l, Step(l, s, es[0]), es[1..])
  }

  // ---------- Partition and conservation ----------

  /** No pod is in two queues, and each is filed under its own key. */
  ghost predicate Partition(s: QState) {
    && s.active.Keys !! s.backoff.Keys && s.active.Keys !! s.unsched.Keys && s.backoff.Keys !! s.unsched.Keys
    && Filed(s.active) && Filed(s.backoff) && Filed(s.unsched)
  }

  ghost predicate Filed(m: map<Name, PodInfo>) {
    forall k :: k in m ==> m[k].pod.id == k
  }

  /** The pods in any queue. */
  ghost function Pending(s: QState): map<Name, PodInfo> {
    s.active + s.backoff + s.unsched
  }

  ghost predicate Counters(s: QState) {
    -1 <= s.moved <= s.cycle && s.cycle >= 0
  }

  ghost predicate QInv(s: QState) {
    Partition(s) && Counters(s)
  }

  /** Moving entries from the third of three maps to the others loses none. */
  lemma Redistributed(
    a: map<Name, PodInfo>, b: map<Name, PodInfo>, c: map<Name, PodInfo>, gone: map<Name, PodInfo>,
    done: map<Name, PodInfo>)
    requires gone.Keys <= c.Keys && (forall k :: k in gone ==> gone[k] == c[k]) && done.Keys <= gone.Keys
    requires forall k :: k in done ==> done[k] == gone[k]
    requires a.Keys !! b.Keys && a.Keys !! c.Keys && b.Keys !! c.Keys
    ensures (a + done) + (b + (gone - done.Keys)) + (c - gone.Keys) == a + b + c
  {
  }

  lemma MoveKeeps(l: Limits, s: QState, keys: set<Name>, now: int)
    requires QInv(s)
    ensures QInv(Move(l, s, keys, now))
    ensures Pending(Move(l, s, keys, now)) == Pending(s)
  {
    var gone := Chosen(s.unsched, keys);
    Redistributed(s.active, s.backoff, s.unsched, gone, Completed(l, gone, now));
  }

  lemma PassedOn(a: map<Name, PodInfo>, b: map<Name, PodInfo>, done: map<Name, PodInfo>)
    requires a.Keys !! b.Keys && done.Keys <= b.Keys && forall k :: k in done ==> done[k] == b[k]
    ensures (a + done) + (b - done.Keys) == a + b
  {
  }

  /** A flush moves precisely the pods whose backoff is over and loses none. */
  lemma FlushBackoffIsExact(l: Limits, s: QState, now: int)
    requires QInv(s)
    ensures var t := FlushBackoff(l, s, now);
      && QInv(t) && Pending(t) == Pending(s) && t.unsched == s.unsched
      && (forall k :: k in t.backoff <==> k in s.backoff && BackoffTime(l, s.backoff[k]) > now)
      && (forall k :: k in t.active <==> k in s.active || (k in s.backoff && BackoffTime(l, s.backoff[k]) <= now))
  {
    PassedOn(s.active, s.backoff, Completed(l, s.backoff, now));
  }

  /** Flushes and moves keep the pending pods; a pop and a delete take out one key; an add, an
      update and a failure put their pod in exactly one queue and leave the others alone. */
  ghost predicate Conserves(s: QState, e: Event, t: QState) {
    match e
    case BackoffTick(_) => Pending(t) == Pending(s)
    case LeftoverTick(_) => Pending(t) == Pending(s)
    case MoveAll(_) => Pending(t) == Pending(s) && t.unsched == map[]
    case MoveSome(_, _) => Pending(t) == Pending(s)
    case PopPod(key) => Pending(t) == Pending(s) - {key}
    case DeletePod(id) => Pending(t) == Pending(s) - {id}
    case AddPod(pod, now) => Pending(t) == Pending(s)[pod.id := NewInfo(pod, now)]
    case UpdatePod(_, pod, _) =>
      pod.id in Pending(t) && Pending(t)[pod.id].pod == pod && Pending(t) - {pod.id} == Pending(s) - {pod.id}
    case Failed(info, _, now) =>
      if info.pod.id in Pending(s) then t == s else Pending(t) == Pending(s)[info.pod.id := info.(timestamp := now)]
  }

  lemma PutFirst(a: map<Name, PodInfo>, b: map<Name, PodInfo>, k: Name, v: PodInfo)
    ensures a[k := v] + (b - {k}) == (a + b)[k := v]
  {
  }

  /** A pod put into the active queue, out of whatever other queue held it. */
  lemma Activated(s: QState, info: PodInfo)
    requires QInv(s)
    ensures var id := info.pod.id;
      var t := s.(active := s.active[id := info], backoff := s.backoff - {id}, unsched := s.unsched - {id});
      QInv(t) && Pending(t) == Pending(s)[id := info]
  {
    PutFirst(s.active, s.backoff, info.pod.id, info);
    PutFirst(s.active + s.backoff, s.unsched, info.pod.id, info);
  }

  lemma AddConserves(s: QState, pod: QPod, now: int)
    requires QInv(s)
    ensures QInv(Add(s, pod, now)) && Conserves(s, AddPod(pod, now), Add(s, pod, now))
  {
    Activated(s, NewInfo(pod, now));
  }

  lemma FailedConserves(s: QState, info: PodInfo, c: int, now: int)
    requires QInv(s)
    ensures var t := AddUnschedulable(s, info, c, now).0; QInv(t) && Conserves(s, Failed(info, c, now), t)
  {
    var id := info.pod.id;
    if id !in Pending(s) {
      var v := info.(timestamp := now);
      WithNew(s.active, s.backoff, s.unsched, id, v);
    }
  }

  lemma WithNew(a: map<Name, PodInfo>, b: map<Name, PodInfo>, c: map<Name, PodInfo>, k: Name, v: PodInfo)
    requires k !in c
    ensures a + b[k := v] + c == (a + b + c)[k := v] && a + b + c[k := v] == (a + b + c)[k := v]
  {
  }

  lemma RemovalConserves(s: QState, k: Name)
    requires QInv(s)
    ensures QInv(Delete(s, k)) && Conserves(s, DeletePod(k), Delete(s, k))
    ensures k in s.active ==> QInv(PopKey(s, k).0) && Conserves(s, PopPod(k), PopKey(s, k).0)
  {
    if k in s.active {
      WithoutFirst(s.active, s.backoff, s.unsched, k);
    } else {
      WithoutOthers(s.active, s.backoff, s.unsched, k);
    }
  }

  lemma WithoutFirst(a: map<Name, PodInfo>, b: map<Name, PodInfo>, c: map<Name, PodInfo>, k: Name)
    requires k !in b && k !in c
    ensures (a - {k}) + b + c == (a + b + c) - {k}
  {
  }

  lemma WithoutOthers(a: map<Name, PodInfo>, b: map<Name, PodInfo>, c: map<Name, PodInfo>, k: Name)
    requires k !in a
    ensures a + (b - {k}) + (c - {k}) == (a + b + c) - {k}
  {
  }

  lemma Absent(m: map<Name, PodInfo>, id: Name)
    requires id !in m
    ensures m - {id} == m
  {
  }

  /** An unschedulable pod that stays unschedulable. */
  lemma Kept(s: QState, info: PodInfo)
    requires QInv(s) && info.pod.id in s.unsched
    ensures var t := s.(unsched := s.unsched[info.pod.id := info]);
      QInv(t) && Pending(t) == Pending(s)[info.pod.id := info]
  {
  }

  lemma UpdateConserves(s: QState, prev: QPod, pod: QPod, now: int)
    requires QInv(s) && prev.id == pod.id
    ensures QInv(Update(s, Some(prev), pod, now).0)
    ensures Conserves(s, UpdatePod(Some(prev), pod, now), Update(s, Some(prev), pod, now).0)
  {
    var id := pod.id;
    if id !in s.active { Absent(s.active, id); }
    if id !in s.backoff { Absent(s.backoff, id); }
    if id !in s.unsched { Absent(s.unsched, id); }
    var info :=
      if id in s.active then s.active[id].(pod := pod)
      else if id in s.backoff then s.backoff[id].(pod := pod)
      else if id in s.unsched then s.unsched[id].(pod := pod)
      else NewInfo(pod, now);
    Activated(s, info);
    if id in s.unsched { Kept(s, info); }
  }

  /** Every event keeps the counters ordered, whatever versions an update passes. */
  lemma StepKeepsCounters(l: Limits, s: QState, e: Event)
    requires Counters(s) && Possible(s, e)
    ensures Counters(Step(l, s, e)) && Step(l, s, e).cycle >= s.cycle && Step(l, s, e).moved >= s.moved
  {
    hide Completed, Chosen;
  }

  lemma {:induction false} RunKeepsCounters(l: Limits, s: QState, es: seq<Event>)
    requires Counters(s) && PossibleRun(l, s, es)
    ensures Counters(Run(l, s, es)) && Run(l, s, es).cycle >= s.cycle && Run(l, s, es).moved >= s.moved
    decreases |es|
  {
    if es != [] {
      StepKeepsCounters(l, s, es[0]);
      RunKeepsCounters(l, Step(l, s, es[0]), es[1..]);
    }
  }

  lemma StepKeeps(l: Limits, s: QState, e: Event)
    requires QInv(s) && Possible(s, e) && Paired(e)
    ensures QInv(Step(l, s, e)) && Conserves(s, e, Step(l, s, e))
    ensures Step(l, s, e).cycle >= s.cycle && Step(l, s, e).moved >= s.moved
  {
    match e
    case BackoffTick(now) => FlushBackoffIsExact(l, s, now);
    case LeftoverTick(now) => MoveKeeps(l, s, Leftover(s, now), now);
    case MoveAll(now) => MoveKeeps(l, s, s.unsched.Keys, now);
    case MoveSome(keys, now) => MoveKeeps(l, s, keys, now);
    case UpdatePod(prev, pod, now) => UpdateConserves(s, prev.value, pod, now);
    case AddPod(pod, now) => AddConserves(s, pod, now);
    case Failed(info, c, now) => FailedConserves(s, info, c, now);
    case PopPod(k) => RemovalConserves(s, k);
    case DeletePod(k) => RemovalConserves(s, k);
  }

  lemma {:induction false} RunKeeps(l: Limits, s: QState, es: seq<Event>)
    requires QInv(s) && PossibleRun(l, s, es) && forall i :: 0 <= i < |es| ==> Paired(es[i])
    ensures QInv(Run(l, s, es)) && Run(l, s, es).cycle >= s.cycle && Run(l, s, es).moved >= s.moved
    decreases |es|
  {
    if es != [] {
      StepKeeps(l, s, es[0]);
      RunKeeps(l, Step(l, s, es[0]), es[1..]);
    }
  }

  /** An update keeps the queues apart exactly when the new version's key is in no other queue
      than the old version's: for two versions of one pod, unless the old one is not passed
      and the pod is backing off. */
  lemma UpdateKeepsPartitionIff(s: QState, prev: Option<QPod>, pod: QPod, now: int)
    requires QInv(s)
    ensures Partition(Update(s, prev, pod, now).0) <==>
      if HoldsOld(s, prev) then prev.value.id == pod.id || (pod.id !in s.backoff && pod.id !in s.unsched)
      else pod.id !in s.backoff
  {
    var t := Update(s, prev, pod, now).0;
    if pod.id in s.backoff && !(HoldsOld(s, prev) && prev.value.id == pod.id) {
      assert pod.id in t.active && pod.id in t.backoff;
    } else if HoldsOld(s, prev) && prev.value.id != pod.id && pod.id in s.unsched {
      assert pod.id in t.active && pod.id in t.unsched;
    }
  }

  lemma RunNext(l: Limits, s: QState, e: Event, es: seq<Event>, all: seq<Event>)
    requires Possible(s, e) && PossibleRun(l, Step(l, s, e), es) && all == [e] + es
    ensures PossibleRun(l, s, all) && Run(l, s, all) == Run(l, Step(l, s, e), es)
  {
    assert all[1..] == es;
  }

  /** The failing case is reached from an empty queue: a pod arrives, is popped, fails after a
      move request, and is then updated without an old version. */
  lemma UpdateCanDouble(l: Limits, pod: QPod, now: int)
    ensures var failure := Failed(NewInfo(pod, now).(attempts := 1), 1, now);
      var es := [AddPod(pod, now), PopPod(pod.id), MoveAll(now), failure];
      && PossibleRun(l, EmptyQueue, es)
      && var t := Update(Run(l, EmptyQueue, es), None, pod, now).0; pod.id in t.active && pod.id in t.backoff
  {
    var arrival, pop, move, failure :=
      AddPod(pod, now), PopPod(pod.id), MoveAll(now), Failed(NewInfo(pod, now).(attempts := 1), 1, now);
    var s := Add(EmptyQueue, pod, now);
    var popped := PopKey(s, pod.id).0;
    assert popped.unsched == map[] && popped.active == map[];
    MoveNone(l, popped, now);
    RunNext(l, Move(l, popped, popped.unsched.Keys, now), failure, [], [failure]);
    RunNext(l, popped, move, [failure], [move, failure]);
    RunNext(l, s, pop, [move, failure], [pop, move, failure]);
    RunNext(l, EmptyQueue, arrival, [pop, move, failure], [arrival, pop, move, failure]);
  }

  // ---------- The loops that move pods ----------

  lemma PutBack(m: map<Name, PodInfo>, k: Name)
    requires k in m
    ensures (m - {k})[k := m[k]] == m && |m - {k}| < |m|
  {
    assert (m - {k}).Keys == m.Keys - {k};
  }

  /** One turn of the flush: a pod whose backoff is over. */
  lemma FlushOne(l: Limits, s: QState, k: Name, v: PodInfo, t: QState, now: int)
    requires k in s.backoff && s.backoff[k] == v && !BackingOff(l, v, now)
    requires t == s.(active := s.active[k := v], backoff := s.backoff - {k})
    ensures FlushBackoff(l, t, now) == FlushBackoff(l, s, now)
    ensures |t.backoff| < |s.backoff|
  {
    var rest := s.backoff - {k};
    PutBack(s.backoff, k);
    CompletedStep(l, rest, k, v, now);
    AddOne(s.active, Completed(l, rest, now), k, v);
  }

  lemma FlushNone(l: Limits, s: QState, now: int)
    requires forall k :: k in s.backoff ==> BackingOff(l, s.backoff[k], now)
    ensures FlushBackoff(l, s, now) == s
  {
    assert Completed(l, s.backoff, now) == map[];
  }

  /** One unschedulable pod, put where its backoff says. */
  function MoveOne(l: Limits, s: QState, k: Name, now: int): QState
    requires k in s.unsched
  {
    if BackingOff(l, s.unsched[k], now) then s.(backoff := s.backoff[k := s.unsched[k]], unsched := s.unsched - {k})
    else s.(active := s.active[k := s.unsched[k]], unsched := s.unsched - {k})
  }

  lemma ChosenStep(m: map<Name, PodInfo>, keys: set<Name>, k: Name)
    requires k in m && k in keys
    ensures var rest := Chosen(m - {k}, keys - {k});
      && k !in rest && Chosen(m, keys) == rest[k := m[k]] && m - Chosen(m, keys).Keys == (m - {k}) - rest.Keys
  {
  }

  lemma CompletedStep(l: Limits, m: map<Name, PodInfo>, k: Name, v: PodInfo, now: int)
    requires k !in m
    ensures var done := Completed(l, m, now);
      if BackingOff(l, v, now) then
        Completed(l, m[k := v], now) == done && m[k := v] - done.Keys == (m - done.Keys)[k := v]
      else
        Completed(l, m[k := v], now) == done[k := v] && m[k := v] - done[k := v].Keys == m - done.Keys
  {
  }

  lemma AddOne(a: map<Name, PodInfo>, b: map<Name, PodInfo>, k: Name, v: PodInfo)
    requires k !in b
    ensures a[k := v] + b == a + b[k := v]
  {
  }

  lemma MoveStep(l: Limits, s: QState, keys: set<Name>, k: Name, now: int)
    requires k in keys && k in s.unsched
    ensures Move(l, MoveOne(l, s, k, now), keys - {k}, now) == Move(l, s, keys, now)
  {
    var rest, v := Chosen(s.unsched - {k}, keys - {k}), s.unsched[k];
    var done := Completed(l, rest, now);
    ChosenStep(s.unsched, keys, k);
    CompletedStep(l, rest, k, v, now);
    AddOne(s.active, done, k, v);
    AddOne(s.backoff, rest - done.Keys, k, v);
  }

  lemma MoveNone(l: Limits, s: QState, now: int)
    ensures Move(l, s, {}, now) == s.(moved := s.cycle)
  {
    assert Chosen(s.unsched, {}) == map[];
    assert Completed(l, map[], now) == map[];
  }

  // ---------- No lost wake-up ----------

  /** The events that record a move request. */
  predicate Moves(s: QState, e: Event) {
    e.MoveAll? || e.MoveSome? || (e.LeftoverTick? && Leftover(s, e.now) != {})
  }

  /** Some event of the run is a move request. */
  ghost predicate MovesDuring(l: Limits, s: QState, es: seq<Event>)
    requires PossibleRun(l, s, es)
    decreases |es|
  {
    es != [] && (Moves(s, es[0]) || MovesDuring(l, Step(l, s, es[0]), es[1..]))
  }

  /** For a cycle number of the past, the recorded move is that recent exactly when it was so
      already, or a move request ran since. */
  lemma {:induction false} MovedSince(l: Limits, s: QState, es: seq<Event>, c: int)
    requires Counters(s) && PossibleRun(l, s, es) && c <= s.cycle
    ensures Run(l, s, es).moved >= c <==> s.moved >= c || MovesDuring(l, s, es)
    decreases |es|
  {
    if es != [] {
      var t := Step(l, s, es[0]);
      StepKeepsCounters(l, s, es[0]);
      MovedSince(l, t, es[1..], c);
      RunKeepsCounters(l, t, es[1..]);
      assert !Moves(s, es[0]) ==> t.moved == s.moved;
      assert Moves(s, es[0]) ==> t.moved == s.cycle;
    }
  }

  /** If a pop started cycle c for a pod, then its failure, reported with c, sends it to the
      backoff queue if and only if a move request ran after that pop. */
  lemma NoLostWakeUp(l: Limits, s: QState, k: Name, es: seq<Event>, info: PodInfo, now: int)
    requires Counters(s) && k in s.active
    requires var (t, _) := PopKey(s, k);
      PossibleRun(l, t, es) && AddUnschedulable(Run(l, t, es), info, t.cycle, now).1 == Ok
    ensures var (t, _) := PopKey(s, k);
      var u := AddUnschedulable(Run(l, t, es), info, t.cycle, now).0;
      && (info.pod.id in u.backoff <==> MovesDuring(l, t, es))
      && (info.pod.id in u.unsched <==> !MovesDuring(l, t, es))
  {
    var (t, _) := PopKey(s, k);
    StepKeepsCounters(l, s, PopPod(k));
    MovedSince(l, t, es, t.cycle);
  }

  /** The scheduler does not remember c but reads the cycle when it reports the failure
      (scheduler/factory.go:444). Then a move request is lost exactly when it ran after the
      pop but another pop followed it before the report. */
  lemma LateReadingLosesEarlierMoves(
    l: Limits, s: QState, k: Name, es: seq<Event>, j: Name, fs: seq<Event>, info: PodInfo, now: int)
    requires Counters(s) && k in s.active
    requires var t := PopKey(s, k).0;
      PossibleRun(l, t, es) && j in Run(l, t, es).active && PossibleRun(l, PopKey(Run(l, t, es), j).0, fs)
    requires forall i :: 0 <= i < |fs| ==> !fs[i].PopPod?
    requires var v := PopKey(Run(l, PopKey(s, k).0, es), j).0;
      AddUnschedulable(Run(l, v, fs), info, Run(l, v, fs).cycle, now).1 == Ok
    ensures var v := PopKey(Run(l, PopKey(s, k).0, es), j).0;
      (info.pod.id in AddUnschedulable(Run(l, v, fs), info, Run(l, v, fs).cycle, now).0.backoff <==>
        MovesDuring(l, v, fs))
  {
    var t := PopKey(s, k).0;
    StepKeepsCounters(l, s, PopPod(k));
    RunKeepsCounters(l, t, es);
    var u := Run(l, t, es);
    StepKeepsCounters(l, u, PopPod(j));
    var v := PopKey(u, j).0;
    CycleStays(l, v, fs);
    MovedSince(l, v, fs, v.cycle);
  }

  /** Such a loss, from an empty queue: two pods arrive, the first is popped, a move request
      runs, the second is popped, and the first fails. With the cycle of its own pop it would
      back off; with the current one it waits among the unschedulable pods. */
  lemma MoveCanBeLost(l: Limits, p: QPod, q: QPod, now: int)
    requires p.id != q.id
    ensures var es := [AddPod(p, now), AddPod(q, now), PopPod(p.id), MoveAll(now), PopPod(q.id)];
      && PossibleRun(l, EmptyQueue, es)
      && var s, info := Run(l, EmptyQueue, es), NewInfo(p, now).(attempts := 1);
      && s.cycle == 2
      && p.id in AddUnschedulable(s, info, 1, now).0.backoff
      && p.id in AddUnschedulable(s, info, s.cycle, now).0.unsched
  {
    var a, b, c, d, e := AddPod(p, now), AddPod(q, now), PopPod(p.id), MoveAll(now), PopPod(q.id);
    var r := Add(EmptyQueue, p, now);
    var s := Add(r, q, now);
    var popped := PopKey(s, p.id).0;
    assert popped.unsched == map[];
    MoveNone(l, popped, now);
    RunNext(l, Move(l, popped, popped.unsched.Keys, now), e, [], [e]);
    RunNext(l, popped, d, [e], [d, e]);
    RunNext(l, s, c, [d, e], [c, d, e]);
    RunNext(l, r, b, [c, d, e], [b, c, d, e]);
    RunNext(l, EmptyQueue, a, [b, c, d, e], [a, b, c, d, e]);
  }

  lemma {:induction false} CycleStays(l: Limits, s: QState, es: seq<Event>)
    requires PossibleRun(l, s, es) && forall i :: 0 <= i < |es| ==> !es[i].PopPod?
    ensures Run(l, s, es).cycle == s.cycle
    decreases |es|
  {
    if es != [] {
      CycleStays(l, Step(l, s, es[0]), es[1..]);
    }
  }
}
