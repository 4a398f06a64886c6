/** The parallel search for feasible nodes of scheduler/core/generic_scheduler.go: workers
    that share an atomic counter, a slice of slots and a cancellable context, in every
    interleaving of their steps. */
module FeasibleNodes {
  import opened Wrappers
  import opened Arithmetic

  // ---------- How many nodes to find ----------

  const MIN_NODES: int := 100
  const MIN_PERCENTAGE: int := 5
  const INT32_MAX: int := 0x7fff_ffff

  /** The value of an int32 after wrap-around. */
  function Wrap(x: int): int {
    (x + INT32_MAX + 1) % 0x1_0000_0000 - INT32_MAX - 1
  }

  /** Division that truncates toward zero. */
  function Quotient(x: int, y: int): int
    requires y > 0
  {
    if x >= 0 then x / y else -(-x / y)
  }

  /** The percentage of nodes to find: the one set, or else 50, less one for every 125 nodes,
      but at least 5. */
  function Percentage(numAllNodes: int, percentageOfNodesToScore: int): int {
    if percentageOfNodesToScore > 0 then percentageOfNodesToScore else Max(50 - numAllNodes / 125, MIN_PERCENTAGE)
  }

  method NumFeasibleNodesToFind(numAllNodes: int, percentageOfNodesToScore: int) returns (numNodes: int)
    requires 0 <= numAllNodes <= INT32_MAX && -INT32_MAX - 1 <= percentageOfNodesToScore <= INT32_MAX
    ensures Min(numAllNodes, MIN_NODES) <= numNodes <= numAllNodes
    ensures percentageOfNodesToScore >= 100 ==> numNodes == numAllNodes
    ensures var percentage := Percentage(numAllNodes, percentageOfNodesToScore);
      MIN_NODES <= numAllNodes && percentage < 100 && numAllNodes * percentage <= INT32_MAX ==>
        numNodes == Max(MIN_NODES, numAllNodes * percentage / 100)
  {
    if numAllNodes < MIN_NODES || percentageOfNodesToScore >= 100 {
      return numAllNodes;
    }
    var adaptivePercentage := percentageOfNodesToScore;
    if adaptivePercentage <= 0 {
      adaptivePercentage := 50 - numAllNodes / 125;
      if adaptivePercentage < MIN_PERCENTAGE {
        adaptivePercentage := MIN_PERCENTAGE;
      }
    }
    PercentageIsBounded(numAllNodes, adaptivePercentage);
    numNodes := Quotient(Wrap(numAllNodes * adaptivePercentage), 100);
    if numNodes < MIN_NODES {
      return MIN_NODES;
    }
  }

  /** Even when the product wraps around, the quotient does not exceed the number of nodes. */
  lemma PercentageIsBounded(n: int, p: int)
    requires 0 <= n <= INT32_MAX && 0 < p < 100
    ensures Quotient(Wrap(n * p), 100) <= n
    ensures n * p <= INT32_MAX ==> Wrap(n * p) == n * p
  {
    assert 0 <= n * p <= n * 99;
    if n * p > INT32_MAX {
      assert Wrap(n * p) <= INT32_MAX && Quotient(INT32_MAX, 100) <= n;
    }
  }

  // ---------- The parallel search ----------

  /** What the filters say about the node of an item. */
  datatype Verdict = Fit | Unfit | Error

  /** Where the work on one item has got to: about to tell of an error, having found a fit,
      holding a slot that is still to be written, beyond the limit and about to cancel, about
      to take back its increment. */
  datatype PC = Idle | Checking | Failing | Fitting | Writing(slot: nat) | Beyond | Undoing | Done

  /** `taken` records, for the proof, which item was given each slot. */
  datatype Search = Search(
    pcs: seq<PC>, counter: int, slots: seq<Option<nat>>, statuses: set<nat>,
    error: bool, cancelled: bool, parentCancelled: bool, taken: seq<nat>)

  /** The items' verdicts, and how many nodes to find. */
  datatype Problem = Problem(verdicts: seq<Verdict>, limit: nat)

  datatype Step =
    | Start(item: nat)
    | Check(item: nat)
    | CheckInterrupted(item: nat)
    | Report(item: nat)
    | Claim(item: nat)
    | Fill(item: nat)
    | Cancel(item: nat)
    | Undo(item: nat)
    | ParentCancel

  ghost function Initial(p: Problem): Search {
    Search(seq(|p.verdicts|, i => Idle), 0, seq(p.limit, i => None), {}, false, false, false, [])
  }

  predicate At(s: Search, item: nat, pc: PC) {
    item < |s.pcs| && s.pcs[item] == pc
  }

  /** Which atomic steps can be taken. A worker looks at the context before each item; a
      filter may fail because the context was cancelled. */
  predicate Enabled(p: Problem, s: Search, step: Step) {
    match step
    case Start(i) => At(s, i, Idle) && !s.cancelled
    case Check(i) => At(s, i, Checking)
    case CheckInterrupted(i) => At(s, i, Checking) && s.cancelled
    case Report(i) => At(s, i, Failing)
    case Claim(i) => At(s, i, Fitting)
    case Fill(i) => i < |s.pcs| && s.pcs[i].Writing?
    case Cancel(i) => At(s, i, Beyond)
    case Undo(i) => At(s, i, Undoing)
    case ParentCancel => true
  }

  function Goto(s: Search, i: nat, pc: PC): Search
    requires i < |s.pcs|
  {
    s.(pcs := s.pcs[i := pc])
  }

  /** As many items as verdicts, and as many slots as nodes to find. */
  predicate Sized(p: Problem, s: Search) {
    |s.pcs| == |p.verdicts| && |s.slots| == p.limit
  }

  /** One atomic step. The index of `Fill` is always in range (`SlotsInv`). */
  function Next(p: Problem, s: Search, step: Step): Search
    requires Sized(p, s) && Enabled(p, s, step)
  {
    match step
    case Start(i) => Goto(s, i, Checking)
    case Check(i) =>
      (match p.verdicts[i]
       case Fit => Goto(s, i, Fitting)
       case Unfit => Goto(s, i, Done).(statuses := s.statuses + {i})
       case Error => Goto(s, i, Failing).(error := true))
    case CheckInterrupted(i) => Goto(s, i, Failing).(error := true)
    case Report(i) => Goto(s, i, Done).(cancelled := true)
    case Claim(i) =>
      var length := s.counter + 1;
      if length > p.limit then Goto(s, i, Beyond).(counter := length)
      else Goto(s, i, Writing(if length > 0 then length - 1 else 0)).(counter := length, taken := s.taken + [i])
    case Fill(i) =>
      Goto(s, i, Done).(slots := if s.pcs[i].slot < |s.slots| then s.slots[s.pcs[i].slot := Some(i)] else s.slots)
    case Cancel(i) => Goto(s, i, Undoing).(cancelled := true)
    case Undo(i) => Goto(s, i, Done).(counter := s.counter - 1)
    case ParentCancel => s.(cancelled := true, parentCancelled := true)
  }

  // ---------- What every interleaving keeps ----------

  ghost function Items(taken: seq<nat>): set<nat> {
    set k | 0 <= k < |taken| :: taken[k]
  }

  /** The items that have incremented the counter beyond the limit and not yet undone it. */
  ghost function Overshoot(pcs: seq<PC>): set<nat> {
    set i | 0 <= i < |pcs| && (pcs[i] == Beyond || pcs[i] == Undoing)
  }

  /** Each slot given out belongs to one fitting item, which is about to write it or has
      written it; the other slots are empty. */
  ghost predicate SlotsInv(p: Problem, s: Search) {
    && Sized(p, s) && |s.taken| <= p.limit
    && (forall k :: 0 <= k < |s.taken| ==> s.taken[k] < |s.pcs| && p.verdicts[s.taken[k]] == Fit)
    && (forall k :: 0 <= k < |s.taken| ==>
          (s.pcs[s.taken[k]] == Writing(k) && s.slots[k] == None)
            || (s.pcs[s.taken[k]] == Done && s.slots[k] == Some(s.taken[k])))
    && (forall j, k :: 0 <= j < k < |s.taken| ==> s.taken[j] != s.taken[k])
    && (forall k :: |s.taken| <= k < |s.slots| ==> s.slots[k] == None)
    && (forall i :: 0 <= i < |s.pcs| && s.pcs[i].Writing? ==>
          s.pcs[i].slot < |s.taken| && s.taken[s.pcs[i].slot] == i)
  }

  /** The counter is the number of slots given out plus the overshoot, and there is overshoot
      only when all slots are given out. */
  ghost predicate CounterInv(p: Problem, s: Search) {
    && s.counter == |s.taken| + |Overshoot(s.pcs)|
    && (Overshoot(s.pcs) != {} ==> |s.taken| == p.limit)
  }

  /** What is known of an item that is done. */
  ghost predicate Settled(p: Problem, taken: set<nat>, full: bool, statuses: set<nat>, i: nat)
    requires i < |p.verdicts|
  {
    (p.verdicts[i] == Unfit && i in statuses) || (p.verdicts[i] == Fit && (i in taken || full))
  }

  ghost predicate ItemsInv(p: Problem, s: Search) {
    && |s.pcs| == |p.verdicts|
    && (forall i :: 0 <= i < |s.pcs| ==>
          && (s.pcs[i] == Failing ==> s.error)
          && (s.pcs[i] == Fitting || s.pcs[i] == Beyond || s.pcs[i] == Undoing ==> p.verdicts[i] == Fit)
          && (s.pcs[i] == Done ==> s.error || Settled(p, Items(s.taken), |s.taken| == p.limit, s.statuses, i)))
    && (forall i :: i in s.statuses ==> i < |s.pcs| && p.verdicts[i] == Unfit && s.pcs[i] == Done)
    && (s.cancelled ==> s.parentCancelled || s.error || |s.taken| == p.limit)
  }

  ghost predicate Inv(p: Problem, s: Search) {
    SlotsInv(p, s) && CounterInv(p, s) && ItemsInv(p, s)
  }

  lemma OvershootAfter(pcs: seq<PC>, i: nat, pc: PC)
    requires i < |pcs|
    ensures Overshoot(pcs[i := pc])
         == if pc == Beyond || pc == Undoing then Overshoot(pcs) + {i} else Overshoot(pcs) - {i}
  {
  }

  lemma ItemsAfter(taken: seq<nat>, i: nat)
    ensures Items(taken + [i]) == Items(taken) + {i}
  {
    assert (taken + [i])[|taken|] == i;
    assert forall k :: 0 <= k < |taken| ==> (taken + [i])[k] == taken[k];
  }

  lemma SlotGivenOut(p: Problem, s: Search, i: nat, t: Search)
    requires SlotsInv(p, s) && At(s, i, Fitting) && p.verdicts[i] == Fit && |s.taken| < p.limit
    requires t.pcs == s.pcs[i := Writing(|s.taken|)] && t.taken == s.taken + [i] && t.slots == s.slots
    ensures SlotsInv(p, t) == true
  {
    assert forall k :: 0 <= k < |s.taken| ==> t.taken[k] == s.taken[k] && s.taken[k] != i;
  }

  /** An increment within the limit gives out the next slot. */
  lemma ClaimSlot(p: Problem, s: Search, i: nat)
    requires Inv(p, s) && At(s, i, Fitting) && s.counter + 1 <= p.limit
    ensures s.counter == |s.taken| && Inv(p, Next(p, s, Claim(i)))
  {
    hide Overshoot, Items, Settled;
    if Overshoot(s.pcs) != {} { NonEmpty(Overshoot(s.pcs)); }
    OvershootAfter(s.pcs, i, Writing(|s.taken|));
    assert Overshoot(s.pcs) - {i} == {};
    SlotGivenOut(p, s, i, Next(p, s, Claim(i)));
    ItemGivenSlot(p, s, i, Next(p, s, Claim(i)));
  }

  lemma ItemGivenSlot(p: Problem, s: Search, i: nat, t: Search)
    requires ItemsInv(p, s) && At(s, i, Fitting) && |s.taken| < p.limit
    requires t == s.(pcs := s.pcs[i := Writing(|s.taken|)], taken := s.taken + [i], counter := s.counter + 1)
    ensures ItemsInv(p, t) == true
  {
    ItemsAfter(s.taken, i);
  }

  /** An increment within the limit gives out the next slot; one beyond it finds all slots
      given out. */
  lemma ClaimKeeps(p: Problem, s: Search, i: nat)
    requires Inv(p, s) && At(s, i, Fitting)
    ensures Inv(p, Next(p, s, Claim(i)))
  {
    if s.counter + 1 <= p.limit {
      ClaimSlot(p, s, i);
    } else {
      OvershootAfter(s.pcs, i, Beyond);
      assert i !in Overshoot(s.pcs);
    }
  }

  lemma NonEmpty(x: set<nat>)
    requires x != {}
    ensures |x| > 0
  {
  }

  lemma FillKeeps(p: Problem, s: Search, i: nat)
    requires Inv(p, s) && i < |s.pcs| && s.pcs[i].Writing?
    ensures Inv(p, Next(p, s, Fill(i)))
  {
    hide Settled, Items;
    SlotFilled(p, s, i);
    ItemFilled(p, s, i);
    OvershootAfter(s.pcs, i, Done);
    assert Overshoot(s.pcs) - {i} == Overshoot(s.pcs);
  }

  lemma SlotFilled(p: Problem, s: Search, i: nat)
    requires SlotsInv(p, s) && i < |s.pcs| && s.pcs[i].Writing?
    ensures SlotsInv(p, Next(p, s, Fill(i))) == true
  {
    assert s.taken[s.pcs[i].slot] == i;
  }

  lemma ItemFilled(p: Problem, s: Search, i: nat)
    requires SlotsInv(p, s) && ItemsInv(p, s) && i < |s.pcs| && s.pcs[i].Writing?
    ensures ItemsInv(p, Next(p, s, Fill(i))) == true
  {
    assert s.taken[s.pcs[i].slot] == i;
  }

  /** A step of an item without a slot that changes neither slots nor statuses. */
  lemma MoveKeeps(p: Problem, s: Search, i: nat, pc: PC)
    requires Inv(p, s) && i < |s.pcs|
    requires s.pcs[i] in {Idle, Checking, Failing} && pc in {Checking, Failing, Fitting, Done}
    requires pc == Failing || pc == Done ==> s.error
    requires pc == Fitting ==> p.verdicts[i] == Fit
    ensures Inv(p, Goto(s, i, pc))
  {
    OvershootAfter(s.pcs, i, pc);
    assert Overshoot(s.pcs) - {i} == Overshoot(s.pcs);
  }

  lemma CancelKeeps(p: Problem, s: Search, i: nat)
    requires Inv(p, s) && i < |s.pcs| && s.pcs[i] == Beyond
    ensures Inv(p, Next(p, s, Cancel(i)))
  {
    OvershootAfter(s.pcs, i, Undoing);
    assert i in Overshoot(s.pcs);
    assert Overshoot(s.pcs) + {i} == Overshoot(s.pcs);
  }

  lemma UndoKeeps(p: Problem, s: Search, i: nat)
    requires Inv(p, s) && i < |s.pcs| && s.pcs[i] == Undoing
    ensures Inv(p, Next(p, s, Undo(i)))
  {
    OvershootAfter(s.pcs, i, Done);
    assert i in Overshoot(s.pcs);
  }

  lemma StepKeeps(p: Problem, s: Search, step: Step)
    requires Inv(p, s) && Enabled(p, s, step)
    ensures Inv(p, Next(p, s, step))
  {
    match step
    case Start(i) => MoveKeeps(p, s, i, Checking);
    case Check(i) => CheckKeeps(p, s, i);
    case CheckInterrupted(i) => MoveKeeps(p, s.(error := true), i, Failing);
    case Report(i) => MoveKeeps(p, s.(cancelled := true), i, Done);
    case Claim(i) => ClaimKeeps(p, s, i);
    case Fill(i) => FillKeeps(p, s, i);
    case Cancel(i) => CancelKeeps(p, s, i);
    case Undo(i) => UndoKeeps(p, s, i);
    case ParentCancel =>
  }

  lemma UnfitSettles(p: Problem, s: Search, i: nat)
    requires Sized(p, s) && ItemsInv(p, s) && At(s, i, Checking) && p.verdicts[i] == Unfit
    ensures ItemsInv(p, Goto(s, i, Done).(statuses := s.statuses + {i}))
  {
  }

  lemma UnfitKeeps(p: Problem, s: Search, i: nat)
    requires Inv(p, s) && At(s, i, Checking) && p.verdicts[i] == Unfit
    ensures Inv(p, Goto(s, i, Done).(statuses := s.statuses + {i}))
  {
    OvershootAfter(s.pcs, i, Done);
    assert Overshoot(s.pcs) - {i} == Overshoot(s.pcs);
    UnfitSettles(p, s, i);
  }

  lemma CheckKeeps(p: Problem, s: Search, i: nat)
    requires Inv(p, s) && At(s, i, Checking)
    ensures Inv(p, Next(p, s, Check(i)))
  {
    match p.verdicts[i]
    case Fit => MoveKeeps(p, s, i, Fitting);
    case Unfit => UnfitKeeps(p, s, i);
    case Error => MoveKeeps(p, s.(error := true), i, Failing);
  }

  lemma InitialInv(p: Problem)
    ensures Inv(p, Initial(p))
  {
    assert Overshoot(Initial(p).pcs) == {};
  }

  // ---------- Whole searches ----------

  ghost predicate Runs(p: Problem, s: Search, steps: seq<Step>, t: Search)
    decreases |steps|
  {
    if steps == [] then s == t
    else Sized(p, s) && Enabled(p, s, steps[0]) && Runs(p, Next(p, s, steps[0]), steps[1..], t)
  }

  lemma {:induction false} RunKeeps(p: Problem, s: Search, steps: seq<Step>, t: Search)
    requires Inv(p, s) && Runs(p, s, steps, t)
    ensures Inv(p, t)
    decreases |steps|
  {
    if steps != [] {
      StepKeeps(p, s, steps[0]);
      RunKeeps(p, Next(p, s, steps[0]), steps[1..], t);
    }
  }

  /** All workers have returned: no item is under way, and one is untouched only if the
      context was cancelled. */
  ghost predicate Finished(s: Search) {
    forall i :: 0 <= i < |s.pcs| ==> s.pcs[i] == Done || (s.pcs[i] == Idle && s.cancelled)
  }

  /** The nodes in the first `counter` slots. */
  ghost function Found(s: Search): set<nat> {
    set k | 0 <= k < s.counter && k < |s.slots| && s.slots[k].Some? :: s.slots[k].value
  }

  ghost function ItemsWith(verdicts: seq<Verdict>, v: Verdict): set<nat> {
    set i | 0 <= i < |verdicts| && verdicts[i] == v
  }

  /** In every interleaving, when all workers have returned, the first `counter` slots are
      filled with distinct fitting nodes and there are at most `limit` of them. */
  lemma SearchFindsFittingNodes(p: Problem, steps: seq<Step>, t: Search)
    requires Runs(p, Initial(p), steps, t) && Finished(t)
    ensures 0 <= t.counter <= p.limit && |t.slots| == p.limit
    ensures forall k :: 0 <= k < t.counter ==> t.slots[k].Some? && t.slots[k].value in ItemsWith(p.verdicts, Fit)
    ensures forall j, k :: 0 <= j < k < t.counter ==> t.slots[j] != t.slots[k]
  {
    InitialInv(p);
    RunKeeps(p, Initial(p), steps, t);
    assert Overshoot(t.pcs) == {};
    forall k | 0 <= k < t.counter
      ensures t.slots[k] == Some(t.taken[k]) && t.taken[k] < |p.verdicts| && p.verdicts[t.taken[k]] == Fit
    {
    }
  }

  /** If besides no filter failed, the parent context was not cancelled and fewer nodes than
      the limit were found, every node was checked, exactly the fitting ones were found, and
      the next search starts where this one did. */
  lemma ShortSearchIsComplete(p: Problem, steps: seq<Step>, t: Search)
    requires Runs(p, Initial(p), steps, t) && Finished(t)
    requires !t.error && !t.parentCancelled && t.counter < p.limit
    ensures forall i :: 0 <= i < |t.pcs| ==> t.pcs[i] == Done
    ensures Found(t) == ItemsWith(p.verdicts, Fit) && t.statuses == ItemsWith(p.verdicts, Unfit)
    ensures t.counter + |t.statuses| == |p.verdicts|
  {
    InitialInv(p);
    RunKeeps(p, Initial(p), steps, t);
    assert Overshoot(t.pcs) == {};
    AllSettled(p, t);
    forall k | 0 <= k < t.counter ensures t.slots[k] == Some(t.taken[k]) {
    }
    forall i ensures i in Items(t.taken) <==> i in Found(t) {
      if i in Items(t.taken) {
        var k :| 0 <= k < |t.taken| && t.taken[k] == i;
        assert t.slots[k] == Some(i);
      }
    }
    DistinctItems(t.taken);
    VerdictCount(p.verdicts);
  }

  lemma AllSettled(p: Problem, t: Search)
    requires Inv(p, t) && Finished(t) && !t.error && !t.parentCancelled && |t.taken| < p.limit
    ensures forall i :: 0 <= i < |t.pcs| ==> t.pcs[i] == Done
    ensures Items(t.taken) == ItemsWith(p.verdicts, Fit) && t.statuses == ItemsWith(p.verdicts, Unfit)
    ensures ItemsWith(p.verdicts, Error) == {}
  {
    assert !t.cancelled;
    assert forall i :: 0 <= i < |t.pcs| ==> t.pcs[i] == Done;
    forall i | i in Items(t.taken) ensures i in ItemsWith(p.verdicts, Fit) {
      var k :| 0 <= k < |t.taken| && t.taken[k] == i;
    }
  }

  lemma {:induction false} VerdictCount(verdicts: seq<Verdict>)
    ensures |ItemsWith(verdicts, Fit)| + |ItemsWith(verdicts, Unfit)| + |ItemsWith(verdicts, Error)| == |verdicts|
  {
    if verdicts != [] {
      var n := |verdicts| - 1;
      VerdictCount(verdicts[..n]);
      LastVerdict(verdicts, Fit);
      LastVerdict(verdicts, Unfit);
      LastVerdict(verdicts, Error);
    }
  }

  lemma LastVerdict(verdicts: seq<Verdict>, v: Verdict)
    requires verdicts != []
    ensures var n := |verdicts| - 1;
      |ItemsWith(verdicts, v)| == |ItemsWith(verdicts[..n], v)| + if verdicts[n] == v then 1 else 0
  {
    var n := |verdicts| - 1;
    assert ItemsWith(verdicts, v) == ItemsWith(verdicts[..n], v) + if verdicts[n] == v then {n} else {};
  }

  lemma {:induction false} DistinctItems(taken: seq<nat>)
    requires forall j, k :: 0 <= j < k < |taken| ==> taken[j] != taken[k]
    ensures |Items(taken)| == |taken|
  {
    if taken != [] {
      var n := |taken| - 1;
      DistinctItems(taken[..n]);
      ItemsAfter(taken[..n], taken[n]);
      assert taken[..n] + [taken[n]] == taken;
    }
  }

  // ---------- Which node an item is, and the search without filters ----------

  /** The node of item i in a search that starts at `start`. */
  function NodeOf(start: nat, n: nat, i: nat): nat
    requires n > 0
  {
    (start + i) % n
  }

  /** The items of one search are the nodes, each once. */
  lemma ItemsAreNodes(start: nat, n: nat, i: nat, j: nat)
    requires n > 0 && i <= j < n
    ensures NodeOf(start, n, i) < n && (NodeOf(start, n, i) == NodeOf(start, n, j) <==> i == j)
  {
    if NodeOf(start, n, i) == NodeOf(start, n, j) { SameRemainder(start + i, start + j, n); }
  }

  /** A search goes through the nodes from the start on, and after the last one from the first. */
  lemma ItemsFollowStart(start: nat, n: nat, i: nat)
    requires start < n
    ensures NodeOf(start, n, 0) == start
    ensures NodeOf(start, n, i + 1) == if NodeOf(start, n, i) == n - 1 then 0 else NodeOf(start, n, i) + 1
  {
    OneFurther(start + i, n);
  }

  lemma OneFurther(a: nat, n: nat)
    requires n > 0
    ensures (a + 1) % n == if a % n == n - 1 then 0 else a % n + 1
  {
    var q, r := a / n, a % n;
    assert a == n * q + r;
    if r == n - 1 {
      NextMultiple(n, q);
      MultipleMod(n, q + 1);
    } else {
      RemainderIs(n, q, r + 1);
    }
  }

  lemma RemainderIs(n: nat, q: nat, r: nat)
    requires r < n
    ensures (n * q + r) % n == r
  {
    var a := n * q + r;
    var p := a / n;
    assert a == n * p + a % n;
    Spread(n, q, p);
    if q > p { AtLeast(n, q - p); }
    if q < p { AtLeast(n, p - q); Spread(n, p, q); }
  }

  /** A search that starts where one over `done` items ended goes on with the items after these. */
  lemma {:induction false} NextSearchFollows(start: nat, n: nat, done: nat, i: nat)
    requires n > 0
    ensures NodeOf(NodeOf(start, n, done), n, i) == NodeOf(start, n, done + i)
  {
    if i == 0 {
      RemainderIs(n, 0, NodeOf(start, n, done));
    } else {
      NextSearchFollows(start, n, done, i - 1);
      OneFurther(NodeOf(start, n, done) + i - 1, n);
      OneFurther(start + done + i - 1, n);
    }
  }

  lemma SameRemainder(a: nat, b: nat, n: nat)
    requires n > 0 && a <= b < a + n && a % n == b % n
    ensures a == b
  {
    QuotientsAgree(a / n, b / n, a, b, n, a % n);
  }

  lemma QuotientsAgree(q: nat, r: nat, a: nat, b: nat, n: nat, rest: nat)
    requires n > 0 && a <= b < a + n && a == n * q + rest && b == n * r + rest
    ensures a == b
  {
    Spread(n, r, q);
    if r > q { AtLeast(n, r - q); }
  }

  /** Without filter plugins the first nodes from `start` on are taken, and the next search
      starts after them. A search over no nodes is refused before this point. */
  method TakeNodes(start: nat, n: nat, limit: nat) returns (nodes: seq<nat>, next: nat)
    requires n > 0 && limit <= n
    ensures |nodes| == limit && next < n
    ensures forall i :: 0 <= i < limit ==> nodes[i] == NodeOf(start, n, i)
    ensures forall i, j :: 0 <= i < j < limit ==> nodes[i] != nodes[j]
    ensures next == NodeOf(start, n, limit)
  {
    nodes := [];
    while |nodes| < limit
      invariant |nodes| <= limit
      invariant forall i :: 0 <= i < |nodes| ==> nodes[i] == NodeOf(start, n, i)
    {
      nodes := nodes + [(start + |nodes|) % n];
    }
    next := (start + |nodes|) % n;
    forall i, j | 0 <= i < j < limit ensures nodes[i] != nodes[j] {
      ItemsAreNodes(start, n, i, j);
    }
  }
}
