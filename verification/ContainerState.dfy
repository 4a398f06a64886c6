/** The memory peaks of recommender/model/container.go: one peak for each aggregation interval
    of a container, kept in its aggregator by adding and subtracting samples. */
module ContainerState {
  import opened Wrappers
  import opened Arithmetic
  import opened Estimators

  const OOM_MIN_BUMP_UP: int := 100 * 1024 * 1024
  const OOM_BUMP_UP_RATIO: real := 1.2

  /** The zero time, time.Time{}. */
  const ZERO: int := 0

  datatype UsageSample = UsageSample(measureStart: int, usage: int, resource: ResourceName)

  /** The fields of a container that concern its memory. */
  datatype Peaks = Peaks(lastStart: int, windowEnd: int, memoryPeak: int, oomPeak: int)

  const NoPeaks: Peaks := Peaks(ZERO, ZERO, 0, 0)

  /** A memory sample in the aggregator: the end of its window, and the usage. */
  datatype Peak = Peak(windowEnd: int, usage: int)
  datatype Op = Add(peak: Peak) | Subtract(peak: Peak)

  function MaxPeak(s: Peaks): int {
    Max(s.memoryPeak, s.oomPeak)
  }

  /** truncate: rounding toward zero to a multiple of m. */
  function Truncated(d: int, m: int): int {
    if m <= 0 then d else if d >= 0 then d - d % m else d + (-d) % m
  }

  /** addMemorySample for an aggregation interval: the new fields, whether the sample was
      accepted, and what the aggregator is told. */
  function AddMemory(interval: int, s: Peaks, ts: int, usage: int, isOOM: bool): (Peaks, bool, seq<Op>) {
    if usage < 0 || (!isOOM && ts < s.lastStart) then (s, false, [])
    else
      var end := if s.windowEnd == ZERO then ts else s.windowEnd;
      if ts < end then
        var peak := MaxPeak(s);
        if peak != 0 && usage > peak then
          (WithPeak(Peaks(ts, end, s.memoryPeak, s.oomPeak), usage, isOOM), true,
           [Subtract(Peak(end, peak)), Add(Peak(end, usage))])
        else (Peaks(ts, end, s.memoryPeak, s.oomPeak), true, [])
      else
        var next := end + Truncated(ts - end, interval) + interval;
        (WithPeak(Peaks(ts, next, 0, 0), usage, isOOM), true, [Add(Peak(next, usage))])
  }

  function WithPeak(s: Peaks, usage: int, isOOM: bool): Peaks {
    if isOOM then s.(oomPeak := usage) else s.(memoryPeak := usage)
  }

  /** What an out-of-memory event counts as. */
  function MemoryNeeded(s: Peaks, requested: int): int {
    var used := Max(requested, s.memoryPeak);
    Max(used + OOM_MIN_BUMP_UP, ScaleResource(used, OOM_BUMP_UP_RATIO))
  }

  function Oom(interval: int, s: Peaks, ts: int, requested: int): (Peaks, bool, seq<Op>) {
    if ts < s.windowEnd - interval then (s, false, [])
    else AddMemory(interval, s, ts, MemoryNeeded(s, requested), true)
  }

  // ---------- Runs ----------

  datatype Event = Usage(ts: int, usage: int) | OutOfMemory(ts: int, requested: int)

  function Step(interval: int, s: Peaks, e: Event): (Peaks, bool, seq<Op>) {
    match e
    case Usage(ts, usage) => AddMemory(interval, s, ts, usage, false)
    case OutOfMemory(ts, requested) => Oom(interval, s, ts, requested)
  }

  /** The usage that an event stands for. */
  function UsageOf(s: Peaks, e: Event): int {
    match e
    case Usage(_, usage) => usage
    case OutOfMemory(_, requested) => MemoryNeeded(s, requested)
  }

  /** What a run of events leaves: the fields, the samples left in the aggregator, whether
      every subtracted sample was there, the usages accepted in each window, and the time of
      the first sample accepted. */
  datatype Trace = Trace(peaks: Peaks, net: multiset<Peak>, matched: bool, windows: map<int, seq<int>>, first: int)

  const Start: Trace := Trace(NoPeaks, multiset{}, true, map[], ZERO)

  function Applied(t: Trace, ops: seq<Op>): Trace {
    if ops == [] then t
    else
      var u := Applied(t, ops[..|ops| - 1]);
      match ops[|ops| - 1]
      case Add(p) => u.(net := u.net + multiset{p})
      case Subtract(p) => u.(net := u.net - multiset{p}, matched := u.matched && p in u.net)
  }

  function UsagesIn(t: Trace, end: int): seq<int> {
    if end in t.windows then t.windows[end] else []
  }

  function Next(interval: int, t: Trace, e: Event): Trace {
    var (s, accepted, ops) := Step(interval, t.peaks, e);
    var u := Applied(t, ops).(peaks := s);
    if !accepted then u
    else u.(windows := t.windows[s.windowEnd := UsagesIn(t, s.windowEnd) + [UsageOf(t.peaks, e)]],
            first := if t.windows == map[] then s.lastStart else t.first)
  }

  ghost function Run(interval: int, es: seq<Event>): Trace {
    if es == [] then Start else Next(interval, Run(interval, es[..|es| - 1]), es[|es| - 1])
  }

  // ---------- One peak for each window ----------

  function MaxOf(us: seq<int>): int {
    if us == [] then 0 else Max(MaxOf(us[..|us| - 1]), us[|us| - 1])
  }

  /** The peak that is left for a window: the maximum of its usages, or zero if the first one
      was zero. */
  function PeakOf(us: seq<int>): int
    requires us != []
  {
    if us[0] == 0 then 0 else MaxOf(us)
  }

  predicate Usages(us: seq<int>) {
    us != [] && forall i :: 0 <= i < |us| ==> us[i] >= 0
  }

  /** Before the first sample nothing is there; then the current window is one of those
      visited, at most one interval long, and later than the others. */
  ghost predicate WindowInv(interval: int, t: Trace) {
    if t.windows == map[] then t.peaks == NoPeaks
    else
      && t.peaks.windowEnd > ZERO && t.peaks.windowEnd in t.windows
      && (forall w :: w in t.windows ==> w <= t.peaks.windowEnd && Usages(t.windows[w]))
      && t.peaks.windowEnd - interval <= t.peaks.lastStart < t.peaks.windowEnd && t.peaks.lastStart > ZERO
      && t.peaks.memoryPeak >= 0 && t.peaks.oomPeak >= 0
      && MaxPeak(t.peaks) == PeakOf(t.windows[t.peaks.windowEnd])
  }

  /** The aggregator holds exactly one sample for each window visited. */
  ghost predicate NetInv(t: Trace) {
    && t.matched
    && (forall w :: w in t.windows ==> t.windows[w] != [])
    && forall p :: t.net[p] == if p.windowEnd in t.windows && t.windows[p.windowEnd] != []
                                  && p.usage == PeakOf(t.windows[p.windowEnd]) then 1 else 0
  }

  /** Window ends lie on a grid of intervals from the first sample on. */
  ghost predicate GridInv(interval: int, t: Trace)
    requires interval > 0
  {
    forall w :: w in t.windows ==> w >= t.first + interval && (w - t.first) % interval == 0
  }

  ghost predicate Inv(interval: int, t: Trace)
    requires interval > 0
  {
    WindowInv(interval, t) && NetInv(t) && GridInv(interval, t)
  }

  predicate Positive(e: Event) {
    e.ts > ZERO && (e.OutOfMemory? ==> e.requested >= 0)
  }

  lemma PeakAfter(us: seq<int>, u: int)
    requires Usages(us) && u >= 0
    ensures PeakOf(us + [u]) == if PeakOf(us) != 0 && u > PeakOf(us) then u else PeakOf(us)
    ensures MaxOf(us + [u]) == Max(MaxOf(us), u)
    ensures Usages(us + [u])
  {
    assert (us + [u])[..|us|] == us;
    MaxIsBound(us);
  }

  lemma {:induction false} MaxIsBound(us: seq<int>)
    requires Usages(us)
    ensures forall i :: 0 <= i < |us| ==> us[i] <= MaxOf(us)
    ensures exists i :: 0 <= i < |us| && us[i] == MaxOf(us)
  {
    var n := |us| - 1;
    if n > 0 {
      MaxIsBound(us[..n]);
      var i :| 0 <= i < n && us[..n][i] == MaxOf(us[..n]);
      assert us[i] == MaxOf(us[..n]) && us[n] == us[n];
    } else {
      assert us[..0] == [] && us[0] >= 0;
    }
  }

  /** A sample of the current window. */
  lemma SameWindow(interval: int, t: Trace, ts: int, usage: int, isOOM: bool)
    requires interval > 0 && Inv(interval, t) && t.windows != map[]
    requires usage >= 0 && ts > ZERO && t.peaks.windowEnd - interval <= ts < t.peaks.windowEnd
    requires isOOM || ts >= t.peaks.lastStart
    ensures var (s, accepted, ops) := AddMemory(interval, t.peaks, ts, usage, isOOM);
      var us := t.windows[t.peaks.windowEnd];
      && accepted && s.windowEnd == t.peaks.windowEnd && s.lastStart == ts
      && s.memoryPeak >= 0 && s.oomPeak >= 0
      && MaxPeak(s) == PeakOf(us + [usage])
      && ops == if PeakOf(us) == PeakOf(us + [usage]) then []
                else [Subtract(Peak(s.windowEnd, PeakOf(us))), Add(Peak(s.windowEnd, PeakOf(us + [usage])))]
  {
    PeakAfter(t.windows[t.peaks.windowEnd], usage);
  }

  lemma {:induction false} TruncatedToGrid(a: int, d: int, m: int)
    requires m > 0 && d >= 0 && a % m == 0
    ensures Truncated(d, m) % m == 0 && 0 <= Truncated(d, m) <= d < Truncated(d, m) + m
    ensures (a + Truncated(d, m) + m) % m == 0
  {
    WithoutRemainder(m, d);
    SumOfMultiples(m, a, Truncated(d, m));
  }

  /** A sample after the current window, or the first one, opens a window. */
  lemma NewWindow(interval: int, t: Trace, ts: int, usage: int, isOOM: bool)
    requires interval > 0 && Inv(interval, t) && usage >= 0 && ts > ZERO
    requires t.windows != map[] ==> ts >= t.peaks.windowEnd && ts >= t.peaks.lastStart
    ensures var (s, accepted, ops) := AddMemory(interval, t.peaks, ts, usage, isOOM);
      && accepted && s.lastStart == ts && s.windowEnd !in t.windows
      && (t.windows != map[] ==> s.windowEnd > t.peaks.windowEnd)
      && s.windowEnd - interval <= ts < s.windowEnd && s.memoryPeak >= 0 && s.oomPeak >= 0
      && MaxPeak(s) == usage && ops == [Add(Peak(s.windowEnd, usage))]
      && var first := if t.windows == map[] then ts else t.first;
         s.windowEnd >= first + interval && (s.windowEnd - first) % interval == 0
  {
    if t.windows == map[] {
      TruncatedToGrid(0, 0, interval);
    } else {
      var end := t.peaks.windowEnd;
      TruncatedToGrid(end - t.first, ts - end, interval);
      var next := end + Truncated(ts - end, interval) + interval;
      assert next - t.first == (end - t.first) + Truncated(ts - end, interval) + interval;
    }
  }

  lemma OneUsage(u: int)
    requires u >= 0
    ensures PeakOf([u]) == u && Usages([u])
  {
    assert [u][..0] == [];
    assert MaxOf([u]) == Max(MaxOf([u][..0]), u);
  }

  /** The aggregator after a window's first sample. */
  lemma NetWithNew(t: Trace, u: Trace, end: int, usage: int)
    requires NetInv(t) && end !in t.windows && usage >= 0 && u.matched == t.matched
    requires u.windows == t.windows[end := [usage]] && u.net == t.net + multiset{Peak(end, usage)}
    ensures NetInv(u)
  {
    OneUsage(usage);
  }

  /** The aggregator after a window's peak was replaced. */
  lemma NetWithReplaced(t: Trace, u: Trace, end: int, us: seq<int>)
    requires NetInv(t) && end in t.windows && us != [] && PeakOf(us) != PeakOf(t.windows[end])
    requires u.windows == t.windows[end := us]
    requires var before := Peak(end, PeakOf(t.windows[end]));
      u.net == t.net - multiset{before} + multiset{Peak(end, PeakOf(us))}
        && (u.matched <==> t.matched && before in t.net)
    ensures NetInv(u)
  {
  }

  lemma NetUnchanged(t: Trace, u: Trace, end: int, us: seq<int>)
    requires NetInv(t) && end in t.windows && us != [] && PeakOf(us) == PeakOf(t.windows[end])
    requires u.windows == t.windows[end := us] && u.net == t.net && u.matched == t.matched
    ensures NetInv(u)
  {
  }

  lemma AppliedOps(t: Trace, a: Op, b: Op)
    ensures Applied(t, []) == t
    ensures Applied(t, [a]) == match a
      case Add(p) => t.(net := t.net + multiset{p})
      case Subtract(p) => t.(net := t.net - multiset{p}, matched := t.matched && p in t.net)
    ensures Applied(t, [a, b]) == Applied(Applied(t, [a]), [b])
  {
    assert [a][..0] == [] && [b][..0] == [] && [a, b][..1] == [a];
  }

  lemma NothingApplied(t: Trace)
    ensures Applied(t, []) == t
  {
  }

  lemma NewWindowKeeps(interval: int, t: Trace, ts: int, usage: int, isOOM: bool, e: Event)
    requires interval > 0 && Inv(interval, t) && usage >= 0 && ts > ZERO
    requires t.windows != map[] ==> ts >= t.peaks.windowEnd && ts >= t.peaks.lastStart
    requires Step(interval, t.peaks, e) == AddMemory(interval, t.peaks, ts, usage, isOOM)
      && UsageOf(t.peaks, e) == usage
    ensures Inv(interval, Next(interval, t, e))
  {
    hide NetInv, PeakOf, MaxOf;
    var s := AddMemory(interval, t.peaks, ts, usage, isOOM).0;
    NewWindow(interval, t, ts, usage, isOOM);
    var u := Next(interval, t, e);
    WindowOpened(interval, t, ts, usage, isOOM, e);
    OneUsage(usage);
    NetWithNew(t, u, s.windowEnd, usage);
    assert GridInv(interval, u);
  }

  lemma WindowOpened(interval: int, t: Trace, ts: int, usage: int, isOOM: bool, e: Event)
    requires Step(interval, t.peaks, e) == AddMemory(interval, t.peaks, ts, usage, isOOM)
      && UsageOf(t.peaks, e) == usage
    requires var (s, accepted, ops) := AddMemory(interval, t.peaks, ts, usage, isOOM);
      accepted && s.windowEnd !in t.windows && ops == [Add(Peak(s.windowEnd, usage))]
    ensures var (s, u) := (AddMemory(interval, t.peaks, ts, usage, isOOM).0, Next(interval, t, e));
      && u.peaks == s && u.matched == t.matched && u.net == t.net + multiset{Peak(s.windowEnd, usage)}
      && u.windows == t.windows[s.windowEnd := [usage]]
      && u.first == if t.windows == map[] then s.lastStart else t.first
  {
    var s := AddMemory(interval, t.peaks, ts, usage, isOOM).0;
    AppliedOps(t, Add(Peak(s.windowEnd, usage)), Add(Peak(0, 0)));
    assert UsagesIn(t, s.windowEnd) + [usage] == [usage];
  }

  /** The trace after a sample of the current window. */
  lemma WindowGrown(interval: int, t: Trace, ts: int, usage: int, isOOM: bool, e: Event, ops: seq<Op>)
    requires Step(interval, t.peaks, e) == AddMemory(interval, t.peaks, ts, usage, isOOM)
      && UsageOf(t.peaks, e) == usage
    requires t.peaks.windowEnd in t.windows
    requires AddMemory(interval, t.peaks, ts, usage, isOOM).1 && AddMemory(interval, t.peaks, ts, usage, isOOM).2 == ops
    requires AddMemory(interval, t.peaks, ts, usage, isOOM).0.windowEnd == t.peaks.windowEnd
    ensures var u := Next(interval, t, e);
      && u.peaks == AddMemory(interval, t.peaks, ts, usage, isOOM).0 && u.first == t.first
      && u.net == Applied(t, ops).net && u.matched == Applied(t, ops).matched
      && u.windows == t.windows[t.peaks.windowEnd := t.windows[t.peaks.windowEnd] + [usage]]
  {
    hide AddMemory, Applied, Step, UsageOf;
  }

  lemma WindowInvGrown(interval: int, t: Trace, u: Trace, us: seq<int>)
    requires WindowInv(interval, t) && t.windows != map[] && Usages(us)
    requires u.windows == t.windows[t.peaks.windowEnd := us] && u.peaks.windowEnd == t.peaks.windowEnd
    requires u.peaks.windowEnd - interval <= u.peaks.lastStart < u.peaks.windowEnd && u.peaks.lastStart > ZERO
    requires u.peaks.memoryPeak >= 0 && u.peaks.oomPeak >= 0 && MaxPeak(u.peaks) == PeakOf(us)
    ensures WindowInv(interval, u)
  {
  }

  /** The aggregator after a peak was left or replaced. */
  lemma NetGrown(t: Trace, u: Trace, end: int, us: seq<int>, ops: seq<Op>)
    requires NetInv(t) && end in t.windows && us != []
    requires var p, q := PeakOf(t.windows[end]), PeakOf(us);
      ops == if p == q then [] else [Subtract(Peak(end, p)), Add(Peak(end, q))]
    requires u.windows == t.windows[end := us] && u.net == Applied(t, ops).net && u.matched == Applied(t, ops).matched
    ensures NetInv(u)
  {
    var p, q := PeakOf(t.windows[end]), PeakOf(us);
    if p == q {
      NothingApplied(t);
      NetUnchanged(t, u, end, us);
    } else {
      var a, b := Subtract(Peak(end, p)), Add(Peak(end, q));
      AppliedOps(t, a, b);
      AppliedOps(Applied(t, [a]), b, b);
      NetWithReplaced(t, u, end, us);
    }
  }

  lemma SameWindowKeeps(interval: int, t: Trace, ts: int, usage: int, isOOM: bool, e: Event)
    requires interval > 0 && Inv(interval, t) && t.windows != map[]
    requires usage >= 0 && ts > ZERO && t.peaks.windowEnd - interval <= ts < t.peaks.windowEnd
    requires isOOM || ts >= t.peaks.lastStart
    requires Step(interval, t.peaks, e) == AddMemory(interval, t.peaks, ts, usage, isOOM)
      && UsageOf(t.peaks, e) == usage
    ensures Inv(interval, Next(interval, t, e))
  {
    hide AddMemory, Applied, Step, UsageOf, Next, NetInv, PeakOf;
    var us, ops := t.windows[t.peaks.windowEnd], AddMemory(interval, t.peaks, ts, usage, isOOM).2;
    var u := Next(interval, t, e);
    SameWindow(interval, t, ts, usage, isOOM);
    PeakAfter(us, usage);
    WindowGrown(interval, t, ts, usage, isOOM, e, ops);
    WindowInvGrown(interval, t, u, us + [usage]);
    NetGrown(t, u, t.peaks.windowEnd, us + [usage], ops);
  }

  /** One sample keeps one peak for each window. */
  lemma SampleKeeps(interval: int, t: Trace, ts: int, usage: int, isOOM: bool, e: Event)
    requires interval > 0 && Inv(interval, t) && ts > ZERO
    requires Step(interval, t.peaks, e) == AddMemory(interval, t.peaks, ts, usage, isOOM)
      && UsageOf(t.peaks, e) == usage
    requires isOOM ==> usage >= 0 && (t.windows != map[] ==> ts >= t.peaks.windowEnd - interval)
    ensures Inv(interval, Next(interval, t, e))
  {
    if usage < 0 || (!isOOM && ts < t.peaks.lastStart) {
      NothingApplied(t);
    } else if t.windows == map[] || ts >= t.peaks.windowEnd {
      NewWindowKeeps(interval, t, ts, usage, isOOM, e);
    } else {
      SameWindowKeeps(interval, t, ts, usage, isOOM, e);
    }
  }

  lemma StepKeeps(interval: int, t: Trace, e: Event)
    requires interval > 0 && Inv(interval, t) && Positive(e)
    ensures Inv(interval, Next(interval, t, e))
  {
    match e
    case Usage(ts, usage) => SampleKeeps(interval, t, ts, usage, false, e);
    case OutOfMemory(ts, requested) =>
      if ts < t.peaks.windowEnd - interval {
        AppliedOps(t, Add(Peak(0, 0)), Add(Peak(0, 0)));
      } else {
        SampleKeeps(interval, t, ts, MemoryNeeded(t.peaks, requested), true, e);
      }
  }

  /** After any run of samples and out-of-memory events of a container, window ends lie on the
      grid of intervals from the first sample, every subtracted sample was an earlier one that
      had not been subtracted yet, and one peak is left for each window visited. */
  lemma {:induction false} RunKeeps(interval: int, es: seq<Event>)
    requires interval > 0 && forall i :: 0 <= i < |es| ==> Positive(es[i])
    ensures Inv(interval, Run(interval, es))
  {
    if es != [] {
      RunKeeps(interval, es[..|es| - 1]);
      StepKeeps(interval, Run(interval, es[..|es| - 1]), es[|es| - 1]);
    }
  }

  /** The peak left for a window is the largest usage in it if and only if the window's first
      usage is positive or all its usages are zero: after a zero no peak is replaced. */
  lemma PeakIsMaximumIff(interval: int, es: seq<Event>, w: int)
    requires interval > 0 && forall i :: 0 <= i < |es| ==> Positive(es[i])
    requires w in Run(interval, es).windows
    ensures var t := Run(interval, es);
      && t.windows[w] != []
      && (t.net[Peak(w, MaxOf(t.windows[w]))] == 1 <==>
            t.windows[w][0] > 0 || forall i :: 0 <= i < |t.windows[w]| ==> t.windows[w][i] == 0)
  {
    RunKeeps(interval, es);
    var us := Run(interval, es).windows[w];
    MaxIsBound(us);
    if us[0] == 0 && MaxOf(us) == 0 {
      assert forall i :: 0 <= i < |us| ==> us[i] == 0;
    }
  }

  lemma FirstUsage(interval: int, t: int)
    requires interval > 2 && t > 0
    ensures var r := Next(interval, Start, Usage(t, 0));
      && r.peaks == Peaks(t, t + interval, 0, 0) && r.windows == map[t + interval := [0]]
      && r.net == multiset{Peak(t + interval, 0)} && r.matched
  {
    var (s, accepted, ops) := AddMemory(interval, NoPeaks, t, 0, false);
    assert s == Peaks(t, t + interval, 0, 0) && accepted && ops == [Add(Peak(t + interval, 0))];
    WindowOpened(interval, Start, t, 0, false, Usage(t, 0));
  }

  lemma SecondUsage(interval: int, t: int, r: Trace)
    requires interval > 2 && t > 0
    requires r.peaks == Peaks(t, t + interval, 0, 0) && r.windows == map[t + interval := [0]]
    requires r.net == multiset{Peak(t + interval, 0)} && r.matched
    ensures var u := Next(interval, r, Usage(t + 1, 5));
      u.windows == map[t + interval := [0, 5]] && u.net == multiset{Peak(t + interval, 0)} && u.matched
  {
    var (s, accepted, ops) := AddMemory(interval, r.peaks, t + 1, 5, false);
    assert s == Peaks(t + 1, t + interval, 0, 0) && accepted && ops == [];
    WindowGrown(interval, r, t + 1, 5, false, Usage(t + 1, 5), ops);
    NothingApplied(r);
    assert [0] + [5] == [0, 5];
  }

  lemma RunOfTwo(interval: int, a: Event, b: Event)
    ensures Run(interval, [a, b]) == Next(interval, Next(interval, Start, a), b)
  {
    hide Next;
    RunNext(interval, [], a);
    RunNext(interval, [a], b);
    assert [] + [a] == [a] && [a] + [b] == [a, b];
  }

  lemma RunNext(interval: int, es: seq<Event>, e: Event)
    ensures Run(interval, es + [e]) == Next(interval, Run(interval, es), e)
  {
    hide Next;
    assert (es + [e])[..|es|] == es;
  }

  /** A window whose peak is not its maximum: its first usage is 0, its second one 5, and the
      sample left for it is 0. */
  lemma PeakCanMissMaximum(interval: int, t: int)
    requires interval > 2 && t > 0
    ensures var es := [Usage(t, 0), Usage(t + 1, 5)];
      var r := Run(interval, es);
      && (forall i :: 0 <= i < |es| ==> Positive(es[i]))
      && r.windows == map[t + interval := [0, 5]] && r.net == multiset{Peak(t + interval, 0)}
      && MaxOf(r.windows[t + interval]) == 5
  {
    hide Next, Run;
    RunOfTwo(interval, Usage(t, 0), Usage(t + 1, 5));
    FirstUsage(interval, t);
    SecondUsage(interval, t, Next(interval, Start, Usage(t, 0)));
    assert [0, 5][..1] == [0] && [0][..0] == [];
  }

  lemma AcceptedStart(interval: int, t: Trace, e: Event)
    requires Step(interval, t.peaks, e).1
    ensures Step(interval, t.peaks, e).0.lastStart == e.ts
    ensures Next(interval, t, e).peaks == Step(interval, t.peaks, e).0 && Next(interval, t, e).windows != map[]
  {
    hide Applied;
  }

  /** An accepted sample lies in the current window, which is one interval long. */
  lemma AcceptedInWindow(interval: int, es: seq<Event>, e: Event)
    requires interval > 0 && (forall i :: 0 <= i < |es| ==> Positive(es[i])) && Positive(e)
    requires Step(interval, Run(interval, es).peaks, e).1
    ensures var s := Step(interval, Run(interval, es).peaks, e).0;
      s.windowEnd - interval <= e.ts < s.windowEnd
  {
    hide Step, Next, NetInv, GridInv;
    RunKeeps(interval, es);
    StepKeeps(interval, Run(interval, es), e);
    AcceptedStart(interval, Run(interval, es), e);
  }

  // ---------- Which samples count ----------

  /** When the last accepted event happened. */
  ghost function LastAccepted(interval: int, es: seq<Event>): int {
    if es == [] then ZERO
    else
      var front, e := es[..|es| - 1], es[|es| - 1];
      if Step(interval, Run(interval, front).peaks, e).1 then e.ts else LastAccepted(interval, front)
  }

  lemma NextStart(interval: int, t: Trace, e: Event)
    ensures var (s, accepted, _) := Step(interval, t.peaks, e);
      && Next(interval, t, e).peaks == s
      && s.lastStart == (if accepted then e.ts else t.peaks.lastStart)
  {
    hide Applied;
  }

  lemma {:induction false} LastStartIs(interval: int, es: seq<Event>)
    ensures Run(interval, es).peaks.lastStart == LastAccepted(interval, es)
  {
    hide Step, Next;
    if es != [] {
      LastStartIs(interval, es[..|es| - 1]);
      NextStart(interval, Run(interval, es[..|es| - 1]), es[|es| - 1]);
    }
  }

  /** A sample is accepted exactly when it is not negative and not older than the last event that
      was, and an out-of-memory event exactly when it is not older than the current window. What
      is not accepted changes nothing. */
  lemma AcceptedIff(interval: int, es: seq<Event>, e: Event)
    requires interval > 0 && (forall i :: 0 <= i < |es| ==> Positive(es[i])) && Positive(e)
    ensures var t := Run(interval, es);
      var (s, accepted, ops) := Step(interval, t.peaks, e);
      && (accepted <==>
            if e.Usage? then e.usage >= 0 && e.ts >= LastAccepted(interval, es)
            else forall w :: w in t.windows ==> e.ts >= w - interval)
      && (!accepted ==> s == t.peaks && ops == [])
  {
    hide NetInv, GridInv, PeakOf, Run, LastAccepted, MemoryNeeded, WithPeak, Truncated;
    LastStartIs(interval, es);
    RunKeeps(interval, es);
    if e.OutOfMemory? { OomIsPositive(Run(interval, es).peaks, e.requested); }
  }

  /** Samples and out-of-memory events keep apart: neither touches the other's peak but to reset
      it with a new window, and no peak changes unless their maximum does. */
  lemma PeaksAreSeparate(interval: int, es: seq<Event>, e: Event)
    requires interval > 0 && (forall i :: 0 <= i < |es| ==> Positive(es[i])) && Positive(e)
    ensures var s := Run(interval, es).peaks;
      var t := Step(interval, s, e).0;
      && (e.Usage? ==> t.oomPeak == if t.windowEnd == s.windowEnd then s.oomPeak else 0)
      && (e.OutOfMemory? ==> t.memoryPeak == if t.windowEnd == s.windowEnd then s.memoryPeak else 0)
      && (t.windowEnd == s.windowEnd && MaxPeak(t) == MaxPeak(s) ==>
            t.memoryPeak == s.memoryPeak && t.oomPeak == s.oomPeak)
  {
    hide NetInv, GridInv, PeakOf, Run;
    RunKeeps(interval, es);
    var t := Run(interval, es);
    if t.windows == map[] || e.ts >= t.peaks.windowEnd { NewWindow(interval, t, e.ts, 0, false); }
  }

  lemma SixFifths(used: int)
    requires used >= 0
    ensures ScaleResource(used, OOM_BUMP_UP_RATIO) == Min(6 * used / 5, 100_000_000_000_000)
  {
    var x := Mul(used as real, OOM_BUMP_UP_RATIO);
    assert x == (6 * used) as real / 5.0;
    var q := 6 * used / 5;
    assert 5 * q <= 6 * used < 5 * q + 5;
    assert q as real <= x < q as real + 1.0;
  }

  /** An out-of-memory event counts as the larger of 100 MB more than what was used and six fifths
      of it, where what was used is the larger of the request and the largest peak from samples:
      that from earlier out-of-memory events does not count. */
  lemma OomUsageIs(s: Peaks, requested: int)
    requires requested >= 0
    ensures var used := Max(requested, s.memoryPeak);
      var more, scaled := used + 104_857_600, Min(6 * used / 5, 100_000_000_000_000);
      var needed := MemoryNeeded(s, requested);
      needed >= more && needed >= scaled && (needed == more || needed == scaled)
    ensures forall peak :: MemoryNeeded(s.(oomPeak := peak), requested) == MemoryNeeded(s, requested)
  {
    SixFifths(Max(requested, s.memoryPeak));
  }

  /** An accepted out-of-memory event puts that amount into its window; the aggregator gets it, at
      the end of the window, if it is the first of the window or exceeds its peak. */
  lemma OomIsRecorded(interval: int, es: seq<Event>, ts: int, requested: int)
    requires interval > 0 && (forall i :: 0 <= i < |es| ==> Positive(es[i])) && ts > ZERO && requested >= 0
    requires var e := OutOfMemory(ts, requested); Step(interval, Run(interval, es).peaks, e).1
    ensures var t, e := Run(interval, es), OutOfMemory(ts, requested);
      var (s, _, ops) := Step(interval, t.peaks, e);
      var used, end := MemoryNeeded(t.peaks, requested), s.windowEnd;
      && Next(interval, t, e).windows == t.windows[end := UsagesIn(t, end) + [used]]
      && (end !in t.windows ==> ops == [Add(Peak(end, used))])
      && (end in t.windows ==>
            var peak := MaxPeak(t.peaks);
            ops == if peak != 0 && used > peak then [Subtract(Peak(end, peak)), Add(Peak(end, used))] else [])
  {
    hide NetInv, GridInv, PeakOf, MemoryNeeded, Run, Applied;
    RunKeeps(interval, es);
    var t, used := Run(interval, es), MemoryNeeded(Run(interval, es).peaks, requested);
    OomIsPositive(t.peaks, requested);
    if t.windows == map[] || ts >= t.peaks.windowEnd { NewWindow(interval, t, ts, used, true); }
  }

  /** An out-of-memory event never counts as zero, so it opens a window well. */
  lemma OomIsPositive(s: Peaks, requested: int)
    requires requested >= 0
    ensures MemoryNeeded(s, requested) >= requested + OOM_MIN_BUMP_UP > 0
  {
  }

  // ---------- The object ----------

  /** What an aggregator is told about memory and about CPU samples. */
  class Aggregator {
    var log: seq<Op>
    var cpuLog: seq<UsageSample>

    constructor ()
      ensures log == [] && cpuLog == []
    {
      log, cpuLog := [], [];
    }

    method Record(op: Op)
      modifies this`log
      ensures log == old(log) + [op]
    {
      log := log + [op];
    }
  }

  class Container {
    const interval: int
    const aggregator: Aggregator
    var lastCPUSampleStart: int
    var lastMemorySampleStart: int
    var windowEnd: int
    var memoryPeak: int
    var oomPeak: int

    constructor (interval: int, aggregator: Aggregator)
      ensures View() == NoPeaks && lastCPUSampleStart == ZERO
      ensures this.interval == interval && this.aggregator == aggregator
    {
      this.interval, this.aggregator := interval, aggregator;
      lastCPUSampleStart, lastMemorySampleStart, windowEnd, memoryPeak, oomPeak := ZERO, ZERO, ZERO, 0, 0;
    }

    ghost function View(): Peaks
      reads this
    {
      Peaks(lastMemorySampleStart, windowEnd, memoryPeak, oomPeak)
    }

    /** CPU samples are accepted in strictly growing order of time only. */
    method AddCPUSample(sample: UsageSample) returns (accepted: bool)
      modifies this`lastCPUSampleStart, aggregator`cpuLog
      ensures accepted <==> sample.usage >= 0 && sample.resource == CPU && sample.measureStart > old(lastCPUSampleStart)
      ensures aggregator.cpuLog == if accepted then old(aggregator.cpuLog) + [sample] else old(aggregator.cpuLog)
      ensures lastCPUSampleStart == if accepted then sample.measureStart else old(lastCPUSampleStart)
    {
      if sample.usage < 0 || sample.resource != CPU || sample.measureStart <= lastCPUSampleStart {
        return false;
      }
      aggregator.cpuLog := aggregator.cpuLog + [sample];
      lastCPUSampleStart := sample.measureStart;
      accepted := true;
    }

    method AddMemorySample(sample: UsageSample, isOOM: bool) returns (accepted: bool)
      modifies this, aggregator`log
      ensures lastCPUSampleStart == old(lastCPUSampleStart)
      ensures sample.resource != Memory ==>
        !accepted && View() == old(View()) && aggregator.log == old(aggregator.log)
      ensures sample.resource == Memory ==>
        var (s, ok, ops) := AddMemory(interval, old(View()), sample.measureStart, sample.usage, isOOM);
        View() == s && accepted == ok && aggregator.log == old(aggregator.log) + ops
    {
      var ts := sample.measureStart;
      if sample.usage < 0 || sample.resource != Memory || (!isOOM && ts < lastMemorySampleStart) {
        return false;
      }
      lastMemorySampleStart := ts;
      if windowEnd == ZERO {
        windowEnd := ts;
      }
      var addNewPeak := false;
      if ts < windowEnd {
        var oldMaxMem := Max(memoryPeak, oomPeak);
        if oldMaxMem != 0 && sample.usage > oldMaxMem {
          aggregator.Record(Subtract(Peak(windowEnd, oldMaxMem)));
          addNewPeak := true;
        }
      } else {
        var shift := Truncated(ts - windowEnd, interval) + interval;
        windowEnd := windowEnd + shift;
        memoryPeak, oomPeak := 0, 0;
        addNewPeak := true;
      }
      if addNewPeak {
        aggregator.Record(Add(Peak(windowEnd, sample.usage)));
        if isOOM {
          oomPeak := sample.usage;
        } else {
          memoryPeak := sample.usage;
        }
      }
      accepted := true;
    }

    /** The out-of-memory event is too old, or is added as a sample. */
    method RecordOOM(timestamp: int, requested: int) returns (r: Outcome)
      modifies this, aggregator`log
      ensures var (s, ok, ops) := Oom(interval, old(View()), timestamp, requested);
        View() == s && r == (if ok then Ok else Err) && aggregator.log == old(aggregator.log) + ops
    {
      if timestamp < windowEnd - interval {
        return Err;
      }
      var memoryUsed := Max(requested, memoryPeak);
      var memoryNeeded := Max(memoryUsed + OOM_MIN_BUMP_UP, ScaleResource(memoryUsed, OOM_BUMP_UP_RATIO));
      var ok := AddMemorySample(UsageSample(timestamp, memoryNeeded, Memory), true);
      r := if ok then Ok else Err;
    }

    method AddSample(sample: UsageSample) returns (accepted: bool)
      modifies this, aggregator
      ensures sample.resource == Memory ==>
        var (s, ok, ops) := AddMemory(interval, old(View()), sample.measureStart, sample.usage, false);
        && View() == s && accepted == ok && aggregator.log == old(aggregator.log) + ops
        && aggregator.cpuLog == old(aggregator.cpuLog) && lastCPUSampleStart == old(lastCPUSampleStart)
      ensures sample.resource == CPU ==>
        && View() == old(View()) && aggregator.log == old(aggregator.log)
        && (accepted <==> sample.usage >= 0 && sample.measureStart > old(lastCPUSampleStart))
        && aggregator.cpuLog == (if accepted then old(aggregator.cpuLog) + [sample] else old(aggregator.cpuLog))
        && lastCPUSampleStart == (if accepted then sample.measureStart else old(lastCPUSampleStart))
    {
      match sample.resource
      case CPU => accepted := AddCPUSample(sample);
      case Memory => accepted := AddMemorySample(sample, false);
    }
  }
}
