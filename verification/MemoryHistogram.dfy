/** The memory histogram that the containers of one aggregation share
    (recommender/model/aggregate_container_state.go): what their added and subtracted peaks
    (recommender/model/container.go) leave in a decaying histogram. */
module MemoryHistogram {
  import opened Wrappers
  import opened HistogramOptions
  import opened Histogram
  import opened DecayingHistogram
  import C = ContainerState

  const MEMORY_WEIGHT: real := 1.0

  /** A peak counts with weight 1 at the end of its window. */
  function SampleOf(o: Options, p: C.Peak): Sample
    requires Valid(o)
  {
    Sample(FindBucket(o, p.usage as real), MEMORY_WEIGHT, p.windowEnd)
  }

  function Image(o: Options, peaks: seq<C.Peak>): (r: seq<Sample>)
    requires Valid(o)
    ensures |r| == |peaks|
  {
    if peaks == [] then [] else Image(o, peaks[..|peaks| - 1]) + [SampleOf(o, peaks[|peaks| - 1])]
  }

  // ---------- What the aggregator is told ----------

  /** An event of one of the containers that share an aggregation. */
  datatype Tagged = Tagged(container: Name, event: C.Event)

  /** The events of one container. */
  ghost function Own(es: seq<Tagged>, id: Name): seq<C.Event> {
    if es == [] then []
    else
      var front, e := Own(es[..|es| - 1], id), es[|es| - 1];
      if e.container == id then front + [e.event] else front
  }

  /** What one container went through. */
  ghost function RunOf(interval: int, es: seq<Tagged>, id: Name): C.Trace {
    C.Run(interval, Own(es, id))
  }

  /** Everything the containers tell their aggregator in a run. */
  ghost function OpsOf(interval: int, es: seq<Tagged>): seq<C.Op> {
    if es == [] then []
    else
      var front, e := es[..|es| - 1], es[|es| - 1];
      OpsOf(interval, front) + C.Step(interval, RunOf(interval, front, e.container).peaks, e.event).2
  }

  /** The histogram that results from being told these. */
  ghost function OriginOf(o: Options, ops: seq<C.Op>): Origin
    requires Valid(o)
  {
    if ops == [] then Nothing
    else
      var before := OriginOf(o, ops[..|ops| - 1]);
      match ops[|ops| - 1]
      case Add(p) => Plus(before, SampleOf(o, p))
      case Subtract(p) => Minus(before, SampleOf(o, p))
  }

  /** The peaks that are left. */
  ghost function PeaksOf(ops: seq<C.Op>): seq<C.Peak> {
    if ops == [] then []
    else
      var before := PeaksOf(ops[..|ops| - 1]);
      match ops[|ops| - 1]
      case Add(p) => before + [p]
      case Subtract(p) => if p in before then WithoutLast(before, p) else before
  }

  ghost predicate Matched(ops: seq<C.Op>) {
    C.Applied(C.Start, ops).matched
  }

  lemma AppliedNext(t: C.Trace, ops: seq<C.Op>, op: C.Op)
    ensures C.Applied(t, ops + [op]) == C.Applied(C.Applied(t, ops), [op])
  {
    assert (ops + [op])[..|ops|] == ops;
    assert [op][..0] == [];
  }

  lemma {:induction false} AppliedBoth(t: C.Trace, a: seq<C.Op>, b: seq<C.Op>)
    ensures C.Applied(t, a + b) == C.Applied(C.Applied(t, a), b)
  {
    hide C.Applied;
    if b == [] {
      assert a + b == a;
      C.NothingApplied(C.Applied(t, a));
    } else {
      var n := |b| - 1;
      AppliedBoth(t, a, b[..n]);
      AppliedNext(t, a + b[..n], b[n]);
      AppliedNext(C.Applied(t, a), b[..n], b[n]);
      assert (a + b[..n]) + [b[n]] == a + b && b[..n] + [b[n]] == b;
    }
  }

  /** An operation that can be applied to some of the samples does the same among more. */
  lemma {:induction false} AppliedAmongMore(t: C.Trace, u: C.Trace, ops: seq<C.Op>, more: multiset<C.Peak>)
    requires u.net == t.net + more && u.matched && C.Applied(t, ops).matched
    ensures C.Applied(u, ops).net == C.Applied(t, ops).net + more && C.Applied(u, ops).matched
  {
    if ops != [] { AppliedAmongMore(t, u, ops[..|ops| - 1], more); }
  }

  lemma NextApplies(interval: int, t: C.Trace, e: C.Event)
    ensures var ops, u := C.Step(interval, t.peaks, e).2, C.Next(interval, t, e);
      u.net == C.Applied(t, ops).net && u.matched == C.Applied(t, ops).matched
  {
    hide C.Step, C.Applied;
  }

  /** The samples of all containers together. */
  ghost function NetOf(interval: int, es: seq<Tagged>, ids: seq<Name>): multiset<C.Peak> {
    if ids == [] then multiset{}
    else NetOf(interval, es, ids[..|ids| - 1]) + RunOf(interval, es, ids[|ids| - 1]).net
  }

  lemma OwnNext(es: seq<Tagged>, e: Tagged, id: Name)
    ensures Own(es + [e], id) == if e.container == id then Own(es, id) + [e.event] else Own(es, id)
  {
    assert (es + [e])[..|es|] == es;
  }

  lemma RunOfNext(interval: int, es: seq<Tagged>, e: Tagged, id: Name)
    ensures RunOf(interval, es + [e], id) ==
      if e.container == id then C.Next(interval, RunOf(interval, es, id), e.event) else RunOf(interval, es, id)
  {
    hide C.Next;
    OwnNext(es, e, id);
    C.RunNext(interval, Own(es, id), e.event);
  }

  /** An event changes the samples of its container only. */
  lemma {:induction false} NetOfNext(interval: int, es: seq<Tagged>, e: Tagged, ids: seq<Name>)
    returns (others: multiset<C.Peak>)
    requires NoDup(ids)
    ensures e.container !in ids ==> NetOf(interval, es + [e], ids) == NetOf(interval, es, ids)
    ensures e.container in ids ==>
      && NetOf(interval, es, ids) == RunOf(interval, es, e.container).net + others
      && NetOf(interval, es + [e], ids) == RunOf(interval, es + [e], e.container).net + others
  {
    hide RunOf;
    others := multiset{};
    if ids != [] {
      var n := |ids| - 1;
      RunOfNext(interval, es, e, ids[n]);
      others := NetOfNext(interval, es, e, ids[..n]);
      if ids[n] == e.container {
        assert e.container !in ids[..n];
        others := NetOf(interval, es, ids[..n]);
      } else {
        others := others + RunOf(interval, es, ids[n]).net;
      }
    }
  }

  /** Every event is one of these containers, and comes after the zero time. */
  ghost predicate EventsFit(es: seq<Tagged>, ids: seq<Name>) {
    forall i :: 0 <= i < |es| ==> es[i].container in ids && C.Positive(es[i].event)
  }

  lemma {:induction false} OwnFit(es: seq<Tagged>, ids: seq<Name>, id: Name)
    requires EventsFit(es, ids)
    ensures forall i :: 0 <= i < |Own(es, id)| ==> C.Positive(Own(es, id)[i])
  {
    if es != [] { OwnFit(es[..|es| - 1], ids, id); }
  }

  /** The aggregator's samples are those of all containers, and every subtracted one was there. */
  lemma {:induction false} RunApplies(interval: int, es: seq<Tagged>, ids: seq<Name>)
    requires interval > 0 && NoDup(ids) && EventsFit(es, ids)
    ensures Matched(OpsOf(interval, es))
    ensures C.Applied(C.Start, OpsOf(interval, es)).net == NetOf(interval, es, ids)
  {
    hide C.Step, C.Applied, C.Next, C.Inv, C.Run;
    if es == [] {
      NothingYet(interval, ids);
    } else {
      var front, e := es[..|es| - 1], es[|es| - 1];
      assert es == front + [e];
      RunApplies(interval, front, ids);
      var t, u := RunOf(interval, front, e.container), C.Applied(C.Start, OpsOf(interval, front));
      var ops := C.Step(interval, t.peaks, e.event).2;
      var others := NetOfNext(interval, front, e, ids);
      OwnFit(es, ids, e.container);
      RunOfNext(interval, front, e, e.container);
      IsMatched(interval, Own(es, e.container));
      NextApplies(interval, t, e.event);
      AppliedAmongMore(t, u, ops, others);
      AppliedBoth(C.Start, OpsOf(interval, front), ops);
    }
  }

  lemma IsMatched(interval: int, es: seq<C.Event>)
    requires interval > 0 && forall i :: 0 <= i < |es| ==> C.Positive(es[i])
    ensures C.Run(interval, es).matched && C.NetInv(C.Run(interval, es))
  {
    C.RunKeeps(interval, es);
  }

  lemma {:induction false} NothingYet(interval: int, ids: seq<Name>)
    ensures NetOf(interval, [], ids) == multiset{} && C.Applied(C.Start, []) == C.Start
  {
    if ids != [] { NothingYet(interval, ids[..|ids| - 1]); }
  }

  /** Where every subtracted peak was there, the peaks left are the aggregator's. */
  lemma {:induction false} PeaksAreNet(ops: seq<C.Op>)
    requires Matched(ops)
    ensures multiset(PeaksOf(ops)) == C.Applied(C.Start, ops).net
  {
    if ops != [] { PeaksAreNet(ops[..|ops| - 1]); }
  }

  // ---------- Samples and peaks ----------

  lemma {:induction false} ImageWithout(o: Options, peaks: seq<C.Peak>, p: C.Peak)
    requires Valid(o) && p in peaks
    ensures multiset(Image(o, WithoutLast(peaks, p))) == multiset(Image(o, peaks)) - multiset{SampleOf(o, p)}
    ensures SampleOf(o, p) in Image(o, peaks)
  {
    hide SampleOf, Image;
    var n := |peaks| - 1;
    ImageNext(o, peaks[..n], peaks[n]);
    assert peaks[..n] + [peaks[n]] == peaks;
    if peaks[n] != p {
      ImageWithout(o, peaks[..n], p);
      ImageNext(o, WithoutLast(peaks[..n], p), peaks[n]);
    }
  }

  lemma {:induction false} ImagePermuted(o: Options, a: seq<C.Peak>, b: seq<C.Peak>)
    requires Valid(o) && multiset(a) == multiset(b)
    ensures multiset(Image(o, a)) == multiset(Image(o, b))
    decreases |a|
  {
    hide SampleOf, Image, WithoutLast;
    assert |multiset(a)| == |a| && |multiset(b)| == |b|;
    if a == [] {
      assert Image(o, a) == [] && Image(o, b) == [];
    } else {
      var n := |a| - 1;
      assert a == a[..n] + [a[n]];
      assert a[n] in multiset(b);
      ImagePermuted(o, a[..n], WithoutLast(b, a[n]));
      ImageNext(o, a[..n], a[n]);
      ImageWithout(o, b, a[n]);
    }
  }

  /** The histogram is a proper one and holds the samples of the peaks left. */
  lemma {:induction false} OriginHoldsPeaks(o: Options, ops: seq<C.Op>)
    requires Valid(o) && Matched(ops)
    ensures Proper(o, OriginOf(o, ops))
    ensures multiset(SamplesOf(OriginOf(o, ops))) == multiset(Image(o, PeaksOf(ops)))
  {
    if ops != [] {
      var front, last := ops[..|ops| - 1], ops[|ops| - 1];
      OriginHoldsPeaks(o, front);
      PeaksAreNet(front);
      match last
      case Add(p) => ImageNext(o, PeaksOf(front), p);
      case Subtract(p) =>
        assert p in multiset(PeaksOf(front));
        ImageWithout(o, PeaksOf(front), p);
        assert SampleOf(o, p) in multiset(SamplesOf(OriginOf(o, front)));
    }
  }

  lemma ImageNext(o: Options, peaks: seq<C.Peak>, p: C.Peak)
    requires Valid(o)
    ensures Image(o, peaks + [p]) == Image(o, peaks) + [SampleOf(o, p)]
  {
    assert (peaks + [p])[..|peaks|] == peaks;
  }

  // ---------- The order of samples ----------

  lemma {:induction false} IdealPermuted(d: Decay, a: seq<Sample>, b: seq<Sample>, k: nat, ref: int)
    requires d.growth > 1.0 && multiset(a) == multiset(b)
    ensures Ideal(d, a, k, ref) == Ideal(d, b, k, ref) && IdealTotal(d, a, ref) == IdealTotal(d, b, ref)
    decreases |a|
  {
    hide Term;
    assert |multiset(a)| == |a| && |multiset(b)| == |b|;
    if a != [] {
      var n := |a| - 1;
      assert a == a[..n] + [a[n]];
      assert a[n] in multiset(b);
      IdealPermuted(d, a[..n], WithoutLast(b, a[n]), k, ref);
      IdealWithout(d, b, a[n], k, ref);
    }
  }

  lemma WithinPermuted(o: Options, d: Decay, x: Decaying, a: seq<Sample>, b: seq<Sample>, e: Bounds)
    requires ValidDecay(d) && Within(o, d, x, a, e) && multiset(a) == multiset(b)
    ensures Within(o, d, x, b, e)
  {
    hide HistInv;
    forall i | 0 <= i < |b| ensures b[i].weight >= 0.0 {
      assert b[i] in multiset(a);
      assert b[i] in a;
    }
    forall k | 0 <= k < |x.h.weights| ensures Ideal(d, b, k, x.ref) == Ideal(d, a, k, x.ref) {
      IdealPermuted(d, a, b, k, x.ref);
    }
    IdealPermuted(d, a, b, 0, x.ref);
  }

  // ---------- One peak for each window ----------

  /** Each window visited once. */
  ghost predicate Lists(ws: seq<int>, windows: map<int, seq<int>>) {
    && NoDup(ws)
    && (forall i :: 0 <= i < |ws| ==> ws[i] in windows && windows[ws[i]] != [])
    && forall w :: w in windows ==> w in ws
  }

  /** The peaks of the windows, in this order. */
  ghost function WindowPeaks(ws: seq<int>, windows: map<int, seq<int>>): (r: seq<C.Peak>)
    requires Lists(ws, windows)
    ensures |r| == |ws| && forall i :: 0 <= i < |ws| ==> r[i] == C.Peak(ws[i], C.PeakOf(windows[ws[i]]))
  {
    seq(|ws|, i requires 0 <= i < |ws| => C.Peak(ws[i], C.PeakOf(windows[ws[i]])))
  }

  lemma {:induction false} CountInDistinct(peaks: seq<C.Peak>, p: C.Peak)
    requires NoDup(peaks)
    ensures multiset(peaks)[p] == if p in peaks then 1 else 0
  {
    if peaks != [] {
      var n := |peaks| - 1;
      assert peaks == peaks[..n] + [peaks[n]];
      CountInDistinct(peaks[..n], p);
    }
  }

  lemma WindowPeaksAreNet(t: C.Trace, ws: seq<int>)
    requires C.NetInv(t) && Lists(ws, t.windows)
    ensures multiset(WindowPeaks(ws, t.windows)) == t.net
  {
    hide C.PeakOf, C.MaxOf;
    var peaks := WindowPeaks(ws, t.windows);
    forall p ensures multiset(peaks)[p] == t.net[p] {
      CountInDistinct(peaks, p);
      if p.windowEnd in t.windows {
        var i :| 0 <= i < |ws| && ws[i] == p.windowEnd;
        assert peaks[i].windowEnd == p.windowEnd;
      }
    }
  }

  /** For each container the windows it visited. */
  ghost predicate ListsAll(
    interval: int, es: seq<Tagged>, ids: seq<Name>, visits: map<Name, seq<int>>)
  {
    forall i :: 0 <= i < |ids| ==> ids[i] in visits && Lists(visits[ids[i]], RunOf(interval, es, ids[i]).windows)
  }

  /** The peaks of all windows of all containers. */
  ghost function AllPeaks(interval: int, es: seq<Tagged>, ids: seq<Name>, visits: map<Name, seq<int>>): seq<C.Peak>
    requires ListsAll(interval, es, ids, visits)
  {
    if ids == [] then []
    else
      var id := ids[|ids| - 1];
      AllPeaks(interval, es, ids[..|ids| - 1], visits) + WindowPeaks(visits[id], RunOf(interval, es, id).windows)
  }

  lemma {:induction false} AllPeaksAreNet(
    interval: int, es: seq<Tagged>, ids: seq<Name>, all: seq<Name>, visits: map<Name, seq<int>>)
    requires interval > 0 && EventsFit(es, all) && ListsAll(interval, es, ids, visits)
    ensures multiset(AllPeaks(interval, es, ids, visits)) == NetOf(interval, es, ids)
  {
    hide RunOf, C.NetInv, Lists, WindowPeaks;
    if ids != [] {
      var n := |ids| - 1;
      AllPeaksAreNet(interval, es, ids[..n], all, visits);
      OwnFit(es, all, ids[n]);
      RunOfIsMatched(interval, es, all, ids[n]);
      WindowPeaksAreNet(RunOf(interval, es, ids[n]), visits[ids[n]]);
    }
  }

  lemma RunOfIsMatched(interval: int, es: seq<Tagged>, ids: seq<Name>, id: Name)
    requires interval > 0 && EventsFit(es, ids)
    ensures C.NetInv(RunOf(interval, es, id))
  {
    OwnFit(es, ids, id);
    IsMatched(interval, Own(es, id));
  }

  /** After any run of samples and out-of-memory events of the containers that share it, in any
      interleaving, a memory histogram is near the exact decayed weights of one sample for each
      window that each container visited, its peak. With c peaks replaced, a bucket is at most c
      epsilons below and less than one above, and the total at most c epsilons below. */
  lemma MemoryIsNearPeaks(
    o: Options, d: Decay, interval: int, es: seq<Tagged>, ids: seq<Name>, visits: map<Name, seq<int>>)
    requires Valid(o) && ValidDecay(d) && interval > 0 && NoDup(ids) && EventsFit(es, ids)
    requires ListsAll(interval, es, ids, visits)
    ensures var origin := OriginOf(o, OpsOf(interval, es));
      && Proper(o, origin)
      && Within(o, d, Built(o, d, origin), Image(o, AllPeaks(interval, es, ids, visits)),
           InEpsilons(o, 0, CutsOf(origin)))
  {
    hide Within, Built, Image, RunOf, ListsAll;
    var ops, peaks := OpsOf(interval, es), AllPeaks(interval, es, ids, visits);
    var origin := OriginOf(o, ops);
    RunApplies(interval, es, ids);
    OriginHoldsPeaks(o, ops);
    PeaksAreNet(ops);
    AllPeaksAreNet(interval, es, ids, ids, visits);
    ImagePermuted(o, PeaksOf(ops), peaks);
    NoMerges(o, ops);
    OriginIsNearIdeal(o, d, origin);
    WithinPermuted(
      o, d, Built(o, d, origin), SamplesOf(origin), Image(o, peaks), InEpsilons(o, 0, CutsOf(origin)));
  }

  lemma {:induction false} NoMerges(o: Options, ops: seq<C.Op>)
    requires Valid(o)
    ensures MergesOf(OriginOf(o, ops)) == 0
  {
    if ops != [] { NoMerges(o, ops[..|ops| - 1]); }
  }
}
