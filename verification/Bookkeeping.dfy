/** The times and the number of samples in an aggregation, of
    recommender/model/aggregate_container_state.go, from which the confidence is computed. */
module Bookkeeping {

  /** The zero time, which also stands for no sample yet. */
  const ZERO: int := 0

  datatype Book = Book(first: int, last: int, total: int)

  const NoSamples: Book := Book(ZERO, ZERO, 0)

  function Counted(b: Book, t: int): Book {
    Book(if b.first == ZERO || t < b.first then t else b.first, if t > b.last then t else b.last, b.total + 1)
  }

  function Merged(a: Book, b: Book): Book {
    Book(
      if a.first == ZERO || (b.first != ZERO && b.first < a.first) then b.first else a.first,
      if b.last > a.last then b.last else a.last,
      a.total + b.total)
  }

  /** The book of samples in the order in which they came. */
  function BookOf(times: seq<int>): Book {
    if times == [] then NoSamples else Counted(BookOf(times[..|times| - 1]), times[|times| - 1])
  }

  ghost predicate AfterZero(times: seq<int>) {
    forall i :: 0 <= i < |times| ==> times[i] > ZERO
  }

  /** The book holds the earliest and the latest time and the number of the samples. */
  lemma {:induction false} BookIsExact(times: seq<int>)
    requires AfterZero(times)
    ensures var b := BookOf(times);
      && b.total == |times|
      && (times == [] <==> b.first == ZERO) && (times == [] <==> b.last == ZERO)
      && (forall i :: 0 <= i < |times| ==> b.first <= times[i] <= b.last)
      && (times != [] ==> exists i, j ::
           0 <= i < |times| && 0 <= j < |times| && times[i] == b.first && times[j] == b.last)
  {
    if times != [] {
      var n := |times| - 1;
      BookIsExact(times[..n]);
      assert times[n] == times[n];
      if n > 0 {
        var b := BookOf(times[..n]);
        var i, j :| 0 <= i < n && 0 <= j < n && times[..n][i] == b.first && times[..n][j] == b.last;
        assert times[i] == b.first && times[j] == b.last;
      }
    }
  }

  lemma MergeThenCount(a: Book, b: Book, t: int)
    requires t > ZERO && a.first >= ZERO && b.first >= ZERO
    ensures Merged(a, Counted(b, t)) == Counted(Merged(a, b), t)
  {
  }

  lemma FirstIsNotNegative(times: seq<int>)
    requires AfterZero(times)
    ensures BookOf(times).first >= ZERO
  {
    BookIsExact(times);
  }

  /** Merging two aggregations counts their samples as if they had come to one. */
  lemma {:induction false} MergeIsConcatenation(a: seq<int>, b: seq<int>)
    requires AfterZero(a) && AfterZero(b)
    ensures Merged(BookOf(a), BookOf(b)) == BookOf(a + b)
  {
    FirstIsNotNegative(a);
    if b == [] {
      LastIsNotNegative(a);
      assert a + b == a;
    } else {
      var n := |b| - 1;
      MergeIsConcatenation(a, b[..n]);
      FirstIsNotNegative(b[..n]);
      MergeThenCount(BookOf(a), BookOf(b[..n]), b[n]);
      assert (a + b)[..|a| + n] == a + b[..n];
    }
  }

  lemma {:induction false} LastIsNotNegative(times: seq<int>)
    ensures BookOf(times).last >= ZERO
  {
    if times != [] { LastIsNotNegative(times[..|times| - 1]); }
  }

  class SampleTimes {
    var firstSampleStart: int
    var lastSampleStart: int
    var totalSamplesCount: int

    constructor ()
      ensures View() == NoSamples
    {
      firstSampleStart, lastSampleStart, totalSamplesCount := ZERO, ZERO, 0;
    }

    ghost function View(): Book
      reads this
    {
      Book(firstSampleStart, lastSampleStart, totalSamplesCount)
    }

    method AddCPUSample(measureStart: int)
      modifies this
      ensures View() == Counted(old(View()), measureStart)
    {
      if measureStart > lastSampleStart {
        lastSampleStart := measureStart;
      }
      if firstSampleStart == ZERO || measureStart < firstSampleStart {
        firstSampleStart := measureStart;
      }
      totalSamplesCount := totalSamplesCount + 1;
    }

    method MergeContainerState(other: SampleTimes)
      modifies this
      ensures View() == Merged(old(View()), old(other.View()))
    {
      if firstSampleStart == ZERO || (other.firstSampleStart != ZERO && other.firstSampleStart < firstSampleStart) {
        firstSampleStart := other.firstSampleStart;
      }
      if other.lastSampleStart > lastSampleStart {
        lastSampleStart := other.lastSampleStart;
      }
      totalSamplesCount := totalSamplesCount + other.totalSamplesCount;
    }
  }
}
