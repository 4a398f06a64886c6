/** The order of a binary heap in a sequence, and what the sifting loops of Go's
    container/heap do to it. */
module HeapOrder {

  /** What a comparison must satisfy: two elements never precede each other, and not
      preceding is transitive. */
  ghost predicate StrictWeak<T(!new)>(less: (T, T) -> bool) {
    && (forall a: T, b: T :: less(a, b) ==> !less(b, a))
    && (forall a: T, b: T, c: T :: !less(a, b) && !less(b, c) ==> !less(a, c))
  }

  function Parent(k: int): int {
    (k - 1) / 2
  }

  function Swapped<T>(xs: seq<T>, i: nat, j: nat): seq<T>
    requires i < |xs| && j < |xs|
  {
    xs[i := xs[j]][j := xs[i]]
  }

  /** No element among the first n precedes its parent. */
  ghost predicate Ordered<T>(xs: seq<T>, n: nat, less: (T, T) -> bool)
    requires n <= |xs|
  {
    forall p, k :: 0 <= p < k < n && Parent(k) == p ==> !less(xs[k], xs[p])
  }

  /** No child of i precedes the parent of i. */
  ghost predicate Bridged<T>(xs: seq<T>, n: nat, i: nat, less: (T, T) -> bool)
    requires n <= |xs| && i < n
  {
    forall p, k :: 0 <= p < i < k < n && Parent(i) == p && Parent(k) == i ==> !less(xs[k], xs[p])
  }

  /** Only i may precede its parent. */
  ghost predicate OrderedBelow<T>(xs: seq<T>, n: nat, i: nat, less: (T, T) -> bool)
    requires n <= |xs| && i < n
  {
    && (forall p, k :: 0 <= p < k < n && Parent(k) == p && k != i ==> !less(xs[k], xs[p]))
    && Bridged(xs, n, i, less)
  }

  /** Only children of i may precede their parent. */
  ghost predicate OrderedAbove<T>(xs: seq<T>, n: nat, i: nat, less: (T, T) -> bool)
    requires n <= |xs| && i < n
  {
    && (forall p, k :: 0 <= p < k < n && Parent(k) == p && p != i ==> !less(xs[k], xs[p]))
    && Bridged(xs, n, i, less)
  }

  /** Everything is in order that does not involve i. */
  ghost predicate OrderedAround<T>(xs: seq<T>, n: nat, i: nat, less: (T, T) -> bool)
    requires n <= |xs| && i < n
  {
    && (forall p, k :: 0 <= p < k < n && Parent(k) == p && p != i && k != i ==> !less(xs[k], xs[p]))
    && Bridged(xs, n, i, less)
  }

  /** The root of a heap is preceded by no element. */
  lemma {:induction false} RootPrecedesAll<T(!new)>(xs: seq<T>, n: nat, less: (T, T) -> bool, k: nat)
    requires StrictWeak(less) && n <= |xs| && Ordered(xs, n, less) && k < n
    ensures !less(xs[k], xs[0])
  {
    if k > 0 {
      RootPrecedesAll(xs, n, less, Parent(k));
    }
  }

  /** One turn of the loop that sifts up. */
  lemma UpStep<T(!new)>(xs: seq<T>, n: nat, i: nat, j: nat, less: (T, T) -> bool)
    requires StrictWeak(less) && n <= |xs| && j < n && i == Parent(j) && i < j
    requires OrderedBelow(xs, n, j, less) && less(xs[j], xs[i])
    ensures OrderedBelow(Swapped(xs, i, j), n, i, less)
  {
  }

  lemma UpDone<T(!new)>(xs: seq<T>, n: nat, j: nat, less: (T, T) -> bool)
    requires StrictWeak(less) && n <= |xs| && j < n && OrderedBelow(xs, n, j, less)
    requires j == 0 || !less(xs[j], xs[Parent(j)])
    ensures Ordered(xs, n, less)
  {
  }

  /** One turn of the loop that sifts down: the smaller child j of i moves up. */
  lemma DownStep<T(!new)>(xs: seq<T>, n: nat, i: nat, j: nat, less: (T, T) -> bool)
    requires StrictWeak(less) && n <= |xs| && i < j < n && Parent(j) == i
    requires OrderedAround(xs, n, i, less) && less(xs[j], xs[i])
    requires forall k :: 0 <= i < k < n && Parent(k) == i ==> !less(xs[k], xs[j])
    ensures OrderedAbove(Swapped(xs, i, j), n, j, less)
  {
  }

  lemma DownDone<T(!new)>(xs: seq<T>, n: nat, i: nat, less: (T, T) -> bool)
    requires StrictWeak(less) && n <= |xs| && i < n
    requires forall k :: 0 <= i < k < n && Parent(k) == i ==> !less(xs[k], xs[i])
    ensures OrderedAbove(xs, n, i, less) ==> Ordered(xs, n, less)
    ensures OrderedAround(xs, n, i, less) ==> OrderedBelow(xs, n, i, less)
  {
  }

  /** A heap in which one element was replaced. */
  lemma Replaced<T(!new)>(xs: seq<T>, n: nat, i: nat, x: T, less: (T, T) -> bool)
    requires StrictWeak(less) && n <= |xs| && i < n && Ordered(xs, n, less)
    ensures OrderedAround(xs[i := x], n, i, less)
  {
  }

  lemma FewerOrdered<T>(xs: seq<T>, n: nat, less: (T, T) -> bool)
    requires n < |xs| && Ordered(xs, n + 1, less)
    ensures Ordered(xs, n, less)
  {
  }

  /** A heap that shrinks, with its last element put in the place of another one. */
  lemma LastMoved<T(!new)>(xs: seq<T>, n: nat, i: nat, less: (T, T) -> bool)
    requires StrictWeak(less) && n + 1 == |xs| && i < n && Ordered(xs, n + 1, less)
    ensures OrderedAround(Swapped(xs, i, n), n, i, less)
  {
  }

  lemma Appended<T(!new)>(xs: seq<T>, x: T, less: (T, T) -> bool)
    requires Ordered(xs, |xs|, less)
    ensures OrderedBelow(xs + [x], |xs| + 1, |xs|, less)
  {
  }
}
