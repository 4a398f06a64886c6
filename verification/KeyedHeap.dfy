/** The keyed heap of scheduler/internal/heap/heap.go: a binary heap of keys together with a
    map from keys to objects and their positions. */
module KeyedHeap {
  import opened Wrappers
  import opened HeapOrder

  datatype Item<T> = Item(obj: T, index: nat)

  /** The queue and the map name the same keys, and each item knows its position. */
  ghost predicate Indexed<T>(items: map<Name, Item<T>>, queue: seq<Name>) {
    && (forall i :: 0 <= i < |queue| ==> queue[i] in items && items[queue[i]].index == i)
    && (forall k :: k in items ==> items[k].index < |queue| && queue[items[k].index] == k)
  }

  /** The objects in the order of the queue. */
  ghost function Objects<T>(items: map<Name, Item<T>>, queue: seq<Name>): (xs: seq<T>)
    requires Indexed(items, queue)
    ensures |xs| == |queue| && forall i :: 0 <= i < |xs| ==> xs[i] == items[queue[i]].obj
  {
    seq(|queue|, i requires 0 <= i < |queue| => items[queue[i]].obj)
  }

  ghost function ByKey<T>(items: map<Name, Item<T>>): map<Name, T> {
    map k | k in items :: items[k].obj
  }

  /** Two positions exchanged, with the indices of their items. */
  lemma SwapItems<T>(items: map<Name, Item<T>>, queue: seq<Name>, i: nat, j: nat, q: seq<Name>, m: map<Name, Item<T>>)
    requires Indexed(items, queue) && i < |queue| && j < |queue|
    requires q == Swapped(queue, i, j)
    requires m == items[q[i] := items[q[i]].(index := i)][q[j] := items[q[j]].(index := j)]
    ensures Indexed(m, q) && ByKey(m) == ByKey(items)
    ensures Objects(m, q) == Swapped(Objects(items, queue), i, j)
  {
  }

  /** The last key taken away. */
  lemma ShorterItems<T>(items: map<Name, Item<T>>, queue: seq<Name>, n: nat, less: (T, T) -> bool)
    requires Indexed(items, queue) && n + 1 == |queue|
    requires Ordered(Objects(items, queue), n, less)
    ensures Indexed(items - {queue[n]}, queue[..n])
    ensures ByKey(items - {queue[n]}) == ByKey(items) - {queue[n]}
    ensures Ordered(Objects(items - {queue[n]}, queue[..n]), n, less)
  {
    assert Objects(items - {queue[n]}, queue[..n]) == Objects(items, queue)[..n];
  }

  class Heap<T(!new)> {
    const keyFunc: T -> Option<Name>
    const lessFunc: (T, T) -> bool
    var items: map<Name, Item<T>>
    var queue: seq<Name>

    constructor (keyFunc: T -> Option<Name>, lessFunc: (T, T) -> bool)
      requires StrictWeak(lessFunc)
      ensures Valid() && Contents() == map[]
      ensures this.keyFunc == keyFunc && this.lessFunc == lessFunc
    {
      this.keyFunc, this.lessFunc := keyFunc, lessFunc;
      items, queue := map[], [];
    }

    /** The objects by key. */
    ghost function Contents(): map<Name, T>
      reads this
    {
      ByKey(items)
    }

    ghost predicate Keyed()
      reads this
    {
      StrictWeak(lessFunc) && Indexed(items, queue) && forall k :: k in items ==> keyFunc(items[k].obj) == Some(k)
    }

    ghost predicate Valid()
      reads this
    {
      Keyed() && Ordered(Objects(items, queue), |queue|, lessFunc)
    }

    // ---------- data ----------

    function Less(i: nat, j: nat): (b: bool)
      requires Keyed() && i < |queue| && j < |queue|
      reads this
      ensures b == lessFunc(Objects(items, queue)[i], Objects(items, queue)[j])
    {
      lessFunc(items[queue[i]].obj, items[queue[j]].obj)
    }

    method Swap(i: nat, j: nat)
      requires Keyed() && i < |queue| && j < |queue|
      modifies this
      ensures Keyed() && Contents() == old(Contents()) && queue == Swapped(old(queue), i, j)
      ensures Objects(items, queue) == Swapped(old(Objects(items, queue)), i, j)
    {
      queue := queue[i := queue[j]][j := queue[i]];
      items := items[queue[i] := items[queue[i]].(index := i)];
      items := items[queue[j] := items[queue[j]].(index := j)];
      SwapItems(old(items), old(queue), i, j, queue, items);
    }

    // ---------- container/heap ----------

    /** What sifting leaves alone: the objects and the queue from position n on. */
    ghost predicate Sifting(contents: map<Name, T>, n: nat, rest: seq<Name>)
      reads this
    {
      Keyed() && Contents() == contents && n <= |queue| && queue[n..] == rest
    }

    method Up(start: nat, ghost n: nat)
      requires Keyed() && start < n <= |queue|
      requires OrderedBelow(Objects(items, queue), n, start, lessFunc)
      modifies this
      ensures Sifting(old(Contents()), n, old(queue[n..])) == true
      ensures Ordered(Objects(items, queue), n, lessFunc)
    {
      var j: nat := start;
      while true
        invariant Sifting(old(Contents()), n, old(queue[n..])) == true
        invariant j < n && OrderedBelow(Objects(items, queue), n, j, lessFunc)
        decreases j
      {
        var i: nat := if j == 0 then 0 else (j - 1) / 2;
        if i == j || !Less(j, i) {
          UpDone(Objects(items, queue), n, j, lessFunc);
          return;
        }
        UpStep(Objects(items, queue), n, i, j, lessFunc);
        Swap(i, j);
        j := i;
      }
    }

    /** The child of i that is to move up when i is not in order. */
    method SmallerChild(i: nat, n: nat) returns (j: nat)
      requires Keyed() && n <= |queue| && 2 * i + 1 < n
      ensures i < j < n && Parent(j) == i
      ensures forall k :: 0 <= i < k < n && Parent(k) == i ==>
        !lessFunc(Objects(items, queue)[k], Objects(items, queue)[j])
    {
      var j1 := 2 * i + 1;
      j := if j1 + 1 < n && Less(j1 + 1, j1) then j1 + 1 else j1;
      forall k | 0 <= i < k < n && Parent(k) == i
        ensures !lessFunc(Objects(items, queue)[k], Objects(items, queue)[j])
      {
        assert k == j1 || k == j1 + 1;
      }
    }

    /** Where the sift down has got to from `start`. */
    ghost predicate Sinking(start: nat, i: nat, n: nat)
      requires Keyed() && i < n <= |queue|
      reads this
    {
      if i == start then OrderedAround(Objects(items, queue), n, i, lessFunc)
      else OrderedAbove(Objects(items, queue), n, i, lessFunc)
    }

    method Down(start: nat, n: nat) returns (moved: bool)
      requires Keyed() && start < n <= |queue|
      requires OrderedAround(Objects(items, queue), n, start, lessFunc)
      modifies this
      ensures Sifting(old(Contents()), n, old(queue[n..])) == true
      ensures moved ==> Ordered(Objects(items, queue), n, lessFunc)
      ensures !moved ==> OrderedBelow(Objects(items, queue), n, start, lessFunc)
    {
      var i: nat := start;
      while true
        invariant Sifting(old(Contents()), n, old(queue[n..])) == true
        invariant start <= i < n && Sinking(start, i, n)
        decreases n - i
      {
        if 2 * i + 1 >= n {
          DownDone(Objects(items, queue), n, i, lessFunc);
          return i > start;
        }
        var j := SmallerChild(i, n);
        if !Less(j, i) {
          DownDone(Objects(items, queue), n, i, lessFunc);
          return i > start;
        }
        DownStep(Objects(items, queue), n, i, j, lessFunc);
        Swap(i, j);
        i := j;
      }
    }

    /** data.Push. */
    method Append(key: Name, obj: T)
      requires Valid()
      requires key !in items && keyFunc(obj) == Some(key)
      modifies this
      ensures Keyed() && Contents() == old(Contents())[key := obj] && |queue| == old(|queue|) + 1
      ensures OrderedBelow(Objects(items, queue), |queue|, |queue| - 1, lessFunc)
    {
      hide StrictWeak, Ordered, OrderedBelow;
      Appended(Objects(items, queue), obj, lessFunc);
      ghost var xs := Objects(items, queue);
      items, queue := items[key := Item(obj, |queue|)], queue + [key];
      assert Objects(items, queue) == xs + [obj];
    }

    /** heap.Push. */
    method Push(key: Name, obj: T)
      requires Valid()
      requires key !in items && keyFunc(obj) == Some(key)
      modifies this
      ensures Valid() && Contents() == old(Contents())[key := obj]
    {
      Append(key, obj);
      Up(|queue| - 1, |queue|);
    }

    /** heap.Fix, after the object at position i was replaced. */
    method Fix(i: nat)
      requires Keyed() && i < |queue|
      requires OrderedAround(Objects(items, queue), |queue|, i, lessFunc)
      modifies this
      ensures Valid() && Contents() == old(Contents())
    {
      var moved := Down(i, |queue|);
      if !moved {
        Up(i, |queue|);
      }
    }

    /** data.Pop: the last key of the queue goes. */
    method PopLast() returns (obj: T)
      requires Keyed() && |queue| > 0
      requires Ordered(Objects(items, queue), |queue| - 1, lessFunc)
      modifies this
      ensures Valid()
      ensures var key := old(queue[|queue| - 1]);
        key in old(Contents()) && obj == old(Contents())[key] && Contents() == old(Contents()) - {key}
    {
      var key := queue[|queue| - 1];
      ShorterItems(items, queue, |queue| - 1, lessFunc);
      obj := items[key].obj;
      queue := queue[..|queue| - 1];
      items := items - {key};
    }

    /** heap.Remove. */
    method RemoveAt(i: nat) returns (obj: T)
      requires Valid() && i < |queue|
      modifies this
      ensures Valid()
      ensures var key := old(queue[i]);
        key in old(Contents()) && obj == old(Contents())[key] && Contents() == old(Contents()) - {key}
    {
      hide StrictWeak, Ordered, OrderedBelow, OrderedAround, Indexed;
      var n := |queue| - 1;
      if n != i {
        LastMoved(Objects(items, queue), n, i, lessFunc);
        Swap(i, n);
        var moved := Down(i, n);
        if !moved {
          Up(i, n);
        }
      } else {
        FewerOrdered(Objects(items, queue), n, lessFunc);
      }
      obj := PopLast();
    }

    method Replace(key: Name, obj: T)
      requires Valid()
      requires key in items && keyFunc(obj) == Some(key)
      modifies this`items
      ensures Keyed() && Contents() == old(Contents())[key := obj]
      ensures OrderedAround(Objects(items, queue), |queue|, items[key].index, lessFunc)
    {
      hide StrictWeak, Ordered, OrderedAround;
      var i := items[key].index;
      Replaced(Objects(items, queue), |queue|, i, obj, lessFunc);
      ghost var xs := Objects(items, queue);
      items := items[key := Item(obj, i)];
      assert Objects(items, queue) == xs[i := obj];
    }

    // ---------- Heap ----------

    /** Inserts an object, or replaces the one with its key. */
    method Add(obj: T) returns (r: Outcome)
      requires Valid()
      modifies this
      ensures Valid()
      ensures r == if keyFunc(obj).Some? then Ok else Err
      ensures Contents() == match keyFunc(obj) case Some(key) => old(Contents())[key := obj]
        case None => old(Contents())
    {
      match keyFunc(obj)
      case None => r := Err;
      case Some(key) =>
        if key in items {
          Replace(key, obj);
          Fix(items[key].index);
        } else {
          Push(key, obj);
        }
        r := Ok;
    }

    method AddIfNotPresent(obj: T) returns (r: Outcome)
      requires Valid()
      modifies this
      ensures Valid()
      ensures r == if keyFunc(obj).Some? then Ok else Err
      ensures Contents() == match keyFunc(obj)
        case Some(key) => if key in old(Contents()) then old(Contents()) else old(Contents())[key := obj]
        case None => old(Contents())
    {
      match keyFunc(obj)
      case None => r := Err;
      case Some(key) =>
        if key !in items {
          Push(key, obj);
        }
        r := Ok;
    }

    method Update(obj: T) returns (r: Outcome)
      requires Valid()
      modifies this
      ensures Valid()
      ensures r == if keyFunc(obj).Some? then Ok else Err
      ensures Contents() == match keyFunc(obj) case Some(key) => old(Contents())[key := obj]
        case None => old(Contents())
    {
      r := Add(obj);
    }

    /** Removes the object with the key of `obj`; an unknown key is an error. */
    method Delete(obj: T) returns (r: Outcome)
      requires Valid()
      modifies this
      ensures Valid()
      ensures r == if keyFunc(obj).Some? && keyFunc(obj).value in old(Contents()) then Ok else Err
      ensures Contents() == match keyFunc(obj) case Some(key) => old(Contents()) - {key} case None => old(Contents())
    {
      match keyFunc(obj)
      case None => r := Err;
      case Some(key) =>
        if key in items {
          var _ := RemoveAt(items[key].index);
          r := Ok;
        } else {
          r := Err;
        }
    }

    /** The head, which no object of the heap precedes. */
    method Peek() returns (head: Option<T>)
      requires Valid()
      ensures head.None? <==> Contents() == map[]
      ensures head.Some? ==> IsHead(head.value) && head.value == First()
    {
      EmptyTogether();
      if |queue| > 0 {
        HeadIsFirst();
        head := Some(items[queue[0]].obj);
      } else {
        head := None;
      }
    }

    /** Removes the head. An empty heap panics in the source. */
    method Pop() returns (head: T)
      requires Valid() && Contents() != map[]
      modifies this
      ensures Valid()
      ensures old(IsHead(head)) && head == old(First())
      ensures Contents() == old(Contents()) - {keyFunc(head).value}
    {
      hide StrictWeak, Ordered, OrderedBelow, OrderedAround, Indexed;
      EmptyTogether();
      HeadIsFirst();
      var n := |queue| - 1;
      if n == 0 {
        Swap(0, n);
      } else {
        LastMoved(Objects(items, queue), n, 0, lessFunc);
        Swap(0, n);
        var moved := Down(0, n);
        if !moved {
          UpDone(Objects(items, queue), n, 0, lessFunc);
        }
      }
      head := PopLast();
    }

    /** The object at the head of the queue. */
    ghost function First(): T
      requires Keyed() && Contents() != map[]
      reads this
    {
      EmptyTogether();
      items[queue[0]].obj
    }

    /** An object of the heap that no other one precedes. */
    ghost predicate IsHead(x: T)
      reads this
    {
      && keyFunc(x).Some? && keyFunc(x).value in Contents() && Contents()[keyFunc(x).value] == x
      && forall k :: k in Contents() ==> !lessFunc(Contents()[k], x)
    }

    lemma EmptyTogether()
      requires Keyed()
      ensures |queue| == 0 <==> Contents() == map[]
    {
      if |queue| > 0 { assert queue[0] in Contents(); }
    }

    lemma HeadIsFirst()
      requires Valid() && |queue| > 0
      ensures IsHead(items[queue[0]].obj)
    {
      var xs := Objects(items, queue);
      forall k | k in Contents() ensures !lessFunc(Contents()[k], xs[0]) {
        RootPrecedesAll(xs, |xs|, lessFunc, items[k].index);
      }
    }

    method GetByKey(key: Name) returns (obj: Option<T>)
      requires Keyed()
      ensures obj == if key in Contents() then Some(Contents()[key]) else None
    {
      obj := if key in items then Some(items[key].obj) else None;
    }
  }
}
