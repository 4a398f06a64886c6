/** The recency list of scheduler/internal/cache/cache.go as a sequence of node names. */
module RecencyList {
  import opened Wrappers
  import opened NodeInfo

  function Find(order: seq<Name>, n: Name): (i: nat)
    ensures i <= |order|
    ensures i < |order| ==> order[i] == n
    ensures forall j :: 0 <= j < i ==> order[j] != n
  {
    if order == [] || order[0] == n then 0
    else
      var i := Find(order[1..], n);
      assert forall j :: 1 <= j < i + 1 ==> order[j] == order[1..][j - 1];
      i + 1
  }

  function Without(order: seq<Name>, n: Name): seq<Name> {
    var i := Find(order, n);
    if i < |order| then order[..i] + order[i + 1..] else order
  }

  /** The list after n moved to its head, from wherever it was. */
  function ToFront(order: seq<Name>, n: Name): seq<Name> {
    [n] + Without(order, n)
  }

  function Elements(s: seq<Name>): set<Name> {
    set i | 0 <= i < |s| :: s[i]
  }

  /** The list names the newest item first, then the newest of the rest, and so on. */
  ghost predicate Listed(nodes: map<Name, Info>, order: seq<Name>) {
    if order == [] then nodes == map[]
    else
      && order[0] in nodes
      && (forall n :: n in nodes && n != order[0] ==> nodes[n].generation < nodes[order[0]].generation)
      && Listed(nodes - {order[0]}, order[1..])
  }

  lemma AppendElement(s: seq<Name>, n: Name)
    requires NoDup(s) && n !in Elements(s)
    ensures NoDup(s + [n]) && Elements(s + [n]) == Elements(s) + {n}
  {
    assert (s + [n])[|s|] == n;
    assert forall i :: 0 <= i < |s| ==> (s + [n])[i] == s[i] && s[i] in Elements(s);
  }

  lemma LastElement(s: seq<Name>)
    requires NoDup(s) && s != []
    ensures NoDup(s[..|s| - 1]) && s[|s| - 1] !in Elements(s[..|s| - 1])
    ensures Elements(s) == Elements(s[..|s| - 1]) + {s[|s| - 1]}
  {
    var front := s[..|s| - 1];
    forall n ensures n in Elements(s) <==> n in Elements(front) || n == s[|s| - 1] {
      if n in Elements(s) {
        var i :| 0 <= i < |s| && s[i] == n;
        assert i < |front| ==> front[i] == n;
      }
    }
  }

  /** The list holds every cached item once, with strictly decreasing generations. */
  ghost predicate Sorted(nodes: map<Name, Info>, order: seq<Name>) {
    && NoDup(order) && Elements(order) == nodes.Keys
    && (forall i :: 0 <= i < |order| ==> order[i] in nodes)
    && (forall i, j :: 0 <= i < j < |order| ==> nodes[order[i]].generation > nodes[order[j]].generation)
  }

  lemma WithoutElements(order: seq<Name>, n: Name)
    requires NoDup(order)
    ensures NoDup(Without(order, n))
    ensures Elements(Without(order, n)) == Elements(order) - {n}
  {
    var i := Find(order, n);
    var w := Without(order, n);
    forall m ensures m in Elements(w) <==> m in Elements(order) && m != n {
      if m in Elements(order) && m != n {
        var j :| 0 <= j < |order| && order[j] == m;
        assert w[if i <= j && i < |order| then j - 1 else j] == m;
      }
      if m in Elements(w) {
        var j :| 0 <= j < |w| && w[j] == m;
        var k := WithoutIndex(order, n, j);
        assert order[k] == m;
      }
    }
  }

  /** An element of the shortened list comes from a position at or just after its own. */
  lemma WithoutIndex(order: seq<Name>, n: Name, j: nat) returns (k: nat)
    requires j < |Without(order, n)|
    ensures k < |order| && Without(order, n)[j] == order[k]
    ensures k == if Find(order, n) <= j && Find(order, n) < |order| then j + 1 else j
  {
    k := if Find(order, n) <= j && Find(order, n) < |order| then j + 1 else j;
  }

  lemma WithoutSorted(nodes: map<Name, Info>, order: seq<Name>, n: Name)
    requires Sorted(nodes, order)
    ensures Sorted(nodes - {n}, Without(order, n))
  {
    var w := Without(order, n);
    WithoutElements(order, n);
    forall i | 0 <= i < |w| ensures w[i] in nodes - {n} {
      assert w[i] in Elements(w);
    }
    forall i, j | 0 <= i < j < |w| ensures nodes[w[i]].generation > nodes[w[j]].generation {
      var a := WithoutIndex(order, n, i);
      var b := WithoutIndex(order, n, j);
    }
  }

  lemma FrontSorted(nodes: map<Name, Info>, order: seq<Name>, n: Name, v: Info)
    requires Sorted(nodes, order) && n !in nodes
    requires forall m :: m in nodes ==> nodes[m].generation < v.generation
    ensures Sorted(nodes[n := v], [n] + order)
  {
    ElementsOfFront(n, order);
    var o := [n] + order;
    forall i, j | 0 <= i < j < |o|
      ensures o[j] in nodes && o[i] != o[j]
      ensures nodes[n := v][o[i]].generation > nodes[n := v][o[j]].generation
    {
      assert o[j] == order[j - 1];
      if i > 0 { assert o[i] == order[i - 1]; }
    }
  }

  lemma ElementsOfFront(n: Name, order: seq<Name>)
    ensures Elements([n] + order) == Elements(order) + {n}
  {
    var o := [n] + order;
    assert o[0] == n && forall i :: 0 <= i < |order| ==> o[i + 1] == order[i];
  }

  lemma TouchSorted(nodes: map<Name, Info>, order: seq<Name>, n: Name, v: Info)
    requires Sorted(nodes, order)
    requires forall m :: m in nodes ==> nodes[m].generation < v.generation
    ensures Sorted(nodes[n := v], ToFront(order, n))
  {
    WithoutSorted(nodes, order, n);
    FrontSorted(nodes - {n}, Without(order, n), n, v);
    assert (nodes - {n})[n := v] == nodes[n := v];
  }

  lemma {:induction false} ListedIsSorted(nodes: map<Name, Info>, order: seq<Name>)
    requires Listed(nodes, order)
    ensures Sorted(nodes, order) == true
    decreases |order|
  {
    if order != [] {
      var rest := order[1..];
      ListedIsSorted(nodes - {order[0]}, rest);
      assert order == [order[0]] + rest;
      assert (nodes - {order[0]})[order[0] := nodes[order[0]]] == nodes;
      assert forall m :: m in nodes - {order[0]} ==> nodes[m].generation < nodes[order[0]].generation;
      FrontSorted(nodes - {order[0]}, rest, order[0], nodes[order[0]]);
    }
  }

  lemma {:induction false} SortedIsListed(nodes: map<Name, Info>, order: seq<Name>)
    requires Sorted(nodes, order)
    ensures Listed(nodes, order) == true
    decreases |order|
  {
    if order == [] {
      assert nodes.Keys == {};
    } else {
      HeadIsNewest(nodes, order);
      WithoutHead(order);
      WithoutSorted(nodes, order, order[0]);
      SortedIsListed(nodes - {order[0]}, order[1..]);
    }
  }

  lemma HeadIsNewest(nodes: map<Name, Info>, order: seq<Name>)
    requires Sorted(nodes, order) && order != []
    ensures order[0] in nodes
    ensures forall n :: n in nodes && n != order[0] ==> nodes[n].generation < nodes[order[0]].generation
  {
    forall n | n in nodes && n != order[0] ensures nodes[n].generation < nodes[order[0]].generation {
      assert n in Elements(order);
    }
  }

  lemma WithoutHead(a: seq<Name>)
    requires a != []
    ensures Without(a, a[0]) == a[1..]
  {
  }

  /** A new or changed item with the newest generation of all goes to the front. */
  lemma TouchListed(nodes: map<Name, Info>, order: seq<Name>, n: Name, v: Info)
    requires Listed(nodes, order)
    requires forall m :: m in nodes ==> nodes[m].generation < v.generation
    ensures Listed(nodes[n := v], ToFront(order, n)) == true
  {
    ListedIsSorted(nodes, order);
    TouchSorted(nodes, order, n, v);
    SortedIsListed(nodes[n := v], ToFront(order, n));
  }

  lemma DropListed(nodes: map<Name, Info>, order: seq<Name>, n: Name)
    requires Listed(nodes, order)
    ensures Listed(nodes - {n}, Without(order, n)) == true
  {
    ListedIsSorted(nodes, order);
    WithoutSorted(nodes, order, n);
    SortedIsListed(nodes - {n}, Without(order, n));
  }

  /** A change that gets no new generation moves no item. */
  lemma {:induction false} SameGenerationListed(nodes: map<Name, Info>, order: seq<Name>, n: Name, v: Info)
    requires Listed(nodes, order) && n in nodes && v.generation == nodes[n].generation
    ensures Listed(nodes[n := v], order)
    decreases |order|
  {
    var a := order[0];
    if a == n {
      assert nodes[n := v] - {a} == nodes - {a};
    } else {
      SameGenerationListed(nodes - {a}, order[1..], n, v);
      assert nodes[n := v] - {a} == (nodes - {a})[n := v];
    }
  }

  lemma ListedMember(nodes: map<Name, Info>, order: seq<Name>, n: Name)
    requires Listed(nodes, order)
    ensures n in nodes <==> n in order
  {
    ListedIsSorted(nodes, order);
    assert n in Elements(order) <==> n in order;
  }

  /** The items newer than any generation are a prefix of the list, so a walk from the head
      may stop at the first item that is not newer. */
  lemma NewerItemsAreAPrefix(nodes: map<Name, Info>, order: seq<Name>, g: int, i: nat, n: Name)
    requires Listed(nodes, order) && i < |order| && order[i] in nodes && nodes[order[i]].generation <= g
    requires n in nodes && nodes[n].generation > g
    ensures n in order[..i]
  {
    ListedIsSorted(nodes, order);
    assert n in Elements(order);
    var j :| 0 <= j < |order| && order[j] == n;
    assert j < i;
    assert order[..i][j] == n;
  }

  /** The list is determined by the generations of the items. */
  lemma {:induction false} ListIsDetermined(nodes: map<Name, Info>, a: seq<Name>, b: seq<Name>)
    requires Listed(nodes, a) && Listed(nodes, b)
    ensures a == b
    decreases |a|
  {
    if a != [] {
      assert b != [] && a[0] == b[0];
      ListIsDetermined(nodes - {a[0]}, a[1..], b[1..]);
      assert a == [a[0]] + a[1..] && b == [b[0]] + b[1..];
    }
  }
}
