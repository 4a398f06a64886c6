/** The zone tree of scheduler/internal/cache/node_tree.go and its round-robin enumeration. */
module NodeTree {
  import opened Wrappers

  // ---------- The reference enumeration: one round takes the next node of every zone ----------

  function Head<T>(list: seq<T>, r: nat): seq<T> {
    if r < |list| then [list[r]] else []
  }

  function Tail<T>(list: seq<T>, r: nat): seq<T> {
    if r < |list| then list[r..] else []
  }

  /** The nodes at position r of zones j, j+1, ... that have one, in zone order. */
  function Round<T>(lists: seq<seq<T>>, r: nat, j: nat): seq<T>
    decreases |lists| - j
  {
    if j >= |lists| then [] else Head(lists[j], r) + Round(lists, r, j + 1)
  }

  /** The length of the longest of zones j, j+1, ... */
  function Longest<T>(lists: seq<seq<T>>, j: nat): (m: nat)
    ensures forall i :: j <= i < |lists| ==> |lists[i]| <= m
    ensures m > 0 ==> exists i :: j <= i < |lists| && |lists[i]| == m
    decreases |lists| - j
  {
    if j >= |lists| then 0
    else
      var rest := Longest(lists, j + 1);
      if |lists[j]| > rest then |lists[j]| else rest
  }

  /** All rounds from r on. */
  function Rounds<T>(lists: seq<seq<T>>, r: nat): seq<T>
    decreases Longest(lists, 0) - r
  {
    if r >= Longest(lists, 0) then [] else Round(lists, r, 0) + Rounds(lists, r + 1)
  }

  /** What zones j.. hold from position r on, with multiplicity. */
  ghost function Content<T>(lists: seq<seq<T>>, r: nat, j: nat): multiset<T>
    decreases |lists| - j
  {
    if j >= |lists| then multiset{} else multiset(Tail(lists[j], r)) + Content(lists, r, j + 1)
  }

  lemma HeadAndTail<T>(list: seq<T>, r: nat)
    ensures multiset(Tail(list, r)) == multiset(Head(list, r)) + multiset(Tail(list, r + 1))
  {
    assert Tail(list, r) == Head(list, r) + Tail(list, r + 1);
  }

  lemma {:induction false} RoundSplitsContent<T>(lists: seq<seq<T>>, r: nat, j: nat)
    ensures Content(lists, r, j) == multiset(Round(lists, r, j)) + Content(lists, r + 1, j)
    decreases |lists| - j
  {
    if j < |lists| {
      RoundSplitsContent(lists, r, j + 1);
      HeadAndTail(lists[j], r);
    }
  }

  lemma {:induction false} ExhaustedFrom<T>(lists: seq<seq<T>>, r: nat, j: nat)
    requires forall i :: j <= i < |lists| ==> |lists[i]| <= r
    ensures Content(lists, r, j) == multiset{}
    ensures Round(lists, r, j) == []
    decreases |lists| - j
  {
    if j < |lists| { ExhaustedFrom(lists, r, j + 1); }
  }

  /** The rounds from r on list exactly what the zones hold from position r on. */
  lemma {:induction false} RoundsPermuteContent<T>(lists: seq<seq<T>>, r: nat)
    ensures multiset(Rounds(lists, r)) == Content(lists, r, 0)
    decreases Longest(lists, 0) - r
  {
    if r >= Longest(lists, 0) {
      ExhaustedFrom(lists, r, 0);
    } else {
      RoundsPermuteContent(lists, r + 1);
      RoundSplitsContent(lists, r, 0);
    }
  }

  // ---------- Positions inside the enumeration ----------

  /** Zone cursors are those reached in round r with zone index zi: zones before zi have
      given one node more, unless exhausted. */
  predicate AtPosition<T>(lists: seq<seq<T>>, cursors: seq<nat>, r: nat, zi: nat) {
    && |cursors| == |lists| && zi <= |lists|
    && forall i :: 0 <= i < |cursors| ==> cursors[i] == CursorAt(|lists[i]|, if i < zi then r + 1 else r)
  }

  function CursorAt(length: nat, taken: nat): nat {
    if taken < length then taken else length
  }

  /** What is still to come at round r, zone zi. */
  function PendingFrom<T>(lists: seq<seq<T>>, r: nat, zi: nat): seq<T> {
    Round(lists, r, zi) + Rounds(lists, r + 1)
  }

  /** Fairness: two zones that both still have nodes never differ by more than one. */
  lemma CursorsAreFair<T>(lists: seq<seq<T>>, cursors: seq<nat>, r: nat, zi: nat, i: nat, j: nat)
    requires AtPosition(lists, cursors, r, zi) && i < |lists| && j < |lists|
    requires cursors[i] < |lists[i]| && cursors[j] < |lists[j]|
    ensures cursors[i] <= cursors[j] + 1 && cursors[j] <= cursors[i] + 1
  {
    assert cursors[i] == CursorAt(|lists[i]|, if i < zi then r + 1 else r);
    assert cursors[j] == CursorAt(|lists[j]|, if j < zi then r + 1 else r);
  }

  lemma StartIsWholeEnumeration<T>(lists: seq<seq<T>>)
    ensures PendingFrom(lists, 0, 0) == Rounds(lists, 0)
  {
    if Longest(lists, 0) == 0 { ExhaustedFrom(lists, 0, 0); }
  }

  lemma NothingPending<T>(lists: seq<seq<T>>, r: nat, zi: nat)
    ensures lists == [] ==> PendingFrom(lists, r, zi) == []
  {
  }

  /** The cursors are at round r, zone zi, and the nodes of `pending` are still to come. */
  predicate Awaiting<T(==)>(lists: seq<seq<T>>, cursors: seq<nat>, r: nat, zi: nat, pending: seq<T>) {
    AtPosition(lists, cursors, r, zi) && PendingFrom(lists, r, zi) == pending != []
  }

  /** Something pending means some zone is not exhausted. */
  lemma PendingZone<T>(lists: seq<seq<T>>, cursors: seq<nat>, r: nat, zi: nat) returns (z: nat)
    requires AtPosition(lists, cursors, r, zi) && PendingFrom(lists, r, zi) != []
    ensures z < |lists| && cursors[z] < |lists[z]|
  {
    if forall i :: 0 <= i < |lists| ==> cursors[i] >= |lists[i]| {
      forall i | 0 <= i < |lists| ensures |lists[i]| <= if i < zi then r + 1 else r {
        assert cursors[i] >= |lists[i]|;
      }
      ExhaustedFrom(lists, r, zi);
      assert false;
    }
    z :| 0 <= z < |lists| && cursors[z] < |lists[z]|;
  }

  /** Zones passed on the way from zone index zi round to zone z. */
  function Distance(zi: nat, z: nat, len: nat): int {
    if zi <= z then z - zi else z + len - zi
  }

  /** A scan at zone zi that has `pending` still to come and reaches the unexhausted zone z
      before it has passed every zone, n of them so far. */
  predicate Scanning<T(==)>(
    lists: seq<seq<T>>, cursors: seq<nat>, r: nat, zi: nat, pending: seq<T>, z: nat, n: nat)
  {
    && Awaiting(lists, cursors, r, zi, pending)
    && z < |lists| && cursors[z] < |lists[z]|
    && n + Distance(zi, z, |lists|) < |lists|
  }

  /** Going round to zone 0 starts the next round. */
  lemma WrapKeepsScanning<T>(
    lists: seq<seq<T>>, cursors: seq<nat>, r: nat, zi: nat, next: nat, pending: seq<T>, z: nat, n: nat)
    requires Scanning(lists, cursors, r, zi, pending, z, n) == true
    requires zi == |lists| && next == r + 1
    ensures Scanning(lists, cursors, next, 0, pending, z, n) == true
  {
    assert Rounds(lists, next) == pending;
  }

  /** Passing an exhausted zone keeps what is pending. */
  lemma SkipKeepsScanning<T>(
    lists: seq<seq<T>>, cursors: seq<nat>, r: nat, zi: nat, next: nat, pending: seq<T>, z: nat, n: nat, m: nat)
    requires Scanning(lists, cursors, r, zi, pending, z, n) == true
    requires zi < |lists| == |cursors| && next == zi + 1 && m == n + 1
    requires cursors[zi] >= |lists[zi]|
    ensures Scanning(lists, cursors, r, next, pending, z, m) == true
    ensures m < |lists|
  {
    assert cursors[zi] == CursorAt(|lists[zi]|, r);
    SkippedPosition(lists, cursors, r, zi, next);
    assert Head(lists[zi], r) == [];
    assert Round(lists, r, zi) == Round(lists, r, next);
  }

  lemma SkippedPosition<T>(lists: seq<seq<T>>, cursors: seq<nat>, r: nat, zi: nat, next: nat)
    requires AtPosition(lists, cursors, r, zi) && zi < |lists| && next == zi + 1
    requires cursors[zi] >= |lists[zi]|
    ensures AtPosition(lists, cursors, r, next)
  {
  }

  lemma CursorsAfterTake<T>(lists: seq<seq<T>>, cursors: seq<nat>, r: nat, zi: nat, next: nat, taken: nat)
    requires AtPosition(lists, cursors, r, zi) && zi < |lists| && next == zi + 1
    requires cursors[zi] < |lists[zi]| && taken == cursors[zi] + 1
    ensures cursors[zi] == r && AtPosition(lists, cursors[zi := taken], r, next) == true
  {
  }

  /** Taking the node at the cursor of a zone that has one takes the next pending node. */
  lemma TakeAdvances<T>(
    lists: seq<seq<T>>, cursors: seq<nat>, r: nat, zi: nat, next: nat, taken: nat, pending: seq<T>)
    requires Awaiting(lists, cursors, r, zi, pending) == true
    requires zi < |lists| == |cursors| && next == zi + 1
    requires cursors[zi] < |lists[zi]| && taken == cursors[zi] + 1
    ensures AtPosition(lists, cursors[zi := taken], r, next) == true
    ensures pending == [lists[zi][cursors[zi]]] + PendingFrom(lists, r, next)
  {
    CursorsAfterTake(lists, cursors, r, zi, next, taken);
    PrependAssociates(lists[zi][r], Round(lists, r, next), Rounds(lists, r + 1));
  }

  lemma PrependAssociates<T>(x: T, a: seq<T>, b: seq<T>)
    ensures ([x] + a) + b == [x] + (a + b)
  {
  }

  // ---------- The contents of the tree ----------

  datatype NodeArray = NodeArray(nodes: seq<Name>, lastIndex: nat)

  lemma {:induction false} NoDupMultiset<T>(s: seq<T>, x: T)
    requires NoDup(s)
    ensures multiset(s)[x] == if x in s then 1 else 0
  {
    if s != [] {
      assert s == [s[0]] + s[1..];
      NoDupMultiset(s[1..], x);
    }
  }

  lemma MultisetNoDup<T>(s: seq<T>)
    requires forall x :: multiset(s)[x] <= 1
    ensures NoDup(s)
  {
    forall i, j | 0 <= i < j < |s| ensures s[i] != s[j] {
      var front, back := s[..j], s[j..];
      assert s == front + back && front[i] == s[i] && back[0] == s[j];
      assert multiset(s)[s[j]] == multiset(front)[s[j]] + multiset(back)[s[j]];
      assert s[i] in multiset(front) && s[j] in multiset(back);
    }
  }

  /** The zone list names each zone of the map once; every array is non-empty and
      duplicate-free, and holds only nodes of its zone. */
  ghost predicate Consistent(zones: seq<Name>, tree: map<Name, NodeArray>, zoneOf: Name -> Name) {
    && NoDup(zones)
    && (forall i :: 0 <= i < |zones| ==> zones[i] in tree)
    && (forall z :: z in tree ==> z in zones)
    && (forall z :: z in tree ==> tree[z].nodes != [] && NoDup(tree[z].nodes))
    && (forall z, k :: z in tree && 0 <= k < |tree[z].nodes| ==> zoneOf(tree[z].nodes[k]) == z)
  }

  /** A node is in the tree when the array of its zone lists it. */
  ghost predicate Holds(tree: map<Name, NodeArray>, zoneOf: Name -> Name, x: Name) {
    zoneOf(x) in tree && x in tree[zoneOf(x)].nodes
  }

  ghost function NamesIn(tree: map<Name, NodeArray>, zoneOf: Name -> Name): set<Name> {
    set z, x | z in tree && x in tree[z].nodes && Holds(tree, zoneOf, x) :: x
  }

  lemma NamesAreHeld(tree: map<Name, NodeArray>, zoneOf: Name -> Name)
    ensures forall x :: x in NamesIn(tree, zoneOf) <==> Holds(tree, zoneOf, x)
  {
    forall x | Holds(tree, zoneOf, x) ensures x in NamesIn(tree, zoneOf) {
      assert zoneOf(x) in tree && x in tree[zoneOf(x)].nodes;
    }
  }

  function Lists(zones: seq<Name>, tree: map<Name, NodeArray>): seq<seq<Name>>
    requires forall i :: 0 <= i < |zones| ==> zones[i] in tree
  {
    seq(|zones|, i requires 0 <= i < |zones| => tree[zones[i]].nodes)
  }

  function Cursors(zones: seq<Name>, tree: map<Name, NodeArray>): seq<nat>
    requires forall i :: 0 <= i < |zones| ==> zones[i] in tree
  {
    seq(|zones|, i requires 0 <= i < |zones| => tree[zones[i]].lastIndex)
  }

  lemma {:induction false} ContentCountsOnce(
    zones: seq<Name>, tree: map<Name, NodeArray>, zoneOf: Name -> Name, j: nat, x: Name)
    requires Consistent(zones, tree, zoneOf) && j <= |zones|
    ensures Content(Lists(zones, tree), 0, j)[x]
         == if zoneOf(x) in zones[j..] && Holds(tree, zoneOf, x) then 1 else 0
    decreases |zones| - j
  {
    if j < |zones| {
      ContentCountsOnce(zones, tree, zoneOf, j + 1, x);
      ZoneCountsOnce(zones, tree, zoneOf, j, x);
      ZoneComesOnce(zones, j, zoneOf(x));
      FirstList(zones, tree, j, x);
    }
  }

  lemma FirstList(zones: seq<Name>, tree: map<Name, NodeArray>, j: nat, x: Name)
    requires (forall i :: 0 <= i < |zones| ==> zones[i] in tree) && j < |zones|
    ensures Content(Lists(zones, tree), 0, j)[x]
         == multiset(tree[zones[j]].nodes)[x] + Content(Lists(zones, tree), 0, j + 1)[x]
  {
    var list := tree[zones[j]].nodes;
    assert Lists(zones, tree)[j] == list && Tail(list, 0) == list;
  }

  lemma ZoneCountsOnce(zones: seq<Name>, tree: map<Name, NodeArray>, zoneOf: Name -> Name, j: nat, x: Name)
    requires Consistent(zones, tree, zoneOf) && j < |zones|
    ensures multiset(tree[zones[j]].nodes)[x] == if zoneOf(x) == zones[j] && Holds(tree, zoneOf, x) then 1 else 0
  {
    NoDupMultiset(tree[zones[j]].nodes, x);
  }

  lemma ZoneComesOnce(zones: seq<Name>, j: nat, z: Name)
    requires NoDup(zones) && j < |zones|
    ensures z in zones[j..] <==> z == zones[j] || z in zones[j + 1..]
    ensures zones[j] !in zones[j + 1..]
  {
    assert zones[j..] == [zones[j]] + zones[j + 1..];
  }

  /** The enumeration lists every node name of the tree once. */
  lemma EnumerationIsPermutation(zones: seq<Name>, tree: map<Name, NodeArray>, zoneOf: Name -> Name)
    requires Consistent(zones, tree, zoneOf)
    ensures var e := Rounds(Lists(zones, tree), 0);
      && multiset(e) == multiset(NamesIn(tree, zoneOf))
      && NoDup(e)
      && |e| == |NamesIn(tree, zoneOf)|
      && (forall x :: x in e <==> x in NamesIn(tree, zoneOf))
  {
    var e := Rounds(Lists(zones, tree), 0);
    var names := NamesIn(tree, zoneOf);
    RoundsPermuteContent(Lists(zones, tree), 0);
    NamesAreHeld(tree, zoneOf);
    forall x ensures multiset(e)[x] == multiset(names)[x] {
      ContentCountsOnce(zones, tree, zoneOf, 0, x);
      assert zones[0..] == zones;
    }
    assert multiset(e) == multiset(names);
    MultisetNoDup(e);
    assert |multiset(e)| == |e|;
    forall x ensures x in e <==> x in names {
      assert x in e <==> x in multiset(e);
    }
  }

  predicate SameNodes(a: map<Name, NodeArray>, b: map<Name, NodeArray>) {
    a.Keys == b.Keys && forall z :: z in a ==> a[z].nodes == b[z].nodes
  }

  /** Moving cursors changes neither the names nor the enumeration. */
  lemma SameNodesSameTree(zones: seq<Name>, a: map<Name, NodeArray>, b: map<Name, NodeArray>, zoneOf: Name -> Name)
    requires Consistent(zones, a, zoneOf) && SameNodes(a, b)
    ensures Consistent(zones, b, zoneOf)
    ensures NamesIn(a, zoneOf) == NamesIn(b, zoneOf)
    ensures Lists(zones, a) == Lists(zones, b)
  {
    NamesAreHeld(a, zoneOf);
    NamesAreHeld(b, zoneOf);
    assert forall x :: Holds(a, zoneOf, x) <==> Holds(b, zoneOf, x);
  }

  /** Moving one cursor on keeps everything but that cursor. */
  lemma AdvanceKeepsTree(
    zones: seq<Name>, a: map<Name, NodeArray>, zoneOf: Name -> Name, zi: nat, b: map<Name, NodeArray>)
    requires Consistent(zones, a, zoneOf) && zi < |zones|
    requires a[zones[zi]].lastIndex < |a[zones[zi]].nodes|
    requires b == a[zones[zi] := a[zones[zi]].(lastIndex := a[zones[zi]].lastIndex + 1)]
    ensures Consistent(zones, b, zoneOf)
    ensures NamesIn(a, zoneOf) == NamesIn(b, zoneOf)
    ensures Lists(zones, b) == Lists(zones, a)
    ensures Cursors(zones, b) == Cursors(zones, a)[zi := a[zones[zi]].lastIndex + 1]
    ensures a[zones[zi]].nodes[a[zones[zi]].lastIndex] in NamesIn(b, zoneOf)
  {
    SameNodesSameTree(zones, a, b, zoneOf);
    NamesAreHeld(a, zoneOf);
  }

  lemma AppendKeepsConsistent(
    zones: seq<Name>, a: map<Name, NodeArray>, zoneOf: Name -> Name, name: Name, nodes: seq<Name>, last: nat)
    requires Consistent(zones, a, zoneOf) && !Holds(a, zoneOf, name)
    requires nodes == (if zoneOf(name) in a then a[zoneOf(name)].nodes else []) + [name]
    ensures var zone := zoneOf(name);
      var b := a[zone := NodeArray(nodes, last)];
      && Consistent(if zone in a then zones else zones + [zone], b, zoneOf)
      && NamesIn(b, zoneOf) == NamesIn(a, zoneOf) + {name} && name !in NamesIn(a, zoneOf)
  {
    hide NamesIn;
    var b := a[zoneOf(name) := NodeArray(nodes, last)];
    NamesAreHeld(a, zoneOf);
    NamesAreHeld(b, zoneOf);
    assert nodes[|nodes| - 1] == name;
    assert forall x :: Holds(b, zoneOf, x) <==> Holds(a, zoneOf, x) || x == name;
  }

  lemma RemovalKeepsNames(
    a: map<Name, NodeArray>, zoneOf: Name -> Name, name: Name, i: nat, rest: seq<Name>, b: map<Name, NodeArray>)
    requires zoneOf(name) in a && NoDup(a[zoneOf(name)].nodes)
    requires i < |a[zoneOf(name)].nodes| && a[zoneOf(name)].nodes[i] == name
    requires rest == a[zoneOf(name)].nodes[..i] + a[zoneOf(name)].nodes[i + 1..]
    requires b == if rest == [] then a - {zoneOf(name)}
      else a[zoneOf(name) := NodeArray(rest, a[zoneOf(name)].lastIndex)]
    ensures NoDup(rest)
    ensures NamesIn(b, zoneOf) == NamesIn(a, zoneOf) - {name} && name in NamesIn(a, zoneOf)
  {
    var nodes := a[zoneOf(name)].nodes;
    NamesAreHeld(a, zoneOf);
    NamesAreHeld(b, zoneOf);
    assert nodes == nodes[..i] + [name] + nodes[i + 1..];
    assert name !in rest && forall x :: x in nodes <==> x == name || x in rest;
    assert forall x :: Holds(b, zoneOf, x) <==> Holds(a, zoneOf, x) && x != name;
  }

  lemma RemovalKeepsConsistent(
    zones: seq<Name>, a: map<Name, NodeArray>, zoneOf: Name -> Name, zone: Name, i: nat, rest: seq<Name>,
    newZones: seq<Name>, b: map<Name, NodeArray>)
    requires Consistent(zones, a, zoneOf) && zone in a && i < |a[zone].nodes|
    requires rest == a[zone].nodes[..i] + a[zone].nodes[i + 1..] && NoDup(rest)
    requires b == if rest == [] then a - {zone} else a[zone := NodeArray(rest, a[zone].lastIndex)]
    requires NoDup(newZones)
    requires forall z :: z in newZones <==> z in zones && (z != zone || rest != [])
    ensures Consistent(newZones, b, zoneOf)
  {
    forall k | 0 <= k < |newZones| ensures newZones[k] in b {
      assert newZones[k] in zones;
    }
    forall z, k | z in b && 0 <= k < |b[z].nodes| ensures zoneOf(b[z].nodes[k]) == z {
      assert b[z].nodes[k] == a[z].nodes[if z != zone || k < i then k else k + 1];
    }
  }

  function NodesOf(tree: map<Name, NodeArray>, z: Name): seq<Name> {
    if z in tree then tree[z].nodes else []
  }

  /** A list without a name, in its order. */
  function Dropped(s: seq<Name>, x: Name): seq<Name> {
    if s == [] then [] else (if s[0] == x then [] else [s[0]]) + Dropped(s[1..], x)
  }

  lemma {:induction false} NothingDropped(s: seq<Name>, x: Name)
    requires x !in s
    ensures Dropped(s, x) == s
  {
    if s != [] { NothingDropped(s[1..], x); }
  }

  lemma {:induction false} DroppedAt(s: seq<Name>, i: nat)
    requires NoDup(s) && i < |s|
    ensures Dropped(s, s[i]) == s[..i] + s[i + 1..]
  {
    if i == 0 {
      assert s[0] !in s[1..];
      NothingDropped(s[1..], s[0]);
    } else {
      DroppedAt(s[1..], i - 1);
      assert s[1..][..i - 1] == s[1..i] && s[1..][i..] == s[i + 1..];
      assert [s[0]] + s[1..i] == s[..i];
    }
  }

  // ---------- The tree ----------

  class Tree {
    /** The zone key of a node name (scheduler/helper/node.go). */
    const zoneOf: Name -> Name
    var tree: map<Name, NodeArray>
    var zones: seq<Name>
    var zoneIndex: nat
    var numNodes: nat
    /** The round the enumeration is in. */
    ghost var round: nat

    ghost predicate Valid()
      reads this
    {
      Consistent(zones, tree, zoneOf) && numNodes == |Names()|
    }

    ghost function Names(): set<Name>
      reads this
    {
      NamesIn(tree, zoneOf)
    }

    /** The full enumeration of the tree. */
    ghost function Enumeration(): seq<Name>
      requires Valid()
      reads this
    {
      Rounds(Lists(zones, tree), 0)
    }

    /** True when no node was added or removed since the cursors were last reset, and the
        nodes of `pending`, in this order, are those the next calls of `Next` return. */
    ghost predicate WillReturn(pending: seq<Name>)
      requires Valid()
      reads this
    {
      && AtPosition(Lists(zones, tree), Cursors(zones, tree), round, zoneIndex)
      && PendingFrom(Lists(zones, tree), round, zoneIndex) == pending
    }

    constructor (zoneOf: Name -> Name)
      ensures Valid() && Names() == {} && this.zoneOf == zoneOf
    {
      this.zoneOf := zoneOf;
      tree := map[];
      zones := [];
      zoneIndex, numNodes, round := 0, 0, 0;
    }

    method AddNode(name: Name)
      requires Valid()
      modifies this
      ensures Valid() && Names() == old(Names()) + {name}
      ensures name in old(Names()) ==> tree == old(tree) && zones == old(zones)
      ensures name !in old(Names()) ==>
        && (forall z :: NodesOf(tree, z) == NodesOf(old(tree), z) + if z == zoneOf(name) then [name] else [])
        && zones == old(zones) + if zoneOf(name) in old(tree) then [] else [zoneOf(name)]
    {
      hide Consistent, NamesIn;
      var zone := zoneOf(name);
      NamesAreHeld(tree, zoneOf);
      if zone in tree {
        var na := tree[zone];
        var i := 0;
        while i < |na.nodes|
          invariant 0 <= i <= |na.nodes|
          invariant name !in na.nodes[..i]
        {
          if na.nodes[i] == name {
            return;
          }
          i := i + 1;
        }
        AppendKeepsConsistent(zones, tree, zoneOf, name, na.nodes + [name], na.lastIndex);
        tree := tree[zone := NodeArray(na.nodes + [name], na.lastIndex)];
      } else {
        AppendKeepsConsistent(zones, tree, zoneOf, name, [name], 0);
        zones := zones + [zone];
        tree := tree[zone := NodeArray([name], 0)];
      }
      numNodes := numNodes + 1;
    }

    /** Returns false, the source's error, when the node is not in the tree. */
    method RemoveNode(name: Name) returns (ok: bool)
      requires Valid()
      modifies this
      ensures Valid()
      ensures ok == (name in old(Names()))
      ensures Names() == old(Names()) - {name}
      ensures forall z :: NodesOf(tree, z)
                       == (if z == zoneOf(name) then Dropped(NodesOf(old(tree), z), name) else NodesOf(old(tree), z))
      ensures zones == if zoneOf(name) in old(tree) && zoneOf(name) !in tree then Dropped(old(zones), zoneOf(name))
                       else old(zones)
    {
      hide NamesIn, Dropped;
      var zone := zoneOf(name);
      if zone in tree {
        var na := tree[zone];
        var i := 0;
        while i < |na.nodes|
          invariant 0 <= i <= |na.nodes|
          invariant name !in na.nodes[..i]
        {
          if na.nodes[i] == name {
            RemoveFromZone(name, i);
            return true;
          }
          i := i + 1;
        }
      }
      NamesAreHeld(tree, zoneOf);
      NothingDropped(NodesOf(tree, zone), name);
      return false;
    }

    /** Removes the name at a position of its zone. */
    method RemoveFromZone(name: Name, i: nat)
      requires Valid()
      requires zoneOf(name) in tree && i < |tree[zoneOf(name)].nodes| && tree[zoneOf(name)].nodes[i] == name
      modifies this
      ensures Valid() && name in old(Names()) && Names() == old(Names()) - {name}
      ensures forall z :: NodesOf(tree, z)
                       == (if z == zoneOf(name) then Dropped(NodesOf(old(tree), z), name) else NodesOf(old(tree), z))
      ensures zones == if zoneOf(name) in tree then old(zones) else Dropped(old(zones), zoneOf(name))
    {
      hide NamesIn, Dropped;
      var zone := zoneOf(name);
      var na := tree[zone];
      var rest := na.nodes[..i] + na.nodes[i + 1..];
      DroppedAt(na.nodes, i);
      tree := tree[zone := NodeArray(rest, na.lastIndex)];
      if |rest| == 0 {
        RemoveZone(zone);
      }
      RemovalKeepsNames(old(tree), zoneOf, name, i, rest, tree);
      RemovalKeepsConsistent(old(zones), old(tree), zoneOf, zone, i, rest, zones, tree);
      numNodes := numNodes - 1;
    }

    method RemoveZone(zone: Name)
      requires zone in tree && zone in zones && NoDup(zones)
      modifies this`tree, this`zones
      ensures tree == old(tree) - {zone}
      ensures NoDup(zones) && zones == Dropped(old(zones), zone)
      ensures forall z :: z in zones <==> z in old(zones) && z != zone
    {
      tree := tree - {zone};
      var i := 0;
      while i < |zones|
        invariant 0 <= i <= |zones|
        invariant zone !in zones[..i]
        invariant zones == old(zones)
      {
        if zones[i] == zone {
          DroppedAt(zones, i);
          zones := zones[..i] + zones[i + 1..];
          assert old(zones) == old(zones)[..i] + [zone] + old(zones)[i + 1..];
          return;
        }
        i := i + 1;
      }
      assert false;
    }

    /** A node whose zone changes is moved; with one zone for each name, an update of one name
        moves nothing. */
    method UpdateNode(oldName: Name, newName: Name)
      requires Valid()
      modifies this
      ensures Valid()
      ensures Names() ==
        if zoneOf(oldName) == zoneOf(newName) then old(Names()) else old(Names()) - {oldName} + {newName}
    {
      hide Consistent, NamesIn;
      if zoneOf(oldName) != zoneOf(newName) {
        var _ := RemoveNode(oldName);
        AddNode(newName);
      }
    }

    method ResetExhausted()
      modifies this`tree, this`zoneIndex, this`round
      ensures SameNodes(old(tree), tree)
      ensures forall z :: z in tree ==> tree[z].lastIndex == 0
      ensures zoneIndex == 0 && round == 0
    {
      var todo := tree.Keys;
      while todo != {}
        invariant todo <= tree.Keys && SameNodes(old(tree), tree)
        invariant forall z :: z in tree && z !in todo ==> tree[z].lastIndex == 0
        decreases todo
      {
        var z :| z in todo;
        tree := tree[z := tree[z].(lastIndex := 0)];
        todo := todo - {z};
      }
      zoneIndex := 0;
      round := 0;
    }

    /** The next node of the round robin. It always terminates; in step with the
        enumeration it returns exactly the next pending node. */
    method Next(ghost pending: seq<Name>) returns (name: Name)
      requires Valid() == true
      modifies this`tree, this`zoneIndex, this`round
      ensures Valid() == true
      ensures Names() == old(Names()) && Enumeration() == old(Enumeration())
      ensures zones == [] ==> name == EmptyName
      ensures zones != [] ==> name in Names()
      ensures old(WillReturn(pending)) && pending != [] ==> name == pending[0] && WillReturn(pending[1..]) == true
    {
      hide NamesIn, Cursors, Rounds, AtPosition, PendingFrom, SameNodes, Taken, Walkable, Mirrors;
      if |zones| == 0 {
        NothingPending(Lists(zones, tree), round, zoneIndex);
        return EmptyName;
      }
      ghost var before, lists, cursors := tree, Lists(zones, tree), Cursors(zones, tree);
      MirrorsTree(zones, tree, zoneOf);
      ghost var base, zi;
      name, base, zi := NextInZones(lists, cursors, pending);
      TakenKeeps(zones, before, base, tree, zoneOf, zi, name);
      assert old(WillReturn(pending)) && pending != [] ==> pending[1..] == PendingFrom(lists, round, zoneIndex);
    }

    /** The loop of `Next`: pass exhausted zones, then take a node. */
    method NextInZones(ghost lists: seq<seq<Name>>, ghost cursors: seq<nat>, ghost pending: seq<Name>)
      returns (name: Name, ghost base: map<Name, NodeArray>, ghost zi: nat)
      requires |zones| > 0 && Walkable(zones, tree) && Mirrors(zones, tree, lists, cursors)
      modifies this`tree, this`zoneIndex, this`round
      ensures SameNodes(old(tree), base) && zi < |zones| && zones[zi] in base
      ensures Taken(base, zones[zi], name, tree)
      ensures old(Awaiting(lists, cursors, round, zoneIndex, pending)) ==>
        && base == old(tree) && zoneIndex == zi + 1
        && AtPosition(lists, cursors[zi := cursors[zi] + 1], round, zoneIndex)
        && pending == [name] + PendingFrom(lists, round, zoneIndex)
    {
      hide PendingFrom, Rounds, Round, NamesIn, CursorAt;
      ghost var sync := Awaiting(lists, cursors, round, zoneIndex, pending);
      ghost var target := 0;
      if sync { target := PendingZone(lists, cursors, round, zoneIndex); }
      var numExhaustedZones := 0;
      ghost var reset := false;
      while true
        invariant SameNodes(old(tree), tree)
        invariant !reset ==> tree == old(tree) && numExhaustedZones < |zones|
        invariant reset ==> zoneIndex == 0 && forall z :: z in tree ==> tree[z].lastIndex == 0
        invariant sync ==> !reset
        invariant sync ==> Scanning(lists, cursors, round, zoneIndex, pending, target, numExhaustedZones) == true
        decreases !reset, |zones| - numExhaustedZones
      {
        if zoneIndex >= |zones| {
          ghost var next := round + 1;
          if sync { WrapKeepsScanning(lists, cursors, round, zoneIndex, next, pending, target, numExhaustedZones); }
          zoneIndex := 0;
          round := next;
        }
        zi := zoneIndex;
        var zone := zones[zoneIndex];
        zoneIndex := zoneIndex + 1;
        var na := tree[zone];
        assert !reset ==> lists[zi] == na.nodes && cursors[zi] == na.lastIndex;
        if na.lastIndex >= |na.nodes| {
          ghost var before := numExhaustedZones;
          numExhaustedZones := numExhaustedZones + 1;
          if sync {
            SkipKeepsScanning(lists, cursors, round, zi, zoneIndex, pending, target, before, numExhaustedZones);
          }
          if numExhaustedZones >= |zones| {
            ResetExhausted();
            reset := true;
          }
        } else {
          name := na.nodes[na.lastIndex];
          if sync { TakeAdvances(lists, cursors, round, zi, zoneIndex, cursors[zi] + 1, pending); }
          base := tree;
          tree := tree[zone := na.(lastIndex := na.lastIndex + 1)];
          return;
        }
      }
    }
  }

  predicate Walkable(zones: seq<Name>, tree: map<Name, NodeArray>) {
    forall i :: 0 <= i < |zones| ==> zones[i] in tree && tree[zones[i]].nodes != []
  }

  /** The lists and the cursors are those of the zones. */
  predicate Mirrors(zones: seq<Name>, tree: map<Name, NodeArray>, lists: seq<seq<Name>>, cursors: seq<nat>) {
    && |lists| == |cursors| == |zones|
    && forall i :: 0 <= i < |zones| ==>
         zones[i] in tree && lists[i] == tree[zones[i]].nodes && cursors[i] == tree[zones[i]].lastIndex
  }

  lemma MirrorsTree(zones: seq<Name>, tree: map<Name, NodeArray>, zoneOf: Name -> Name)
    requires Consistent(zones, tree, zoneOf)
    ensures Walkable(zones, tree) && Mirrors(zones, tree, Lists(zones, tree), Cursors(zones, tree))
  {
  }

  /** What `Next` does to the tree, whether or not it reset the cursors first. */
  lemma TakenKeeps(
    zones: seq<Name>, before: map<Name, NodeArray>, base: map<Name, NodeArray>, after: map<Name, NodeArray>,
    zoneOf: Name -> Name, zi: nat, name: Name)
    requires Consistent(zones, before, zoneOf) && SameNodes(before, base)
    requires zi < |zones| && zones[zi] in base && Taken(base, zones[zi], name, after)
    ensures Consistent(zones, after, zoneOf) && NamesIn(after, zoneOf) == NamesIn(before, zoneOf)
    ensures Lists(zones, after) == Lists(zones, before) && name in NamesIn(after, zoneOf)
    ensures base == before ==> var cursors := Cursors(zones, before);
      Cursors(zones, after) == cursors[zi := cursors[zi] + 1]
  {
    SameNodesSameTree(zones, before, base, zoneOf);
    AdvanceKeepsTree(zones, base, zoneOf, zi, after);
  }

  /** `after` is `before` with the cursor of `zone` moved past `name`. */
  predicate Taken(before: map<Name, NodeArray>, zone: Name, name: Name, after: map<Name, NodeArray>)
    requires zone in before
  {
    var na := before[zone];
    && na.lastIndex < |na.nodes| && name == na.nodes[na.lastIndex]
    && after == before[zone := na.(lastIndex := na.lastIndex + 1)]
  }

  /** After a reset the next nodes are the whole enumeration. */
  lemma ResetStartsEnumeration(t: Tree)
    requires t.Valid()
    requires t.zoneIndex == 0 && t.round == 0
    requires forall z :: z in t.tree ==> t.tree[z].lastIndex == 0
    ensures t.WillReturn(t.Enumeration())
  {
    StartIsWholeEnumeration(Lists(t.zones, t.tree));
  }
}
