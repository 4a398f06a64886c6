/** The doubly linked list of scheduler/internal/cache/cache.go: the items of the cache by
    node name, each linked to its neighbours, most recently moved to the head first. The
    pointers are proved to spell out one sequence of names in both directions. */
module ItemList {
  import opened Wrappers
  import opened RecencyList

  class NodeItem {
    var next: NodeItem?
    var prev: NodeItem?
    /** The key of the item in the cache's map, and of its contents. */
    const name: Name

    constructor (name: Name)
      ensures this.name == name && next == null && prev == null
    {
      this.name := name;
      next, prev := null, null;
    }
  }

  /** The item at a position of the list, or nil past its ends. */
  function At(nodes: map<Name, NodeItem>, order: seq<Name>, i: int): NodeItem? {
    if 0 <= i < |order| && order[i] in nodes then nodes[order[i]] else null
  }

  /** Items are filed under their names, so no two names share one. */
  ghost predicate Filed(nodes: map<Name, NodeItem>) {
    forall n :: n in nodes ==> nodes[n].name == n
  }

  type Links = map<Name, NodeItem?>

  ghost function Nexts(nodes: map<Name, NodeItem>): Links
    reads nodes.Values
  {
    map n | n in nodes :: nodes[n].next
  }

  ghost function Prevs(nodes: map<Name, NodeItem>): Links
    reads nodes.Values
  {
    map n | n in nodes :: nodes[n].prev
  }

  /** Names without repetition of items that these pointers link in this order, both ways. */
  ghost predicate Chain(nodes: map<Name, NodeItem>, order: seq<Name>, nexts: Links, prevs: Links) {
    && NoDup(order)
    && nexts.Keys == prevs.Keys == nodes.Keys
    && (forall i :: 0 <= i < |order| ==> order[i] in nodes)
    && (order != [] ==> prevs[order[0]] == null && nexts[order[|order| - 1]] == null)
    && (forall i, j :: 0 <= i < j < |order| && j == i + 1 ==>
          nexts[order[i]] == nodes[order[j]] && prevs[order[j]] == nodes[order[i]])
  }

  /** An item that is in no list. */
  ghost predicate Unlinked(nodes: map<Name, NodeItem>, order: seq<Name>, n: Name)
    reads nodes.Values
  {
    n in nodes && n !in order && nodes[n].prev == null && nodes[n].next == null
  }

  /** Cutting an element out of a chain. */
  lemma SplicedChain(nodes: map<Name, NodeItem>, order: seq<Name>, k: nat, nexts: Links, prevs: Links)
    requires Chain(nodes, order, nexts, prevs) && k < |order|
    ensures Chain(nodes, order[..k] + order[k + 1..],
      if k > 0 then nexts[order[k - 1] := nexts[order[k]]] else nexts,
      if k + 1 < |order| then prevs[order[k + 1] := prevs[order[k]]] else prevs)
  {
    var rest := order[..k] + order[k + 1..];
    assert NoDup(rest) && forall i :: 0 <= i < |rest| ==> rest[i] == order[if i < k then i else i + 1];
  }

  /** What linking an item before the head does to a chain. */
  lemma PushedChain(nodes: map<Name, NodeItem>, rest: seq<Name>, n: Name, nexts: Links, prevs: Links)
    requires Chain(nodes, rest, nexts, prevs) && n in nodes && n !in rest
    ensures Chain(nodes, [n] + rest,
      nexts[n := At(nodes, rest, 0)],
      (if rest != [] then prevs[rest[0] := nodes[n]] else prevs)[n := null])
  {
    var order := [n] + rest;
    assert forall i :: 1 <= i < |order| ==> order[i] == rest[i - 1];
    assert forall i :: 0 <= i < |rest| ==> rest[i] != n;
  }

  class Items {
    var nodes: map<Name, NodeItem>
    var headNode: NodeItem?
    /** The names of the linked items, from the head on. */
    ghost var order: seq<Name>

    constructor ()
      ensures Valid() && nodes == map[] && order == []
    {
      nodes, headNode, order := map[], null, [];
    }

    /** The list links the items of `order` in both directions, from `headNode`. */
    ghost predicate Valid()
      reads this, nodes.Values
    {
      && Filed(nodes) && Chain(nodes, order, Nexts(nodes), Prevs(nodes))
      && headNode == At(nodes, order, 0)
    }

    /** A new item, not yet linked. */
    method AddItem(name: Name)
      requires Valid() == true
      requires name !in nodes
      modifies this`nodes
      ensures Valid() == true
      ensures Unlinked(nodes, order, name) == true
      ensures fresh(nodes[name]) && nodes == old(nodes)[name := nodes[name]]
    {
      var n := new NodeItem(name);
      ChainWithItem(nodes, order, name, n, Nexts(nodes), Prevs(nodes));
      ghost var nexts, prevs := Nexts(nodes)[name := null], Prevs(nodes)[name := null];
      nodes := nodes[name := n];
      assert Nexts(nodes) == nexts && Prevs(nodes) == prevs;
    }

    method MoveToHead(name: Name)
      requires Valid() == true
      requires name in nodes && (name !in order ==> Unlinked(nodes, order, name))
      modifies this`headNode, this`order, nodes.Values`next, nodes.Values`prev
      ensures Valid() == true
      ensures order == ToFront(old(order), name)
    {
      var ni := nodes[name];
      if ni == headNode {
        assert order[0] == name && Without(order, name) == order[1..];
        return;
      }
      ghost var rest := Without(order, name);
      UnlinkedChain(nodes, order, name, Nexts(nodes), Prevs(nodes));
      Unlink(ni);
      PushFront(ni, rest);
    }

    /** Puts an unlinked item before the head. */
    method PushFront(ni: NodeItem, ghost rest: seq<Name>)
      requires Filed(nodes) && Chain(nodes, rest, Nexts(nodes), Prevs(nodes))
      requires ni in nodes.Values && ni.name !in rest
      requires headNode == At(nodes, rest, 0)
      modifies this`headNode, this`order, nodes.Values`next, nodes.Values`prev
      ensures Valid() == true
      ensures order == [ni.name] + rest
    {
      PushedChain(nodes, rest, ni.name, Nexts(nodes), Prevs(nodes));
      if headNode != null {
        headNode.prev := ni;
      }
      ni.next := headNode;
      ni.prev := null;
      headNode := ni;
      order := [ni.name] + rest;
      assert Nexts(nodes) == old(Nexts(nodes))[ni.name := At(nodes, rest, 0)];
      assert Prevs(nodes) == (if rest != [] then old(Prevs(nodes))[rest[0] := ni]
        else old(Prevs(nodes)))[ni.name := null];
    }

    method Remove(name: Name)
      requires Valid() == true
      requires name in nodes && name in order
      modifies this`headNode, this`order, this`nodes, nodes.Values`next, nodes.Values`prev
      ensures Valid() == true
      ensures order == Without(old(order), name)
      ensures nodes == old(nodes) - {name}
    {
      var ni := nodes[name];
      UnlinkedChain(nodes, order, name, Nexts(nodes), Prevs(nodes));
      HeadAfterDrop(nodes, order, name, Nexts(nodes), Prevs(nodes));
      ghost var rest := Without(order, name);
      Unlink(ni);
      DropUnlinked(name, rest);
    }

    /** Moves the head past an unlinked item and forgets it. */
    method DropUnlinked(name: Name, ghost rest: seq<Name>)
      requires name in nodes && name !in rest
      requires Filed(nodes - {name}) && Chain(nodes, rest, Nexts(nodes), Prevs(nodes))
      requires At(nodes - {name}, rest, 0) == if nodes[name] == headNode then nodes[name].next else headNode
      modifies this`headNode, this`order, this`nodes
      ensures Valid() == true
      ensures order == rest && nodes == old(nodes) - {name}
    {
      ChainWithoutItem(nodes, rest, name);
      if nodes[name] == headNode {
        headNode := nodes[name].next;
      }
      order := rest;
      nodes := nodes - {name};
    }

    /** The pointer updates shared by the two list operations: take an item from between its
        neighbours. */
    method Unlink(ni: NodeItem)
      requires ni.prev == null || ni.prev in nodes.Values
      requires ni.next == null || ni.next in nodes.Values
      requires ni.prev != ni && ni.next != ni
      modifies nodes.Values`next, nodes.Values`prev
      ensures Nexts(nodes) == Redirected(nodes, old(Nexts(nodes)), old(ni.prev), old(ni.next))
      ensures Prevs(nodes) == Redirected(nodes, old(Prevs(nodes)), old(ni.next), old(ni.prev))
    {
      if ni.prev != null {
        ni.prev.next := ni.next;
      }
      if ni.next != null {
        ni.next.prev := ni.prev;
      }
    }
  }

  /** The links with that of item p replaced by q. */
  ghost function Redirected(nodes: map<Name, NodeItem>, links: Links, p: NodeItem?, q: NodeItem?): Links
    requires links.Keys == nodes.Keys
  {
    map n | n in nodes :: if nodes[n] == p then q else links[n]
  }

  /** What Unlink does to a chain. */
  lemma UnlinkedChain(nodes: map<Name, NodeItem>, order: seq<Name>, n: Name, nexts: Links, prevs: Links)
    requires Filed(nodes) && Chain(nodes, order, nexts, prevs) && n in nodes
    requires n !in order ==> prevs[n] == null && nexts[n] == null
    ensures prevs[n] == null || prevs[n] in nodes.Values
    ensures nexts[n] == null || nexts[n] in nodes.Values
    ensures prevs[n] != nodes[n] && nexts[n] != nodes[n]
    ensures Chain(nodes, Without(order, n), Redirected(nodes, nexts, prevs[n], nexts[n]),
      Redirected(nodes, prevs, nexts[n], prevs[n]))
  {
    var k := Find(order, n);
    if k < |order| {
      Neighbours(nodes, order, k, nexts, prevs);
      SplicedChain(nodes, order, k, nexts, prevs);
      assert Redirected(nodes, nexts, prevs[n], nexts[n]) == if k > 0 then nexts[order[k - 1] := nexts[n]] else nexts;
      assert Redirected(nodes, prevs, nexts[n], prevs[n]) == if k + 1 < |order| then prevs[order[k + 1] := prevs[n]]
        else prevs;
    } else {
      assert Redirected(nodes, nexts, null, null) == nexts && Redirected(nodes, prevs, null, null) == prevs;
    }
  }

  /** The new head when an item is dropped. */
  lemma HeadAfterDrop(nodes: map<Name, NodeItem>, order: seq<Name>, n: Name, nexts: Links, prevs: Links)
    requires Filed(nodes) && Chain(nodes, order, nexts, prevs) && n in nodes && n in order
    ensures n !in Without(order, n)
    ensures At(nodes - {n}, Without(order, n), 0)
         == if nodes[n] == At(nodes, order, 0) then nexts[n] else At(nodes, order, 0)
    ensures Filed(nodes - {n})
  {
    var k := Find(order, n);
    Neighbours(nodes, order, k, nexts, prevs);
    assert nodes[n].name == n && nodes[order[0]].name == order[0];
    WithoutElements(order, n);
    assert n in Without(order, n) ==> n in Elements(Without(order, n));
  }

  lemma ChainWithItem(
    nodes: map<Name, NodeItem>, order: seq<Name>, n: Name, item: NodeItem, nexts: Links, prevs: Links)
    requires Filed(nodes) && Chain(nodes, order, nexts, prevs)
    requires n !in nodes && item.name == n
    ensures Chain(nodes[n := item], order, nexts[n := null], prevs[n := null]) == true
    ensures Filed(nodes[n := item]) && n !in order
    ensures At(nodes[n := item], order, 0) == At(nodes, order, 0)
  {
  }

  lemma ChainWithoutItem(nodes: map<Name, NodeItem>, rest: seq<Name>, n: Name)
    requires Chain(nodes, rest, Nexts(nodes), Prevs(nodes)) && n !in rest
    ensures Chain(nodes - {n}, rest, Nexts(nodes - {n}), Prevs(nodes - {n}))
  {
    assert Nexts(nodes - {n}) == Nexts(nodes) - {n} && Prevs(nodes - {n}) == Prevs(nodes) - {n};
  }

  lemma Neighbours(nodes: map<Name, NodeItem>, order: seq<Name>, k: nat, nexts: Links, prevs: Links)
    requires Chain(nodes, order, nexts, prevs) && k < |order|
    ensures prevs[order[k]] == if k > 0 then nodes[order[k - 1]] else null
    ensures nexts[order[k]] == if k + 1 < |order| then nodes[order[k + 1]] else null
    ensures k > 0 ==> order[k - 1] != order[k]
    ensures k + 1 < |order| ==> order[k + 1] != order[k]
  {
  }
}
