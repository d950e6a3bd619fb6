/** The doubly linked lists, changed in place.

    A ghost sequence holds the nodes in order; the links of every node, head, tail
    and count agree with it. */
module DLink {
  class Node<T(==)> {
    var data: T
    var next: Node?<T>
    var prev: Node?<T>

    /** `dlink_create()`. */
    constructor (data: T)
      ensures this.data == data && next == null && prev == null
    {
      this.data, next, prev := data, null, null;
    }
  }

  /** What remains of a list, in order. */
  ghost function Keep<N>(s: seq<N>, gone: set<N>): seq<N> {
    if s == [] then [] else Keep(s[..|s| - 1], gone) + (if s[|s| - 1] in gone then [] else [s[|s| - 1]])
  }

  /** What is behind `a` is what `s` holds from `i` on. */
  lemma RestOf<N>(a: seq<N>, s: seq<N>, i: nat)
    requires i < |s|
    ensures var t, k := a + s[i..], |a|;
            && t[k] == s[i] && t[..k] == a && t[k + 1..] == s[i + 1..]
            && forall j :: i <= j < |s| ==> s[j] in t
  {
    var t := a + s[i..];
    forall j | i <= j < |s| ensures s[j] in t {
      assert t[|a| + (j - i)] == s[j];
    }
  }

  lemma KeepNone<N>(s: seq<N>, gone: set<N>)
    ensures Keep(s[..0], gone) + s[0..] == s
  {
    assert s[..0] == [] && s[0..] == s && [] + s == s;
  }

  lemma KeepAll<N>(s: seq<N>, gone: set<N>)
    ensures Keep(s[..|s|], gone) + s[|s|..] == Keep(s, gone)
  {
    assert s[..|s|] == s && s[|s|..] == [];
  }

  lemma KeepNext<N>(s: seq<N>, i: nat, gone: set<N>)
    requires i < |s|
    ensures Keep(s[..i + 1], gone) == Keep(s[..i], gone) + if s[i] in gone then [] else [s[i]]
    ensures Keep(s[..i], gone) + s[i..] == Keep(s[..i], gone) + ([s[i]] + s[i + 1..])
    ensures Keep(s[..i], gone) + s[i..] == Keep(s[..i], gone) + [s[i]] + s[i + 1..]
  {
    assert s[..i + 1][..i] == s[..i] && s[i..] == [s[i]] + s[i + 1..];
    assert Keep(s[..i], gone) + ([s[i]] + s[i + 1..]) == Keep(s[..i], gone) + [s[i]] + s[i + 1..];
  }

  class List<T(==)> {
    var head: Node?<T>
    var tail: Node?<T>
    var count: int
    // the nodes in order
    ghost var nodes: seq<Node<T>>

    ghost function Footprint(): set<Node<T>>
      reads this
    {
      set n | n in nodes
    }

    /** Node `i` is linked to its neighbours. */
    ghost predicate LinkedAt(i: nat)
      reads this, nodes
      requires i < |nodes|
    {
      && nodes[i].next == (if i + 1 < |nodes| then nodes[i + 1] else null)
      && nodes[i].prev == (if i > 0 then nodes[i - 1] else null)
    }

    /** Both directions agree, there is no cycle, and head, tail and count are right. */
    ghost predicate Valid()
      reads this, nodes
    {
      && (forall i, j :: 0 <= i < j < |nodes| ==> nodes[i] != nodes[j])
      && (forall i :: 0 <= i < |nodes| ==> LinkedAt(i))
      && head == (if nodes == [] then null else nodes[0])
      && tail == (if nodes == [] then null else nodes[|nodes| - 1])
      && count == |nodes|
    }

    constructor ()
      ensures Valid() && nodes == []
    {
      head, tail, count, nodes := null, null, 0, [];
    }

    /** `dlink_add(data, m, list)`: in front of all others. */
    method Add(data: T, m: Node<T>)
      requires Valid() && m !in nodes
      modifies this, m, Footprint()
      ensures Valid() && nodes == [m] + old(nodes) && m.data == data
      ensures forall n :: n in old(nodes) ==> n.data == old(n.data)
    {
      m.data := data;
      m.next := head;
      m.prev := null;
      if head != null {
        head.prev := m;
      } else if tail == null {
        tail := m;
      }
      head := m;
      count := count + 1;
      nodes := [m] + nodes;
      forall i | 0 <= i < |nodes| ensures LinkedAt(i) {
        assert i > 0 ==> old(LinkedAt(i - 1));
      }
    }

    /** `dlink_add_tail(data, m, list)`: behind all others. */
    method AddTail(data: T, m: Node<T>)
      requires Valid() && m !in nodes
      modifies this, m, Footprint()
      ensures Valid() && nodes == old(nodes) + [m] && m.data == data
      ensures forall n :: n in old(nodes) ==> n.data == old(n.data)
    {
      m.data := data;
      m.next := null;
      m.prev := tail;
      if head == null {
        head := m;
      } else if tail != null {
        tail.next := m;
      }
      tail := m;
      count := count + 1;
      nodes := nodes + [m];
      forall i | 0 <= i < |nodes| ensures LinkedAt(i) {
        assert i < |old(nodes)| ==> old(LinkedAt(i));
      }
    }

    /** `dlink_add_before(b, data, m, list)`. */
    method AddBefore(ghost k: nat, b: Node<T>, data: T, m: Node<T>)
      requires Valid() && m !in nodes && k < |nodes| && nodes[k] == b
      modifies this, m, Footprint()
      ensures Valid() && nodes == old(nodes[..k]) + [m] + old(nodes[k..]) && m.data == data
      ensures forall n :: n in old(nodes) ==> n.data == old(n.data)
    {
      if b == head {
        Add(data, m);
        return;
      }
      assert LinkedAt(k);
      m.data := data;
      b.prev.next := m;
      m.prev := b.prev;
      b.prev := m;
      m.next := b;
      count := count + 1;
      nodes := nodes[..k] + [m] + nodes[k..];
      forall i | 0 <= i < |nodes| ensures LinkedAt(i) {
        assert i < k ==> old(LinkedAt(i));
        assert i > k ==> old(LinkedAt(i - 1));
      }
    }

    /** `dlink_delete(m, list)`. */
    method Delete(ghost k: nat, m: Node<T>)
      requires Valid() && k < |nodes| && nodes[k] == m
      modifies this, Footprint()
      ensures Valid() && nodes == old(nodes[..k]) + old(nodes[k + 1..])
      ensures forall n :: n in old(nodes) ==> n.data == old(n.data)
    {
      assert LinkedAt(k);
      if m.prev == null {
        head := m.next;
      } else {
        m.prev.next := m.next;
      }
      if m.next == null {
        tail := m.prev;
      } else {
        m.next.prev := m.prev;
      }
      count := count - 1;
      nodes := nodes[..k] + nodes[k + 1..];
      forall i | 0 <= i < |nodes| ensures LinkedAt(i) {
        assert old(LinkedAt(if i < k then i else i + 1));
      }
    }

    /** `dlink_find(data, list)`: the first node that holds `data`. */
    method Find(data: T) returns (ptr: Node?<T>, ghost k: nat)
      requires Valid()
      ensures k <= |nodes| && forall i :: 0 <= i < k ==> nodes[i].data != data
      ensures if k < |nodes| then ptr == nodes[k] && nodes[k].data == data else ptr == null
    {
      ptr, k := head, 0;
      while ptr != null
        invariant k <= |nodes| && ptr == (if k < |nodes| then nodes[k] else null)
        invariant forall i :: 0 <= i < k ==> nodes[i].data != data
        decreases |nodes| - k
      {
        if ptr.data == data {
          return;
        }
        assert LinkedAt(k);
        ptr := ptr.next;
        k := k + 1;
      }
    }

    /** `dlink_find_delete(data, list)`: the first node that holds `data` is taken out
        and comes back without links. */
    method FindDelete(data: T) returns (ptr: Node?<T>, ghost k: nat)
      requires Valid()
      modifies this, Footprint()
      ensures Valid() && k <= |old(nodes)| && forall i :: 0 <= i < k ==> old(nodes[i].data) != data
      ensures k < |old(nodes)| ==>
                && ptr == old(nodes[k]) && old(nodes[k].data) == data && nodes == old(nodes[..k]) + old(nodes[k + 1..])
                && ptr.next == null && ptr.prev == null
      ensures k == |old(nodes)| ==> ptr == null && nodes == old(nodes)
      ensures forall n :: n in old(nodes) ==> n.data == old(n.data)
    {
      ptr, k := Find(data);
      if ptr != null {
        Delete(k, ptr);
        ptr.next, ptr.prev := null, null;
        forall i | 0 <= i < |nodes| ensures LinkedAt(i) {
        }
      }
    }

    /** The nodes whose data satisfy `p`. */
    ghost function Chosen(p: T -> bool): set<Node<T>>
      reads this, nodes
    {
      set n | n in nodes && p(n.data)
    }

    /** The traversal has come to node `i` of the list as it `was`: of those before,
        the ones that are `gone` have been deleted; of the others `p` decides. */
    ghost predicate Midway(was: seq<Node<T>>, i: nat, gone: set<Node<T>>, p: T -> bool)
      reads this, nodes, was
    {
      && Valid() && i <= |was| && nodes == Keep(was[..i], gone) + was[i..]
      && forall j :: i <= j < |was| ==> (was[j] in gone <==> p(was[j].data))
    }

    /** The nodes from `i` on are linked as before. */
    lemma NextOf(was: seq<Node<T>>, i: nat, gone: set<Node<T>>, p: T -> bool)
      requires Midway(was, i, gone, p)
      ensures i < |was| ==> was[i] in nodes && was[i].next == if i + 1 < |was| then was[i + 1] else null
    {
      if i < |was| {
        var k := |Keep(was[..i], gone)|;
        assert LinkedAt(k) && nodes[k] == was[i];
        assert i + 1 < |was| ==> nodes[k + 1] == was[i + 1];
      }
    }

    lemma RestIn(was: seq<Node<T>>, i: nat, gone: set<Node<T>>, p: T -> bool)
      requires Midway(was, i, gone, p) && i < |was|
      ensures var k := |Keep(was[..i], gone)|;
              k < |nodes| && nodes[k] == was[i] && nodes[..k] == Keep(was[..i], gone) && nodes[k + 1..] == was[i + 1..]
      ensures forall j :: i <= j < |was| ==> was[j] in nodes
    {
      hide Keep, LinkedAt, Valid;
      RestOf(Keep(was[..i], gone), was, i);
    }

    /** `pos` and the saved successor, when the traversal comes to node `i`. */
    ghost predicate Positions(was: seq<Node<T>>, i: nat, pos: Node?<T>, n: Node?<T>) {
      pos == (if i < |was| then was[i] else null) && n == (if i + 1 < |was| then was[i + 1] else null)
    }

    lemma Starts(gone: set<Node<T>>, p: T -> bool)
      requires Valid() && gone == Chosen(p)
      ensures Midway(nodes, 0, gone, p)
      ensures Positions(nodes, 0, head, if head != null then head.next else null)
    {
      KeepNone(nodes, gone);
      assert nodes != [] ==> LinkedAt(0);
      hide Keep;
    }

    lemma Ends(was: seq<Node<T>>, gone: set<Node<T>>, p: T -> bool)
      requires Midway(was, |was|, gone, p)
      ensures Valid() && nodes == Keep(was, gone)
    {
      KeepAll(was, gone);
    }

    /** One turn of the traversal: the current node stays or goes. */
    method Visit(pos: Node<T>, p: T -> bool, ghost was: seq<Node<T>>, ghost i: nat, ghost gone: set<Node<T>>)
      requires Midway(was, i, gone, p) && i < |was| && pos == was[i]
      modifies this, Footprint()
      ensures Midway(was, i + 1, gone, p)
      ensures Footprint() <= old(Footprint()) && forall n :: n in Footprint() ==> n.data == old(n.data)
    {
      hide Keep, LinkedAt, Valid;
      KeepNext(was, i, gone);
      ghost var k := |Keep(was[..i], gone)|;
      RestIn(was, i, gone, p);
      if p(pos.data) {
        Delete(k, pos);
        assert Keep(was[..i], gone) + [] == Keep(was[..i], gone);
      }
    }

    lemma Inside(was: seq<Node<T>>, i: nat, pos: Node<T>, n: Node?<T>)
      requires Positions(was, i, pos, n)
      ensures i < |was|
    {
    }

    lemma Outside(was: seq<Node<T>>, i: nat, n: Node?<T>)
      requires i <= |was| && Positions(was, i, null, n)
      ensures i == |was|
    {
    }

    /** The current node is visited; the traversal goes on with the saved one. */
    method Turn(pos: Node<T>, n: Node?<T>, p: T -> bool, ghost was: seq<Node<T>>, ghost i: nat, ghost gone: set<Node<T>>)
      returns (pos': Node?<T>, n': Node?<T>)
      requires Midway(was, i, gone, p) && i < |was| && Positions(was, i, pos, n)
      modifies this, Footprint()
      ensures Midway(was, i + 1, gone, p) && Positions(was, i + 1, pos', n')
      ensures Footprint() <= old(Footprint()) && forall m :: m in Footprint() ==> m.data == old(m.data)
    {
      hide Midway, Footprint;
      Visit(pos, p, was, i, gone);
      NextOf(was, i + 1, gone, p);
      pos' := n;
      n' := if pos' != null then pos'.next else null;
    }

    /** `DLINK_FOREACH_SAFE` with deletion: the successor is saved before a node is
        deleted. Every node is visited once, and those that satisfy `p` go. */
    method DeleteWhere(p: T -> bool)
      requires Valid()
      modifies this, Footprint()
      ensures Valid() && nodes == Keep(old(nodes), old(Chosen(p)))
      ensures Footprint() <= old(Footprint()) && forall n :: n in Footprint() ==> n.data == old(n.data)
    {
      hide Keep, LinkedAt, Valid, Midway, Chosen, Positions;
      ghost var was := nodes;
      ghost var gone := Chosen(p);
      Starts(gone, p);
      var pos := head;
      var n := if pos != null then pos.next else null;
      ghost var i: nat := 0;
      while pos != null
        invariant i <= |was| && Midway(was, i, gone, p) && Positions(was, i, pos, n)
        invariant Footprint() <= old(Footprint()) && forall m :: m in Footprint() ==> m.data == old(m.data)
        decreases |was| - i
      {
        Inside(was, i, pos, n);
        pos, n := Turn(pos, n, p, was, i, gone);
        i := i + 1;
      }
      Outside(was, i, n);
      Ends(was, gone, p);
    }

    /** `libopm_list_add(list, node)`. */
    method OpmAdd(node: Node<T>)
      requires Valid() && node !in nodes
      modifies this, node, Footprint()
      ensures Valid() && nodes == old(nodes) + [node]
      ensures node.data == old(node.data) && forall n :: n in old(nodes) ==> n.data == old(n.data)
    {
      if tail == null {
        head := node;
        tail := node;
        node.next := null;
        node.prev := null;
      } else {
        node.prev := tail;
        tail.next := node;
        tail := node;
        node.next := null;
      }
      count := count + 1;
      nodes := nodes + [node];
      forall i | 0 <= i < |nodes| ensures LinkedAt(i) {
        assert i < |old(nodes)| ==> old(LinkedAt(i));
      }
    }

    /** `libopm_list_remove(list, node)`. */
    method OpmRemove(ghost k: nat, node: Node<T>)
      requires Valid() && k < |nodes| && nodes[k] == node
      modifies this, Footprint()
      ensures Valid() && nodes == old(nodes[..k]) + old(nodes[k + 1..])
      ensures forall n :: n in old(nodes) ==> n.data == old(n.data)
    {
      assert LinkedAt(k) && (k > 0 ==> LinkedAt(k - 1));
      if node == head {
        head := node.next;
        if node.next != null {
          node.next.prev := null;
        } else {
          tail := null;
        }
      } else if node == tail {
        tail := tail.prev;
        tail.next := null;
      } else {
        node.prev.next := node.next;
        node.next.prev := node.prev;
      }
      count := count - 1;
      nodes := nodes[..k] + nodes[k + 1..];
      forall i | 0 <= i < |nodes| ensures LinkedAt(i) {
        assert old(LinkedAt(if i < k then i else i + 1));
      }
    }
  }

  /** Exactly those that are gone are missing. */
  lemma {:induction false} KeepIn<N>(s: seq<N>, gone: set<N>)
    ensures forall n :: n in Keep(s, gone) <==> n in s && n !in gone
  {
    if s != [] {
      KeepIn(s[..|s| - 1], gone);
    }
  }
}
