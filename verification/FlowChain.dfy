/** Bucket chains of flows (struct hlist_head and hlist_node).
 *
 * A flow has two nodes, so that it can be on a chain of the current table and,
 * during a rebuild, on one of its successor.  `ver` selects the node.
 */
module FlowChain {
  import opened Seqs

  datatype Link = Link(next: Flow?, prev: Flow?)

  datatype Nodes = Nodes(zero: Link, one: Link) {
    function At(ver: bool): Link { if ver then one else zero }

    function With(ver: bool, l: Link): (r: Nodes)
      ensures r.At(ver) == l && r.At(!ver) == At(!ver)
    {
      if ver then Nodes(zero, l) else Nodes(l, one)
    }
  }

  /** struct sw_flow; the key is its bytes. */
  class Flow {
    var hash: nat
    var key: seq<int>
    var nodes: Nodes

    constructor () {
      hash, key, nodes := 0, [], Nodes(Link(null, null), Link(null, null));
    }
  }

  function First(s: seq<Flow>): Flow? {
    if s == [] then null else s[0]
  }

  function Neighbours(s: seq<Flow>, i: nat): Link
    requires i < |s|
  {
    Link(if i + 1 < |s| then s[i + 1] else null, if i > 0 then s[i - 1] else null)
  }

  ghost predicate Linked(s: seq<Flow>, ver: bool)
    reads s
  {
    && Distinct(s)
    && (forall i {:trigger s[i].nodes} | 0 <= i < |s| :: s[i].nodes.At(ver) == Neighbours(s, i))
  }

  /** hlist_add_head. */
  method AddHead(ghost s: seq<Flow>, first: Flow?, ver: bool, f: Flow)
    requires Linked(s, ver) && first == First(s) && f !in s
    modifies s`nodes, f`nodes
    ensures Linked([f] + s, ver)
    ensures forall x | x in [f] + s :: x.nodes.At(!ver) == old(x.nodes.At(!ver))
  {
    f.nodes := f.nodes.With(ver, Link(first, null));
    if first != null {
      first.nodes := first.nodes.With(ver, Link(first.nodes.At(ver).next, f));
    }
    ghost var t := [f] + s;
    assert forall i | 0 < i < |t| :: t[i] == s[i - 1];
    forall i | 0 <= i < |t| ensures t[i].nodes.At(ver) == Neighbours(t, i) {
      assert i > 0 ==> t[i] == s[i - 1];
    }
  }

  /** hlist_del: returns the chain's first flow. */
  method Delete(ghost s: seq<Flow>, ghost k: nat, first: Flow?, ver: bool, f: Flow) returns (head: Flow?)
    requires Linked(s, ver) && first == First(s) && k < |s| && f == s[k]
    modifies s`nodes
    ensures Linked(RemoveAt(s, k), ver) && head == First(RemoveAt(s, k))
    ensures forall x | x in s :: x.nodes.At(!ver) == old(x.nodes.At(!ver))
  {
    assert s[k].nodes.At(ver) == Neighbours(s, k);
    var next, prev := f.nodes.At(ver).next, f.nodes.At(ver).prev;
    head := first;
    if prev == null {
      head := next;
    } else {
      prev.nodes := prev.nodes.With(ver, Link(next, prev.nodes.At(ver).prev));
    }
    if next != null {
      next.nodes := next.nodes.With(ver, Link(next.nodes.At(ver).next, prev));
    }
    ghost var t := RemoveAt(s, k);
    RemovedDistinct(s, k);
    hide Distinct, RemoveAt;
    forall i | 0 <= i < |t| ensures t[i].nodes.At(ver) == Neighbours(t, i) {
      assert t[i] == s[if i < k then i else i + 1];
    }
  }
}
