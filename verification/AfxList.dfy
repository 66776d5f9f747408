/** The doubly linked list of lib/afx/afx_list.h.
 *
 * The list starts at a sentinel whose `prev` is the last node; the last node's
 * `next` is null.  The nodes carry the fields of a timer, which embeds its node.
 */
module AfxList {
  import opened Seqs
  import opened AfxTime

  class Node {
    var next: Node?
    var prev: Node?
    // struct afx_timer
    var end: Time
    var timeout: nat
    var isOn: bool
    ghost var started: int   // when it was last started, in microseconds
    ghost var fired: nat     // how often it has fired since

    constructor ()
      ensures next == null && prev == null && !isOn
    {
      next, prev, end, timeout, isOn, started, fired := null, null, Time(0, 0), 0, false, 0, 0;
    }
  }

  /** The pointers of `s`, whose first node is the sentinel. */
  ghost predicate Chained(s: seq<Node>)
    reads s
  {
    && |s| > 0 && Distinct(s)
    && (forall i {:trigger s[i].next} | 0 <= i < |s| :: s[i].next == if i + 1 < |s| then s[i + 1] else null)
    && (forall i {:trigger s[i].prev} | 0 < i < |s| :: s[i].prev == s[i - 1])
    && s[0].prev == s[|s| - 1]
  }

  /** afx_list_insert_tail. */
  method InsertTail(ghost s: seq<Node>, head: Node, node: Node)
    requires Chained(s) && head == s[0] && node !in s
    modifies s`next, s`prev, node`next, node`prev
    ensures Chained(s + [node])
  {
    node.next := null;
    node.prev := head.prev;
    head.prev.next := node;
    head.prev := node;
  }

  /** afx_list_insert_before. */
  method InsertBefore(ghost s: seq<Node>, ghost k: nat, node1: Node, node2: Node)
    requires Chained(s) && 0 < k < |s| && node1 == s[k] && node2 !in s
    modifies s`next, s`prev, node2`next, node2`prev
    ensures Chained(InsertAt(s, k, node2))
  {
    assert s[k].prev == s[k - 1] && s[k - 1].next == s[k];
    node2.next := node1;
    node2.prev := node1.prev;
    node1.prev.next := node2;
    node1.prev := node2;
  }

  /** afx_list_delete. */
  method Delete(ghost s: seq<Node>, ghost k: nat, head: Node, node: Node)
    requires Chained(s) && 0 < k < |s| && node == s[k] && head == s[0]
    modifies s`next, s`prev
    ensures Chained(RemoveAt(s, k))
  {
    RemovedDistinct(s, k);
    assert s[k].prev == s[k - 1] && s[k].next == if k + 1 < |s| then s[k + 1] else null;
    if node.next != null {
      node.next.prev := node.prev;
    } else {
      head.prev := node.prev;
    }
    node.prev.next := node.next;
  }
}
