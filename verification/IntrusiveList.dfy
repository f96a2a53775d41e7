/** The intrusive doubly linked list of src/common/list.h. A node's `id` says which
    structure it is embedded in, so list_entry is a read of `id`. */
module IntrusiveList {
  import opened Memory
  import opened Sequences

  datatype NodeId =
    | FdHead(fd: nat)          // element of the per-descriptor head array
    | TimerHead                // the timer's list head
    | FdLink(block: Addr)      // fd_list_node inside the request at `block`
    | TimerLink(block: Addr)   // event.timer_node inside the request at `block`

  class Node {
    const id: NodeId
    var next: Node
    var prev: Node

    /** INIT_LIST_HEAD on a new node: both links point at the node itself. */
    constructor (id: NodeId)
      ensures this.id == id && next == this && prev == this
    {
      this.id := id;
      next := this;
      prev := this;
    }
  }

  /** `r` is a circular list: following next visits r in order and comes back, following
      prev visits it backwards, and no node occurs twice. r[0] is the head. */
  ghost predicate Ring(r: seq<Node>)
    reads r
  {
    && |r| > 0
    && NoDup(r)
    && (forall i :: 0 <= i < |r| - 1 ==> r[i].next == r[i + 1])
    && (forall i :: 1 <= i < |r| ==> r[i].prev == r[i - 1])
    && r[|r| - 1].next == r[0]
    && r[0].prev == r[|r| - 1]
  }

  function Cut<T>(r: seq<T>, k: nat): (c: seq<T>)
    requires k < |r|
    ensures |c| == |r| - 1
  {
    r[..k] + r[k + 1..]
  }

  /** __list_add. */
  method ListAddBetween(entry: Node, prev: Node, next: Node)
    requires entry != prev && entry != next
    modifies entry, prev`next, next`prev
    ensures entry.next == next && entry.prev == prev
    ensures next.prev == entry && prev.next == entry
  {
    next.prev := entry;
    entry.next := next;
    entry.prev := prev;
    prev.next := entry;
  }

  /** list_add_tail: the entry becomes the last node of the ring. Its links may hold
      anything before. */
  method ListAddTail(entry: Node, head: Node, ghost r: seq<Node>)
    requires Ring(r) && r[0] == head && entry !in r
    modifies entry, head, r[|r| - 1]
    ensures Ring(r + [entry])
  {
    ListAddBetween(entry, head.prev, head);
  }

  /** list_add: the entry becomes the first node after the head. */
  method ListAdd(entry: Node, head: Node, ghost r: seq<Node>)
    requires Ring(r) && r[0] == head && entry !in r
    modifies entry, head, r
    ensures Ring([head, entry] + r[1..])
  {
    ghost var r' := [head, entry] + r[1..];
    assert |r| > 1 ==> head.next == r[1];
    ListAddBetween(entry, head, head.next);
    forall i | 2 <= i < |r'|
      ensures r'[i] == r[i - 1]
    {
    }
  }

  /** list_del_init on the node at position `k`: it leaves the ring and points at itself. On
      a node that already points at itself (k == 0, |r| == 1) nothing changes. */
  method ListDelInit(entry: Node, ghost r: seq<Node>, ghost k: nat)
    requires Ring(r) && k < |r| && r[k] == entry
    modifies entry, entry.prev`next, entry.next`prev
    ensures Ring([entry])
    ensures |r| > 1 ==> Ring(Cut(r, k))
    ensures |r| == 1 ==> entry.next == old(entry.next) && entry.prev == old(entry.prev)
  {
    ghost var n := |r|;
    assert entry.next == r[if k == n - 1 then 0 else k + 1];
    assert entry.prev == r[if k == 0 then n - 1 else k - 1];
    entry.next.prev := entry.prev;
    entry.prev.next := entry.next;
    entry.next := entry;
    entry.prev := entry;
  }

  /** list_empty. */
  method ListEmpty(head: Node, ghost r: seq<Node>) returns (empty: bool)
    requires Ring(r) && r[0] == head
    ensures empty <==> r == [head]
  {
    assert |r| > 1 ==> head.next == r[1];
    empty := head.next == head;
  }
}
