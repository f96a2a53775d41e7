/** The events of src/utils/timer.cpp and what links them on a timer. */
module Timer {
  import opened Memory
  import opened Sequences
  import opened IntrusiveList
  import opened Links

  datatype Callback = NoCallback | ServerTimeout

  class TimerEvent {
    const node: Node
    var expireTime: int
    var func: Callback
    var owner: Addr
    var arg: Addr

    constructor (block: Addr)
      ensures fresh(node) && node.id == TimerLink(block)
      ensures node.next == node && node.prev == node
    {
      node := new Node(TimerLink(block));
      expireTime, func, owner, arg := 0, NoCallback, NULL, NULL;
    }

    /** is_event_works: the event's node is linked to some other node. */
    predicate Works()
      reads this, node
    {
      node.next != node || node.prev != node
    }

    predicate Cleared()
      reads this
    {
      expireTime == 0 && func == NoCallback && owner == NULL && arg == NULL
    }
  }

  /** event_init, on the event of a block that is not on the timer. */
  method EventInit(event: TimerEvent, ghost k: Wires, ghost lists: seq<seq<Addr>>, ghost off: set<Addr>, ghost i: nat, ghost a: Addr)
    requires Linked(k, lists, off) && i == |lists| - 1
    requires a in k.timerNodes && event.node == k.timerNodes[a] && a !in lists[i]
    modifies event, AllNodes(k)
    ensures Linked(k, lists, off + {a})
    ensures event.Cleared() && !event.Works()
  {
    hide Linked;
    ResetTimer(event.node, k, lists, off, i, a);
    event.expireTime, event.func, event.owner, event.arg := 0, NoCallback, NULL, NULL;
  }

  /** timer_add_event: the event goes to the tail whatever its expiry. `i` is the timer's
      place among `lists`, `a` the block the event is part of. */
  method AddEvent(head: Node, event: TimerEvent, expireTime: int, func: Callback, owner: Addr, arg: Addr,
                  ghost k: Wires, ghost lists: seq<seq<Addr>>, ghost off: set<Addr>, ghost i: nat, ghost a: Addr)
    requires Linked(k, lists, off) && i == |lists| - 1 && head == k.heads[i]
    requires a in k.timerNodes && event.node == k.timerNodes[a] && a !in lists[i]
    modifies event, AllNodes(k)
    ensures Linked(k, lists[i := lists[i] + [a]], off - {a})
    ensures event.expireTime == expireTime && event.func == func && event.owner == owner && event.arg == arg
  {
    hide Linked;
    event.expireTime, event.func, event.owner, event.arg := expireTime, func, owner, arg;
    AppendTimer(event.node, head, k, lists, off, i, a);
  }

  /** timer_del_event; works on a linked event and on one already unlinked. */
  method DelEvent(event: TimerEvent, ghost k: Wires, ghost lists: seq<seq<Addr>>, ghost off: set<Addr>, ghost i: nat, ghost a: Addr)
    requires Linked(k, lists, off) && i == |lists| - 1
    requires a in k.timerNodes && event.node == k.timerNodes[a]
    requires a in lists[i] || a in off
    modifies event, AllNodes(k)
    ensures Linked(k, lists[i := Minus(lists[i], {a})], off + {a})
    ensures event.Cleared()
  {
    hide Linked;
    UnlinkTimer(event.node, k, lists, off, i, a);
    event.expireTime, event.func, event.owner, event.arg := 0, NoCallback, NULL, NULL;
  }
}
