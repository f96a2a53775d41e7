/** The proxy's rings: one per descriptor and one for the timer, threaded through the same
    request blocks. Lists of block addresses on one side, rings of nodes on the other. */
module Links {
  import opened Memory
  import opened Sequences
  import opened IntrusiveList
  import opened Threads

  /** The list heads, the timer's last, and the two nodes embedded in each block. */
  datatype Wires = Wires(heads: seq<Node>, fdNodes: map<Addr, Node>, timerNodes: map<Addr, Node>)

  /** Every node is named for where it sits, so nodes in different places are different. */
  ghost predicate WellNamed(k: Wires) {
    && |k.heads| >= 1
    && k.heads[|k.heads| - 1].id == TimerHead
    && (forall i :: 0 <= i < |k.heads| - 1 ==> k.heads[i].id == FdHead(i))
    && k.fdNodes.Keys == k.timerNodes.Keys
    && (forall a :: a in k.fdNodes ==> k.fdNodes[a].id == FdLink(a))
    && (forall a :: a in k.timerNodes ==> k.timerNodes[a].id == TimerLink(a))
  }

  ghost function NodesOf(k: Wires, i: nat): map<Addr, Node> {
    if i == |k.heads| - 1 then k.timerNodes else k.fdNodes
  }

  ghost predicate Known(k: Wires, l: seq<Addr>) {
    forall p :: 0 <= p < |l| ==> l[p] in k.fdNodes && l[p] in k.timerNodes
  }

  /** `lists` holds one duplicate-free list of known blocks per head. */
  ghost predicate ListsOk(k: Wires, lists: seq<seq<Addr>>) {
    && |lists| == |k.heads|
    && forall i :: 0 <= i < |lists| ==> NoDup(lists[i]) && Known(k, lists[i])
  }

  ghost function RingOf(k: Wires, i: nat, l: seq<Addr>): (r: seq<Node>)
    requires WellNamed(k) && i < |k.heads| && Known(k, l)
    ensures |r| == |l| + 1 && r[0] == k.heads[i]
    ensures forall p :: 1 <= p <= |l| ==> r[p] == NodesOf(k, i)[l[p - 1]]
  {
    [k.heads[i]] + seq(|l|, p requires 0 <= p < |l| => NodesOf(k, i)[l[p]])
  }

  ghost function RingsOf(k: Wires, lists: seq<seq<Addr>>): (r: seq<seq<Node>>)
    requires WellNamed(k) && ListsOk(k, lists)
    ensures |r| == |lists|
    ensures forall i :: 0 <= i < |r| ==> r[i] == RingOf(k, i, lists[i])
  {
    seq(|lists|, i requires 0 <= i < |lists| => RingOf(k, i, lists[i]))
  }

  ghost function AllNodes(k: Wires): set<Node> {
    Elems(k.heads) + k.fdNodes.Values + k.timerNodes.Values
  }

  ghost function AloneNodes(k: Wires, off: set<Addr>): set<Node> {
    set a | a in off && a in k.timerNodes :: k.timerNodes[a]
  }

  /** The rings spell out `lists`; timer nodes of blocks in `off` stand alone. */
  ghost predicate Linked(k: Wires, lists: seq<seq<Addr>>, off: set<Addr>)
    reads AllNodes(k)
  {
    && WellNamed(k)
    && ListsOk(k, lists)
    && off <= k.timerNodes.Keys
    && Threaded(RingsOf(k, lists), AloneNodes(k, off), AllNodes(k))
  }

  lemma RingId(k: Wires, i: nat, l: seq<Addr>, p: nat)
    requires WellNamed(k) && i < |k.heads| && Known(k, l) && p <= |l|
    ensures RingOf(k, i, l)[p].id ==
      if p == 0 then (if i == |k.heads| - 1 then TimerHead else FdHead(i))
      else if i == |k.heads| - 1 then TimerLink(l[p - 1])
      else FdLink(l[p - 1])
  {
  }

  /** A block's node for list `i` is on no ring if the block is on no list of that kind. */
  lemma OnNoRing(k: Wires, lists: seq<seq<Addr>>, i: nat, a: Addr)
    requires WellNamed(k) && ListsOk(k, lists) && i < |lists| && a in k.fdNodes
    requires a !in lists[i]
    requires i < |lists| - 1 ==> forall j :: 0 <= j < |lists| - 1 ==> a !in lists[j]
    ensures forall j :: 0 <= j < |lists| ==> NodesOf(k, i)[a] !in RingsOf(k, lists)[j]
  {
    forall j, p | 0 <= j < |lists| && 0 <= p <= |lists[j]|
      ensures RingsOf(k, lists)[j][p].id != NodesOf(k, i)[a].id
    {
      RingId(k, j, lists[j], p);
      if p > 0 { assert lists[j][p - 1] in lists[j]; }
    }
  }

  lemma NodeKnown(k: Wires, i: nat, a: Addr)
    requires WellNamed(k) && a in k.fdNodes
    ensures NodesOf(k, i)[a] in AllNodes(k)
  {
  }

  lemma RingsAppend(k: Wires, lists: seq<seq<Addr>>, i: nat, a: Addr)
    requires WellNamed(k) && ListsOk(k, lists) && i < |lists| && a in k.fdNodes && a !in lists[i]
    ensures ListsOk(k, lists[i := lists[i] + [a]])
    ensures RingsOf(k, lists[i := lists[i] + [a]]) ==
      RingsOf(k, lists)[i := RingsOf(k, lists)[i] + [NodesOf(k, i)[a]]]
  {
    var lists' := lists[i := lists[i] + [a]];
    NoDupAppend(lists[i], a);
    assert Known(k, lists[i]);
    var r, r' := RingOf(k, i, lists[i]), RingOf(k, i, lists'[i]);
    assert r' == r + [NodesOf(k, i)[a]];
  }

  lemma RingCut(k: Wires, i: nat, l: seq<Addr>, p: nat)
    requires WellNamed(k) && i < |k.heads| && Known(k, l) && p < |l|
    ensures Known(k, Cut(l, p))
    ensures RingOf(k, i, Cut(l, p)) == Cut(RingOf(k, i, l), p + 1)
  {
    var c, r := Cut(l, p), RingOf(k, i, l);
    assert forall q :: 0 <= q < |c| ==> c[q] == l[if q < p then q else q + 1];
    assert RingOf(k, i, c) == Cut(r, p + 1);
  }

  lemma RingsCut(k: Wires, lists: seq<seq<Addr>>, i: nat, a: Addr) returns (at: nat)
    requires WellNamed(k) && ListsOk(k, lists) && i < |lists| && a in lists[i] && a in k.fdNodes
    ensures 1 <= at < |RingsOf(k, lists)[i]| && RingsOf(k, lists)[i][at] == NodesOf(k, i)[a]
    ensures ListsOk(k, lists[i := Minus(lists[i], {a})])
    ensures RingsOf(k, lists[i := Minus(lists[i], {a})]) ==
      RingsOf(k, lists)[i := Cut(RingsOf(k, lists)[i], at)]
  {
    var p :| 0 <= p < |lists[i]| && lists[i][p] == a;
    assert Known(k, lists[i]);
    MinusCut(lists[i], p);
    MinusNoDup(lists[i], {a});
    RingCut(k, i, lists[i], p);
    at := p + 1;
  }

  /** list_add_tail of block `a`'s descriptor node onto list `i`. */
  method AppendFd(entry: Node, head: Node, ghost k: Wires, ghost lists: seq<seq<Addr>>, ghost off: set<Addr>,
                  ghost i: nat, ghost a: Addr)
    requires Linked(k, lists, off) && i < |lists| - 1 && head == k.heads[i]
    requires a in k.fdNodes && entry == k.fdNodes[a]
    requires forall j :: 0 <= j < |lists| - 1 ==> a !in lists[j]
    modifies AllNodes(k)
    ensures Linked(k, lists[i := lists[i] + [a]], off)
  {
    OnNoRing(k, lists, i, a);
    RingsAppend(k, lists, i, a);
    NodeKnown(k, i, a);
    AddTail(entry, head, RingsOf(k, lists), AloneNodes(k, off), AllNodes(k), i);
    Names(k, off, a);
    Weaken(RingsOf(k, lists[i := lists[i] + [a]]), AloneNodes(k, off) - {entry}, AllNodes(k),
           AloneNodes(k, off), AllNodes(k));
  }

  /** list_add_tail of block `a`'s timer node. */
  method AppendTimer(entry: Node, head: Node, ghost k: Wires, ghost lists: seq<seq<Addr>>, ghost off: set<Addr>,
                     ghost i: nat, ghost a: Addr)
    requires Linked(k, lists, off) && i == |lists| - 1 && head == k.heads[i]
    requires a in k.timerNodes && entry == k.timerNodes[a] && a !in lists[i]
    modifies AllNodes(k)
    ensures Linked(k, lists[i := lists[i] + [a]], off - {a})
  {
    OnNoRing(k, lists, i, a);
    RingsAppend(k, lists, i, a);
    NodeKnown(k, i, a);
    AddTail(entry, head, RingsOf(k, lists), AloneNodes(k, off), AllNodes(k), i);
    Names(k, off, a);
    Weaken(RingsOf(k, lists[i := lists[i] + [a]]), AloneNodes(k, off) - {entry}, AllNodes(k),
           AloneNodes(k, off - {a}), AllNodes(k));
  }

  lemma Names(k: Wires, off: set<Addr>, a: Addr)
    requires WellNamed(k) && a in k.fdNodes && a in k.timerNodes
    ensures k.fdNodes[a] !in AloneNodes(k, off)
    ensures AloneNodes(k, off - {a}) <= AloneNodes(k, off) - {k.timerNodes[a]}
    ensures AloneNodes(k, off + {a}) <= AloneNodes(k, off) + {k.timerNodes[a]}
    ensures a in off ==> k.timerNodes[a] in AloneNodes(k, off)
  {
  }

  /** list_del_init of block `a`'s descriptor node. */
  method UnlinkFd(entry: Node, ghost k: Wires, ghost lists: seq<seq<Addr>>, ghost off: set<Addr>, ghost i: nat, ghost a: Addr)
    requires Linked(k, lists, off) && i < |lists| - 1 && a in k.fdNodes && entry == k.fdNodes[a]
    requires a in lists[i]
    modifies AllNodes(k)
    ensures Linked(k, lists[i := Minus(lists[i], {a})], off)
  {
    ghost var at := RingsCut(k, lists, i, a);
    Take(entry, RingsOf(k, lists), AloneNodes(k, off), AllNodes(k), i, at);
    Weaken(RingsOf(k, lists[i := Minus(lists[i], {a})]), AloneNodes(k, off) + {entry}, AllNodes(k),
           AloneNodes(k, off), AllNodes(k));
  }

  /** Where block `a`'s timer node is on ring `i`, the timer's; zero when it is alone. */
  lemma TimerSpot(k: Wires, lists: seq<seq<Addr>>, off: set<Addr>, i: nat, a: Addr) returns (at: nat)
    requires WellNamed(k) && ListsOk(k, lists) && a in k.timerNodes && i == |lists| - 1
    requires a in lists[i] || a in off
    ensures at < |RingsOf(k, lists)[i]|
    ensures at == 0 ==> k.timerNodes[a] in AloneNodes(k, off)
    ensures at > 0 ==> RingsOf(k, lists)[i][at] == k.timerNodes[a]
    ensures ListsOk(k, lists[i := Minus(lists[i], {a})])
    ensures Without(RingsOf(k, lists), i, at) == RingsOf(k, lists[i := Minus(lists[i], {a})])
    ensures AloneNodes(k, off + {a}) <= AloneNodes(k, off) + {k.timerNodes[a]}
  {
    Names(k, off, a);
    if a in lists[i] {
      at := RingsCut(k, lists, i, a);
    } else {
      MinusNothing(lists[i], {a});
      assert lists[i := lists[i]] == lists;
      at := 0;
    }
  }

  /** list_del_init of block `a`'s timer node, on the timer or already off it. */
  method UnlinkTimer(entry: Node, ghost k: Wires, ghost lists: seq<seq<Addr>>, ghost off: set<Addr>, ghost i: nat, ghost a: Addr)
    requires Linked(k, lists, off) && a in k.timerNodes && entry == k.timerNodes[a] && i == |lists| - 1
    requires a in lists[i] || a in off
    modifies AllNodes(k)
    ensures Linked(k, lists[i := Minus(lists[i], {a})], off + {a})
  {
    ghost var at := TimerSpot(k, lists, off, i, a);
    Take(entry, RingsOf(k, lists), AloneNodes(k, off), AllNodes(k), i, at);
    Weaken(RingsOf(k, lists[i := Minus(lists[i], {a})]), AloneNodes(k, off) + {entry}, AllNodes(k),
           AloneNodes(k, off + {a}), AllNodes(k));
  }

  /** INIT_LIST_HEAD on the timer node of a block that is not on the timer. */
  method ResetTimer(entry: Node, ghost k: Wires, ghost lists: seq<seq<Addr>>, ghost off: set<Addr>, ghost i: nat, ghost a: Addr)
    requires Linked(k, lists, off) && a in k.timerNodes && entry == k.timerNodes[a] && i == |lists| - 1
    requires a !in lists[i]
    modifies AllNodes(k)
    ensures Linked(k, lists, off + {a})
    ensures entry.next == entry && entry.prev == entry
  {
    OnNoRing(k, lists, i, a);
    NodeKnown(k, i, a);
    Names(k, off, a);
    Reset(entry, RingsOf(k, lists), AloneNodes(k, off), AllNodes(k));
    Weaken(RingsOf(k, lists), AloneNodes(k, off) + {entry}, AllNodes(k), AloneNodes(k, off + {a}), AllNodes(k));
  }

  lemma LinkedFewer(k: Wires, lists: seq<seq<Addr>>, off: set<Addr>, off': set<Addr>)
    requires Linked(k, lists, off) && off' <= off
    ensures Linked(k, lists, off')
  {
    Weaken(RingsOf(k, lists), AloneNodes(k, off), AllNodes(k), AloneNodes(k, off'), AllNodes(k));
  }

  ghost predicate Grown(k: Wires, k': Wires) {
    k'.heads == k.heads && Extends(k.fdNodes, k'.fdNodes) && Extends(k.timerNodes, k'.timerNodes)
  }

  lemma MoreNodes(k: Wires, k': Wires, off: set<Addr>)
    requires Grown(k, k') && off <= k.timerNodes.Keys
    ensures AllNodes(k) <= AllNodes(k')
    ensures AloneNodes(k', off) == AloneNodes(k, off)
  {
    ValuesGrow(k.fdNodes, k'.fdNodes);
    ValuesGrow(k.timerNodes, k'.timerNodes);
  }

  lemma SameRing(k: Wires, k': Wires, i: nat, l: seq<Addr>)
    requires WellNamed(k) && WellNamed(k') && Grown(k, k') && i < |k.heads| && Known(k, l)
    ensures Known(k', l) && RingOf(k', i, l) == RingOf(k, i, l)
  {
    forall p | 0 <= p < |l|
      ensures l[p] in k'.fdNodes.Keys && l[p] in k'.timerNodes.Keys
    {
      var a := l[p];
      assert a in k.fdNodes.Keys && a in k.timerNodes.Keys;
    }
    var r, r' := RingOf(k, i, l), RingOf(k', i, l);
    forall p | 0 <= p < |r|
      ensures r'[p] == r[p]
    {
      if p > 0 {
        var a := l[p - 1];
        assert a in k.fdNodes && a in k.timerNodes;
      }
    }
  }

  /** Blocks joining the picture leave the rings as they are. */
  lemma LinkedGrow(k: Wires, k': Wires, lists: seq<seq<Addr>>, off: set<Addr>)
    requires Linked(k, lists, off) && WellNamed(k') && Grown(k, k')
    ensures Linked(k', lists, off)
  {
    forall i | 0 <= i < |lists|
      ensures Known(k', lists[i]) && RingOf(k', i, lists[i]) == RingOf(k, i, lists[i])
    {
      SameRing(k, k', i, lists[i]);
    }
    MoreNodes(k, k', off);
    assert RingsOf(k', lists) == RingsOf(k, lists);
    Weaken(RingsOf(k, lists), AloneNodes(k, off), AllNodes(k), AloneNodes(k, off), AllNodes(k'));
  }

  /** Where a list head and the first node of the list lead. */
  lemma Walk(k: Wires, lists: seq<seq<Addr>>, off: set<Addr>, i: nat)
    requires Linked(k, lists, off) && i < |lists|
    ensures lists[i] == [] ==> k.heads[i].next == k.heads[i] && k.heads[i].prev == k.heads[i]
    ensures lists[i] != [] ==>
      && lists[i][0] in NodesOf(k, i)
      && k.heads[i].next == NodesOf(k, i)[lists[i][0]]
      && NodesOf(k, i)[lists[i][0]] != k.heads[i]
    ensures |lists[i]| == 1 ==> NodesOf(k, i)[lists[i][0]].next == k.heads[i]
    ensures |lists[i]| > 1 ==>
      && lists[i][1] in NodesOf(k, i)
      && NodesOf(k, i)[lists[i][0]].next == NodesOf(k, i)[lists[i][1]]
  {
    var l, r := lists[i], RingOf(k, i, lists[i]);
    assert Known(k, l) && r == RingsOf(k, lists)[i] && Ring(r);
    assert l != [] ==> r[1] == NodesOf(k, i)[l[0]];
    assert |l| > 1 ==> r[2] == NodesOf(k, i)[l[1]];
  }

  /** Heads that all point at themselves carry empty lists. */
  lemma EmptyLinked(k: Wires, lists: seq<seq<Addr>>)
    requires WellNamed(k) && |lists| == |k.heads| && k.fdNodes == map[]
    requires forall i :: 0 <= i < |lists| ==> lists[i] == [] && k.heads[i].next == k.heads[i] && k.heads[i].prev == k.heads[i]
    ensures Linked(k, lists, {})
  {
    var rings := RingsOf(k, lists);
    forall j | 0 <= j < |rings|
      ensures rings[j] == [k.heads[j]] && Inside(rings[j], AllNodes(k)) && Ring(rings[j])
    {
      assert rings[j] == RingOf(k, j, lists[j]);
      assert k.heads[j] in AllNodes(k);
    }
    forall i, j | 0 <= i < |rings| && 0 <= j < |rings| && i != j
      ensures NoShare(rings[i], rings[j])
    {
      RingId(k, i, lists[i], 0);
      RingId(k, j, lists[j], 0);
    }
  }

  lemma AloneNode(k: Wires, lists: seq<seq<Addr>>, off: set<Addr>, a: Addr)
    requires Linked(k, lists, off) && a in off
    ensures a in k.timerNodes && k.timerNodes[a].next == k.timerNodes[a] && k.timerNodes[a].prev == k.timerNodes[a]
  {
    assert k.timerNodes[a] in AloneNodes(k, off);
  }
}
