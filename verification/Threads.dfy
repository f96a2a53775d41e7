/** Several rings over one pool of nodes, with the nodes that stand alone. */
module Threads {
  import opened Sequences
  import opened IntrusiveList

  ghost predicate Inside(r: seq<Node>, all: set<Node>) {
    forall p :: 0 <= p < |r| ==> r[p] in all
  }

  ghost predicate NoShare(r: seq<Node>, t: seq<Node>) {
    forall p, q :: 0 <= p < |r| && 0 <= q < |t| ==> r[p] != t[q]
  }

  ghost predicate NoneOf(r: seq<Node>, s: set<Node>) {
    forall p :: 0 <= p < |r| ==> r[p] !in s
  }

  /** Pairwise disjoint rings inside `all`; the nodes of `alone` are on none of them. */
  ghost predicate Layout(rings: seq<seq<Node>>, alone: set<Node>, all: set<Node>) {
    && (forall j :: 0 <= j < |rings| ==> Inside(rings[j], all) && NoneOf(rings[j], alone))
    && (forall i, j :: 0 <= i < |rings| && 0 <= j < |rings| && i != j ==> NoShare(rings[i], rings[j]))
    && alone <= all
  }

  ghost predicate Rings(rings: seq<seq<Node>>, all: set<Node>)
    reads all
  {
    forall j :: 0 <= j < |rings| ==> Inside(rings[j], all) && Ring(rings[j])
  }

  ghost predicate SelfLinked(alone: set<Node>)
    reads alone
  {
    forall n :: n in alone ==> n.next == n && n.prev == n
  }

  ghost predicate Threaded(rings: seq<seq<Node>>, alone: set<Node>, all: set<Node>)
    reads all
  {
    Layout(rings, alone, all) && Rings(rings, all) && SelfLinked(alone)
  }

  lemma LayoutAppend(rings: seq<seq<Node>>, alone: set<Node>, all: set<Node>, i: nat, entry: Node)
    requires Layout(rings, alone, all) && i < |rings| && entry in all
    requires forall j :: 0 <= j < |rings| ==> entry !in rings[j]
    ensures Layout(rings[i := rings[i] + [entry]], alone - {entry}, all)
  {
    var rings' := rings[i := rings[i] + [entry]];
    forall j | 0 <= j < |rings'|
      ensures Inside(rings'[j], all) && NoneOf(rings'[j], alone - {entry})
    {
      assert Inside(rings[j], all) && NoneOf(rings[j], alone);
    }
    forall x, y | 0 <= x < |rings'| && 0 <= y < |rings'| && x != y
      ensures NoShare(rings'[x], rings'[y])
    {
      assert NoShare(rings[x], rings[y]);
    }
  }

  /** list_add_tail onto ring `i` of a node that is on no ring. */
  method AddTail(entry: Node, head: Node, ghost rings: seq<seq<Node>>, ghost alone: set<Node>, ghost all: set<Node>,
                 ghost i: nat)
    requires Threaded(rings, alone, all) && i < |rings| && entry in all
    requires rings[i][0] == head
    requires forall j :: 0 <= j < |rings| ==> entry !in rings[j]
    modifies all
    ensures Threaded(rings[i := rings[i] + [entry]], alone - {entry}, all)
  {
    ghost var rings' := rings[i := rings[i] + [entry]];
    LayoutAppend(rings, alone, all, i, entry);
    ListAddTail(entry, head, rings[i]);
    forall j | 0 <= j < |rings'|
      ensures Ring(rings'[j])
    {
      if j != i {
        assert NoShare(rings[i], rings[j]) && old(Ring(rings[j]));
      }
    }
    assert NoneOf(rings[i], alone);
  }

  lemma LayoutCut(rings: seq<seq<Node>>, alone: set<Node>, all: set<Node>, i: nat, at: nat)
    requires Layout(rings, alone, all) && i < |rings| && at < |rings[i]| && NoDup(rings[i])
    ensures Layout(rings[i := Cut(rings[i], at)], alone + {rings[i][at]}, all)
  {
    var rings', c, entry := rings[i := Cut(rings[i], at)], Cut(rings[i], at), rings[i][at];
    assert forall q :: 0 <= q < |c| ==> c[q] == rings[i][if q < at then q else q + 1];
    forall j | 0 <= j < |rings'|
      ensures Inside(rings'[j], all) && NoneOf(rings'[j], alone + {entry})
    {
      assert Inside(rings[j], all) && NoneOf(rings[j], alone);
      if j != i { assert NoShare(rings[i], rings[j]); }
    }
    assert Inside(rings[i], all);
    forall x, y | 0 <= x < |rings'| && 0 <= y < |rings'| && x != y
      ensures NoShare(rings'[x], rings'[y])
    {
      assert NoShare(rings[x], rings[y]);
    }
  }

  /** Ring `i` without the node at position `at`; position zero stands for no node. */
  ghost function Without(rings: seq<seq<Node>>, i: nat, at: nat): seq<seq<Node>>
    requires i < |rings| && at < |rings[i]|
  {
    if at == 0 then rings else rings[i := Cut(rings[i], at)]
  }

  /** list_del_init of the node at position `at` of ring `i`, not its head; or, with `at`
      zero, of a node that stands alone already, and then nothing moves. */
  method Take(entry: Node, ghost rings: seq<seq<Node>>, ghost alone: set<Node>, ghost all: set<Node>, ghost i: nat, ghost at: nat)
    requires Threaded(rings, alone, all) && i < |rings| && at < |rings[i]|
    requires if at == 0 then entry in alone else rings[i][at] == entry
    modifies all
    ensures Threaded(Without(rings, i, at), alone + {entry}, all)
  {
    ghost var ring := if at == 0 then [entry] else rings[i];
    ghost var touched := {entry, entry.prev, entry.next};
    TouchedApart(rings, alone, all, i, at, entry);
    ListDelInit(entry, ring, at);
    assert SelfLinked(alone + {entry});
    if at > 0 {
      LayoutCut(rings, alone, all, i, at);
      assert Rings(rings[i := Cut(rings[i], at)], all);
    } else {
      assert alone + {entry} == alone;
      assert Rings(rings, all);
    }
  }

  /** What list_del_init writes to lies off every other ring and off the lone nodes. */
  lemma TouchedApart(rings: seq<seq<Node>>, alone: set<Node>, all: set<Node>, i: nat, at: nat, entry: Node)
    requires Threaded(rings, alone, all) && i < |rings| && at < |rings[i]|
    requires if at == 0 then entry in alone else rings[i][at] == entry
    ensures var touched := {entry, entry.prev, entry.next};
      && touched <= all
      && alone * touched <= {entry}
      && forall j :: 0 <= j < |rings| && (at == 0 || j != i) ==> NoneOf(rings[j], touched)
  {
    var touched := {entry, entry.prev, entry.next};
    if at > 0 {
      Neighbours(rings[i], at);
      assert Inside(rings[i], all) && NoneOf(rings[i], alone);
    }
    forall j | 0 <= j < |rings| && (at == 0 || j != i)
      ensures NoneOf(rings[j], touched)
    {
      assert NoneOf(rings[j], alone);
      assert at > 0 ==> NoShare(rings[i], rings[j]);
    }
  }

  lemma Neighbours(r: seq<Node>, at: nat)
    requires Ring(r) && at < |r|
    ensures r[at].next in r && r[at].prev in r
  {
    var n := |r|;
    assert r[at].next == r[if at == n - 1 then 0 else at + 1];
    assert r[at].prev == r[if at == 0 then n - 1 else at - 1];
  }

  /** More nodes, fewer of them watched as lone. */
  lemma Weaken(rings: seq<seq<Node>>, alone: set<Node>, all: set<Node>, alone': set<Node>, all': set<Node>)
    requires Threaded(rings, alone, all) && alone' <= alone && all <= all'
    ensures Threaded(rings, alone', all')
  {
    forall j | 0 <= j < |rings|
      ensures Inside(rings[j], all') && NoneOf(rings[j], alone')
    {
      assert Inside(rings[j], all) && NoneOf(rings[j], alone);
    }
  }

  /** INIT_LIST_HEAD on a node that is on no ring. */
  method Reset(entry: Node, ghost rings: seq<seq<Node>>, ghost alone: set<Node>, ghost all: set<Node>)
    requires Threaded(rings, alone, all) && entry in all
    requires forall j :: 0 <= j < |rings| ==> entry !in rings[j]
    modifies entry
    ensures Threaded(rings, alone + {entry}, all)
  {
    entry.next := entry;
    entry.prev := entry;
    forall j | 0 <= j < |rings|
      ensures Inside(rings[j], all) && NoneOf(rings[j], alone + {entry}) && Ring(rings[j])
    {
      assert NoneOf(rings[j], alone) && old(Ring(rings[j]));
    }
  }
}
