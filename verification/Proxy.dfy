/** src/base/proxy.cpp on linked memory: requests are blocks of the memory pool, threaded by
    embedded nodes on a descriptor's list and on the timer, and found by serial number.
    Every method is tied to the step of the state machine in `Lifecycle` it performs. */
module ProxyServer {
  import opened Memory
  import opened Sequences
  import opened BlockPool
  import opened MemPools
  import opened IntrusiveList
  import opened Threads
  import opened Links
  import opened Timer
  import opened Lifecycle
  import Runs
  import opened Effects

  const NO_MEMORY_STATUS: nat := 1001

  /** The header SendToClient puts on the wire. */
  datatype Reply = Reply(fd: nat, seqNum: nat, cmdId: nat, statusCode: nat, userId: nat)

  datatype MaybeReply = NoReply | Sent(reply: Reply)

  /** A ClientInfo laid over the pool block at `addr`. */
  class ClientInfo {
    const addr: Addr
    const fdNode: Node
    const event: TimerEvent
    var cliFd: int
    var cliSeq: int
    var cliCmd: nat
    var userId: nat
    var serSeq: nat
    var len: nat
    var buf: seq<Byte>

    constructor (addr: Addr)
      ensures this.addr == addr
      ensures fresh(fdNode) && fdNode.id == FdLink(addr)
      ensures fresh(event) && fresh(event.node) && event.node.id == TimerLink(addr)
    {
      this.addr := addr;
      fdNode := new Node(FdLink(addr));
      event := new TimerEvent(addr);
      cliFd, cliSeq, cliCmd, userId, serSeq, len, buf := 0, 0, 0, 0, 0, 0, [];
    }
  }

  /** A body in the fixed-size buffer, zeros after it. */
  function Padded(body: seq<Byte>): seq<Byte> {
    if |body| >= BODY_SIZE then body else body + seq(BODY_SIZE - |body|, _ => 0)
  }

  /** The block's fields and timer event are those of request `q`. */
  ghost predicate Holds(ci: ClientInfo, q: Req)
    reads ci, ci.event
  {
    && ci.cliFd == q.fd
    && ci.cliSeq == q.packet.seqNum && ci.cliCmd == q.packet.cmdId && ci.userId == q.packet.userId
    && ci.len == |q.packet.body| && ci.buf == Padded(q.packet.body)
    && ci.serSeq == q.sn
    && ci.event.expireTime == q.expire && ci.event.func == ServerTimeout && ci.event.owner == ci.addr
  }

  /** Blocks are found at their address and their parts are named for it. */
  ghost predicate Placed(view: map<Addr, ClientInfo>) {
    forall a :: a in view ==>
      && view[a].addr == a
      && view[a].fdNode.id == FdLink(a)
      && view[a].event.node.id == TimerLink(a)
  }

  ghost function FdNodes(view: map<Addr, ClientInfo>): map<Addr, Node> {
    map a | a in view :: view[a].fdNode
  }

  ghost function TimerNodes(view: map<Addr, ClientInfo>): map<Addr, Node> {
    map a | a in view :: view[a].event.node
  }

  ghost function Lists(s: State): seq<seq<Addr>> {
    s.fdLists + [s.timer]
  }

  /** Requests whose event is not on the timer. */
  ghost function Off(s: State): set<Addr> {
    set a | a in s.reqs && a !in s.timer
  }

  ghost function Events(view: map<Addr, ClientInfo>): set<TimerEvent> {
    set a | a in view :: view[a].event
  }

  /** The blocks and their events belong to `repr`. */
  ghost predicate Owns(repr: set<object>, view: map<Addr, ClientInfo>) {
    && (forall c :: c in view.Values ==> c in repr)
    && (forall e :: e in Events(view) ==> e in repr)
  }

  ghost predicate Contents(view: map<Addr, ClientInfo>, reqs: map<Addr, Req>)
    reads view.Values, Events(view)
  {
    forall a :: a in reqs ==> a in view && Holds(view[a], reqs[a])
  }

  ghost predicate Registered(registry: map<nat, ClientInfo>, view: map<Addr, ClientInfo>, table: map<nat, Addr>) {
    && registry.Keys == table.Keys
    && forall sn :: sn in table ==> table[sn] in view && registry[sn] == view[table[sn]]
  }

  // ------------------------------------------------------- one block leaving

  lemma UnlinkedFd(s: State, a: Addr)
    requires FdInv(s) && a in s.reqs
    ensures var fd := s.reqs[a].fd;
      && fd < |s.fdLists| && a in Lists(s)[fd]
      && Lists(s)[fd := Minus(Lists(s)[fd], {a})] == MinusAll(s.fdLists, {a}) + [s.timer]
  {
    var fd := s.reqs[a].fd;
    var m := MinusAll(s.fdLists, {a});
    forall i | 0 <= i < |s.fdLists| && i != fd
      ensures m[i] == s.fdLists[i]
    {
      assert AllOf(s.fdLists[i], s.reqs, i);
      MinusNothing(s.fdLists[i], {a});
    }
    assert Lists(s)[fd := Minus(Lists(s)[fd], {a})] == m + [s.timer];
  }

  lemma UnlinkedTimer(s: State, a: Addr)
    ensures var n := |s.fdLists|;
      var l := MinusAll(s.fdLists, {a}) + [s.timer];
      l[n] == s.timer && l[n := Minus(l[n], {a})] == Lists(ReclaimAll(s, [a]))
    ensures Off(ReclaimAll(s, [a])) <= Off(s) + {a}
    ensures FreeAll(s.pool, [a]) == BlockPool.Free(s.pool, a)
    ensures ReclaimAll(s, [a]).pool == BlockPool.Free(s.pool, a)
    ensures ReclaimAll(s, [a]).reqs == s.reqs - {a}
    ensures ReclaimAll(s, [a]).table == Unmapped(s.table, {a})
  {
    assert Elems([a]) == {a};
    assert [a][..0] == [] && FreeAll(s.pool, []) == s.pool;
    var l := MinusAll(s.fdLists, {a}) + [s.timer];
    assert l[|s.fdLists| := Minus(s.timer, {a})] == Lists(ReclaimAll(s, [a]));
  }

  /** A number is in the registry iff it is in the table, and leads to the same block. */
  lemma TableLookup(registry: map<nat, ClientInfo>, view: map<Addr, ClientInfo>, s: State, sn: nat)
    requires Registered(registry, view, s.table) && InvOff(s, Off(s))
    ensures sn in registry <==> sn in s.table
    ensures sn in s.table ==>
      var a := s.table[sn];
      && a in s.reqs && a in view && registry[sn] == view[a]
      && Registered(registry - {sn}, view, Unmapped(s.table, {a}))
    ensures sn !in s.table ==> Destroy(s, sn) == s
  {
    if sn in s.table {
      var a := s.table[sn];
      forall x | x in s.table
        ensures s.table[x] == a <==> x == sn
      {
        assert s.reqs[s.table[x]].sn == x;
      }
      assert (registry - {sn}).Keys == Unmapped(s.table, {a}).Keys;
    }
  }

  lemma Owned(self: object, pool: MemPool, heads: seq<Node>, timerHead: Node,
              view: map<Addr, ClientInfo>, repr: set<object>, a: Addr)
    requires Wired(self, pool, heads, timerHead, view, repr) && a in view
    ensures var k, ci := WiresOf(heads, timerHead, view), view[a];
      && Placed(view) && ci.addr == a
      && a in k.fdNodes && k.fdNodes[a] == ci.fdNode
      && a in k.timerNodes && k.timerNodes[a] == ci.event.node
      && self in repr && pool in repr && ci in repr && ci.event in repr
      && forall n :: n in AllNodes(k) ==> n in repr
  {
    assert view[a] in view.Values && view[a].event in Events(view);
  }

  lemma InvAfterDestroy(s: State, a: Addr)
    requires InvOff(s, Off(s)) && a in s.reqs
    ensures var t := ReclaimAll(s, [a]);
      InvOff(t, Off(t)) && t.reqs == s.reqs - {a} && |t.fdLists| == |s.fdLists|
    ensures ReclaimAll(s, [a]).nextSn == s.nextSn
    ensures ReclaimAll(s, [a]).table == Unmapped(s.table, {a})
  {
    hide InvOff;
    assert Elems([a]) == {a};
    ReclaimInv(s, Off(s), [a]);
    assert Off(ReclaimAll(s, [a])) == Off(s) - {a};
  }

  lemma OthersDistinct(view: map<Addr, ClientInfo>, reqs: map<Addr, Req>, a: Addr)
    requires Placed(view) && a in view
    ensures forall b :: b in view && b != a ==> view[b] != view[a] && view[b].event != view[a].event
  {
  }

  /** Unlink, give back, unlink: the block goes back to the pool, which overwrites its first
      word, before its timer node leaves the timer. */
  method Detach(ci: ClientInfo, pool: MemPool, ghost k: Wires, ghost s: State, ghost a: Addr)
    requires Linked(k, Lists(s), Off(s))
    requires a in k.fdNodes && a in k.timerNodes && ci.fdNode == k.fdNodes[a] && ci.event.node == k.timerNodes[a]
    requires pool.Valid() && pool.model == s.pool && ci.addr == a
    requires InvOff(s, Off(s)) && a in s.reqs
    modifies ci, ci.event, pool, AllNodes(k)
    ensures Linked(k, Lists(ReclaimAll(s, [a])), Off(ReclaimAll(s, [a])))
    ensures pool.Valid() && pool.model == ReclaimAll(s, [a]).pool
  {
    hide Linked, MemPool.Valid, FdInv, ReclaimAll, Off;
    ghost var t, n, lists, off := ReclaimAll(s, [a]), |s.fdLists|, MinusAll(s.fdLists, {a}) + [s.timer], Off(s);
    UnlinkedFd(s, a);
    UnlinkedTimer(s, a);
    TimerOrOff(s, a);
    UnlinkFd(ci.fdNode, k, Lists(s), off, s.reqs[a].fd, a);
    pool.Free(ci.addr);
    ci.cliFd, ci.cliSeq := *, *;
    DelEvent(ci.event, k, lists, off, n, a);
    LinkedFewer(k, Lists(t), off + {a}, Off(t));
  }

  /** The same, seen from the other blocks: nothing in them changes. */
  method DetachOne(ci: ClientInfo, pool: MemPool, ghost k: Wires, ghost s: State, ghost a: Addr,
                   ghost view: map<Addr, ClientInfo>)
    requires Linked(k, Lists(s), Off(s))
    requires a in k.fdNodes && a in k.timerNodes && ci.fdNode == k.fdNodes[a] && ci.event.node == k.timerNodes[a]
    requires pool.Valid() && pool.model == s.pool && ci.addr == a
    requires InvOff(s, Off(s)) && a in s.reqs
    requires a in view && view[a] == ci && Placed(view)
    requires Contents(view, s.reqs)
    modifies ci, ci.event, pool, AllNodes(k)
    ensures Linked(k, Lists(ReclaimAll(s, [a])), Off(ReclaimAll(s, [a])))
    ensures pool.Valid() && pool.model == ReclaimAll(s, [a]).pool
    ensures Contents(view, s.reqs - {a})
  {
    hide Linked, MemPool.Valid, InvOff, ReclaimAll, Off, Lists;
    OthersDistinct(view, s.reqs, a);
    Detach(ci, pool, k, s, a);
    forall b | b in s.reqs && b != a
      ensures Holds(view[b], s.reqs[b])
    {
      assert old(Holds(view[b], s.reqs[b]));
    }
  }

  /** Unlinking a timer node leaves every block's contents as they are. */
  method TakeNode(pos: Node, ghost k: Wires, ghost lists: seq<seq<Addr>>, ghost off: set<Addr>, ghost i: nat, ghost a: Addr,
                  ghost view: map<Addr, ClientInfo>, ghost reqs: map<Addr, Req>)
    requires Linked(k, lists, off) && a in k.timerNodes && pos == k.timerNodes[a] && i == |lists| - 1
    requires a in lists[i] || a in off
    requires Contents(view, reqs)
    modifies AllNodes(k)
    ensures Linked(k, lists[i := Minus(lists[i], {a})], off + {a})
    ensures Contents(view, reqs)
  {
    hide Linked;
    UnlinkTimer(pos, k, lists, off, i, a);
    forall b | b in reqs
      ensures Holds(view[b], reqs[b])
    {
      assert old(Holds(view[b], reqs[b]));
    }
  }

  lemma TimerOrOff(s: State, a: Addr)
    requires a in s.reqs
    ensures a in s.timer || a in Off(s)
  {
  }

  ghost function WiresOf(heads: seq<Node>, timerHead: Node, view: map<Addr, ClientInfo>): Wires {
    Wires(heads + [timerHead], FdNodes(view), TimerNodes(view))
  }

  /** How the parts of the proxy object are named and that it owns them. */
  ghost predicate Wired(self: object, pool: MemPool, heads: seq<Node>, timerHead: Node,
                        view: map<Addr, ClientInfo>, repr: set<object>)
  {
    && self in repr && pool in repr
    && Owns(repr, view) && Placed(view)
    && WellNamed(WiresOf(heads, timerHead, view))
    && (forall n :: n in AllNodes(WiresOf(heads, timerHead, view)) ==> n in repr)
  }

  /** The proxy object is none of the objects its blocks and rings consist of. */
  lemma SelfApart(self: Proxy, k: Wires, view: map<Addr, ClientInfo>)
    ensures forall c :: c in view.Values ==> c as object != self
    ensures forall e :: e in Events(view) ==> e as object != self
    ensures forall n :: n in AllNodes(k) ==> n as object != self
  {
  }

  // ------------------------------------------------------ one block arriving

  /** The fields ProcPkgCli copies from the packet. */
  ghost predicate Filled(ci: ClientInfo, fd: nat, pkt: Packet)
    reads ci
  {
    && ci.cliFd == fd && ci.cliSeq == pkt.seqNum && ci.cliCmd == pkt.cmdId && ci.userId == pkt.userId
    && ci.len == |pkt.body| && ci.buf == Padded(pkt.body)
  }

  /** event_init and the copying of the packet into a block no list mentions. */
  method Fill(ci: ClientInfo, fd: nat, pkt: Packet, ghost k: Wires, ghost lists: seq<seq<Addr>>, ghost off: set<Addr>,
              ghost n: nat, ghost a: Addr, ghost view: map<Addr, ClientInfo>, ghost reqs: map<Addr, Req>)
    requires Linked(k, lists, off) && n == |lists| - 1
    requires a in k.timerNodes && ci.event.node == k.timerNodes[a] && a !in lists[n]
    requires Placed(view) && a in view && view[a] == ci && a !in reqs && Contents(view, reqs)
    requires |pkt.body| <= BODY_SIZE
    modifies ci, ci.event, AllNodes(k)
    ensures Linked(k, lists, off + {a}) && Contents(view, reqs) && Filled(ci, fd, pkt)
  {
    hide Linked;
    OthersDistinct(view, reqs, a);
    EventInit(ci.event, k, lists, off, n, a);
    ci.cliSeq, ci.cliFd, ci.cliCmd, ci.userId := pkt.seqNum, fd, pkt.cmdId, pkt.userId;
    ci.len := pkt.Length() - HEADER_SIZE;
    ci.buf := pkt.body + seq(BODY_SIZE - |pkt.body|, _ => 0);
    forall b | b in reqs
      ensures Holds(view[b], reqs[b])
    {
      assert old(Holds(view[b], reqs[b]));
    }
  }

  /** The serial number goes into the block, the block onto its descriptor's list and its
      event onto the timer. */
  method Thread(ci: ClientInfo, head: Node, timerHead: Node, sn: nat, expire: int, ghost k: Wires, ghost lists: seq<seq<Addr>>, ghost off: set<Addr>,
                ghost n: nat, ghost a: Addr, ghost q: Req, ghost view: map<Addr, ClientInfo>, ghost reqs: map<Addr, Req>)
    requires Linked(k, lists, off) && n == |lists| - 1 && q.fd < n && q.expire == expire
    requires head == k.heads[q.fd] && timerHead == k.heads[n]
    requires a in k.fdNodes && ci.fdNode == k.fdNodes[a]
    requires a in k.timerNodes && ci.event.node == k.timerNodes[a]
    requires forall j :: 0 <= j <= n ==> a !in lists[j]
    requires Placed(view) && a in view && view[a] == ci && a !in reqs && Contents(view, reqs)
    requires Filled(ci, q.fd, q.packet) && q.sn == sn
    modifies ci, ci.event, AllNodes(k)
    ensures Linked(k, lists[q.fd := lists[q.fd] + [a]][n := lists[n] + [a]], off - {a})
    ensures Contents(view, reqs[a := q])
  {
    hide Linked;
    OthersDistinct(view, reqs, a);
    ci.serSeq := sn;
    AppendFd(ci.fdNode, head, k, lists, off, q.fd, a);
    AddEvent(timerHead, ci.event, expire, ServerTimeout, ci.addr, NULL,
             k, lists[q.fd := lists[q.fd] + [a]], off, n, a);
    forall b | b in reqs
      ensures Holds(view[b], reqs[b])
    {
      assert old(Holds(view[b], reqs[b]));
    }
  }

  // ---------------------------------------------------------------- shutdown

  ghost predicate Retired(ci: ClientInfo)
    reads ci.event, ci.event.node
  {
    ci.event.Cleared() && !ci.event.Works()
  }

  ghost predicate AllCleared(view: map<Addr, ClientInfo>, done: set<Addr>)
    reads Events(view)
  {
    forall b :: b in done ==> b in view && view[b].event.Cleared()
  }

  /** One turn of timer_uninit's loop. */
  method RetireFirst(event: TimerEvent, ghost k: Wires, ghost lists: seq<seq<Addr>>, ghost off: set<Addr>, ghost n: nat,
                     ghost a: Addr, ghost view: map<Addr, ClientInfo>, ghost done: set<Addr>)
    requires Linked(k, lists, off) && n == |lists| - 1 && lists[n] != [] && a == lists[n][0]
    requires Placed(view) && a in view && event == view[a].event && a in k.timerNodes && k.timerNodes[a] == event.node
    requires a !in done && AllCleared(view, done)
    modifies event, AllNodes(k)
    ensures Linked(k, lists[n := lists[n][1..]], off + {a})
    ensures AllCleared(view, done + {a})
  {
    FirstCut(k, lists, n);
    hide Linked;
    OthersDistinct(view, map[], a);
    DelEvent(event, k, lists, off, n, a);
    forall b | b in done
      ensures view[b].event.Cleared()
    {
      assert b != a && old(view[b].event.Cleared());
    }
  }

  lemma FirstCut(k: Wires, lists: seq<seq<Addr>>, n: nat)
    requires ListsOk(k, lists) && n < |lists| && lists[n] != []
    ensures Minus(lists[n], {lists[n][0]}) == lists[n][1..]
  {
    MinusCut(lists[n], 0);
  }

  /** Where the timer's links lead, read through the blocks. */
  lemma TimerWalk(k: Wires, lists: seq<seq<Addr>>, off: set<Addr>, n: nat, head: Node, view: map<Addr, ClientInfo>)
    requires Linked(k, lists, off) && n == |lists| - 1 && head == k.heads[n]
    requires Placed(view) && k.timerNodes == TimerNodes(view)
    ensures var rest := lists[n];
      && (rest == [] ==> head.next == head && head.prev == head)
      && (rest != [] ==>
            && rest[0] in view && head.next != head
            && head.next == view[rest[0]].event.node && head.next.id == TimerLink(rest[0]))
      && (|rest| == 1 ==> head.next.next == head)
      && (|rest| > 1 ==> rest[1] in view && head.next.next == view[rest[1]].event.node)
  {
    Walk(k, lists, off, n);
  }

  /** timer_uninit: unlinks and clears every event, reading the next node before the current
      one is unlinked. With no event on the timer its loop writes to nothing. */
  method TimerUninit(head: Node, view: map<Addr, ClientInfo>, ghost k: Wires, ghost lists: seq<seq<Addr>>, ghost n: nat)
    requires Linked(k, lists, {}) && n == |lists| - 1 && head == k.heads[n]
    requires Placed(view) && k.timerNodes == TimerNodes(view)
    modifies Events(view), AllNodes(k)
    ensures head.next == head && head.prev == head
    ensures forall a :: a in lists[n] ==> a in view && Retired(view[a])
    ensures lists[n] == [] ==>
      && (forall e :: e in Events(view) ==> unchanged(e))
      && (forall m :: m in AllNodes(k) ==> unchanged(m))
  {
    ghost var cur, done := lists, {};
    TimerDistinct(k, lists, n);
    PartedStart(lists[n]);
    hide Linked, AllNodes, Placed, TimerNodes, Parted, AllCleared;
    TimerWalk(k, cur, done, n, head, view);
    var pos := head.next;
    var next := pos.next;
    while pos != head
      invariant |cur| == n + 1 && Linked(k, cur, done) && Parted(lists[n], cur[n], done)
      invariant pos == head <==> cur[n] == []
      invariant cur[n] != [] ==> cur[n][0] in view && pos == view[cur[n][0]].event.node && pos.id == TimerLink(cur[n][0])
      invariant |cur[n]| > 1 ==> cur[n][1] in view && next == view[cur[n][1]].event.node
      invariant |cur[n]| == 1 ==> next == head
      invariant AllCleared(view, done)
      invariant lists[n] == [] ==> cur[n] == []
      invariant lists[n] == [] ==>
        && (forall e :: e in Events(view) ==> unchanged(e))
        && (forall m :: m in AllNodes(k) ==> unchanged(m))
      decreases |cur[n]|
    {
      ghost var a := cur[n][0];
      EventListed(view, a);
      PartedStep(lists[n], cur[n], done);
      var event := view[pos.id.block].event;
      RetireFirst(event, k, cur, done, n, a, view, done);
      cur, done := cur[n := cur[n][1..]], done + {a};
      TimerWalk(k, cur, done, n, head, view);
      pos := next;
      next := next.next;
    }
    TimerWalk(k, cur, done, n, head, view);
    AllRetired(k, cur, done, lists[n], view);
  }

  lemma AllRetired(k: Wires, lists: seq<seq<Addr>>, done: set<Addr>, l: seq<Addr>, view: map<Addr, ClientInfo>)
    requires Linked(k, lists, done) && k.timerNodes == TimerNodes(view)
    requires AllCleared(view, done) && Parted(l, [], done)
    ensures forall a :: a in l ==> a in view && Retired(view[a])
  {
    hide Linked;
    forall a | a in l
      ensures a in view && Retired(view[a])
    {
      AloneNode(k, lists, done, a);
    }
  }

  lemma EventListed(view: map<Addr, ClientInfo>, a: Addr)
    requires a in view
    ensures view[a].event in Events(view)
    ensures a in TimerNodes(view) && TimerNodes(view)[a] == view[a].event.node
  {
  }

  lemma TimerDistinct(k: Wires, lists: seq<seq<Addr>>, n: nat)
    requires ListsOk(k, lists) && n < |lists|
    ensures NoDup(lists[n])
  {
  }

  // ------------------------------------------------------------ the two loops

  lemma OffNone(s: State)
    requires Inv(s)
    ensures Off(s) == {}
  {
    forall a | a in s.reqs
      ensures a in s.timer
    {
      assert a !in {};
    }
  }

  /** One turn of the LinkDownCli loop: `i` requests of the descriptor are gone. */
  lemma LinkDownStep(s0: State, fd: nat, i: nat)
    requires Inv(s0) && fd < |s0.fdLists| && i <= |s0.fdLists[fd]|
    ensures var l := s0.fdLists[fd]; var s := ReclaimAll(s0, l[..i]);
      && Inv(s) && |s.fdLists| == |s0.fdLists| && s.fdLists[fd] == l[i..]
      && (i < |l| ==>
           && l[i] in s.reqs && s.reqs[l[i]].sn in s.table
           && Destroy(s, s.reqs[l[i]].sn) == ReclaimAll(s0, l[..i + 1]))
  {
    hide InvOff, ReclaimAll;
    ListFacts(s0, fd);
    HalfwayInv(s0, s0.fdLists[fd], i);
    TableOf(ReclaimAll(s0, s0.fdLists[fd][..i]));
    if i < |s0.fdLists[fd]| { Halfway(s0, s0.fdLists[fd], i); }
    ReclaimFields(s0, s0.fdLists[fd][..i]);
    MinusPrefix(s0.fdLists[fd], s0.fdLists[fd][..i]);
  }

  ghost function OffFirst(s: State): State
    requires s.timer != []
  {
    s.(timer := s.timer[1..])
  }

  /** One turn of the timer scan: `i` events have fired, the next is off the timer and its
      callback is about to run. */
  lemma TickStep(s0: State, i: nat)
    requires Inv(s0) && i < |s0.timer|
    ensures var a := s0.timer[i]; var s := ReclaimAll(s0, s0.timer[..i]);
      && Inv(s) && |s.fdLists| == |s0.fdLists| && s.timer == s0.timer[i..]
      && a in s.reqs && s.reqs[a] == s0.reqs[a] && s.reqs[a].sn in s.table
      && Off(OffFirst(s)) == {a} && InvOff(OffFirst(s), {a})
      && Minus(s.timer, {a}) == s.timer[1..]
      && Destroy(OffFirst(s), s.reqs[a].sn) == ReclaimAll(s0, s0.timer[..i + 1])
  {
    hide InvOff, ReclaimAll;
    var t := s0.timer;
    TimerFacts(s0);
    HalfwayInv(s0, t, i);
    TableOf(ReclaimAll(s0, t[..i]));
    Halfway(s0, t, i);
    ReclaimFields(s0, t[..i]);
    MinusPrefix(t, t[..i]);
    var s := ReclaimAll(s0, t[..i]);
    assert s.timer == t[i..] && s.timer[0] == t[i];
    TimerFacts(s);
    ScanInv(s);
    MinusCut(s.timer, 0);
    SameOffFirst(s);
  }

  lemma TickRest(s0: State, i: nat)
    requires Inv(s0) && i <= |s0.timer|
    ensures Inv(ReclaimAll(s0, s0.timer[..i])) && ReclaimAll(s0, s0.timer[..i]).timer == s0.timer[i..]
  {
    hide InvOff, ReclaimAll;
    TimerFacts(s0);
    HalfwayInv(s0, s0.timer, i);
    ReclaimFields(s0, s0.timer[..i]);
    MinusPrefix(s0.timer, s0.timer[..i]);
  }

  lemma TimerListed(s: State)
    ensures var n := |s.fdLists|;
      |Lists(s)| == n + 1 && Lists(s)[n] == s.timer
    ensures s.timer != [] ==>
      Lists(s)[|s.fdLists| := s.timer[1..]] == Lists(OffFirst(s))
  {
    if s.timer != [] {
      assert Lists(s)[|s.fdLists| := s.timer[1..]] == Lists(OffFirst(s));
    }
  }

  lemma SameOffFirst(s: State)
    requires NoDup(s.timer) && s.timer != []
    ensures ReclaimAll(OffFirst(s), [s.timer[0]]) == ReclaimAll(s, [s.timer[0]])
  {
    var a := s.timer[0];
    MinusCut(s.timer, 0);
    MinusNothing(s.timer[1..], {a});
    assert Elems([a]) == {a};
  }

  lemma ScanInv(s: State)
    requires Inv(s) && s.timer != []
    ensures var a := s.timer[0];
      && a in s.reqs && s.reqs[a].sn in s.table && s.table[s.reqs[a].sn] == a
      && Off(OffFirst(s)) == {a} && InvOff(OffFirst(s), {a})
  {
    hide PoolInv;
    var a, tail := s.timer[0], s.timer[1..];
    assert forall p :: 0 <= p < |tail| ==> tail[p] == s.timer[p + 1];
    forall x | x in s.reqs && x != a
      ensures x in tail
    {
      assert x !in {} && x in s.timer;
      var p :| 0 <= p < |s.timer| && s.timer[p] == x;
      assert tail[p - 1] == x;
    }
    assert Off(OffFirst(s)) == {a};
  }

  lemma AllReclaimed(s: State, i: nat, now: int)
    requires Inv(s) && i <= |s.timer|
    requires forall p :: 0 <= p < i ==> s.reqs[s.timer[p]].expire < now
    requires i < |s.timer| ==> s.reqs[s.timer[i]].expire >= now
    ensures Fired(s.timer, s.reqs, now) == s.timer[..i]
  {
    var l := Fired(s.timer, s.reqs, now);
    FiredPrefix(s.timer, s.reqs, now);
    assert |l| == i;
  }

  /** Ring nodes are none of the blocks or events, nor the pool. */
  lemma BlocksApart(k: Wires, view: map<Addr, ClientInfo>, pool: MemPool)
    ensures forall n :: n in AllNodes(k) ==> n as object != pool
    ensures forall c, n :: c in view.Values && n in AllNodes(k) ==> c as object != n
    ensures forall e, n :: e in Events(view) && n in AllNodes(k) ==> e as object != n
  {
  }

  lemma LayWires(heads: seq<Node>, timerHead: Node, view: map<Addr, ClientInfo>, p: Addr, ci: ClientInfo)
    requires WellNamed(WiresOf(heads, timerHead, view)) && p !in view
    requires ci.fdNode.id == FdLink(p) && ci.event.node.id == TimerLink(p)
    ensures WellNamed(WiresOf(heads, timerHead, view[p := ci]))
    ensures Grown(WiresOf(heads, timerHead, view), WiresOf(heads, timerHead, view[p := ci]))
    ensures forall n :: n in AllNodes(WiresOf(heads, timerHead, view[p := ci])) ==>
      n in AllNodes(WiresOf(heads, timerHead, view)) || n == ci.fdNode || n == ci.event.node
  {
    ValuesPlus(FdNodes(view), p, ci.fdNode);
    ValuesPlus(TimerNodes(view), p, ci.event.node);
    assert FdNodes(view[p := ci]) == FdNodes(view)[p := ci.fdNode];
    assert TimerNodes(view[p := ci]) == TimerNodes(view)[p := ci.event.node];
  }

  /** Laying a ClientInfo over a block for the first time. */
  method NewInfo(p: Addr, ghost k: Wires, ghost s: State, ghost view: map<Addr, ClientInfo>) returns (ci: ClientInfo)
    requires Linked(k, Lists(s), Off(s)) && Contents(view, s.reqs)
    ensures Linked(k, Lists(s), Off(s)) && Contents(view, s.reqs)
    ensures fresh(ci) && fresh(ci.fdNode) && fresh(ci.event) && fresh(ci.event.node)
    ensures ci.addr == p && ci.fdNode.id == FdLink(p) && ci.event.node.id == TimerLink(p)
  {
    hide Linked, Contents;
    assert forall n :: n in AllNodes(k) ==> allocated(n);
    assert forall c :: c in view.Values ==> allocated(c);
    assert forall e :: e in Events(view) ==> allocated(e);
    ci := new ClientInfo(p);
    assert forall n :: n in AllNodes(k) ==> unchanged(n);
    assert forall c :: c in view.Values ==> unchanged(c);
    assert forall e :: e in Events(view) ==> unchanged(e);
  }

  lemma LayBlock(self: object, pool: MemPool, heads: seq<Node>, timerHead: Node,
                 view: map<Addr, ClientInfo>, repr: set<object>, p: Addr, ci: ClientInfo)
    requires Wired(self, pool, heads, timerHead, view, repr) && p !in view
    requires ci.addr == p && ci.fdNode.id == FdLink(p) && ci.event.node.id == TimerLink(p)
    ensures Wired(self, pool, heads, timerHead, view[p := ci], repr + {ci, ci.fdNode, ci.event, ci.event.node})
    ensures Extends(view, view[p := ci])
    ensures self in repr
  {
    LayWires(heads, timerHead, view, p, ci);
  }

  lemma LayState(heads: seq<Node>, timerHead: Node, registry: map<nat, ClientInfo>, view: map<Addr, ClientInfo>,
                 s: State, p: Addr, ci: ClientInfo)
    requires p !in view
    requires ci.fdNode.id == FdLink(p) && ci.event.node.id == TimerLink(p)
    requires Linked(WiresOf(heads, timerHead, view), Lists(s), Off(s))
    requires Contents(view, s.reqs) && Registered(registry, view, s.table)
    ensures Linked(WiresOf(heads, timerHead, view[p := ci]), Lists(s), Off(s))
    ensures Contents(view[p := ci], s.reqs) && Registered(registry, view[p := ci], s.table)
  {
    hide Threads.Threaded, Off, Lists;
    LayWires(heads, timerHead, view, p, ci);
    LinkedGrow(WiresOf(heads, timerHead, view), WiresOf(heads, timerHead, view[p := ci]), Lists(s), Off(s));
  }

  lemma NotListed(s: State, a: Addr)
    requires Inv(s) && a !in s.reqs
    ensures |Lists(s)| == |s.fdLists| + 1
    ensures forall j :: 0 <= j <= |s.fdLists| ==> a !in Lists(s)[j]
  {
    forall j | 0 <= j < |s.fdLists|
      ensures a !in s.fdLists[j]
    {
      assert AllOf(s.fdLists[j], s.reqs, j);
    }
    TimerElems(s);
    assert a !in Elems(s.timer);
  }

  lemma RegisterLists(s: State, r: AllocResult, q: Req)
    requires q.fd < |s.fdLists| && TimerInv(s, {})
    ensures var l, n := Lists(s), |s.fdLists|;
      Lists(Register(s, r, q)) == l[q.fd := l[q.fd] + [r.block]][n := l[n] + [r.block]]
    ensures Off(Register(s, r, q)) == {}
  {
    var t := Register(s, r, q);
    assert Lists(t) == Lists(s)[q.fd := Lists(s)[q.fd] + [r.block]][|s.fdLists| := Lists(s)[|s.fdLists|] + [r.block]];
    forall x | x in t.reqs
      ensures x in t.timer
    {
      if x != r.block { assert x !in {} && x in s.timer; }
    }
  }

  lemma RegisterRegistry(registry: map<nat, ClientInfo>, view: map<Addr, ClientInfo>, s: State, r: AllocResult, q: Req)
    requires q.fd < |s.fdLists| && Registered(registry, view, s.table) && r.block in view
    ensures Registered(registry[q.sn := view[r.block]], view, Register(s, r, q).table)
  {
  }

  lemma PoolApart(pool: MemPool, k: Wires, view: map<Addr, ClientInfo>)
    ensures forall c :: c in view.Values ==> c as object != pool
    ensures forall e :: e in Events(view) ==> e as object != pool
    ensures forall n :: n in AllNodes(k) ==> n as object != pool
  {
  }

  lemma TimerOf(s: State)
    requires Inv(s)
    ensures TimerInv(s, {})
  {
  }

  lemma PoolOf(s: State)
    requires Inv(s)
    ensures PoolInv(s.pool) && s.reqs.Keys == s.pool.live
  {
  }

  lemma RegisterFields(s: State, r: AllocResult, q: Req)
    requires q.fd < |s.fdLists|
    ensures var t := Register(s, r, q);
      && t.pool == r.pool && t.reqs == s.reqs[r.block := q]
      && t.nextSn == (s.nextSn + 1) % SN_MODULUS && |t.fdLists| == |s.fdLists|
  {
  }

  lemma EmptyTogether(s: State)
    requires Inv(s)
    ensures s.timer == [] <==> s.pool.live == {}
  {
    TimerElems(s);
    if s.timer != [] { assert s.timer[0] in Elems(s.timer); }
  }

  lemma Headed(heads: seq<Node>, timerHead: Node, view: map<Addr, ClientInfo>)
    ensures var k := WiresOf(heads, timerHead, view);
      && |k.heads| == |heads| + 1 && k.heads[|heads|] == timerHead
      && forall i :: 0 <= i < |heads| ==> k.heads[i] == heads[i]
  {
  }

  class Proxy {
    const pool: MemPool
    const fdHeads: seq<Node>
    const timerHead: Node
    const timeout: nat
    var clientInfoMap: map<nat, ClientInfo>
    var serializedNo: nat
    /** The blocks ever handed out, as the ClientInfo laid over each. */
    var blockAt: map<Addr, ClientInfo>
    ghost var st: State
    ghost var Repr: set<object>

    /** Blocks, rings and registry spell out the state `st`. */
    ghost predicate Core()
      reads this, Repr
    {
      && this in Repr
      && Wired(this, pool, fdHeads, timerHead, blockAt, Repr)
      && |fdHeads| == |st.fdLists|
      && Linked(WiresOf(fdHeads, timerHead, blockAt), Lists(st), Off(st))
      && Contents(blockAt, st.reqs)
      && Registered(clientInfoMap, blockAt, st.table)
      && serializedNo == st.nextSn
    }

    /** And so does the pool. */
    ghost predicate Shape()
      reads this, Repr
    {
      Core() && pool in Repr && pool.Valid() && pool.model == st.pool
    }

    /** What DestroyClient does to the block itself and to the rings. */
    method Release(ci: ClientInfo, ghost a: Addr)
      requires Shape() && InvOff(st, Off(st)) && a in st.reqs && a in blockAt && ci == blockAt[a]
      modifies Repr
      ensures unchanged(this)
      ensures Linked(WiresOf(fdHeads, timerHead, blockAt), Lists(ReclaimAll(st, [a])), Off(ReclaimAll(st, [a])))
      ensures pool.Valid() && pool.model == ReclaimAll(st, [a]).pool
      ensures Contents(blockAt, st.reqs - {a})
    {
      hide Linked, MemPool.Valid, InvOff, ReclaimAll, Off, Lists, AllNodes, Wired, WiresOf, Contents, Registered;
      Owned(this, pool, fdHeads, timerHead, blockAt, Repr, a);
      DetachOne(ci, pool, WiresOf(fdHeads, timerHead, blockAt), st, a, blockAt);
    }

    /** DestroyClient. */
    method DestroyClient(sn: nat)
      requires Shape() && InvOff(st, Off(st))
      modifies Repr
      ensures Shape() && InvOff(st, Off(st))
      ensures st == Destroy(old(st), sn)
      ensures Repr == old(Repr) && blockAt == old(blockAt)
    {
      hide Linked, MemPool.Valid, InvOff, ReclaimAll, Off, Lists, AllNodes, Wired, WiresOf, Contents, Registered, Events;
      TableLookup(clientInfoMap, blockAt, st, sn);
      if sn !in clientInfoMap { return; }
      var ci := clientInfoMap[sn];
      ghost var s, a := st, st.table[sn];
      InvAfterDestroy(s, a);
      SelfApart(this, WiresOf(fdHeads, timerHead, blockAt), blockAt);
      Owned(this, pool, fdHeads, timerHead, blockAt, Repr, a);
      Release(ci, a);
      clientInfoMap := clientInfoMap - {sn};
      st := ReclaimAll(s, [a]);
    }

    /** Where the links lead from a descriptor's list head, read through the blocks. */
    lemma FdPosition(fd: nat, l: seq<Addr>)
      requires Shape() && fd < |fdHeads| && l == st.fdLists[fd]
      ensures var head := fdHeads[fd];
        && (l == [] ==> head.next == head)
        && (l != [] ==>
              && l[0] in blockAt && head.next != head
              && head.next == blockAt[l[0]].fdNode && head.next.id == FdLink(l[0]))
        && (|l| == 1 ==> head.next.next == head)
        && (|l| > 1 ==> l[1] in blockAt && head.next.next == blockAt[l[1]].fdNode)
    {
      assert Lists(st)[fd] == l;
      Walk(WiresOf(fdHeads, timerHead, blockAt), Lists(st), Off(st), fd);
    }

    /** The same for the timer. */
    lemma TimerPosition(l: seq<Addr>)
      requires Shape() && l == st.timer
      ensures var head := timerHead;
        && (l == [] ==> head.next == head)
        && (l != [] ==>
              && l[0] in blockAt && head.next != head
              && head.next == blockAt[l[0]].event.node && head.next.id == TimerLink(l[0]))
        && (|l| == 1 ==> head.next.next == head)
        && (|l| > 1 ==> l[1] in blockAt && head.next.next == blockAt[l[1]].event.node)
    {
      assert Lists(st)[|fdHeads|] == l;
      Walk(WiresOf(fdHeads, timerHead, blockAt), Lists(st), Off(st), |fdHeads|);
    }

    /** The body of the LinkDownCli loop: list_entry, then DestroyClient. */
    method DestroyEntry(entry: Node, ghost s0: State, ghost fd: nat, ghost i: nat)
      requires Shape() && Inv(s0) && fd < |s0.fdLists| && i < |s0.fdLists[fd]|
      requires st == ReclaimAll(s0, s0.fdLists[fd][..i])
      requires entry.id == FdLink(s0.fdLists[fd][i])
      modifies Repr
      ensures Shape() && st == ReclaimAll(s0, s0.fdLists[fd][..i + 1])
      ensures Repr == old(Repr) && blockAt == old(blockAt)
    {
      hide InvOff, ReclaimAll, Off, Linked, MemPool.Valid, Registered, Wired;
      LinkDownStep(s0, fd, i);
      OffNone(st);
      HoldsAt(s0.fdLists[fd][i]);
      var ci := blockAt[entry.id.block];
      DestroyClient(ci.serSeq);
    }

    /** LinkDownCli. The next entry is read before the current one is destroyed. */
    method LinkDownCli(fd: int)
      requires Shape() && Inv(st)
      modifies Repr
      ensures Shape() && Inv(st)
      ensures st == LinkDown(old(st), fd)
      ensures Repr == old(Repr) && blockAt == old(blockAt)
    {
      hide InvOff, ReclaimAll, Off, Linked, MemPool.Valid, Contents, Registered, Wired, Shape;
      FdCount();
      if fd < 0 || fd >= |fdHeads| { return; }
      ghost var s0, l, i := st, st.fdLists[fd], 0;
      NothingReclaimed(s0);
      FdPosition(fd, l);
      var head := fdHeads[fd];
      var entry := head.next;
      var next := entry.next;
      assert l[..0] == [] && l[0..] == l;
      while entry != head
        invariant 0 <= i <= |l| && Shape() && st == ReclaimAll(s0, l[..i])
        invariant Repr == old(Repr) && blockAt == old(blockAt)
        invariant entry == head <==> i == |l|
        invariant i < |l| ==> entry.id == FdLink(l[i])
        invariant i + 1 < |l| ==> l[i + 1] in blockAt && next == blockAt[l[i + 1]].fdNode
        invariant i + 1 == |l| ==> next == head
        decreases |l| - i
      {
        DestroyEntry(entry, s0, fd, i);
        i := i + 1;
        LinkDownStep(s0, fd, i);
        FdPosition(fd, l[i..]);
        entry := next;
        next := next.next;
      }
      assert l[..i] == l;
      LinkDownStep(s0, fd, i);
    }

    lemma FdCount()
      requires Shape()
      ensures |fdHeads| == |st.fdLists|
    {
    }

    lemma HoldsAt(a: Addr)
      requires Shape() && a in st.reqs
      ensures a in blockAt && Holds(blockAt[a], st.reqs[a]) && blockAt[a].addr == a
    {
    }

    lemma ExpiryAt(a: Addr)
      requires Shape() && a in st.reqs
      ensures a in blockAt && blockAt[a].event.expireTime == st.reqs[a].expire
    {
      HoldsAt(a);
    }

    /** The scan's list_del_init of the first event: the request itself is untouched. */
    method TakeFirst(pos: Node, ghost a: Addr)
      requires Shape() && Inv(st) && st.timer != [] && a == st.timer[0] && a in blockAt
      requires pos == blockAt[a].event.node
      requires Minus(st.timer, {a}) == st.timer[1..] && Off(OffFirst(st)) == {a}
      modifies Repr
      ensures Shape() && st == OffFirst(old(st))
      ensures Repr == old(Repr) && blockAt == old(blockAt)
    {
      hide InvOff, Off, Linked, MemPool.Valid, Contents, Registered, Wired, WiresOf, Events, AllNodes, Lists;
      ghost var k, n := WiresOf(fdHeads, timerHead, blockAt), |st.fdLists|;
      OffNone(st);
      TimerListed(st);
      Owned(this, pool, fdHeads, timerHead, blockAt, Repr, a);
      SelfApart(this, k, blockAt);
      BlocksApart(k, blockAt, pool);
      assert Off(st) + {a} == Off(OffFirst(st));
      TakeNode(pos, k, Lists(st), Off(st), n, a, blockAt, st.reqs);
      st := OffFirst(st);
    }

    /** DoServerTimeout, the callback of every request's event. */
    method DoServerTimeout(owner: Addr, arg: Addr)
      requires Shape() && InvOff(st, Off(st)) && owner in st.reqs
      modifies Repr
      ensures Shape() && InvOff(st, Off(st))
      ensures st == Destroy(old(st), old(st.reqs[owner].sn))
      ensures Repr == old(Repr) && blockAt == old(blockAt)
    {
      hide InvOff, Linked, MemPool.Valid, Registered, Wired;
      HoldsAt(owner);
      var ci := blockAt[owner];
      DestroyClient(ci.serSeq);
    }

    /** The body of the scan once the event is known to be expired. */
    method FireFirst(pos: Node, ghost s0: State, ghost i: nat)
      requires Shape() && Inv(s0) && i < |s0.timer| && st == ReclaimAll(s0, s0.timer[..i])
      requires s0.timer[i] in blockAt && pos == blockAt[s0.timer[i]].event.node && pos.id == TimerLink(s0.timer[i])
      modifies Repr
      ensures Shape() && st == ReclaimAll(s0, s0.timer[..i + 1])
      ensures Repr == old(Repr) && blockAt == old(blockAt)
    {
      hide InvOff, ReclaimAll, Off, Linked, MemPool.Valid, Registered, Wired;
      TickStep(s0, i);
      var event := blockAt[pos.id.block].event;
      TakeFirst(pos, s0.timer[i]);
      HoldsAt(s0.timer[i]);
      if event.func != NoCallback {
        DoServerTimeout(event.owner, event.arg);
      }
    }

    /** TimeEvent: timer_check_event at time `now`. The scan stops at the first event that has
        not expired; the next node is read before the callback runs. */
    method TimeEvent(now: int)
      requires Shape() && Inv(st)
      modifies Repr
      ensures Shape() && Inv(st)
      ensures st == Tick(old(st), now)
      ensures Repr == old(Repr) && blockAt == old(blockAt)
    {
      hide InvOff, ReclaimAll, Off, Linked, MemPool.Valid, Contents, Registered, Wired, Shape;
      ghost var s0, l, i := st, st.timer, 0;
      NothingReclaimed(s0);
      TimerFacts(s0);
      TimerPosition(l);
      var pos := timerHead.next;
      var next := pos.next;
      assert l[..0] == [] && l[0..] == l;
      while pos != timerHead
        invariant 0 <= i <= |l| && Shape() && st == ReclaimAll(s0, l[..i])
        invariant Repr == old(Repr) && blockAt == old(blockAt)
        invariant pos == timerHead <==> i == |l|
        invariant i < |l| ==> l[i] in blockAt && pos == blockAt[l[i]].event.node && pos.id == TimerLink(l[i])
        invariant i + 1 < |l| ==> l[i + 1] in blockAt && next == blockAt[l[i + 1]].event.node
        invariant i + 1 == |l| ==> next == timerHead
        invariant forall p :: 0 <= p < i ==> s0.reqs[l[p]].expire < now
        decreases |l| - i
      {
        TickStep(s0, i);
        ExpiryAt(l[i]);
        var event := blockAt[pos.id.block].event;
        if event.expireTime >= now { break; }
        FireFirst(pos, s0, i);
        i := i + 1;
        TickRest(s0, i);
        TimerPosition(l[i..]);
        pos := next;
        next := next.next;
      }
      TickRest(s0, i);
      AllReclaimed(s0, i, now);
    }

    /** The cast of a pool block to ClientInfo: a block seen before still holds what it held,
        whatever that was. */
    method Lay(p: Addr) returns (ci: ClientInfo)
      requires Core()
      modifies this
      ensures Core() && fresh(Repr - old(Repr)) && old(Repr) <= Repr
      ensures p in blockAt && ci == blockAt[p] && Extends(old(blockAt), blockAt)
      ensures st == old(st) && clientInfoMap == old(clientInfoMap) && serializedNo == old(serializedNo)
    {
      hide Linked, Off, Lists, Registered, Wired, WiresOf, Contents, Events, AllNodes;
      if p in blockAt {
        ci := blockAt[p];
      } else {
        ci := NewInfo(p, WiresOf(fdHeads, timerHead, blockAt), st, blockAt);
        LayBlock(this, pool, fdHeads, timerHead, blockAt, Repr, p, ci);
        LayState(fdHeads, timerHead, clientInfoMap, blockAt, st, p, ci);
        SelfApart(this, WiresOf(fdHeads, timerHead, blockAt[p := ci]), blockAt[p := ci]);
        blockAt := blockAt[p := ci];
        Repr := Repr + {ci, ci.fdNode, ci.event, ci.event.node};
      }
    }

    /** The part of ProcPkgCli after the block is at hand: it is filled, numbered, mapped and
        threaded onto its descriptor's list and the timer. */
    method Enter(ci: ClientInfo, fd: nat, pkt: Packet, now: int, ghost r: AllocResult)
      requires Core() && Inv(st) && pool.Valid() && pool.model == r.pool
      requires fd < |fdHeads| && |pkt.body| <= BODY_SIZE
      requires r.block !in st.reqs && r.block in blockAt && ci == blockAt[r.block]
      modifies Repr
      ensures Shape() && Repr == old(Repr)
      ensures st == Register(old(st), r, Req(fd, pkt, old(st.nextSn), old(st.regs), now + timeout))
    {
      hide Linked, MemPool.Valid, InvOff, Lists, AllNodes, Wired, WiresOf, Contents, Registered, Events, Register, Off;
      ghost var s, k, a, n := st, WiresOf(fdHeads, timerHead, blockAt), r.block, |st.fdLists|;
      ghost var q := Req(fd, pkt, s.nextSn, s.regs, now + timeout);
      OffNone(s);
      NotListed(s, a);
      TimerOf(s);
      RegisterLists(s, r, q);
      RegisterRegistry(clientInfoMap, blockAt, s, r, q);
      RegisterFields(s, r, q);
      Owned(this, pool, fdHeads, timerHead, blockAt, Repr, a);
      Headed(fdHeads, timerHead, blockAt);
      SelfApart(this, k, blockAt);
      BlocksApart(k, blockAt, pool);
      Fill(ci, fd, pkt, k, Lists(s), {}, n, a, blockAt, s.reqs);
      var sn := serializedNo;
      serializedNo := (serializedNo + 1) % SN_MODULUS;
      clientInfoMap := clientInfoMap[sn := ci];
      Thread(ci, fdHeads[fd], timerHead, sn, now + timeout, k, Lists(s), {} + {a}, n, a, q, blockAt, s.reqs);
      assert {} + {a} - {a} == {};
      st := Register(s, r, q);
    }

    /** mempool_calloc on the proxy's pool: nothing else moves. */
    method Allocate(m: Addr) returns (p: Addr)
      requires Shape() && (NeedsChunk(st.pool) ==> MallocOk(st.pool, m))
      modifies Repr
      ensures Core() && unchanged(this) && pool in Repr && pool.Valid()
      ensures AllocResult(pool.model, p) == BlockPool.Alloc(st.pool, m)
    {
      hide Linked, MemPool.Valid, Wired, Contents, Registered;
      SelfApart(this, WiresOf(fdHeads, timerHead, blockAt), blockAt);
      PoolApart(pool, WiresOf(fdHeads, timerHead, blockAt), blockAt);
      p := pool.Calloc(m);
      assert forall c :: c in blockAt.Values ==> unchanged(c);
      assert forall e :: e in Events(blockAt) ==> unchanged(e);
      assert forall n :: n in AllNodes(WiresOf(fdHeads, timerHead, blockAt)) ==> unchanged(n);
    }

    /** Block `a`, not in use in state `s`, now holds the packet, found under the number that
        was next, with its event set for `expire`. */
    ghost predicate InBlock(s: State, a: Addr, fd: nat, pkt: Packet, expire: int)
      reads this, blockAt.Values, Events(blockAt)
    {
      && Stored(s, st, a, fd, pkt, expire)
      && a in blockAt && s.nextSn in clientInfoMap && clientInfoMap[s.nextSn] == blockAt[a]
      && var ci := blockAt[a];
        && ci.addr == a && ci.cliFd == fd && ci.serSeq == s.nextSn
        && ci.cliSeq == pkt.seqNum && ci.cliCmd == pkt.cmdId && ci.userId == pkt.userId
        && ci.len == |pkt.body| <= |ci.buf| == 4096 && ci.buf[..ci.len] == pkt.body
        && (forall i :: ci.len <= i < 4096 ==> ci.buf[i] == 0)
        && ci.event.expireTime == expire && ci.event.func == ServerTimeout && ci.event.owner == a
    }

    ghost predicate InSomeBlock(s: State, fd: nat, pkt: Packet, expire: int)
      reads this, blockAt.Values, Events(blockAt)
    {
      exists a :: InBlock(s, a, fd, pkt, expire)
    }

    lemma StoredInBlock(s: State, a: Addr, fd: nat, pkt: Packet, expire: int)
      requires Core() && Stored(s, st, a, fd, pkt, expire) && |pkt.body| <= BODY_SIZE
      ensures InSomeBlock(s, fd, pkt, expire)
    {
      hide Linked, AllNodes;
      assert Holds(blockAt[a], st.reqs[a]);
      assert s.nextSn in st.table && st.table[s.nextSn] == a;
      assert InBlock(s, a, fd, pkt, expire);
    }

    /** ProcPkgCli. */
    method ProcPkgCli(fd: nat, pkt: Packet, now: int, m: Addr) returns (reply: MaybeReply)
      requires Shape() && Inv(st) && ArriveOk(st, fd, pkt, m)
      requires HEADER_SIZE + |pkt.body| <= 8192 ==> |pkt.body| <= BODY_SIZE
      modifies Repr
      ensures Shape() && st == Arrive(old(st), fd, pkt, now, timeout, m)
      ensures fresh(Repr - old(Repr))
      ensures if Taken(old(st), pkt, m) then InSomeBlock(old(st), fd, pkt, now + timeout) else st == old(st)
      ensures Inv(st) <==> !(Taken(old(st), pkt, m) && old(st.nextSn in st.table))
      ensures reply ==
        if HEADER_SIZE + |pkt.body| <= 8192 && NeedsChunk(old(st.pool)) && m == NULL
        then Sent(Reply(fd, pkt.seqNum, pkt.cmdId, NO_MEMORY_STATUS, pkt.userId)) else NoReply
    {
      hide Linked, MemPool.Valid, InvOff, PoolInv, Wired, Contents, Registered, IsCarved, InsideChunk, WiresOf, Events, AllNodes, Stored, InSomeBlock, Register, Apart, MallocOk;
      ArriveKeepsInvIff(st, fd, pkt, now, timeout, m);
      PoolOf(st);
      AllocCorrect(st.pool, m);
      ArrivalExact(st, fd, pkt, now, timeout, m);
      reply := NoReply;
      if pkt.Length() > MAX_PACKET { return; }
      var p := Allocate(m);
      if p == NULL {
        reply := Sent(Reply(fd, pkt.seqNum, pkt.cmdId, NO_MEMORY_STATUS, pkt.userId));
        return;
      }
      var ci := Lay(p);
      Enter(ci, fd, pkt, now, AllocResult(pool.model, p));
      StoredInBlock(old(st), p, fd, pkt, now + timeout);
    }

    /** Uninit. The blocks' memory is freed only when no request is left, and then no block,
        event or list node is written to but the timer's own head; otherwise every event is
        retired. */
    method Uninit() returns (freed: seq<Addr>)
      requires Shape() && Inv(st)
      modifies Repr
      ensures NoDup(freed)
      ensures old(st.timer) == [] ==> freed == old(st.pool.chunks)
      ensures old(st.timer) != [] ==> freed == []
      ensures timerHead.next == timerHead && timerHead.prev == timerHead
      ensures blockAt == old(blockAt)
      ensures forall a :: a in old(st.timer) ==> a in blockAt && Retired(blockAt[a])
      ensures old(st.timer) == [] ==>
        && (forall c :: c in old(blockAt.Values) ==> unchanged(c))
        && (forall e :: e in old(Events(blockAt)) ==> unchanged(e))
        && (forall n :: n in old(AllNodes(WiresOf(fdHeads, timerHead, blockAt))) && n != timerHead ==> unchanged(n))
    {
      hide Linked, MemPool.Valid, InvOff, Contents, Registered, Retired, WellNamed;
      ghost var k := WiresOf(fdHeads, timerHead, blockAt);
      OffNone(st);
      EmptyTogether(st);
      TimerListed(st);
      Headed(fdHeads, timerHead, blockAt);
      freed := DestroyPool();
      TimerUninit(timerHead, blockAt, k, Lists(st), |st.fdLists|);
      timerHead.next, timerHead.prev := timerHead, timerHead;
    }

    /** mempool_destroy: the rings and the fields of the proxy stay as they are. */
    method DestroyPool() returns (freed: seq<Addr>)
      requires Shape()
      modifies Repr
      ensures unchanged(this) && Wired(this, pool, fdHeads, timerHead, blockAt, Repr)
      ensures Linked(WiresOf(fdHeads, timerHead, blockAt), Lists(st), Off(st))
      ensures NoDup(freed)
      ensures st.pool.live == {} ==> freed == st.pool.chunks
      ensures st.pool.live != {} ==> freed == []
      ensures (forall c :: c in old(blockAt.Values) ==> unchanged(c))
        && (forall e :: e in old(Events(blockAt)) ==> unchanged(e))
        && (forall n :: n in old(AllNodes(WiresOf(fdHeads, timerHead, blockAt))) ==> unchanged(n))
    {
      hide Linked, MemPool.Valid, Wired, Contents, Registered;
      PoolApart(pool, WiresOf(fdHeads, timerHead, blockAt), blockAt);
      freed := pool.Destroy();
      assert forall n :: n in AllNodes(WiresOf(fdHeads, timerHead, blockAt)) ==> unchanged(n);
    }

    /** Proxy::Init, over a pool that mempool_create just made. */
    constructor (pool: MemPool, maxFd: nat, timeout: nat)
      requires pool.Valid() && Fresh(pool.model)
      ensures Shape() && Inv(st) && Runs.Initial(st)
      ensures |fdHeads| == maxFd && this.timeout == timeout && this.pool == pool && st.pool == pool.model
    {
      var heads := InitFdList(maxFd);
      var head := new Node(TimerHead);
      this.pool, fdHeads, timerHead, this.timeout := pool, heads, head, timeout;
      clientInfoMap, serializedNo, blockAt := map[], 0, map[];
      st := State(pool.model, map[], map[], 0, 0, seq(maxFd, _ => []), []);
      Repr := {this, pool, head} + Elems(heads);
      new;
      Runs.InitialInv(st);
      EmptyLinked(WiresOf(fdHeads, timerHead, blockAt), Lists(st));
      assert Off(st) == {};
    }
  }

  /** InitFdList: one empty list per descriptor. */
  method InitFdList(maxFd: nat) returns (heads: seq<Node>)
    ensures |heads| == maxFd
    ensures forall i :: 0 <= i < maxFd ==>
      fresh(heads[i]) && heads[i].id == FdHead(i) && heads[i].next == heads[i] && heads[i].prev == heads[i]
  {
    heads := [];
    for i := 0 to maxFd
      invariant |heads| == i
      invariant forall j :: 0 <= j < i ==>
        fresh(heads[j]) && heads[j].id == FdHead(j) && heads[j].next == heads[j] && heads[j].prev == heads[j]
    {
      var head := new Node(FdHead(i));
      heads := heads + [head];
    }
  }
}
