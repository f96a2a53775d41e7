/** The life of a client request (src/base/proxy.cpp, src/common/client_info.cpp) as a
    state machine on values: what each event does to the block pool, the serial-number
    table, the per-descriptor lists and the timer list, and why the four always agree. */
module Lifecycle {
  import opened Memory
  import opened Sequences
  import opened BlockPool

  /** Serial numbers are uint32_t and wrap. */
  const SN_MODULUS: nat := 0x1_0000_0000
  const HEADER_SIZE: nat := 18
  const BODY_SIZE: nat := 4096
  const MAX_PACKET: nat := 8192

  type Byte = b: int | 0 <= b < 256

  datatype Packet = Packet(seqNum: nat, cmdId: nat, userId: nat, body: seq<Byte>) {
    function Length(): nat { HEADER_SIZE + |body| }
  }

  /** What a live block holds. `regNo` counts registrations since start-up without
      wrapping; it is not stored by the program. */
  datatype Req = Req(fd: nat, packet: Packet, sn: nat, regNo: nat, expire: int)

  /** `regs` is the unwrapped number of registrations so far. */
  datatype State = State(
    pool: Pool,
    reqs: map<Addr, Req>,
    table: map<nat, Addr>,
    nextSn: nat,
    regs: nat,
    fdLists: seq<seq<Addr>>,
    timer: seq<Addr>)

  // ------------------------------------------------------------------ events

  predicate Rejected(pkt: Packet) { pkt.Length() > MAX_PACKET }

  /** ProcPkgCli: an overlong packet or a failed allocation changes nothing. */
  function Arrive(s: State, fd: nat, pkt: Packet, now: int, timeout: nat, m: Addr): State
    requires |s.pool.chunks| >= 1 && fd < |s.fdLists|
  {
    if Rejected(pkt) then s
    else
      var r := Alloc(s.pool, m);
      if r.block == NULL then s
      else Register(s, r, Req(fd, pkt, s.nextSn, s.regs, now + timeout))
  }

  function Register(s: State, r: AllocResult, q: Req): State
    requires q.fd < |s.fdLists|
  {
    State(r.pool,
          s.reqs[r.block := q],
          s.table[q.sn := r.block],
          (s.nextSn + 1) % SN_MODULUS,
          s.regs + 1,
          s.fdLists[q.fd := s.fdLists[q.fd] + [r.block]],
          s.timer + [r.block])
  }

  function MinusAll(lists: seq<seq<Addr>>, gone: set<Addr>): (r: seq<seq<Addr>>)
    ensures |r| == |lists|
    ensures forall i :: 0 <= i < |r| ==> r[i] == Minus(lists[i], gone)
  {
    seq(|lists|, i requires 0 <= i < |lists| => Minus(lists[i], gone))
  }

  /** Blocks given back one after the other. */
  function FreeAll(p: Pool, l: seq<Addr>): Pool {
    if l == [] then p else Free(FreeAll(p, l[..|l| - 1]), l[|l| - 1])
  }

  function Unmapped(table: map<nat, Addr>, gone: set<Addr>): map<nat, Addr> {
    map sn | sn in table && table[sn] !in gone :: table[sn]
  }

  /** The requests of `l` reclaimed in that order, everything else as it was. */
  ghost function ReclaimAll(s: State, l: seq<Addr>): State {
    var gone := Elems(l);
    s.(pool := FreeAll(s.pool, l),
       reqs := s.reqs - gone,
       table := Unmapped(s.table, gone),
       fdLists := MinusAll(s.fdLists, gone),
       timer := Minus(s.timer, gone))
  }

  /** DestroyClient(sn): an unknown number changes nothing. */
  ghost function Destroy(s: State, sn: nat): State {
    if sn in s.table then ReclaimAll(s, [s.table[sn]]) else s
  }

  /** The events the timer scan fires: the list up to the first unexpired one. */
  function Fired(timer: seq<Addr>, reqs: map<Addr, Req>, now: int): (l: seq<Addr>)
    ensures l <= timer
  {
    if timer == [] || timer[0] !in reqs || reqs[timer[0]].expire >= now then []
    else [timer[0]] + Fired(timer[1..], reqs, now)
  }

  /** TimeEvent: timer_check_event with DoServerTimeout as callback. The program destroys by
      serial number; that is this, and `LinkDown` below, while no number has been taken over
      from a live request (`LinkDownByNumber`,
      `TickByNumber`). */
  ghost function Tick(s: State, now: int): State {
    ReclaimAll(s, Fired(s.timer, s.reqs, now))
  }

  /** LinkDownCli: an fd outside the table changes nothing. */
  ghost function LinkDown(s: State, fd: int): State {
    if 0 <= fd < |s.fdLists| then ReclaimAll(s, s.fdLists[fd]) else s
  }

  // --------------------------------------------------------------- invariant

  /** Keys of the table are the requests' own serial numbers, one entry per request. */
  ghost predicate TableInv(s: State) {
    && (forall sn :: sn in s.table ==> s.table[sn] in s.reqs && s.reqs[s.table[sn]].sn == sn)
    && (forall a :: a in s.reqs ==> s.reqs[a].sn in s.table && s.table[s.reqs[a].sn] == a)
  }

  predicate AllIn(l: seq<Addr>, reqs: map<Addr, Req>) {
    forall i :: 0 <= i < |l| ==> l[i] in reqs
  }

  predicate AllOf(l: seq<Addr>, reqs: map<Addr, Req>, fd: nat) {
    forall i :: 0 <= i < |l| ==> l[i] in reqs && reqs[l[i]].fd == fd
  }

  /** Every request is once on the list of its own fd and on no other. */
  ghost predicate FdInv(s: State) {
    && (forall fd :: 0 <= fd < |s.fdLists| ==> NoDup(s.fdLists[fd]))
    && (forall fd :: 0 <= fd < |s.fdLists| ==> AllOf(s.fdLists[fd], s.reqs, fd))
    && (forall a :: a in s.reqs ==> s.reqs[a].fd < |s.fdLists| && a in s.fdLists[s.reqs[a].fd])
  }

  /** Every request not in `off` is once on the timer list, and no other event is. */
  ghost predicate TimerInv(s: State, off: set<Addr>) {
    && NoDup(s.timer)
    && AllIn(s.timer, s.reqs)
    && (forall i :: 0 <= i < |s.timer| ==> s.timer[i] !in off)
    && (forall a :: a in s.reqs && a !in off ==> a in s.timer)
  }

  /** Later on the list means registered later. */
  ghost predicate ArrivalOrder(l: seq<Addr>, reqs: map<Addr, Req>)
    requires AllIn(l, reqs)
  {
    forall i, j :: 0 <= i < j < |l| ==> reqs[l[i]].regNo < reqs[l[j]].regNo
  }

  ghost predicate ExpiryOrder(l: seq<Addr>, reqs: map<Addr, Req>)
    requires AllIn(l, reqs)
  {
    forall i, j :: 0 <= i < j < |l| ==> reqs[l[i]].expire <= reqs[l[j]].expire
  }

  /** Serial numbers are registration counts modulo 2^32; the timer is in arrival order. */
  ghost predicate SnInv(s: State)
    requires AllIn(s.timer, s.reqs)
  {
    && s.nextSn == s.regs % SN_MODULUS
    && (forall a :: a in s.reqs ==> s.reqs[a].regNo < s.regs && s.reqs[a].sn == s.reqs[a].regNo % SN_MODULUS)
    && ArrivalOrder(s.timer, s.reqs)
  }

  /** `off`: requests whose event the scan has just taken off the timer. */
  ghost predicate InvOff(s: State, off: set<Addr>) {
    && PoolInv(s.pool)
    && s.reqs.Keys == s.pool.live
    && TableInv(s) && FdInv(s) && TimerInv(s, off) && SnInv(s)
  }

  ghost predicate Inv(s: State) { InvOff(s, {}) }

  ghost function Union(lists: seq<seq<Addr>>): set<Addr> {
    if lists == [] then {} else Union(lists[..|lists| - 1]) + Elems(lists[|lists| - 1])
  }

  ghost function TotalLength(lists: seq<seq<Addr>>): nat {
    if lists == [] then 0 else TotalLength(lists[..|lists| - 1]) + |lists[|lists| - 1]|
  }

  /** The four views of the outstanding requests are one set, counted once by each. */
  ghost predicate ViewsAgree(s: State) {
    && s.table.Values == s.pool.live
    && Elems(s.timer) == s.pool.live
    && Union(s.fdLists) == s.pool.live
    && |s.table| == |s.timer| == TotalLength(s.fdLists) == |s.pool.live|
  }

  lemma {:induction false} UnionOf(lists: seq<seq<Addr>>, a: Addr)
    ensures a in Union(lists) <==> exists i :: 0 <= i < |lists| && a in lists[i]
  {
    if lists != [] {
      var n := |lists| - 1;
      UnionOf(lists[..n], a);
      assert forall i :: 0 <= i < n ==> lists[..n][i] == lists[i];
      if a in Union(lists[..n]) {
        var i :| 0 <= i < n && a in lists[..n][i];
        assert a in lists[i];
      }
    }
  }

  lemma {:induction false} UnionCount(lists: seq<seq<Addr>>)
    requires forall i :: 0 <= i < |lists| ==> NoDup(lists[i])
    requires forall i, j, a :: 0 <= i < j < |lists| && a in lists[i] ==> a !in lists[j]
    ensures |Union(lists)| == TotalLength(lists)
  {
    if lists != [] {
      var n := |lists| - 1;
      var init, last := lists[..n], lists[n];
      UnionCount(init);
      NoDupCard(last);
      forall a | a in Union(init)
        ensures a !in last
      {
        UnionOf(init, a);
        var i :| 0 <= i < n && a in init[i];
        assert a in lists[i];
      }
      assert Union(init) !! Elems(last);
    }
  }

  lemma {:induction false} InjectiveCount(m: map<nat, Addr>)
    requires forall x, y :: x in m && y in m && x != y ==> m[x] != m[y]
    ensures |m.Values| == |m|
    decreases |m|
  {
    if |m| > 0 {
      var x :| x in m;
      var m' := m - {x};
      assert m'.Keys == m.Keys - {x};
      InjectiveCount(m');
      assert m.Values == m'.Values + {m[x]} by {
        forall v | v in m.Values
          ensures v in m'.Values + {m[x]}
        {
          var y :| y in m && m[y] == v;
          if y != x { assert y in m' && m'[y] == v; }
        }
      }
      assert m[x] !in m'.Values;
    } else {
      assert m == map[];
    }
  }

  /** The invariant says the four views agree, and the pool's reference count is their size. */
  lemma InvMeansAgreement(s: State)
    requires Inv(s)
    ensures ViewsAgree(s)
  {
    forall a
      ensures a in Union(s.fdLists) <==> a in s.pool.live
    {
      UnionOf(s.fdLists, a);
      if a in s.pool.live {
        assert a in s.reqs && a in s.fdLists[s.reqs[a].fd];
      }
    }
    assert Union(s.fdLists) == s.pool.live;
    TimerElems(s);
    forall a | a in s.pool.live
      ensures a in s.table.Values
    {
      assert a in s.reqs;
    }
    assert s.table.Values == s.pool.live;
    NoDupCard(s.timer);
    forall i, j, a | 0 <= i < j < |s.fdLists| && a in s.fdLists[i]
      ensures a !in s.fdLists[j]
    {
      assert AllOf(s.fdLists[i], s.reqs, i) && AllOf(s.fdLists[j], s.reqs, j);
    }
    UnionCount(s.fdLists);
    InjectiveCount(s.table);
  }

  lemma TimerElems(s: State)
    requires TimerInv(s, {})
    ensures Elems(s.timer) == s.reqs.Keys
  {
    forall a | a in s.timer
      ensures a in s.reqs
    {
      var i :| 0 <= i < |s.timer| && s.timer[i] == a;
    }
    forall a | a in s.reqs
      ensures a in s.timer
    {
      assert a !in {};
    }
  }

  // --------------------------------------------------------------- reclaiming

  lemma {:induction false} FreeAllInv(p: Pool, l: seq<Addr>)
    requires PoolInv(p) && NoDup(l)
    requires forall a :: a in l ==> a in p.live
    ensures PoolInv(FreeAll(p, l))
    ensures FreeAll(p, l).live == p.live - Elems(l)
    ensures FreeAll(p, l).chunks == p.chunks && FreeAll(p, l).perChunk == p.perChunk
    ensures FreeAll(p, l).allocSize == p.allocSize && FreeAll(p, l).itemSize == p.itemSize
    ensures Carved(FreeAll(p, l)) == Carved(p)
    decreases |l|
  {
    hide PoolInv;
    if l != [] {
      var n := |l| - 1;
      FreeAllInv(p, l[..n]);
      assert l[n] in l;
      FreeCorrect(FreeAll(p, l[..n]), l[n]);
      ElemsSnoc(l);
    }
  }

  /** Reclaiming any requests, in any order, keeps the invariant. */
  lemma ReclaimInv(s: State, off: set<Addr>, l: seq<Addr>)
    requires InvOff(s, off) && NoDup(l)
    requires forall a :: a in l ==> a in s.reqs
    ensures InvOff(ReclaimAll(s, l), off - Elems(l))
  {
    FreeAllInv(s.pool, l);
    ReclaimLists(s, off, l);
    ReclaimOrder(s, off, l);
  }

  lemma ReclaimLists(s: State, off: set<Addr>, l: seq<Addr>)
    requires TableInv(s) && FdInv(s) && TimerInv(s, off)
    ensures TableInv(ReclaimAll(s, l)) && FdInv(ReclaimAll(s, l)) && TimerInv(ReclaimAll(s, l), off - Elems(l))
  {
    var gone := Elems(l);
    MinusNoDup(s.timer, gone);
    forall fd | 0 <= fd < |s.fdLists|
      ensures NoDup(Minus(s.fdLists[fd], gone))
    {
      MinusNoDup(s.fdLists[fd], gone);
    }
  }

  lemma ReclaimOrder(s: State, off: set<Addr>, l: seq<Addr>)
    requires TimerInv(s, off) && SnInv(s)
    ensures AllIn(ReclaimAll(s, l).timer, ReclaimAll(s, l).reqs) && SnInv(ReclaimAll(s, l))
  {
    var l', reqs := Minus(s.timer, Elems(l)), s.reqs;
    forall i, j | 0 <= i < j < |l'|
      ensures reqs[l'[i]].regNo < reqs[l'[j]].regNo
    {
      var p, q := MinusInOrder(s.timer, Elems(l), i, j);
    }
  }

  /** Reclaiming is incremental: a list and then one more is the longer list. */
  lemma ReclaimSnoc(s: State, l: seq<Addr>, a: Addr)
    ensures ReclaimAll(ReclaimAll(s, l), [a]) == ReclaimAll(s, l + [a])
  {
    var la := l + [a];
    var p := FreeAll(s.pool, l);
    assert FreeAll(p, [a]) == Free(p, a) by {
      assert FreeAll(p, []) == p;
    }
    assert la[..|la| - 1] == l && la[|la| - 1] == a;
    assert Elems(la) == Elems(l) + {a};
    assert Elems([a]) == {a};
    assert [a][..0] == [];
    MinusMinus(s.timer, Elems(l), {a});
    var one, all := MinusAll(MinusAll(s.fdLists, Elems(l)), {a}), MinusAll(s.fdLists, Elems(la));
    forall i | 0 <= i < |s.fdLists|
      ensures one[i] == all[i]
    {
      MinusMinus(s.fdLists[i], Elems(l), {a});
    }
    assert one == all;
    assert s.reqs - Elems(l) - {a} == s.reqs - Elems(la);
    assert Unmapped(Unmapped(s.table, Elems(l)), {a}) == Unmapped(s.table, Elems(la));
  }

  lemma NothingReclaimed(s: State)
    ensures ReclaimAll(s, []) == s
  {
    assert Elems<Addr>([]) == {};
    MinusNothing(s.timer, {});
    forall i | 0 <= i < |s.fdLists|
      ensures Minus(s.fdLists[i], {}) == s.fdLists[i]
    {
      MinusNothing(s.fdLists[i], {});
    }
    assert MinusAll(s.fdLists, {}) == s.fdLists;
    assert Unmapped(s.table, {}) == s.table;
  }

  lemma HalfwayInv(s0: State, l: seq<Addr>, i: nat)
    requires Inv(s0) && NoDup(l) && AllIn(l, s0.reqs) && i <= |l|
    ensures Inv(ReclaimAll(s0, l[..i])) && |ReclaimAll(s0, l[..i]).fdLists| == |s0.fdLists|
  {
    hide InvOff, ReclaimAll;
    PrefixIn(l, s0.reqs, i);
    ReclaimInv(s0, {}, l[..i]);
    ReclaimFields(s0, l[..i]);
    assert {} - Elems(l[..i]) == {};
  }

  /** Part of a list is reclaimed; the next element is still there to be destroyed. */
  lemma Halfway(s0: State, l: seq<Addr>, i: nat)
    requires NoDup(l) && AllIn(l, s0.reqs) && i < |l|
    requires TableInv(ReclaimAll(s0, l[..i]))
    ensures var s := ReclaimAll(s0, l[..i]);
      && l[i] in s.reqs && s.reqs[l[i]] == s0.reqs[l[i]]
      && s.reqs[l[i]].sn in s.table && s.table[s.reqs[l[i]].sn] == l[i]
      && ReclaimAll(s, [l[i]]) == ReclaimAll(s0, l[..i + 1])
  {
    hide ReclaimAll;
    ReclaimFields(s0, l[..i]);
    PrefixElems(l, l[..i]);
    assert l[..i + 1] == l[..i] + [l[i]];
    ReclaimSnoc(s0, l[..i], l[i]);
  }

  lemma PrefixIn(l: seq<Addr>, reqs: map<Addr, Req>, i: nat)
    requires AllIn(l, reqs) && i <= |l| && NoDup(l)
    ensures forall a :: a in l[..i] ==> a in reqs
    ensures NoDup(l[..i])
  {
    forall a | a in l[..i]
      ensures a in reqs
    {
      var p :| 0 <= p < i && l[..i][p] == a;
      assert l[p] == a;
    }
  }

  lemma ReclaimFields(s: State, l: seq<Addr>)
    ensures var t := ReclaimAll(s, l);
      && t.reqs == s.reqs - Elems(l) && |t.fdLists| == |s.fdLists|
      && t.timer == Minus(s.timer, Elems(l))
      && forall i :: 0 <= i < |t.fdLists| ==> t.fdLists[i] == Minus(s.fdLists[i], Elems(l))
  {
  }

  lemma TableOf(s: State)
    requires Inv(s)
    ensures TableInv(s)
  {
  }

  lemma ListFacts(s: State, fd: nat)
    requires Inv(s) && fd < |s.fdLists|
    ensures NoDup(s.fdLists[fd]) && AllIn(s.fdLists[fd], s.reqs)
  {
    assert AllOf(s.fdLists[fd], s.reqs, fd);
  }

  lemma TimerFacts(s: State)
    requires Inv(s)
    ensures NoDup(s.timer) && AllIn(s.timer, s.reqs)
  {
  }

  // ------------------------------------------------------- by serial number

  /** DestroyClient for each number in turn. */
  ghost function DestroyEach(s: State, ns: seq<nat>): State {
    if ns == [] then s else Destroy(DestroyEach(s, ns[..|ns| - 1]), ns[|ns| - 1])
  }

  function Numbers(l: seq<Addr>, reqs: map<Addr, Req>): (ns: seq<nat>)
    requires AllIn(l, reqs)
    ensures |ns| == |l| && forall i :: 0 <= i < |l| ==> ns[i] == reqs[l[i]].sn
  {
    seq(|l|, i requires 0 <= i < |l| => reqs[l[i]].sn)
  }

  /** While the table knows every request, destroying by number reclaims the listed ones. */
  lemma {:induction false} ReclaimByNumber(s: State, l: seq<Addr>, i: nat)
    requires Inv(s) && NoDup(l) && AllIn(l, s.reqs) && i <= |l|
    ensures DestroyEach(s, Numbers(l, s.reqs)[..i]) == ReclaimAll(s, l[..i])
  {
    hide InvOff, ReclaimAll;
    var ns := Numbers(l, s.reqs);
    if i == 0 {
      assert ns[..0] == [] && l[..0] == [];
      NothingReclaimed(s);
    } else {
      ReclaimByNumber(s, l, i - 1);
      assert ns[..i][..i - 1] == ns[..i - 1];
      HalfwayInv(s, l, i - 1);
      TableOf(ReclaimAll(s, l[..i - 1]));
      Halfway(s, l, i - 1);
    }
  }

  lemma AllByNumber(s: State, l: seq<Addr>)
    requires Inv(s) && NoDup(l) && AllIn(l, s.reqs)
    ensures DestroyEach(s, Numbers(l, s.reqs)) == ReclaimAll(s, l)
  {
    hide InvOff, ReclaimAll, DestroyEach, AllIn, Numbers;
    ReclaimByNumber(s, l, |l|);
    assert l[..|l|] == l && Numbers(l, s.reqs)[..|l|] == Numbers(l, s.reqs);
  }

  /** So a disconnect is DestroyClient on the number of each request of the descriptor... */
  lemma LinkDownByNumber(s: State, fd: nat)
    requires Inv(s) && fd < |s.fdLists|
    ensures AllIn(s.fdLists[fd], s.reqs)
    ensures LinkDown(s, fd) == DestroyEach(s, Numbers(s.fdLists[fd], s.reqs))
  {
    hide InvOff, ReclaimAll, DestroyEach, AllIn;
    ListFacts(s, fd);
    AllByNumber(s, s.fdLists[fd]);
  }

  /** ... and a tick is DestroyClient on the number of each event fired, in list order. */
  lemma TickByNumber(s: State, now: int)
    requires Inv(s)
    ensures AllIn(Fired(s.timer, s.reqs, now), s.reqs)
    ensures Tick(s, now) == DestroyEach(s, Numbers(Fired(s.timer, s.reqs, now), s.reqs))
  {
    FiredInOrder(s, now);
    hide InvOff, ReclaimAll, DestroyEach, AllIn, Fired;
    AllByNumber(s, Fired(s.timer, s.reqs, now));
  }

  // ----------------------------------------------------------------- arrival

  lemma RegisterTable(s: State, r: AllocResult, q: Req)
    requires TableInv(s) && q.fd < |s.fdLists|
    requires r.block !in s.reqs && q.sn !in s.table
    ensures TableInv(Register(s, r, q))
  {
  }

  lemma RegisterFd(s: State, r: AllocResult, q: Req)
    requires FdInv(s) && q.fd < |s.fdLists| && r.block !in s.reqs
    ensures FdInv(Register(s, r, q))
  {
    var t := Register(s, r, q);
    forall fd | 0 <= fd < |t.fdLists|
      ensures NoDup(t.fdLists[fd]) && AllOf(t.fdLists[fd], t.reqs, fd)
    {
      assert AllOf(s.fdLists[fd], s.reqs, fd) && NoDup(s.fdLists[fd]);
    }
    forall a | a in t.reqs
      ensures t.reqs[a].fd < |t.fdLists| && a in t.fdLists[t.reqs[a].fd]
    {
      if a != r.block { assert a in s.fdLists[s.reqs[a].fd]; }
    }
  }

  lemma RegisterTimer(s: State, r: AllocResult, q: Req)
    requires TimerInv(s, {}) && SnInv(s) && q.fd < |s.fdLists| && r.block !in s.reqs
    requires q.sn == s.nextSn && q.regNo == s.regs
    ensures TimerInv(Register(s, r, q), {}) && SnInv(Register(s, r, q))
  {
    var t := Register(s, r, q);
    NoDupAppend(s.timer, r.block);
    assert t.nextSn == t.regs % SN_MODULUS by { SuccMod(s.regs); }
    assert forall i :: 0 <= i < |s.timer| ==> t.timer[i] == s.timer[i];
  }

  lemma SuccMod(n: nat)
    ensures (n % SN_MODULUS + 1) % SN_MODULUS == (n + 1) % SN_MODULUS
  {
  }

  ghost predicate ArriveOk(s: State, fd: nat, pkt: Packet, m: Addr) {
    fd < |s.fdLists| && (NeedsChunk(s.pool) ==> MallocOk(s.pool, m))
  }

  predicate Accepted(s: State, pkt: Packet, m: Addr)
    requires |s.pool.chunks| >= 1
  {
    !Rejected(pkt) && Alloc(s.pool, m).block != NULL
  }

  /** Registering under a number that is in use takes the older request's table entry. */
  lemma CollisionBreaksTable(s: State, r: AllocResult, q: Req)
    requires TableInv(s) && q.fd < |s.fdLists| && r.block !in s.reqs && q.sn in s.table
    ensures var t := Register(s, r, q); var older := s.table[q.sn];
      !TableInv(t) && older in t.reqs && older !in t.table.Values
  {
    var t, a := Register(s, r, q), s.table[q.sn];
    assert t.reqs[a].sn == q.sn && t.table[q.sn] == r.block;
    forall sn | sn in t.table
      ensures t.table[sn] != a
    {
      if sn != q.sn { assert sn in s.table; }
    }
  }

  /** A registration keeps the invariant exactly when the next serial number is not the key
      of a live request; when it is, the older request stays live and on the timer but is
      lost from the table. */
  lemma ArriveKeepsInvIff(s: State, fd: nat, pkt: Packet, now: int, timeout: nat, m: Addr)
    requires Inv(s) && ArriveOk(s, fd, pkt, m)
    ensures !Accepted(s, pkt, m) ==> Arrive(s, fd, pkt, now, timeout, m) == s
    ensures Accepted(s, pkt, m) ==>
      (Inv(Arrive(s, fd, pkt, now, timeout, m)) <==> s.nextSn !in s.table)
    ensures Accepted(s, pkt, m) && s.nextSn in s.table ==>
      var t, older := Arrive(s, fd, pkt, now, timeout, m), s.table[s.nextSn];
      older in t.pool.live && older in t.timer && older !in t.table.Values
  {
    if Accepted(s, pkt, m) {
      AllocCorrect(s.pool, m);
      RegisterInvIff(s, Alloc(s.pool, m), Req(fd, pkt, s.nextSn, s.regs, now + timeout));
    }
  }

  lemma RegisterInvIff(s: State, r: AllocResult, q: Req)
    requires Inv(s) && q.fd < |s.fdLists| && q.sn == s.nextSn && q.regNo == s.regs
    requires r.block !in s.pool.live && PoolInv(r.pool) && r.pool.live == s.pool.live + {r.block}
    ensures Inv(Register(s, r, q)) <==> s.nextSn !in s.table
    ensures s.nextSn in s.table ==>
      var t, older := Register(s, r, q), s.table[s.nextSn];
      older in t.pool.live && older in t.timer && older !in t.table.Values
  {
    var t := Register(s, r, q);
    assert r.block !in s.reqs;
    RegisterFd(s, r, q);
    RegisterTimer(s, r, q);
    assert t.reqs.Keys == t.pool.live;
    if s.nextSn in s.table {
      CollisionBreaksTable(s, r, q);
    } else {
      RegisterTable(s, r, q);
    }
  }

  /** The overwrite happens exactly when some live request is a whole multiple of 2^32
      registrations old. */
  lemma CollisionIff(s: State)
    requires Inv(s)
    ensures s.nextSn in s.table <==>
      exists a :: a in s.reqs && (s.regs - s.reqs[a].regNo) % SN_MODULUS == 0
  {
    forall a | a in s.reqs
      ensures s.reqs[a].sn == s.nextSn <==> (s.regs - s.reqs[a].regNo) % SN_MODULUS == 0
    {
      SameResidue(s.regs, s.reqs[a].regNo);
    }
    if s.nextSn in s.table {
      var a := s.table[s.nextSn];
      assert a in s.reqs && (s.regs - s.reqs[a].regNo) % SN_MODULUS == 0;
    }
  }

  lemma SameResidue(x: nat, y: nat)
    requires y <= x
    ensures x % SN_MODULUS == y % SN_MODULUS <==> (x - y) % SN_MODULUS == 0
  {
  }

  /** No overwrite while fewer than 2^32 registrations separate the oldest live request from
      the next one. */
  lemma YoungRequestsNeverCollide(s: State)
    requires Inv(s)
    requires forall a :: a in s.reqs ==> s.regs - s.reqs[a].regNo < SN_MODULUS
    ensures s.nextSn !in s.table
  {
    CollisionIff(s);
    forall a | a in s.reqs
      ensures (s.regs - s.reqs[a].regNo) % SN_MODULUS != 0
    {
    }
  }

  // --------------------------------------------------------------- disconnect

  lemma OtherListsKept(s: State, fd: nat)
    requires FdInv(s) && fd < |s.fdLists|
    ensures MinusAll(s.fdLists, Elems(s.fdLists[fd])) == s.fdLists[fd := []]
  {
    var gone := Elems(s.fdLists[fd]);
    forall i | 0 <= i < |s.fdLists|
      ensures Minus(s.fdLists[i], gone) == s.fdLists[fd := []][i]
    {
      if i == fd {
        MinusSelf(s.fdLists[fd]);
      } else {
        assert AllOf(s.fdLists[i], s.reqs, i) && AllOf(s.fdLists[fd], s.reqs, fd);
        MinusNothing(s.fdLists[i], gone);
      }
    }
  }

  /** LinkDownCli reclaims exactly the requests of that fd; every other list is the old one. */
  lemma LinkDownExact(s: State, fd: nat)
    requires Inv(s) && fd < |s.fdLists|
    ensures var t := LinkDown(s, fd);
      && Inv(t)
      && t.fdLists == s.fdLists[fd := []]
      && t.timer == Minus(s.timer, Elems(s.fdLists[fd]))
      && (forall a :: a in t.pool.live <==> a in s.pool.live && s.reqs[a].fd != fd)
      && (forall a :: a in t.reqs ==> t.reqs[a] == s.reqs[a])
  {
    var l := s.fdLists[fd];
    assert AllOf(l, s.reqs, fd);
    ReclaimInv(s, {}, l);
    FreeAllInv(s.pool, l);
    OtherListsKept(s, fd);
  }

  // -------------------------------------------------------------------- timer

  ghost function ExpiredSet(reqs: map<Addr, Req>, now: int): set<Addr> {
    set a | a in reqs && reqs[a].expire < now
  }

  /** No unexpired event stands before an expired one. */
  ghost predicate ExpiredFirst(timer: seq<Addr>, reqs: map<Addr, Req>, now: int)
    requires AllIn(timer, reqs)
  {
    forall i, j :: 0 <= i < j < |timer| && reqs[timer[j]].expire < now ==> reqs[timer[i]].expire < now
  }

  lemma {:induction false} FiredPrefix(timer: seq<Addr>, reqs: map<Addr, Req>, now: int)
    requires AllIn(timer, reqs)
    ensures var l := Fired(timer, reqs, now);
      && (forall i :: 0 <= i < |l| ==> reqs[timer[i]].expire < now)
      && (|l| < |timer| ==> reqs[timer[|l|]].expire >= now)
  {
    if timer != [] && reqs[timer[0]].expire < now {
      var tail := timer[1..];
      var rest := Fired(tail, reqs, now);
      FiredPrefix(tail, reqs, now);
      forall i | 0 <= i < |rest| + 1
        ensures reqs[timer[i]].expire < now
      {
        if i > 0 { assert timer[i] == tail[i - 1]; }
      }
      if |rest| + 1 < |timer| {
        assert timer[|rest| + 1] == tail[|rest|];
      }
    }
  }

  lemma PrefixElems(t: seq<Addr>, l: seq<Addr>)
    requires NoDup(t) && l <= t
    ensures forall i :: 0 <= i < |t| ==> (t[i] in l <==> i < |l|)
  {
    assert forall i :: 0 <= i < |l| ==> l[i] == t[i];
  }

  lemma ExpiredFirstFires(timer: seq<Addr>, reqs: map<Addr, Req>, now: int)
    requires AllIn(timer, reqs) && ExpiredFirst(timer, reqs, now)
    ensures forall i :: 0 <= i < |timer| ==>
      (i < |Fired(timer, reqs, now)| <==> reqs[timer[i]].expire < now)
  {
    FiredPrefix(timer, reqs, now);
  }

  /** The scan takes exactly the expired events iff no unexpired event precedes an expired
      one on the list. */
  lemma ScanExactIff(timer: seq<Addr>, reqs: map<Addr, Req>, now: int)
    requires NoDup(timer) && AllIn(timer, reqs) && reqs.Keys == Elems(timer)
    ensures Elems(Fired(timer, reqs, now)) == ExpiredSet(reqs, now) <==> ExpiredFirst(timer, reqs, now)
  {
    var l := Fired(timer, reqs, now);
    PrefixElems(timer, l);
    if ExpiredFirst(timer, reqs, now) {
      ExpiredFirstFires(timer, reqs, now);
      forall a
        ensures a in Elems(l) <==> a in ExpiredSet(reqs, now)
      {
        if a in reqs {
          assert a in timer;
          var j :| 0 <= j < |timer| && timer[j] == a;
        } else {
          assert forall i :: 0 <= i < |l| ==> l[i] == timer[i];
        }
      }
    }
    if Elems(l) == ExpiredSet(reqs, now) {
      ExactNeedsOrder(timer, reqs, now);
    }
  }

  lemma ExactNeedsOrder(timer: seq<Addr>, reqs: map<Addr, Req>, now: int)
    requires NoDup(timer) && AllIn(timer, reqs)
    requires Elems(Fired(timer, reqs, now)) == ExpiredSet(reqs, now)
    ensures ExpiredFirst(timer, reqs, now)
  {
    var l := Fired(timer, reqs, now);
    PrefixElems(timer, l);
    forall i, j | 0 <= i < j < |timer| && reqs[timer[j]].expire < now
      ensures reqs[timer[i]].expire < now
    {
      assert timer[j] in ExpiredSet(reqs, now) && timer[j] in Elems(l);
      assert timer[i] in l && timer[i] in Elems(l);
    }
  }

  lemma TickExactIff(s: State, now: int)
    requires Inv(s)
    ensures Elems(Fired(s.timer, s.reqs, now)) == ExpiredSet(s.reqs, now) <==> ExpiredFirst(s.timer, s.reqs, now)
  {
    TimerElems(s);
    ScanExactIff(s.timer, s.reqs, now);
  }

  lemma FiredInOrder(s: State, now: int)
    requires TimerInv(s, {}) && ArrivalOrder(s.timer, s.reqs)
    ensures var l := Fired(s.timer, s.reqs, now);
      && NoDup(l) && AllIn(l, s.reqs) && ArrivalOrder(l, s.reqs)
      && forall a :: a in l ==> a in s.reqs
  {
    var l := Fired(s.timer, s.reqs, now);
    assert forall i :: 0 <= i < |l| ==> l[i] == s.timer[i];
  }

  /** Every scan, sorted or not, reclaims what it fires and keeps the invariant; what it
      fires is a prefix, in arrival order and without repeats. */
  lemma TickInv(s: State, now: int)
    requires Inv(s)
    ensures var t := Tick(s, now); var l := Fired(s.timer, s.reqs, now);
      && Inv(t)
      && NoDup(l) && AllIn(l, s.reqs) && ArrivalOrder(l, s.reqs)
      && t.timer == s.timer[|l|..]
      && t.pool.live == s.pool.live - Elems(l)
  {
    var l := Fired(s.timer, s.reqs, now);
    FiredInOrder(s, now);
    ReclaimInv(s, {}, l);
    FreeAllInv(s.pool, l);
    MinusPrefix(s.timer, l);
  }

  /** On a timer in expiry order the scan fires exactly the expired requests, and the
      survivors keep their order on every list. */
  lemma TickExact(s: State, now: int)
    requires Inv(s) && ExpiryOrder(s.timer, s.reqs)
    ensures var t := Tick(s, now); var gone := ExpiredSet(s.reqs, now);
      && Inv(t) && ExpiryOrder(t.timer, t.reqs)
      && Elems(Fired(s.timer, s.reqs, now)) == gone
      && t.timer == Minus(s.timer, gone)
      && t.fdLists == MinusAll(s.fdLists, gone)
      && t.pool.live == s.pool.live - gone
      && t.reqs == s.reqs - gone
  {
    TickExactIff(s, now);
    TickInv(s, now);
    SuffixOrder(s.timer, |Fired(s.timer, s.reqs, now)|, s.reqs, Tick(s, now).reqs);
  }

  lemma SuffixOrder(timer: seq<Addr>, k: nat, reqs: map<Addr, Req>, reqs': map<Addr, Req>)
    requires AllIn(timer, reqs) && ExpiryOrder(timer, reqs) && k <= |timer|
    requires AllIn(timer[k..], reqs') && forall a :: a in reqs' ==> a in reqs && reqs'[a] == reqs[a]
    ensures ExpiryOrder(timer[k..], reqs')
  {
    assert forall i :: 0 <= i < |timer| - k ==> timer[k..][i] == timer[k + i];
  }

  lemma MinusPrefix(t: seq<Addr>, l: seq<Addr>)
    requires NoDup(t) && l <= t
    ensures Minus(t, Elems(l)) == t[|l|..]
  {
    var rest := t[|l|..];
    assert t == l + rest;
    MinusConcat(l, rest, Elems(l));
    MinusSelf(l);
    PrefixElems(t, l);
    assert forall j :: 0 <= j < |rest| ==> rest[j] == t[|l| + j];
    MinusNothing(rest, Elems(l));
  }
}
