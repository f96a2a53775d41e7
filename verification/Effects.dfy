/** What each event of the proxy changes, said of the states before and after it and not by
    the functions that compute the one from the other. */
module Effects {
  import opened Memory
  import opened Sequences
  import opened BlockPool
  import opened Lifecycle
  import opened Runs

  /** `t` is `s` with one more request, in a block `a` that was not in use: numbered, in the
      table, last on the list of its descriptor and last on the timer. */
  ghost predicate Stored(s: State, t: State, a: Addr, fd: nat, pkt: Packet, expire: int) {
    && a != NULL && a !in s.reqs && t.pool.live == s.pool.live + {a}
    && t.reqs.Keys == s.reqs.Keys + {a} && (forall b :: b in s.reqs ==> t.reqs[b] == s.reqs[b])
    && t.reqs[a].fd == fd && t.reqs[a].packet == pkt && t.reqs[a].expire == expire && t.reqs[a].sn == s.nextSn
    && t.table == s.table[s.nextSn := a]
    && t.nextSn == (s.nextSn + 1) % SN_MODULUS && t.regs == s.regs + 1
    && fd < |s.fdLists| && t.fdLists == s.fdLists[fd := s.fdLists[fd] + [a]]
    && t.timer == s.timer + [a]
  }

  ghost predicate StoredSomewhere(s: State, t: State, fd: nat, pkt: Packet, expire: int) {
    exists a :: Stored(s, t, a, fd, pkt, expire)
  }

  /** `t` is `s` with the requests in `gone` out of every view and nothing else moved. */
  ghost predicate Reclaimed(s: State, t: State, gone: set<Addr>) {
    && t.pool.live == s.pool.live - gone
    && t.reqs.Keys == s.reqs.Keys - gone && (forall b :: b in t.reqs ==> t.reqs[b] == s.reqs[b])
    && (forall sn :: sn in t.table <==> sn in s.table && s.table[sn] !in gone)
    && (forall sn :: sn in t.table ==> t.table[sn] == s.table[sn])
    && t.nextSn == s.nextSn && t.regs == s.regs
    && |t.fdLists| == |s.fdLists|
    && (forall i :: 0 <= i < |s.fdLists| ==> t.fdLists[i] == Minus(s.fdLists[i], gone))
    && t.timer == Minus(s.timer, gone)
  }

  ghost predicate Taken(s: State, pkt: Packet, m: Addr) {
    HEADER_SIZE + |pkt.body| <= 8192 && (NeedsChunk(s.pool) ==> m != NULL)
  }

  ghost function OfFd(s: State, fd: int): set<Addr> {
    set a | a in s.reqs && s.reqs[a].fd == fd
  }

  /** The first `k` events of the timer have expired and the next one has not. */
  ghost predicate ExpiredPrefix(s: State, now: int, k: nat) {
    && k <= |s.timer| && AllIn(s.timer, s.reqs)
    && (forall i :: 0 <= i < k ==> s.reqs[s.timer[i]].expire < now)
    && (k < |s.timer| ==> s.reqs[s.timer[k]].expire >= now)
  }

  /** What event `e` does to `s`. */
  ghost predicate Does(s: State, timeout: nat, e: Event, t: State) {
    match e
    case Arrival(fd, pkt, now, m) =>
      if Taken(s, pkt, m) then StoredSomewhere(s, t, fd, pkt, now + timeout) else t == s
    case TimeEvent(now) =>
      exists k: nat :: ExpiredPrefix(s, now, k) && Reclaimed(s, t, Elems(s.timer[..k]))
    case Disconnect(fd) =>
      if 0 <= fd < |s.fdLists| then t.fdLists == s.fdLists[fd := []] && Reclaimed(s, t, OfFd(s, fd)) else t == s
  }

  lemma ReclaimIsReclaimed(s: State, l: seq<Addr>)
    requires Inv(s) && NoDup(l) && AllIn(l, s.reqs)
    ensures Reclaimed(s, ReclaimAll(s, l), Elems(l))
  {
    forall a | a in l
      ensures a in s.pool.live
    {
      var i :| 0 <= i < |l| && l[i] == a;
      assert l[i] in s.reqs;
    }
    FreeAllInv(s.pool, l);
  }

  /** DestroyClient takes out the request the number stands for, or nothing. */
  lemma DestroyExact(s: State, sn: nat)
    requires Inv(s)
    ensures sn in s.table ==> Reclaimed(s, Destroy(s, sn), {s.table[sn]}) && s.reqs[s.table[sn]].sn == sn
    ensures sn !in s.table ==> Destroy(s, sn) == s
  {
    if sn in s.table {
      var a := s.table[sn];
      ReclaimIsReclaimed(s, [a]);
      assert Elems([a]) == {a};
    }
  }

  /** An arrival stores its packet exactly when it is no longer than 8192 bytes and memory was
      to be had; otherwise nothing changes. */
  lemma ArrivalExact(s: State, fd: nat, pkt: Packet, now: int, timeout: nat, m: Addr)
    requires Inv(s) && ArriveOk(s, fd, pkt, m)
    ensures |s.pool.chunks| >= 1
    ensures var t := Arrive(s, fd, pkt, now, timeout, m);
      if Taken(s, pkt, m)
      then var a := Alloc(s.pool, m).block; Stored(s, t, a, fd, pkt, now + timeout)
      else t == s
  {
    assert PoolInv(s.pool);
    hide PoolInv, InsideChunk;
    AllocCorrect(s.pool, m);
  }

  lemma AcceptedIffTaken(s: State, fd: nat, pkt: Packet, m: Addr)
    requires Inv(s) && ArriveOk(s, fd, pkt, m)
    ensures |s.pool.chunks| >= 1 && (Accepted(s, pkt, m) <==> Taken(s, pkt, m))
  {
    assert PoolInv(s.pool);
    hide PoolInv, InsideChunk;
    AllocCorrect(s.pool, m);
  }

  lemma TickPrefix(s: State, now: int)
    requires Inv(s)
    ensures var k := |Fired(s.timer, s.reqs, now)|;
      ExpiredPrefix(s, now, k) && Reclaimed(s, Tick(s, now), Elems(s.timer[..k]))
  {
    FiredInOrder(s, now);
    FiredPrefix(s.timer, s.reqs, now);
    var l := Fired(s.timer, s.reqs, now);
    assert l == s.timer[..|l|];
    ReclaimIsReclaimed(s, l);
  }

  lemma DisconnectExact(s: State, fd: nat)
    requires Inv(s) && fd < |s.fdLists|
    ensures var t := LinkDown(s, fd);
      Reclaimed(s, t, OfFd(s, fd)) && t.fdLists == s.fdLists[fd := []]
  {
    ListFacts(s, fd);
    ReclaimIsReclaimed(s, s.fdLists[fd]);
    LinkDownExact(s, fd);
    ListOf(s, fd);
  }

  lemma ListOf(s: State, fd: nat)
    requires FdInv(s) && fd < |s.fdLists|
    ensures Elems(s.fdLists[fd]) == OfFd(s, fd)
  {
    var l := s.fdLists[fd];
    assert AllOf(l, s.reqs, fd);
    forall a | a in l
      ensures a in s.reqs && s.reqs[a].fd == fd
    {
      var i :| 0 <= i < |l| && l[i] == a;
    }
    forall a | a in OfFd(s, fd)
      ensures a in l
    {
      assert a in s.reqs && a in s.fdLists[s.reqs[a].fd];
    }
  }

  /** The state machine's step does what the event should. */
  lemma StepDoes(s: State, timeout: nat, e: Event)
    requires Inv(s) && (e.Arrival? ==> ArriveOk(s, e.fd, e.pkt, e.m))
    ensures Does(s, timeout, e, Runs.Step(s, timeout, e))
  {
    hide InvOff, Reclaimed, Stored, Taken, ExpiredPrefix, Tick, Arrive, ReclaimAll;
    match e
    case Arrival(fd, pkt, now, m) =>
      ArrivalExact(s, fd, pkt, now, timeout, m);
      NamesFd(s, fd, pkt, m);
    case TimeEvent(now) => TickPrefix(s, now);
    case Disconnect(fd) => if 0 <= fd < |s.fdLists| { DisconnectExact(s, fd); }
  }

  lemma NamesFd(s: State, fd: nat, pkt: Packet, m: Addr)
    requires ArriveOk(s, fd, pkt, m)
    ensures fd < |s.fdLists|
  {
  }

  /** The last event of a run on a clock that does not step back, with at most 2^32 packets in
      any window before it, does what it should. */
  lemma LastEventDoes(s0: State, timeout: nat, es: seq<Event>, e: Event)
    requires Initial(s0) && Runs.Legal(s0, timeout, es + [e]) && Monotone(es)
    requires PeakWindow(es, timeout) <= SN_MODULUS
    ensures Does(After(s0, timeout, es), timeout, e, After(s0, timeout, es + [e]))
  {
    Snoc(es, e);
    EveryReachableState(s0, timeout, es);
    StepDoes(After(s0, timeout, es), timeout, e);
  }

  /** A disconnect at the end of such a run empties the list of its descriptor and takes its
      requests, and no others, out of every view. */
  lemma DisconnectsAreExact(s0: State, timeout: nat, es: seq<Event>, fd: nat)
    requires Initial(s0) && Runs.Legal(s0, timeout, es) && Monotone(es)
    requires PeakWindow(es, timeout) <= SN_MODULUS && fd < |After(s0, timeout, es).fdLists|
    ensures var s, t := After(s0, timeout, es), After(s0, timeout, es + [Disconnect(fd)]);
      && t.fdLists == s.fdLists[fd := []]
      && (forall a :: a in t.pool.live <==> a in s.reqs && s.reqs[a].fd != fd)
      && t.timer == Minus(s.timer, OfFd(s, fd))
      && (forall a :: a in t.reqs <==> a in s.reqs && s.reqs[a].fd != fd)
      && (forall a :: a in t.reqs ==> t.reqs[a] == s.reqs[a])
      && ViewsAgree(t)
  {
    Snoc(es, Disconnect(fd));
    EveryReachableState(s0, timeout, es);
    var s := After(s0, timeout, es);
    LinkDownExact(s, fd);
    DisconnectExact(s, fd);
    InvMeansAgreement(LinkDown(s, fd));
  }

  /** An arrival at the end of such a run: a packet of at most 8192 bytes is there afterwards,
      in a block of its own, whenever memory was to be had. */
  lemma ArrivalsAreStored(s0: State, timeout: nat, es: seq<Event>, fd: nat, pkt: Packet, now: int, m: Addr)
    requires Initial(s0) && Runs.Legal(s0, timeout, es + [Arrival(fd, pkt, now, m)]) && Monotone(es)
    requires PeakWindow(es, timeout) <= SN_MODULUS
    requires HEADER_SIZE + |pkt.body| <= 8192
    requires NeedsChunk(After(s0, timeout, es).pool) ==> m != NULL
    ensures var s, t := After(s0, timeout, es), After(s0, timeout, es + [Arrival(fd, pkt, now, m)]);
      StoredSomewhere(s, t, fd, pkt, now + timeout)
  {
    hide Initial, Runs.Legal, Monotone, PeakWindow, After, StoredSomewhere, NeedsChunk;
    LastEventDoes(s0, timeout, es, Arrival(fd, pkt, now, m));
  }
}
