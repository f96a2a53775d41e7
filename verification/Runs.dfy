/** Whole runs of the proxy: any sequence of arrivals, timer ticks and disconnects. */
module Runs {
  import opened Arithmetic
  import opened Memory
  import opened Sequences
  import opened BlockPool
  import opened Lifecycle

  datatype Option<T> = None | Some(value: T)

  /** `m` is what malloc returns should the arrival need a new chunk. */
  datatype Event =
    | Arrival(fd: nat, pkt: Packet, now: int, m: Addr)
    | TimeEvent(now: int)
    | Disconnect(closed: int)

  ghost function Step(s: State, timeout: nat, e: Event): State {
    match e
    case Arrival(fd, pkt, now, m) =>
      if |s.pool.chunks| >= 1 && fd < |s.fdLists| then Arrive(s, fd, pkt, now, timeout, m) else s
    case TimeEvent(now) => Tick(s, now)
    case Disconnect(fd) => LinkDown(s, fd)
  }

  ghost function After(s0: State, timeout: nat, es: seq<Event>): State {
    if es == [] then s0
    else Step(After(s0, timeout, es[..|es| - 1]), timeout, es[|es| - 1])
  }

  /** Proxy::Init: nothing outstanding, every list empty. */
  ghost predicate Initial(s: State) {
    && Fresh(s.pool)
    && s.reqs == map[] && s.table == map[] && s.nextSn == 0 && s.regs == 0
    && (forall fd :: 0 <= fd < |s.fdLists| ==> s.fdLists[fd] == [])
    && s.timer == []
  }

  /** Every arrival names a descriptor of the table, and malloc keeps its promise. */
  ghost predicate Legal(s0: State, timeout: nat, es: seq<Event>) {
    es == [] ||
    (var init, e := es[..|es| - 1], es[|es| - 1];
     && Legal(s0, timeout, init)
     && (e.Arrival? ==> ArriveOk(After(s0, timeout, init), e.fd, e.pkt, e.m)))
  }

  /** The clock never steps back. */
  ghost predicate Monotone(es: seq<Event>) {
    forall i, j :: 0 <= i < j < |es| && !es[i].Disconnect? && !es[j].Disconnect? ==> es[i].now <= es[j].now
  }

  predicate Counts(e: Event) { e.Arrival? && !Rejected(e.pkt) }

  /** Number of acceptable packets in a run. */
  ghost function Arrivals(es: seq<Event>): nat {
    if es == [] then 0
    else Arrivals(es[..|es| - 1]) + if Counts(es[|es| - 1]) then 1 else 0
  }

  /** Number of acceptable packets that came at time `t` or later. */
  ghost function ArrivedSince(es: seq<Event>, t: int): nat {
    if es == [] then 0
    else
      var e := es[|es| - 1];
      ArrivedSince(es[..|es| - 1], t) + if Counts(e) && e.now >= t then 1 else 0
  }

  ghost function LastTick(es: seq<Event>): Option<int> {
    if es == [] then None
    else if es[|es| - 1].TimeEvent? then Some(es[|es| - 1].now)
    else LastTick(es[..|es| - 1])
  }

  ghost function LastTime(es: seq<Event>): Option<int> {
    if es == [] then None
    else if !es[|es| - 1].Disconnect? then Some(es[|es| - 1].now)
    else LastTime(es[..|es| - 1])
  }

  /** Packets that came between the last tick minus the timeout and now. */
  ghost function Window(es: seq<Event>, timeout: nat): nat {
    match LastTick(es)
    case None => Arrivals(es)
    case Some(t) => ArrivedSince(es, t - timeout)
  }

  /** The largest such window at any point of the run. */
  ghost function PeakWindow(es: seq<Event>, timeout: nat): nat {
    if es == [] then 0
    else Max(PeakWindow(es[..|es| - 1], timeout), Window(es, timeout))
  }

  // -------------------------------------------------- agreement without a clock

  /** Fewer than 2^32 registrations since the oldest live request. */
  ghost predicate Young(s: State) {
    forall a :: a in s.reqs ==> s.regs - s.reqs[a].regNo < SN_MODULUS
  }

  ghost predicate AlwaysYoung(s0: State, timeout: nat, es: seq<Event>) {
    forall k :: 0 <= k <= |es| ==> Young(After(s0, timeout, es[..k]))
  }

  lemma InitialInv(s: State)
    requires Initial(s)
    ensures Inv(s)
  {
    FreshInv(s.pool);
  }

  lemma StepInv(s: State, timeout: nat, e: Event)
    requires Inv(s)
    requires e.Arrival? ==> ArriveOk(s, e.fd, e.pkt, e.m) && s.nextSn !in s.table
    ensures Inv(Step(s, timeout, e))
  {
    match e
    case Arrival(fd, pkt, now, m) => ArriveKeepsInvIff(s, fd, pkt, now, timeout, m);
    case TimeEvent(now) => TickInv(s, now);
    case Disconnect(fd) => if 0 <= fd < |s.fdLists| { LinkDownExact(s, fd); }
  }

  lemma {:induction false} NextEvent(s0: State, timeout: nat, es: seq<Event>, i: nat)
    requires Legal(s0, timeout, es) && i < |es|
    ensures var s := After(s0, timeout, es[..i]);
      && After(s0, timeout, es[..i + 1]) == Step(s, timeout, es[i])
      && (es[i].Arrival? ==> ArriveOk(s, es[i].fd, es[i].pkt, es[i].m))
    decreases |es|
  {
    var init := es[..|es| - 1];
    if i < |init| {
      NextEvent(s0, timeout, init, i);
      assert init[..i] == es[..i] && init[..i + 1] == es[..i + 1];
    } else {
      assert es[..i + 1] == es;
    }
  }

  /** Whatever the clock does, all four views agree in every reachable state as long as no
      live request gets 2^32 registrations old. */
  lemma {:induction false} AlwaysAgree(s0: State, timeout: nat, es: seq<Event>)
    requires Initial(s0) && Legal(s0, timeout, es) && AlwaysYoung(s0, timeout, es)
    ensures Inv(After(s0, timeout, es)) && ViewsAgree(After(s0, timeout, es))
    decreases |es|
  {
    if es == [] {
      InitialInv(s0);
    } else {
      var init := es[..|es| - 1];
      var s := After(s0, timeout, init);
      assert forall k :: 0 <= k <= |init| ==> init[..k] == es[..k];
      AlwaysAgree(s0, timeout, init);
      assert Young(s) by { assert init == init[..|init|]; }
      YoungRequestsNeverCollide(s);
      StepInv(s, timeout, es[|es| - 1]);
    }
    InvMeansAgreement(After(s0, timeout, es));
  }

  // ------------------------------------------------------------------ counting

  ghost function CountGE(l: seq<Addr>, reqs: map<Addr, Req>, x: int): nat
    requires AllIn(l, reqs)
  {
    if l == [] then 0
    else
      var n := |l| - 1;
      assert forall i :: 0 <= i < n ==> l[..n][i] == l[i];
      CountGE(l[..n], reqs, x) + if reqs[l[n]].expire >= x then 1 else 0
  }

  ghost predicate Within(reqs': map<Addr, Req>, reqs: map<Addr, Req>) {
    forall a :: a in reqs' ==> a in reqs && reqs'[a] == reqs[a]
  }

  lemma CountSnoc(l: seq<Addr>, a: Addr, reqs: map<Addr, Req>, x: int)
    requires AllIn(l + [a], reqs)
    ensures a in reqs && AllIn(l, reqs)
    ensures CountGE(l + [a], reqs, x) == CountGE(l, reqs, x) + if reqs[a].expire >= x then 1 else 0
  {
    var l' := l + [a];
    assert l'[|l|] == a && l'[..|l|] == l;
    assert forall i :: 0 <= i < |l| ==> l[i] == l'[i];
  }

  lemma {:induction false} CountMinus(l: seq<Addr>, gone: set<Addr>, reqs: map<Addr, Req>, reqs': map<Addr, Req>, x: int)
    requires AllIn(l, reqs) && AllIn(Minus(l, gone), reqs') && Within(reqs', reqs)
    ensures CountGE(Minus(l, gone), reqs', x) <= CountGE(l, reqs, x)
    decreases |l|
  {
    if l != [] {
      hide CountGE, Minus;
      var init, a := l[..|l| - 1], l[|l| - 1];
      assert l == init + [a];
      CountSnoc(init, a, reqs, x);
      MinusSnoc(init, a, gone);
      if a !in gone { CountSnoc(Minus(init, gone), a, reqs', x); }
      CountMinus(init, gone, reqs, reqs', x);
    }
  }

  lemma {:induction false} CountSame(l: seq<Addr>, reqs: map<Addr, Req>, reqs': map<Addr, Req>, x: int)
    requires AllIn(l, reqs) && Within(reqs, reqs')
    ensures AllIn(l, reqs') && CountGE(l, reqs', x) == CountGE(l, reqs, x)
    decreases |l|
  {
    forall i | 0 <= i < |l|
      ensures l[i] in reqs'
    {
      var a := l[i];
      assert a in reqs;
    }
    if l != [] {
      var a := l[|l| - 1];
      assert a in reqs && reqs'[a] == reqs[a];
      assert AllIn(l[..|l| - 1], reqs);
      CountSame(l[..|l| - 1], reqs, reqs', x);
    }
  }

  lemma {:induction false} CountAll(l: seq<Addr>, reqs: map<Addr, Req>, x: int)
    requires AllIn(l, reqs) && forall a :: a in reqs ==> reqs[a].expire >= x
    ensures CountGE(l, reqs, x) == |l|
    decreases |l|
  {
    if l != [] {
      CountAll(l[..|l| - 1], reqs, x);
    }
  }

  lemma {:induction false} ArrivedAntitone(es: seq<Event>, t: int, u: int)
    requires t <= u
    ensures ArrivedSince(es, u) <= ArrivedSince(es, t) <= Arrivals(es)
    decreases |es|
  {
    if es != [] {
      ArrivedAntitone(es[..|es| - 1], t, u);
    }
  }

  /** The packets that came at time `t` or later, no longer than 8192 bytes, one by one. */
  ghost function ArrivalsFrom(es: seq<Event>, t: int): set<int> {
    set i | 0 <= i < |es| && es[i].Arrival? && HEADER_SIZE + |es[i].pkt.body| <= 8192 && es[i].now >= t
  }

  lemma {:induction false} ArrivedCounts(es: seq<Event>, t: int)
    ensures ArrivedSince(es, t) == |ArrivalsFrom(es, t)|
    ensures (forall i :: 0 <= i < |es| && es[i].Arrival? ==> es[i].now >= t) ==> Arrivals(es) == ArrivedSince(es, t)
    decreases |es|
  {
    if es == [] {
      assert ArrivalsFrom(es, t) == {};
    } else {
      var n := |es| - 1;
      var init := es[..n];
      ArrivedCounts(init, t);
      assert forall i :: 0 <= i < n ==> init[i] == es[i];
      assert ArrivalsFrom(es, t) ==
        if Counts(es[n]) && es[n].now >= t then ArrivalsFrom(init, t) + {n} else ArrivalsFrom(init, t);
    }
  }

  lemma {:induction false} LastTickBound(es: seq<Event>)
    requires Monotone(es)
    ensures LastTick(es).Some? ==> LastTime(es).Some? && LastTick(es).value <= LastTime(es).value
    ensures LastTime(es).Some? ==> forall i :: 0 <= i < |es| && !es[i].Disconnect? ==> es[i].now <= LastTime(es).value
    ensures LastTime(es).Some? ==> exists i :: 0 <= i < |es| && !es[i].Disconnect? && es[i].now == LastTime(es).value
    decreases |es|
  {
    if es != [] {
      var init := es[..|es| - 1];
      assert forall i :: 0 <= i < |init| ==> init[i] == es[i];
      LastTickBound(init);
    }
  }

  // ------------------------------------------------- everything, under a clock

  /** Where the run has got to bounds every live request's expiry from both sides, and its
      age in registrations by the packets since it came. */
  ghost predicate Ages(reqs: map<Addr, Req>, regs: nat, timeout: nat, es: seq<Event>) {
    forall a :: a in reqs ==>
      && LastTime(es).Some? && reqs[a].expire <= LastTime(es).value + timeout
      && (LastTick(es).Some? ==> reqs[a].expire >= LastTick(es).value)
      && regs - reqs[a].regNo <= ArrivedSince(es, reqs[a].expire - timeout)
  }

  /** No expiry bound is met by more outstanding events than packets that came. */
  ghost predicate Counted(timer: seq<Addr>, reqs: map<Addr, Req>, timeout: nat, es: seq<Event>)
    requires AllIn(timer, reqs)
  {
    && |timer| <= Arrivals(es)
    && forall x :: CountGE(timer, reqs, x) <= ArrivedSince(es, x - timeout)
  }

  /** What holds after any run on a clock that does not step back. */
  ghost predicate RunInv(s: State, timeout: nat, es: seq<Event>) {
    && Inv(s)
    && ExpiryOrder(s.timer, s.reqs)
    && Ages(s.reqs, s.regs, timeout, es)
    && Counted(s.timer, s.reqs, timeout, es)
  }

  /** Requests outstanding never outnumber the window. */
  lemma LiveInWindow(s: State, timeout: nat, es: seq<Event>)
    requires RunInv(s, timeout, es)
    ensures |s.pool.live| == |s.timer| <= Window(es, timeout)
  {
    hide PoolInv, TableInv, FdInv, SnInv, ExpiryOrder;
    InvMeansAgreement(s);
    match LastTick(es)
    case None =>
    case Some(t) => CountAll(s.timer, s.reqs, t);
  }

  /** Nor is any request older, in registrations, than the window. */
  lemma AgeInWindow(s: State, timeout: nat, es: seq<Event>)
    requires RunInv(s, timeout, es)
    ensures forall a :: a in s.reqs ==> s.regs - s.reqs[a].regNo <= Window(es, timeout)
  {
    forall a | a in s.reqs
      ensures s.regs - s.reqs[a].regNo <= Window(es, timeout)
    {
      var t := s.reqs[a].expire - timeout;
      match LastTick(es)
      case None => ArrivedAntitone(es, t, t);
      case Some(u) => ArrivedAntitone(es, u - timeout, t);
    }
  }

  /** An arrival widens the window by one. */
  lemma WindowGrows(es: seq<Event>, e: Event, timeout: nat)
    requires Monotone(es + [e]) && Counts(e)
    ensures Window(es + [e], timeout) == Window(es, timeout) + 1
  {
    var all := es + [e];
    assert all[..|all| - 1] == es && all[|all| - 1] == e;
    assert Monotone(es) by {
      assert forall i :: 0 <= i < |es| ==> all[i] == es[i];
    }
    LastTickBound(es);
    if LastTick(es).Some? {
      var i :| 0 <= i < |es| && !es[i].Disconnect? && es[i].now == LastTime(es).value;
      assert all[i] == es[i] && all[i].now <= all[|es|].now;
    }
  }

  lemma Snoc(es: seq<Event>, e: Event)
    ensures (es + [e])[..|es + [e]| - 1] == es && (es + [e])[|es + [e]| - 1] == e
  {
  }

  lemma ReclaimAges(reqs: map<Addr, Req>, reqs': map<Addr, Req>, regs: nat, timeout: nat, es: seq<Event>, e: Event)
    requires Ages(reqs, regs, timeout, es) && Within(reqs', reqs)
    requires Monotone(es + [e]) && !Counts(e)
    requires e.TimeEvent? ==> forall a :: a in reqs' ==> reqs'[a].expire >= e.now
    ensures Ages(reqs', regs, timeout, es + [e])
  {
    Snoc(es, e);
    TimeGrows(es, e);
  }

  lemma ReclaimCounted(timer: seq<Addr>, gone: set<Addr>, reqs: map<Addr, Req>, reqs': map<Addr, Req>,
                       timeout: nat, es: seq<Event>, e: Event)
    requires AllIn(timer, reqs) && AllIn(Minus(timer, gone), reqs') && Within(reqs', reqs)
    requires Counted(timer, reqs, timeout, es) && !Counts(e)
    ensures Counted(Minus(timer, gone), reqs', timeout, es + [e])
  {
    Snoc(es, e);
    forall x
      ensures CountGE(Minus(timer, gone), reqs', x) <= ArrivedSince(es + [e], x - timeout)
    {
      CountMinus(timer, gone, reqs, reqs', x);
    }
  }

  lemma ReclaimRun(s: State, timeout: nat, es: seq<Event>, l: seq<Addr>, e: Event)
    requires RunInv(s, timeout, es)
    requires Inv(ReclaimAll(s, l)) && ExpiryOrder(ReclaimAll(s, l).timer, ReclaimAll(s, l).reqs)
    requires Monotone(es + [e]) && !e.Arrival?
    requires e.TimeEvent? ==> forall a :: a in ReclaimAll(s, l).reqs ==> s.reqs[a].expire >= e.now
    ensures RunInv(ReclaimAll(s, l), timeout, es + [e])
  {
    var t := ReclaimAll(s, l);
    ReclaimAges(s.reqs, t.reqs, s.regs, timeout, es, e);
    ReclaimCounted(s.timer, Elems(l), s.reqs, t.reqs, timeout, es, e);
  }

  lemma TimeGrows(es: seq<Event>, e: Event)
    requires Monotone(es + [e])
    ensures LastTime(es).Some? ==> LastTime(es + [e]).Some? && LastTime(es).value <= LastTime(es + [e]).value
    ensures LastTick(es).Some? && !e.Disconnect? ==> LastTick(es).value <= e.now
  {
    var all := es + [e];
    assert all[..|all| - 1] == es && all[|all| - 1] == e;
    assert Monotone(es) by {
      assert forall i :: 0 <= i < |es| ==> all[i] == es[i];
    }
    LastTickBound(es);
    if LastTime(es).Some? && !e.Disconnect? {
      var i :| 0 <= i < |es| && !es[i].Disconnect? && es[i].now == LastTime(es).value;
      assert all[i] == es[i] && all[i].now <= all[|es|].now;
    }
  }

  lemma MinusExpiry(l: seq<Addr>, gone: set<Addr>, reqs: map<Addr, Req>)
    requires AllIn(l, reqs) && ExpiryOrder(l, reqs)
    ensures AllIn(Minus(l, gone), reqs) && ExpiryOrder(Minus(l, gone), reqs)
  {
    forall i, j | 0 <= i < j < |Minus(l, gone)|
      ensures reqs[Minus(l, gone)[i]].expire <= reqs[Minus(l, gone)[j]].expire
    {
      var p, q := MinusInOrder(l, gone, i, j);
    }
  }

  lemma TickRun(s: State, timeout: nat, es: seq<Event>, now: int)
    requires RunInv(s, timeout, es) && Monotone(es + [TimeEvent(now)])
    ensures RunInv(Tick(s, now), timeout, es + [TimeEvent(now)])
  {
    TickInv(s, now);
    TickExact(s, now);
    ReclaimRun(s, timeout, es, Fired(s.timer, s.reqs, now), TimeEvent(now));
  }

  lemma DisconnectRun(s: State, timeout: nat, es: seq<Event>, fd: int)
    requires RunInv(s, timeout, es) && Monotone(es + [Disconnect(fd)])
    ensures RunInv(LinkDown(s, fd), timeout, es + [Disconnect(fd)])
  {
    if 0 <= fd < |s.fdLists| {
      var l := s.fdLists[fd];
      assert AllOf(l, s.reqs, fd);
      LinkDownExact(s, fd);
      MinusExpiry(s.timer, Elems(l), s.reqs);
      SuffixOrder(Minus(s.timer, Elems(l)), 0, s.reqs, LinkDown(s, fd).reqs);
      ReclaimRun(s, timeout, es, l, Disconnect(fd));
    } else {
      SameRun(s, timeout, es, Disconnect(fd));
    }
  }

  /** An event that changes nothing. */
  lemma SameRun(s: State, timeout: nat, es: seq<Event>, e: Event)
    requires RunInv(s, timeout, es) && Monotone(es + [e]) && !e.TimeEvent? && !Counts(e)
    ensures RunInv(s, timeout, es + [e])
  {
    ReclaimAges(s.reqs, s.reqs, s.regs, timeout, es, e);
    MinusNothing(s.timer, {});
    ReclaimCounted(s.timer, {}, s.reqs, s.reqs, timeout, es, e);
  }

  /** A packet that could not be stored: the bounds only loosen. */
  lemma DroppedRun(s: State, timeout: nat, es: seq<Event>, e: Event)
    requires RunInv(s, timeout, es) && Monotone(es + [e]) && Counts(e)
    ensures RunInv(s, timeout, es + [e])
  {
    Snoc(es, e);
    TimeGrows(es, e);
  }

  lemma ArrivalRun(s: State, timeout: nat, es: seq<Event>, e: Event)
    requires RunInv(s, timeout, es) && Monotone(es + [e])
    requires e.Arrival? && ArriveOk(s, e.fd, e.pkt, e.m) && s.nextSn !in s.table
    ensures RunInv(Step(s, timeout, e), timeout, es + [e])
  {
    ArriveKeepsInvIff(s, e.fd, e.pkt, e.now, timeout, e.m);
    if Accepted(s, e.pkt, e.m) {
      AllocCorrect(s.pool, e.m);
      RegisterRun(s, timeout, es, e, Alloc(s.pool, e.m));
    } else if Counts(e) {
      DroppedRun(s, timeout, es, e);
    } else {
      SameRun(s, timeout, es, e);
    }
  }

  lemma RegisterRun(s: State, timeout: nat, es: seq<Event>, e: Event, r: AllocResult)
    requires RunInv(s, timeout, es) && Monotone(es + [e])
    requires Counts(e) && e.fd < |s.fdLists| && r.block !in s.reqs
    requires Inv(Register(s, r, Req(e.fd, e.pkt, s.nextSn, s.regs, e.now + timeout)))
    ensures RunInv(Register(s, r, Req(e.fd, e.pkt, s.nextSn, s.regs, e.now + timeout)), timeout, es + [e])
  {
    var q := Req(e.fd, e.pkt, s.nextSn, s.regs, e.now + timeout);
    var t := Register(s, r, q);
    RegisterAges(s.reqs, r.block, q, s.regs, timeout, es, e);
    RegisterCounted(s.timer, s.reqs, r.block, q, timeout, es, e);
    RegisterExpiry(s.timer, s.reqs, r.block, q, timeout, es, e);
  }

  lemma RegisterAges(reqs: map<Addr, Req>, b: Addr, q: Req, regs: nat, timeout: nat, es: seq<Event>, e: Event)
    requires Ages(reqs, regs, timeout, es) && Monotone(es + [e]) && Counts(e)
    requires q.expire == e.now + timeout && q.regNo == regs
    ensures Ages(reqs[b := q], regs + 1, timeout, es + [e])
  {
    Snoc(es, e);
    TimeGrows(es, e);
  }

  lemma RegisterCounted(timer: seq<Addr>, reqs: map<Addr, Req>, b: Addr, q: Req, timeout: nat, es: seq<Event>, e: Event)
    requires AllIn(timer, reqs) && Counted(timer, reqs, timeout, es) && b !in reqs
    requires Counts(e) && q.expire == e.now + timeout
    ensures AllIn(timer + [b], reqs[b := q])
    ensures Counted(timer + [b], reqs[b := q], timeout, es + [e])
  {
    var timer', reqs' := timer + [b], reqs[b := q];
    Snoc(es, e);
    assert timer'[..|timer'| - 1] == timer;
    forall x
      ensures CountGE(timer', reqs', x) <= ArrivedSince(es + [e], x - timeout)
    {
      CountSame(timer, reqs, reqs', x);
    }
  }

  lemma RegisterExpiry(timer: seq<Addr>, reqs: map<Addr, Req>, b: Addr, q: Req, timeout: nat, es: seq<Event>, e: Event)
    requires AllIn(timer, reqs) && ExpiryOrder(timer, reqs) && b !in reqs
    requires Ages(reqs, q.regNo, timeout, es) && Monotone(es + [e]) && Counts(e)
    requires q.expire == e.now + timeout && AllIn(timer + [b], reqs[b := q])
    ensures ExpiryOrder(timer + [b], reqs[b := q])
  {
    Snoc(es, e);
    TimeGrows(es, e);
    forall i | 0 <= i < |timer|
      ensures reqs[timer[i]].expire <= q.expire
    {
      var a := timer[i];
      assert a in reqs;
    }
  }

  /** One more event. */
  lemma StepRun(s: State, timeout: nat, es: seq<Event>, e: Event)
    requires RunInv(s, timeout, es) && Monotone(es + [e])
    requires e.Arrival? ==> ArriveOk(s, e.fd, e.pkt, e.m)
    requires Carved(s.pool) <= PeakWindow(es, timeout)
    requires PeakWindow(es + [e], timeout) <= SN_MODULUS
    ensures var t := Step(s, timeout, e);
      && RunInv(t, timeout, es + [e])
      && t.pool.perChunk == s.pool.perChunk
      && Carved(t.pool) <= PeakWindow(es + [e], timeout)
  {
    Snoc(es, e);
    match e
    case TimeEvent(now) =>
      TickRun(s, timeout, es, now);
      FiredInOrder(s, now);
      CarvedKept(s, Fired(s.timer, s.reqs, now));
    case Disconnect(fd) =>
      DisconnectRun(s, timeout, es, fd);
      if 0 <= fd < |s.fdLists| {
        assert AllOf(s.fdLists[fd], s.reqs, fd);
        CarvedKept(s, s.fdLists[fd]);
      }
    case Arrival(fd, pkt, now, m) =>
      if Counts(e) {
        ArrivalCarved(s, timeout, es, e);
      } else {
        SameRun(s, timeout, es, e);
      }
  }

  lemma ArrivalCarved(s: State, timeout: nat, es: seq<Event>, e: Event)
    requires RunInv(s, timeout, es) && Monotone(es + [e])
    requires Counts(e) && ArriveOk(s, e.fd, e.pkt, e.m)
    requires Carved(s.pool) <= PeakWindow(es, timeout)
    requires PeakWindow(es + [e], timeout) <= SN_MODULUS
    ensures var t := Step(s, timeout, e);
      && RunInv(t, timeout, es + [e])
      && t.pool.perChunk == s.pool.perChunk
      && Carved(t.pool) <= PeakWindow(es + [e], timeout)
  {
    Snoc(es, e);
    WindowGrows(es, e, timeout);
    AgeInWindow(s, timeout, es);
    YoungRequestsNeverCollide(s);
    ArrivalRun(s, timeout, es, e);
    LiveInWindow(Step(s, timeout, e), timeout, es + [e]);
    StepCarved(s.pool, DoAlloc(e.m), Carved(s.pool));
  }

  /** With a clock that does not step back, and at most 2^32 packets in any window, every
      reachable state has agreeing views, a timer in expiry order, no request the last scan
      should have taken, and as few chunks as the largest window allows. */
  lemma {:induction false} EveryReachableState(s0: State, timeout: nat, es: seq<Event>)
    requires Initial(s0) && Legal(s0, timeout, es) && Monotone(es)
    requires PeakWindow(es, timeout) <= SN_MODULUS
    ensures var s := After(s0, timeout, es);
      && RunInv(s, timeout, es)
      && s.pool.perChunk == s0.pool.perChunk
      && Carved(s.pool) <= PeakWindow(es, timeout)
    decreases |es|
  {
    if es == [] {
      InitialInv(s0);
    } else {
      var init, e := es[..|es| - 1], es[|es| - 1];
      assert es == init + [e];
      assert Monotone(init) by {
        assert forall i :: 0 <= i < |init| ==> es[i] == init[i];
      }
      EveryReachableState(s0, timeout, init);
      var s := After(s0, timeout, init);
      StepRun(s, timeout, init, e);
    }
  }

  lemma CarvedKept(s: State, l: seq<Addr>)
    requires Inv(s) && NoDup(l) && AllIn(l, s.reqs)
    ensures var p := ReclaimAll(s, l).pool;
      Carved(p) == Carved(s.pool) && p.perChunk == s.pool.perChunk
  {
    forall a | a in l
      ensures a in s.reqs
    {
      var i :| 0 <= i < |l| && l[i] == a;
    }
    FreeAllInv(s.pool, l);
  }

  /** The pool's chunk count is bounded by the busiest window of the run. */
  lemma ChunkBound(s0: State, timeout: nat, es: seq<Event>)
    requires Initial(s0) && Legal(s0, timeout, es) && Monotone(es)
    requires PeakWindow(es, timeout) <= SN_MODULUS
    ensures |After(s0, timeout, es).pool.chunks| <= Max(1, CeilDiv(PeakWindow(es, timeout), s0.pool.perChunk))
  {
    EveryReachableState(s0, timeout, es);
    var p := After(s0, timeout, es).pool;
    ChunksFromCarved(p);
    CeilDivMonotone(Carved(p), PeakWindow(es, timeout), p.perChunk);
  }

  /** So each tick of such a run reclaims exactly the expired requests. */
  lemma TicksAreExact(s0: State, timeout: nat, es: seq<Event>, now: int)
    requires Initial(s0) && Legal(s0, timeout, es) && Monotone(es)
    requires PeakWindow(es, timeout) <= SN_MODULUS
    ensures var s := After(s0, timeout, es); var t := After(s0, timeout, es + [TimeEvent(now)]);
      && t.pool.live == s.pool.live - ExpiredSet(s.reqs, now)
      && (forall a :: a in t.reqs <==> a in s.reqs && s.reqs[a].expire >= now)
      && (forall a :: a in t.reqs ==> t.reqs[a] == s.reqs[a])
      && t.timer == Minus(s.timer, ExpiredSet(s.reqs, now))
      && t.fdLists == MinusAll(s.fdLists, ExpiredSet(s.reqs, now))
      && ViewsAgree(t)
  {
    var all := es + [TimeEvent(now)];
    assert all[..|all| - 1] == es;
    EveryReachableState(s0, timeout, es);
    TickExact(After(s0, timeout, es), now);
    InvMeansAgreement(After(s0, timeout, all));
  }

  lemma RunOfThree(s0: State, e0: Event, e1: Event, e2: Event)
    ensures var s1 := Step(s0, 2, e0); var s2 := Step(s1, 2, e1); var es := [e0, e1, e2];
      && After(s0, 2, es) == Step(s2, 2, e2)
      && (Legal(s0, 2, es) <==>
            && (e0.Arrival? ==> ArriveOk(s0, e0.fd, e0.pkt, e0.m))
            && (e1.Arrival? ==> ArriveOk(s1, e1.fd, e1.pkt, e1.m))
            && (e2.Arrival? ==> ArriveOk(s2, e2.fd, e2.pkt, e2.m)))
  {
    var es := [e0, e1, e2];
    assert es[..2] == [e0, e1] && [e0, e1][..1] == [e0] && [e0][..0] == [];
    assert After(s0, 2, [e0]) == Step(s0, 2, e0);
    assert After(s0, 2, [e0, e1]) == Step(Step(s0, 2, e0), 2, e1);
    assert Legal(s0, 2, [e0]) <==> (e0.Arrival? ==> ArriveOk(s0, e0.fd, e0.pkt, e0.m));
  }

  lemma TwoBlocks(p: Pool)
    requires Fresh(p) && p.perChunk >= 2
    ensures var r := Alloc(p, NULL); var r' := Alloc(r.pool, NULL);
      && !NeedsChunk(p) && !NeedsChunk(r.pool)
      && r.block != NULL && r'.block != NULL && r.block != r'.block
  {
    FreshInv(p);
    AllocCorrect(p, NULL);
    AllocCorrect(Alloc(p, NULL).pool, NULL);
  }

  /** A clock that steps back defeats the early stop of the scan: the second request has
      expired at time 60 and the tick leaves it. */
  lemma ClockStepBackMissesExpired(s0: State)
    requires Initial(s0) && |s0.fdLists| > 0 && s0.pool.perChunk >= 2
    ensures var pkt := Packet(0, 0, 0, []);
      var es := [Arrival(0, pkt, 98, NULL), Arrival(0, pkt, 48, NULL), TimeEvent(60)];
      && Legal(s0, 2, es)
      && exists a :: a in After(s0, 2, es).reqs && After(s0, 2, es).reqs[a].expire < 60
  {
    var pkt := Packet(0, 0, 0, []);
    var es := [Arrival(0, pkt, 98, NULL), Arrival(0, pkt, 48, NULL), TimeEvent(60)];
    var s1 := Step(s0, 2, es[0]);
    var s2 := Step(s1, 2, es[1]);
    RunOfThree(s0, es[0], es[1], es[2]);
    TwoBlocks(s0.pool);
    var a, b := s1.timer[0], s2.timer[1];
    assert s2.timer == [a, b];
    assert Fired(s2.timer, s2.reqs, 60) == [];
    assert b in Tick(s2, 60).reqs;
  }
}
