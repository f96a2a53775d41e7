/** When the wrapping serial numbers of src/common/client_info.cpp do harm. */
module SerialNumbers {
  import opened Arithmetic
  import opened Memory
  import opened Sequences
  import opened BlockPool
  import opened Lifecycle
  import opened Runs
  import opened Effects

  /** An accepted arrival while some live request is a whole multiple of 2^32 registrations
      old. */
  ghost predicate Collides(s: State, e: Event) {
    && e.Arrival? && Taken(s, e.pkt, e.m)
    && exists a :: a in s.reqs && (s.regs - s.reqs[a].regNo) % SN_MODULUS == 0
  }

  /** One event from a good state: such an arrival, and nothing else, parts the views. */
  lemma StepAgreesIff(s: State, timeout: nat, e: Event)
    requires Inv(s) && (e.Arrival? ==> ArriveOk(s, e.fd, e.pkt, e.m))
    ensures Inv(Runs.Step(s, timeout, e)) <==> !Collides(s, e)
    ensures ViewsAgree(Runs.Step(s, timeout, e)) <==> !Collides(s, e)
  {
    hide ViewsAgree, InvOff, Arrive, Tick, LinkDown, Accepted, Taken, ArriveOk;
    HasChunk(s);
    CollisionIff(s);
    var t := Runs.Step(s, timeout, e);
    if e.Arrival? {
      ArriveKeepsInvIff(s, e.fd, e.pkt, e.now, timeout, e.m);
      NamesFd(s, e.fd, e.pkt, e.m);
      AcceptedIffTaken(s, e.fd, e.pkt, e.m);
      if Collides(s, e) { LostFromTable(t, s.table[s.nextSn]); }
    } else {
      Runs.StepInv(s, timeout, e);
    }
    if Inv(t) { InvMeansAgreement(t); }
  }

  lemma HasChunk(s: State)
    requires Inv(s)
    ensures |s.pool.chunks| >= 1
  {
  }

  lemma LostFromTable(t: State, a: Addr)
    requires a in t.pool.live && a !in t.table.Values
    ensures !ViewsAgree(t)
  {
  }

  /** The state of the run before event `i`. */
  ghost function Before(s0: State, timeout: nat, es: seq<Event>, i: nat): State
    requires i <= |es|
  {
    After(s0, timeout, es[..i])
  }

  lemma FromBefore(s0: State, timeout: nat, es: seq<Event>, i: nat)
    requires Runs.Legal(s0, timeout, es) && i < |es| && Inv(Before(s0, timeout, es, i))
    ensures var s, t := Before(s0, timeout, es, i), Before(s0, timeout, es, i + 1);
      && (Inv(t) <==> !Collides(s, es[i]))
      && (ViewsAgree(t) <==> !Collides(s, es[i]))
  {
    NextEvent(s0, timeout, es, i);
    StepAgreesIff(Before(s0, timeout, es, i), timeout, es[i]);
  }

  lemma AtStart(s0: State, timeout: nat, es: seq<Event>)
    requires Initial(s0)
    ensures Inv(Before(s0, timeout, es, 0)) && ViewsAgree(Before(s0, timeout, es, 0))
  {
    InitialInv(s0);
    InvMeansAgreement(s0);
    assert es[..0] == [];
  }

  /** In any run, on any clock, the views agree in every state exactly when no arrival
      collides. */
  lemma {:induction false} AlwaysAgreeIff(s0: State, timeout: nat, es: seq<Event>, k: nat)
    requires Initial(s0) && Runs.Legal(s0, timeout, es) && k <= |es|
    ensures (forall i :: 0 <= i <= k ==> ViewsAgree(Before(s0, timeout, es, i))) <==>
      (forall i :: 0 <= i < k ==> !Collides(Before(s0, timeout, es, i), es[i]))
    ensures (forall i :: 0 <= i < k ==> !Collides(Before(s0, timeout, es, i), es[i])) ==>
      Inv(Before(s0, timeout, es, k))
  {
    hide *;
    if k == 0 {
      AtStart(s0, timeout, es);
    } else {
      AlwaysAgreeIff(s0, timeout, es, k - 1);
      if Inv(Before(s0, timeout, es, k - 1)) { FromBefore(s0, timeout, es, k - 1); }
    }
  }

  /** And up to the first collision every event does what it should. */
  lemma EventsDo(s0: State, timeout: nat, es: seq<Event>, i: nat)
    requires Initial(s0) && Runs.Legal(s0, timeout, es) && i < |es|
    requires forall j :: 0 <= j < i ==> !Collides(Before(s0, timeout, es, j), es[j])
    ensures Does(Before(s0, timeout, es, i), timeout, es[i], Before(s0, timeout, es, i + 1))
  {
    hide Initial, Runs.Legal, Collides, Does, InvOff;
    AlwaysAgreeIff(s0, timeout, es, i);
    NextEvent(s0, timeout, es, i);
    StepDoes(Before(s0, timeout, es, i), timeout, es[i]);
  }

  // ------------------------------------------------------- a run that collides

  const EMPTY := Packet(0, 0, 0, [])

  function Arriving(fd: nat): Event { Arrival(fd, EMPTY, 0, NULL) }

  /** A request on descriptor 0, then `n` times one on descriptor 1 that goes away at once. */
  ghost function Churned(n: nat): seq<Event> {
    if n == 0 then [Arriving(0)] else Churned(n - 1) + [Arriving(1)] + [Disconnect(1)]
  }

  /** Only the first request ever registered is left, `regs` registrations later. */
  ghost predicate FirstAlone(s: State, regs: nat) {
    && Inv(s) && |s.fdLists| >= 2 && s.regs == regs && !NeedsChunk(s.pool)
    && |s.timer| == 1 && s.fdLists[1] == [] && s.timer[0] in s.reqs && s.reqs.Keys == {s.timer[0]}
    && s.reqs[s.timer[0]].fd == 0 && s.reqs[s.timer[0]].regNo == 0
  }

  lemma FirstArrives(s0: State, timeout: nat)
    requires Initial(s0) && |s0.fdLists| >= 2 && s0.pool.perChunk >= 2
    ensures ArriveOk(s0, 0, EMPTY, NULL)
    ensures FirstAlone(Runs.Step(s0, timeout, Arriving(0)), 1)
  {
    InitialInv(s0);
    AllocCorrect(s0.pool, NULL);
    ArriveKeepsInvIff(s0, 0, EMPTY, 0, timeout, NULL);
  }

  /** `t` is a state with the first request, another one on descriptor 1, and no third. */
  ghost predicate TwoLeft(t: State, regs: nat) {
    && Inv(t) && |t.fdLists| >= 2 && t.regs == regs
    && |t.timer| == 2 && t.timer[0] != t.timer[1]
    && t.fdLists[1] == [t.timer[1]] && t.reqs.Keys == {t.timer[0], t.timer[1]}
    && t.reqs[t.timer[0]].fd == 0 && t.reqs[t.timer[0]].regNo == 0
  }

  lemma Accepts(s: State, timeout: nat, n: nat)
    requires FirstAlone(s, n) && 1 <= n < SN_MODULUS
    ensures ArriveOk(s, 1, EMPTY, NULL)
    ensures |s.pool.chunks| >= 1 && Alloc(s.pool, NULL).block != NULL && Alloc(s.pool, NULL).block !in s.reqs
    ensures Inv(Arrive(s, 1, EMPTY, 0, timeout, NULL))
  {
    assert PoolInv(s.pool) && |s.pool.chunks| >= 1 && s.reqs.Keys == s.pool.live;
    hide InvOff, PoolInv, InsideChunk, Apart, Arrive;
    YoungRequestsNeverCollide(s);
    AllocCorrect(s.pool, NULL);
    ArriveKeepsInvIff(s, 1, EMPTY, 0, timeout, NULL);
  }

  lemma SecondArrives(s: State, timeout: nat, n: nat)
    requires FirstAlone(s, n) && 1 <= n < SN_MODULUS
    ensures ArriveOk(s, 1, EMPTY, NULL)
    ensures TwoLeft(Runs.Step(s, timeout, Arriving(1)), n + 1)
  {
    hide InvOff, Alloc;
    Accepts(s, timeout, n);
  }

  lemma SecondLeaves(t: State, n: nat)
    requires TwoLeft(t, n)
    ensures FirstAlone(LinkDown(t, 1), n)
  {
    hide InvOff, NeedsChunk, LinkDown, Minus, Elems;
    LinkDownExact(t, 1);
    LeftAlone(t, t.timer[0], t.timer[1]);
  }

  lemma Round(s: State, timeout: nat, n: nat)
    requires FirstAlone(s, n) && 1 <= n < SN_MODULUS
    ensures ArriveOk(s, 1, EMPTY, NULL)
    ensures FirstAlone(Runs.Step(Runs.Step(s, timeout, Arriving(1)), timeout, Disconnect(1)), n + 1)
  {
    hide FirstAlone, TwoLeft, LinkDown, Arrive, ArriveOk;
    SecondArrives(s, timeout, n);
    SecondLeaves(Runs.Step(s, timeout, Arriving(1)), n + 1);
  }

  /** Descriptor 1 had the one request `b`; with it gone its block is free for the next. */
  lemma LeftAlone(t: State, a: Addr, b: Addr)
    requires |t.fdLists| >= 2 && t.fdLists[1] == [b]
    requires a != b && t.reqs.Keys == {a, b} && t.timer == [a, b]
    ensures var u := LinkDown(t, 1);
      u.timer == [a] && u.reqs.Keys == {a} && u.reqs[a] == t.reqs[a] && !NeedsChunk(u.pool) && u.regs == t.regs
  {
    var l := t.fdLists[1];
    assert Elems(l) == {b};
    assert l[..0] == [] && l[0] == b;
    MinusSnoc([a], b, {b});
    assert [a] + [b] == [a, b];
    MinusNothing([a], {b});
    assert FreeAll(t.pool, l) == Free(t.pool, b);
  }

  lemma {:induction false} Churning(s0: State, timeout: nat, n: nat)
    requires Initial(s0) && |s0.fdLists| >= 2 && s0.pool.perChunk >= 2 && n < SN_MODULUS
    ensures Runs.Legal(s0, timeout, Churned(n))
    ensures FirstAlone(After(s0, timeout, Churned(n)), n + 1)
    ensures Arrivals(Churned(n)) == PeakWindow(Churned(n), timeout) == n + 1
    ensures LastTick(Churned(n)).None? && forall e :: e in Churned(n) && !e.Disconnect? ==> e.now == 0
  {
    hide Initial, FirstAlone, Runs.Step, ArriveOk, After, Runs.Legal, PeakWindow, Arrivals, LastTick, Taken;
    if n == 0 {
      FirstArrives(s0, timeout);
      AtFirst(s0, timeout);
      Then(s0, timeout, [], Arriving(0));
      assert [] + [Arriving(0)] == Churned(0);
    } else {
      Churning(s0, timeout, n - 1);
      var es := Churned(n - 1);
      Round(After(s0, timeout, es), timeout, n);
      Then(s0, timeout, es, Arriving(1));
      Then(s0, timeout, es + [Arriving(1)], Disconnect(1));
    }
  }

  lemma AtFirst(s0: State, timeout: nat)
    ensures After(s0, timeout, []) == s0 && Runs.Legal(s0, timeout, [])
    ensures Arrivals([]) == PeakWindow([], timeout) == 0 && LastTick([]).None?
  {
  }

  lemma Then(s0: State, timeout: nat, es: seq<Event>, e: Event)
    requires Runs.Legal(s0, timeout, es) && LastTick(es).None?
    requires e.Arrival? ==> ArriveOk(After(s0, timeout, es), e.fd, e.pkt, e.m)
    ensures Runs.Legal(s0, timeout, es + [e])
    ensures After(s0, timeout, es + [e]) == Runs.Step(After(s0, timeout, es), timeout, e)
    ensures Arrivals(es + [e]) == Arrivals(es) + if Counts(e) then 1 else 0
    ensures !e.TimeEvent? ==> LastTick(es + [e]).None?
    ensures !e.TimeEvent? ==> PeakWindow(es + [e], timeout) == Max(PeakWindow(es, timeout), Arrivals(es + [e]))
  {
    Snoc(es, e);
  }

  lemma FullCircle(s: State)
    requires FirstAlone(s, SN_MODULUS)
    ensures Inv(s) && ArriveOk(s, 1, EMPTY, NULL) && Collides(s, Arriving(1))
  {
    hide InvOff;
    assert PoolInv(s.pool) by { Sound(s); }
    AllocCorrect(s.pool, NULL);
    HasChunk(s);
    var a := s.timer[0];
    assert a in s.reqs && (s.regs - s.reqs[a].regNo) % SN_MODULUS == 0;
  }

  lemma Sound(s: State)
    requires Inv(s)
    ensures PoolInv(s.pool)
  {
  }

  /** A request that stays while 2^32 - 1 others come and go loses its number to the next one:
      on a clock that never moves, one packet more than `EveryReachableState` allows. */
  lemma CollisionReachable(s0: State, timeout: nat) returns (n: nat, es: seq<Event>)
    requires Initial(s0) && |s0.fdLists| >= 2 && s0.pool.perChunk >= 2
    ensures n == SN_MODULUS - 1 && es == Churned(n) + [Arriving(1)]
    ensures Runs.Legal(s0, timeout, es) && Monotone(es) && PeakWindow(es, timeout) == SN_MODULUS + 1
    ensures !ViewsAgree(After(s0, timeout, es))
  {
    hide Churned, ViewsAgree, FirstAlone, ArriveOk, Collides, InvOff, Runs.Step;
    n := SN_MODULUS - 1;
    Churning(s0, timeout, n);
    var init, e := Churned(n), Arriving(1);
    var s := After(s0, timeout, init);
    es := init + [e];
    FullCircle(s);
    Then(s0, timeout, init, e);
    StepAgreesIff(s, timeout, e);
    assert forall e' :: e' in es && !e'.Disconnect? ==> e'.now == 0;
  }
}
