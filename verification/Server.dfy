/** src/common/server.cpp: the callbacks through which the surrounding framework drives the
    proxy. What is proved about runs is here proved of the linked memory itself. */
module Server {
  import opened Arithmetic
  import opened MemPools
  import Links
  import opened Lifecycle
  import opened Effects
  import opened Runs
  import opened ProxyServer

  /** Accepted bodies fit the request's buffer. */
  ghost predicate BodyFits(e: Event) {
    e.Arrival? && HEADER_SIZE + |e.pkt.body| <= 8192 ==> |e.pkt.body| <= BODY_SIZE
  }

  /** A clock that does not step back, at most 2^32 packets in any window, and callers that
      keep their side. */
  ghost predicate Orderly(s0: State, timeout: nat, es: seq<Event>) {
    && Legal(s0, timeout, es)
    && Monotone(es)
    && PeakWindow(es, timeout) <= SN_MODULUS
    && forall i :: 0 <= i < |es| ==> BodyFits(es[i])
  }

  lemma {:induction false} OrderlyPrefix(s0: State, timeout: nat, es: seq<Event>, i: nat)
    requires Orderly(s0, timeout, es) && i <= |es|
    ensures Orderly(s0, timeout, es[..i])
    decreases |es|
  {
    if i < |es| {
      var init := es[..|es| - 1];
      assert forall j :: 0 <= j < |init| ==> init[j] == es[j];
      OrderlyPrefix(s0, timeout, init, i);
      assert init[..i] == es[..i];
    } else {
      assert es[..i] == es;
    }
  }

  lemma NoEvent(s0: State, timeout: nat, es: seq<Event>)
    ensures After(s0, timeout, es[..0]) == s0
  {
  }

  lemma OrderlyNext(s0: State, timeout: nat, es: seq<Event>, i: nat)
    requires Orderly(s0, timeout, es) && i < |es|
    ensures var s := After(s0, timeout, es[..i]);
      && After(s0, timeout, es[..i + 1]) == Runs.Step(s, timeout, es[i])
      && (es[i].Arrival? ==> ArriveOk(s, es[i].fd, es[i].pkt, es[i].m))
  {
    NextEvent(s0, timeout, es, i);
  }

  /** proc_pkg_cli, time_event and link_down_cli. */
  method Handle(p: Proxy, e: Event)
    requires p.Shape() && Inv(p.st) && BodyFits(e)
    requires e.Arrival? ==> ArriveOk(p.st, e.fd, e.pkt, e.m)
    modifies p.Repr
    ensures p.Shape() && p.st == Step(old(p.st), p.timeout, e)
    ensures Does(old(p.st), p.timeout, e, p.st)
    ensures fresh(p.Repr - old(p.Repr))
  {
    hide Links.Linked, MemPool.Valid, InvOff, Wired, Contents, Registered, Arrive, Tick, LinkDown, Does;
    PoolOf(p.st);
    StepDoes(p.st, p.timeout, e);
    match e
    case Arrival(fd, pkt, now, m) => var _ := p.ProcPkgCli(fd, pkt, now, m);
    case TimeEvent(now) => p.TimeEvent(now);
    case Disconnect(fd) => p.LinkDownCli(fd);
  }

  /** `s` is the state the run `es` leads to from a fresh start: invariant and timer order
      hold, the views agree, and the busiest window bounds the chunks. */
  ghost predicate Served(s0: State, timeout: nat, es: seq<Event>, s: State) {
    && s == After(s0, timeout, es)
    && RunInv(s, timeout, es)
    && ViewsAgree(s)
    && s0.pool.perChunk > 0
    && |s.pool.chunks| <= Max(1, CeilDiv(PeakWindow(es, timeout), s0.pool.perChunk))
  }

  lemma Sound(s0: State, timeout: nat, es: seq<Event>, i: nat)
    requires Initial(s0) && Orderly(s0, timeout, es) && i <= |es|
    ensures Served(s0, timeout, es[..i], After(s0, timeout, es[..i]))
    ensures i < |es| ==> BodyFits(es[i])
  {
    hide InvOff, ViewsAgree, ExpiryOrder, Ages, Counted, After;
    OrderlyPrefix(s0, timeout, es, i);
    EveryReachableState(s0, timeout, es[..i]);
    ChunkBound(s0, timeout, es[..i]);
    InvMeansAgreement(After(s0, timeout, es[..i]));
  }

  /** The framework delivering any sequence of events to a proxy just made: the linked memory
      ends in the state that run leads to, and each event on the way did what it should. */
  method Serve(p: Proxy, es: seq<Event>)
    requires p.Shape() && Initial(p.st) && Orderly(p.st, p.timeout, es)
    modifies p.Repr
    ensures p.Shape() && Served(old(p.st), p.timeout, es, p.st)
    ensures forall i :: 0 <= i < |es| ==>
      Does(After(old(p.st), p.timeout, es[..i]), p.timeout, es[i], After(old(p.st), p.timeout, es[..i + 1]))
  {
    hide Links.Linked, MemPool.Valid, InvOff, Wired, Contents, Registered, Proxy.Core, ViewsAgree,
         Orderly, Initial, After, Legal, ExpiryOrder, Ages, Counted, PeakWindow, Does;
    ghost var s0 := p.st;
    NoEvent(s0, p.timeout, es);
    for i := 0 to |es|
      invariant p.Shape() && p.st == After(s0, p.timeout, es[..i])
      invariant fresh(p.Repr - old(p.Repr))
      invariant forall j :: 0 <= j < i ==>
        Does(After(s0, p.timeout, es[..j]), p.timeout, es[j], After(s0, p.timeout, es[..j + 1]))
    {
      Sound(s0, p.timeout, es, i);
      OrderlyNext(s0, p.timeout, es, i);
      Handle(p, es[i]);
    }
    assert es[..|es|] == es;
    Sound(s0, p.timeout, es, |es|);
  }
}
