/** src/connection/connection.h and src/connection/connection_pool.cpp: a fixed vector of
    backend connections, handed out in rotation and reopened at a limited rate. */
module ConnectionPools {
  import opened Arithmetic
  import opened Sequences

  type Address = (string, int)

  /** The flags of one connection and whether its transport is open. */
  datatype Flags = Flags(busy: bool, dead: bool, open: bool) {
    predicate Available() { !busy && !dead && open }
  }

  datatype Found = NotFound | At(index: nat)

  /** The pool's mutable state as a value. */
  datatype View = View(flags: seq<Flags>, count: nat, lastChecked: int)

  // ------------------------------------------------------------------ getting

  /** The fast scan of getConnection: `left` slots from `index` on, wrapping round. */
  function FindFrom(v: seq<Flags>, index: nat, left: nat): (r: Found)
    requires index < |v|
    ensures r.At? ==> r.index < |v| && v[r.index].Available()
    decreases left
  {
    if left == 0 then NotFound
    else if v[index].Available() then At(index)
    else FindFrom(v, (index + 1) % |v|, left - 1)
  }

  /** TTransport::open: nothing to do when open already, else it succeeds or throws. */
  predicate Opens(f: Flags, connects: bool) { f.open || connects }

  /** The slow scan of getConnection from slot `i` on: the first idle connection that opens is
      taken; idle ones that do not are marked dead. */
  function OpenFrom(v: seq<Flags>, connects: seq<bool>, i: nat): (r: (seq<Flags>, Found))
    requires i <= |v| && |connects| == |v|
    ensures |r.0| == |v|
    decreases |v| - i
  {
    if i == |v| then (v, NotFound)
    else if v[i].busy then OpenFrom(v, connects, i + 1)
    else if Opens(v[i], connects[i]) then (v[i := v[i].(open := true, busy := true)], At(i))
    else OpenFrom(v[i := v[i].(dead := true)], connects, i + 1)
  }

  datatype GetResult = GetResult(view: View, found: Found)

  /** getConnection: the rotation counter moves only when the fast scan succeeds. */
  function Get(s: View, connects: seq<bool>): GetResult
    requires |s.flags| > 0 && |connects| == |s.flags|
  {
    var n := |s.flags|;
    match FindFrom(s.flags, s.count % n, n)
    case At(k) => GetResult(s.(count := s.count + 1), At(k))
    case NotFound =>
      var (v, r) := OpenFrom(s.flags, connects, 0);
      GetResult(s.(flags := v), r)
  }

  /** Slot reached `k` steps after `start`, wrapping round `n` slots. */
  function Cyclic(start: nat, k: nat, n: nat): nat
    requires n > 0
  {
    (start + k) % n
  }

  lemma CyclicShift(start: nat, k: nat, n: nat)
    requires n > 0 && start < n
    ensures Cyclic((start + 1) % n, k, n) == Cyclic(start, k + 1, n)
  {
    if start + 1 == n {
      ModUnique(start + 1, n, 1, 0);
      ModPlus(k, n);
      assert start + (k + 1) == k + n;
    } else {
      ModUnique(start + 1, n, 0, start + 1);
    }
  }

  /** The fast scan returns the first available slot in cyclic order, if there is one. */
  lemma {:induction false} FindFromFirst(v: seq<Flags>, index: nat, left: nat)
    requires index < |v|
    ensures FindFrom(v, index, left).NotFound? <==>
      forall k :: 0 <= k < left ==> !v[Cyclic(index, k, |v|)].Available()
    ensures FindFrom(v, index, left).At? ==>
      exists k :: 0 <= k < left
        && FindFrom(v, index, left).index == Cyclic(index, k, |v|)
        && forall j :: 0 <= j < k ==> !v[Cyclic(index, j, |v|)].Available()
    decreases left
  {
    var n := |v|;
    if left > 0 {
      assert Cyclic(index, 0, n) == index;
      if !v[index].Available() {
        var next := (index + 1) % n;
        FindFromFirst(v, next, left - 1);
        forall k: nat
          ensures Cyclic(next, k, n) == Cyclic(index, k + 1, n)
        {
          CyclicShift(index, k, n);
        }
        forall k | 0 < k < left
          ensures Cyclic(index, k, n) == Cyclic(next, k - 1, n)
        {
          assert Cyclic(next, k - 1, n) == Cyclic(index, k - 1 + 1, n);
        }
        if FindFrom(v, next, left - 1).At? {
          var k :| 0 <= k < left - 1
            && FindFrom(v, next, left - 1).index == Cyclic(next, k, n)
            && forall j :: 0 <= j < k ==> !v[Cyclic(next, j, n)].Available();
          assert FindFrom(v, index, left).index == Cyclic(index, k + 1, n);
          assert forall j :: 0 <= j < k + 1 ==> !v[Cyclic(index, j, n)].Available();
        }
      }
    }
  }

  /** Every slot is reached in one round. */
  lemma RoundCovers(start: nat, slot: nat, n: nat) returns (k: nat)
    requires n > 0 && slot < n
    ensures k < n && Cyclic(start, k, n) == slot
  {
    var s := start % n;
    k := if slot >= s then slot - s else slot + n - s;
    var q := start / n;
    assert start == n * q + s;
    assert start + k == n * q + (if slot >= s then slot else slot + n);
    if slot >= s {
      ModUnique(start + k, n, q, slot);
    } else {
      assert start + k == n * (q + 1) + slot;
      ModUnique(start + k, n, q + 1, slot);
    }
  }

  /** The slow scan takes the first idle connection that opens and marks dead exactly the idle
      ones it tried before; it comes back empty only when every connection is busy or failed. */
  lemma {:induction false} OpenFromExact(v: seq<Flags>, connects: seq<bool>, i: nat)
    requires i <= |v| && |connects| == |v|
    ensures var (v', r) := OpenFrom(v, connects, i);
      && |v'| == |v|
      && (r.NotFound? <==> forall j :: i <= j < |v| ==> v[j].busy || !Opens(v[j], connects[j]))
      && (r.NotFound? ==> forall j :: 0 <= j < |v| ==>
           v'[j] == if j >= i && !v[j].busy then v[j].(dead := true) else v[j])
      && (r.At? ==>
           && i <= r.index < |v| && !v[r.index].busy && Opens(v[r.index], connects[r.index])
           && (forall j :: i <= j < r.index ==> v[j].busy || !Opens(v[j], connects[j]))
           && v'[r.index] == v[r.index].(open := true, busy := true)
           && forall j :: 0 <= j < |v| && j != r.index ==>
                v'[j] == if i <= j < r.index && !v[j].busy then v[j].(dead := true) else v[j])
    decreases |v| - i
  {
    if i < |v| {
      if v[i].busy {
        OpenFromExact(v, connects, i + 1);
      } else if !Opens(v[i], connects[i]) {
        OpenFromExact(v[i := v[i].(dead := true)], connects, i + 1);
      }
    }
  }

  /** Idle, alive and with an open transport. */
  ghost predicate Usable(f: Flags) { f.busy == false && f.dead == false && f.open == true }

  /** Idle and open, or able to connect. */
  ghost predicate Openable(f: Flags, connects: bool) { f.busy == false && (f.open == true || connects) }

  /** `v'` is `v` with the idle slots before `k` marked dead. */
  ghost predicate DeadBefore(v: seq<Flags>, v': seq<Flags>, k: nat) {
    |v'| == |v| && forall j :: 0 <= j < |v| && j != k ==>
      v'[j] == if j < k && !v[j].busy then Flags(false, true, v[j].open) else v[j]
  }

  /** getConnection as a whole: the first usable slot from the rotation point on, which moves
      the rotation; else the first slot that can be opened, which becomes busy; else none. In
      the last two cases exactly the idle slots tried before are marked dead. */
  lemma GetExact(s: View, connects: seq<bool>)
    requires |s.flags| > 0 && |connects| == |s.flags|
    ensures var g := Get(s, connects); var v := s.flags; var n := |s.flags|;
      && (g.found.At? ==> 0 <= g.found.index < n)
      && (if exists j :: 0 <= j < n && Usable(v[j]) then
            && g.view == s.(count := s.count + 1)
            && exists k :: 0 <= k < n && g.found == At(Cyclic(s.count % n, k, n)) && Usable(v[Cyclic(s.count % n, k, n)])
                 && forall i :: 0 <= i < k ==> !Usable(v[Cyclic(s.count % n, i, n)])
          else
            && g.view.count == s.count && g.view.lastChecked == s.lastChecked
            && (g.found.NotFound? <==> forall j :: 0 <= j < n ==> !Openable(v[j], connects[j]))
            && (g.found.NotFound? ==> DeadBefore(v, g.view.flags, n))
            && (g.found.At? ==>
                  var k := g.found.index;
                  && Openable(v[k], connects[k])
                  && (forall j :: 0 <= j < k ==> !Openable(v[j], connects[j]))
                  && DeadBefore(v, g.view.flags, k)
                  && g.view.flags[k] == Flags(true, v[k].dead, true)))
  {
    var v, n := s.flags, |s.flags|;
    var start := s.count % n;
    FindFromFirst(v, start, n);
    OpenFromExact(v, connects, 0);
    forall j | 0 <= j < n && Usable(v[j])
      ensures FindFrom(v, start, n).At?
    {
      var k := RoundCovers(start, j, n);
    }
  }

  // ----------------------------------------------------------------- rotation

  predicate AllAvailable(v: seq<Flags>) {
    forall j :: 0 <= j < |v| ==> v[j].Available()
  }

  /** The slots handed out by `m` gets in a row. */
  function Gets(s: View, connects: seq<bool>, m: nat): seq<Found>
    requires |s.flags| > 0 && |connects| == |s.flags|
    decreases m
  {
    if m == 0 then []
    else
      var g := Get(s, connects);
      OpenLength(s, connects);
      [g.found] + Gets(g.view, connects, m - 1)
  }

  lemma OpenLength(s: View, connects: seq<bool>)
    requires |s.flags| > 0 && |connects| == |s.flags|
    ensures |Get(s, connects).view.flags| == |s.flags|
  {
  }

  /** While all connections are available the gets walk round the slots. */
  lemma {:induction false} GetsRotate(s: View, connects: seq<bool>, m: nat)
    requires |s.flags| > 0 && |connects| == |s.flags| && AllAvailable(s.flags)
    ensures |Gets(s, connects, m)| == m
    ensures forall i :: 0 <= i < m ==> Gets(s, connects, m)[i] == At(Cyclic(s.count, i, |s.flags|))
    decreases m
  {
    if m > 0 {
      var g := Get(s, connects);
      OpenLength(s, connects);
      assert g == GetResult(s.(count := s.count + 1), At(s.count % |s.flags|));
      var rest := Gets(g.view, connects, m - 1);
      GetsRotate(g.view, connects, m - 1);
      forall i | 0 <= i < m
        ensures Gets(s, connects, m)[i] == At(Cyclic(s.count, i, |s.flags|))
      {
        if i > 0 {
          assert Gets(s, connects, m)[i] == rest[i - 1];
          assert s.count + 1 + (i - 1) == s.count + i;
        }
      }
    }
  }

  /** Any `pool_size` gets in a row hand out each connection exactly once. */
  lemma EachConnectionOnce(s: View, connects: seq<bool>, slot: nat)
    requires |s.flags| > 0 && |connects| == |s.flags| && AllAvailable(s.flags) && slot < |s.flags|
    ensures var l := Gets(s, connects, |s.flags|);
      && |l| == |s.flags|
      && (exists i :: 0 <= i < |l| && l[i] == At(slot))
      && forall i, j :: 0 <= i < j < |l| ==> l[i] != l[j]
  {
    var n := |s.flags|;
    var l := Gets(s, connects, n);
    GetsRotate(s, connects, n);
    var k := RoundCovers(s.count, slot, n);
    assert l[k] == At(slot);
    forall i, j | 0 <= i < j < n
      ensures l[i] != l[j]
    {
      RoundInjective(s.count, i, j, n);
    }
  }

  lemma RoundInjective(start: nat, i: nat, j: nat, n: nat)
    requires n > 0 && i < j < i + n
    ensures Cyclic(start, i, n) != Cyclic(start, j, n)
  {
    var r := (start + i) % n;
    var q := (start + i) / n;
    assert start + i == n * q + r;
    var d := r + (j - i);
    if d < n {
      ModUnique(start + j, n, q, d);
    } else {
      assert start + j == n * (q + 1) + (d - n);
      ModUnique(start + j, n, q + 1, d - n);
    }
  }

  /** Slot `k` of an initialised pool belongs to backend `k % n`. */
  function Backend(slot: nat, backends: nat): nat
    requires backends > 0
  {
    slot % backends
  }

  lemma ModOfMod(x: nat, n: nat, m: nat)
    requires n > 0 && m > 0
    ensures (x % (m * n)) % n == x % n
  {
    var p := m * n;
    var q, r := x / p, x % p;
    var q', r' := r / n, r % n;
    DivMod(x, p);
    DivMod(r, n);
    Distributes(m, n, q, q');
    ModUnique(x, n, m * q + q', r');
  }

  lemma Distributes(m: nat, n: nat, q: nat, q': nat)
    ensures (m * n) * q + n * q' == n * (m * q + q')
    ensures m * q + q' >= 0
  {
    assert (m * n) * q == n * (m * q);
  }

  /** Any `backends` gets in a row go to each backend exactly once, when the number of
      backends divides the pool size. */
  lemma EachBackendOnce(s: View, connects: seq<bool>, backends: nat, rounds: nat, b: nat)
    requires backends > 0 && rounds > 0 && |s.flags| == rounds * backends
    requires |connects| == |s.flags| && AllAvailable(s.flags) && b < backends
    ensures var l := Gets(s, connects, backends);
      && |l| == backends
      && (forall i :: 0 <= i < |l| ==> l[i].At?)
      && (exists i :: 0 <= i < |l| && Backend(l[i].index, backends) == b)
      && (forall i, j :: 0 <= i < j < |l| ==> Backend(l[i].index, backends) != Backend(l[j].index, backends))
  {
    var l := Gets(s, connects, backends);
    GetsRotate(s, connects, backends);
    forall i | 0 <= i < backends
      ensures l[i].At? && Backend(l[i].index, backends) == Cyclic(s.count, i, backends)
    {
      ModOfMod(s.count + i, backends, rounds);
    }
    var k := RoundCovers(s.count, b, backends);
    assert Backend(l[k].index, backends) == b;
    forall i, j | 0 <= i < j < backends
      ensures Backend(l[i].index, backends) != Backend(l[j].index, backends)
    {
      RoundInjective(s.count, i, j, backends);
    }
  }

  // ---------------------------------------------------------------- releasing

  /** availableCount. */
  function Available(v: seq<Flags>): nat {
    if v == [] then 0 else Available(v[..|v| - 1]) + if v[|v| - 1].Available() then 1 else 0
  }

  lemma {:induction false} AvailableCounts(v: seq<Flags>)
    ensures Available(v) == |set j | 0 <= j < |v| && Usable(v[j])|
    decreases |v|
  {
    var all := set j | 0 <= j < |v| && Usable(v[j]);
    if v == [] {
      assert all == {};
    } else {
      var n := |v| - 1;
      AvailableCounts(v[..n]);
      var init := set j | 0 <= j < n && Usable(v[..n][j]);
      assert all == if Usable(v[n]) then init + {n} else init;
    }
  }

  /** Closing every transport and declaring every connection dead. */
  function Closed(v: seq<Flags>): (r: seq<Flags>)
    ensures |r| == |v|
  {
    seq(|v|, i requires 0 <= i < |v| => v[i].(open := false, dead := true))
  }

  /** The reopening pass over idle connections. */
  function Reopened(v: seq<Flags>, connects: seq<bool>): (r: seq<Flags>)
    requires |connects| == |v|
    ensures |r| == |v|
  {
    seq(|v|, i requires 0 <= i < |v| =>
      if v[i].busy then v[i]
      else if Opens(v[i], connects[i]) then v[i].(open := true, dead := false)
      else v[i].(dead := true))
  }

  datatype Limits = Limits(minSize: int, interval: int)

  /** The state before the reopening decision. */
  function Returned(v: seq<Flags>, i: nat, status: bool): (r: seq<Flags>)
    requires i < |v|
    ensures |r| == |v|
  {
    var v' := v[i := v[i].(busy := false)];
    if status then v'[i := v'[i].(dead := false)] else Closed(v')
  }

  /** Whether a release at time `now` makes a reopening pass. */
  predicate Reopens(s: View, l: Limits, i: nat, status: bool, now: int)
    requires i < |s.flags|
  {
    (!status || Available(Returned(s.flags, i, status)) < l.minSize) && now - s.lastChecked > l.interval
  }

  /** release. */
  function Release(s: View, l: Limits, i: nat, status: bool, now: int, connects: seq<bool>): (r: View)
    requires i < |s.flags| && |connects| == |s.flags|
    ensures |r.flags| == |s.flags| && r.count == s.count
  {
    var v := Returned(s.flags, i, status);
    if Reopens(s, l, i, status, now) then View(Reopened(v, connects), s.count, now)
    else s.(flags := v)
  }

  /** After a failed release every transport has been closed, and a pass, made exactly when the
      interval has passed, reopens the idle ones that connect. The available connections are
      exactly those; every other one is dead; only the released one stops being busy. */
  lemma FailedReleaseExact(s: View, l: Limits, i: nat, now: int, connects: seq<bool>)
    requires i < |s.flags| && |connects| == |s.flags|
    ensures var t := Release(s, l, i, false, now, connects); var pass := now - s.lastChecked > l.interval;
      && t.count == s.count && t.lastChecked == (if pass then now else s.lastChecked)
      && forall j :: 0 <= j < |s.flags| ==>
           var busy := j != i && s.flags[j].busy; var up := pass && !busy && connects[j];
           t.flags[j] == Flags(busy, !up, up)
  {
    var v := Returned(s.flags, i, false);
    assert forall j :: 0 <= j < |v| ==> !v[j].open && v[j].dead && (v[j].busy <==> j != i && s.flags[j].busy);
  }

  /** After a successful release its own connection is idle, and available iff its transport
      is open or was reopened in that call. A pass, made only when too few connections are
      available and the interval has passed, does the same to every other idle connection;
      without a pass no other connection is touched. */
  lemma GoodReleaseExact(s: View, l: Limits, i: nat, now: int, connects: seq<bool>)
    requires i < |s.flags| && |connects| == |s.flags|
    ensures var t, pass := Release(s, l, i, true, now, connects), Reopens(s, l, i, true, now);
      && (pass <==> |set j | 0 <= j < |s.flags| && (if j == i then s.flags[i].open else Usable(s.flags[j]))| < l.minSize
                    && now - s.lastChecked > l.interval)
      && t.count == s.count
      && t.lastChecked == (if pass then now else s.lastChecked)
      && !t.flags[i].busy
      && (Usable(t.flags[i]) <==> s.flags[i].open || (pass && connects[i]))
      && forall j :: 0 <= j < |s.flags| && j != i ==>
           if pass && !s.flags[j].busy
           then t.flags[j] == (if s.flags[j].open || connects[j] then Flags(false, false, true) else Flags(false, true, false))
           else t.flags[j] == s.flags[j]
  {
    var v := s.flags[i := Flags(false, false, s.flags[i].open)];
    assert Returned(s.flags, i, true) == v;
    AvailableCounts(v);
    assert (set j | 0 <= j < |v| && Usable(v[j])) ==
      set j | 0 <= j < |s.flags| && (if j == i then s.flags[i].open else Usable(s.flags[j]));
  }

  datatype Event =
    | GetEvent(connects: seq<bool>)
    | ReleaseEvent(slot: nat, status: bool, now: int, connects: seq<bool>)

  /** The event fits a pool of `n` connections. */
  predicate EventOk(n: nat, e: Event) {
    |e.connects| == n && (e.ReleaseEvent? ==> e.slot < n)
  }

  function Step(s: View, l: Limits, e: Event): (r: View)
    requires |s.flags| > 0 && EventOk(|s.flags|, e)
    ensures |r.flags| == |s.flags|
  {
    match e
    case GetEvent(c) => Get(s, c).view
    case ReleaseEvent(i, status, now, c) => Release(s, l, i, status, now, c)
  }

  predicate Passes(s: View, l: Limits, e: Event)
    requires EventOk(|s.flags|, e)
  {
    e.ReleaseEvent? && Reopens(s, l, e.slot, e.status, e.now)
  }

  predicate AllOk(n: nat, es: seq<Event>) {
    forall i :: 0 <= i < |es| ==> EventOk(n, es[i])
  }

  /** The times of the reopening passes of a run. */
  ghost function PassTimes(s: View, l: Limits, es: seq<Event>): seq<int>
    requires |s.flags| > 0 && AllOk(|s.flags|, es)
    decreases |es|
  {
    if es == [] then []
    else
      var rest := PassTimes(Step(s, l, es[0]), l, es[1..]);
      if Passes(s, l, es[0]) then [es[0].now] + rest else rest
  }

  ghost predicate Spaced(last: int, interval: int, p: seq<int>) {
    && (forall i :: 0 <= i < |p| ==> p[i] - last > interval)
    && (forall i, j :: 0 <= i < j < |p| ==> p[j] - p[i] > interval)
  }

  /** Whatever the clock does, each pass is more than the interval later than all before it. */
  lemma {:induction false} PassesSpaced(s: View, l: Limits, es: seq<Event>)
    requires |s.flags| > 0 && AllOk(|s.flags|, es) && l.interval >= 0
    ensures Spaced(s.lastChecked, l.interval, PassTimes(s, l, es))
    decreases |es|
  {
    if es != [] {
      var s' := Step(s, l, es[0]);
      PassesSpaced(s', l, es[1..]);
      var rest := PassTimes(s', l, es[1..]);
      if Passes(s, l, es[0]) {
        var p := [es[0].now] + rest;
        assert s'.lastChecked == es[0].now;
        assert forall i :: 1 <= i < |p| ==> p[i] == rest[i - 1];
      }
    }
  }

  // ------------------------------------------------------------------ classes

  class Connection {
    const ip: string
    const port: int
    var isBusy: bool
    var isDead: bool
    var isOpen: bool

    constructor (ip: string, port: int)
      ensures this.ip == ip && this.port == port && State() == Flags(false, true, false)
    {
      this.ip, this.port := ip, port;
      isBusy, isDead, isOpen := false, true, false;
    }

    function State(): Flags
      reads this
    {
      Flags(isBusy, isDead, isOpen)
    }

    predicate IsAvailable()
      reads this
    {
      !isBusy && !isDead && isOpen
    }

    /** Connection::init; `connects` tells whether the connect succeeds. */
    method Init(connects: bool)
      modifies this
      ensures State() == old(State()).(open := old(isOpen) || connects, dead := !(old(isOpen) || connects))
    {
      var ok := Open(connects);
      isDead := !ok;
    }

    /** TTransport::open; false stands for the exception. */
    method Open(connects: bool) returns (ok: bool)
      modifies this`isOpen
      ensures ok == Opens(old(State()), connects) && isOpen == ok
    {
      if !isOpen { isOpen := connects; }
      ok := isOpen;
    }
  }

  ghost function FlagsOf(conns: seq<Connection>): (r: seq<Flags>)
    reads conns
    ensures |r| == |conns|
  {
    seq(|conns|, i requires 0 <= i < |conns| reads conns => conns[i].State())
  }

  class ConnectionPool {
    const addresses: seq<Address>
    const poolSize: nat
    const minSize: int
    const checkInterval: int
    var conns: seq<Connection>
    var count: nat
    var lastChecked: int

    /** `unset` is whatever the constructor leaves in last_checked_time_. */
    constructor (addresses: seq<Address>, poolSize: nat, minSize: int, checkInterval: int, unset: int)
      ensures this.addresses == addresses && this.poolSize == poolSize
      ensures this.minSize == minSize && this.checkInterval == checkInterval
      ensures conns == [] && count == 0 && lastChecked == unset
    {
      this.addresses, this.poolSize, this.minSize, this.checkInterval := addresses, poolSize, minSize, checkInterval;
      conns, count, lastChecked := [], 0, unset;
    }

    ghost predicate Valid()
      reads this
    {
      |conns| == poolSize && poolSize > 0 && NoDup(conns)
    }

    ghost function Value(): View
      reads this, conns
    {
      View(FlagsOf(conns), count, lastChecked)
    }

    function Bounds(): Limits { Limits(minSize, checkInterval) }

    /** init: one round over the addresses after another; slot k gets address k mod n. The
        rounds fill the pool exactly when the number of addresses divides its size. */
    method Init(connects: seq<bool>)
      requires |addresses| > 0 && conns == [] && |connects| == poolSize
      modifies this`conns
      ensures |conns| == poolSize / |addresses| * |addresses| <= poolSize
      ensures forall k :: 0 <= k < |conns| ==> fresh(conns[k]) && Ready(k, connects)
      ensures NoDup(conns)
      ensures poolSize > 0 ==> (Valid() <==> poolSize % |addresses| == 0)
    {
      var n := |addresses|;
      var rounds := poolSize / n;
      RoundsFit(poolSize, n);
      for i := 0 to rounds
        invariant |conns| == i * n
        invariant ReadyUpTo(connects) && NoDup(conns)
        invariant forall k :: 0 <= k < |conns| ==> fresh(conns[k])
      {
        RoundEnd(i, rounds, n, poolSize);
        AddRound(i, connects);
      }
    }

    /** One round over the addresses. */
    method AddRound(i: nat, connects: seq<bool>)
      requires |addresses| > 0 && |conns| == i * |addresses| && |conns| + |addresses| <= |connects|
      requires ReadyUpTo(connects) && NoDup(conns)
      modifies this`conns
      ensures |conns| == old(|conns|) + |addresses| && conns[..old(|conns|)] == old(conns)
      ensures forall k :: old(|conns|) <= k < |conns| ==> fresh(conns[k])
      ensures ReadyUpTo(connects) && NoDup(conns)
    {
      ghost var base := conns;
      for j := 0 to |addresses|
        invariant |conns| == |base| + j && conns[..|base|] == base
        invariant forall k :: |base| <= k < |conns| ==> fresh(conns[k])
        invariant ReadyUpTo(connects) && NoDup(conns)
      {
        SlotBackend(i, j, |addresses|);
        ghost var before := conns;
        Add(addresses[j], connects);
        assert conns[..|base|] == before[..|base|];
        assert forall k :: 0 <= k < |before| ==> conns[k] == before[k];
      }
    }

    ghost predicate ReadyUpTo(connects: seq<bool>)
      requires |addresses| > 0
      reads this, conns
    {
      |conns| <= |connects| && forall k :: 0 <= k < |conns| ==> Ready(k, connects)
    }

    /** One make_shared, init and push_back. */
    method Add(address: Address, connects: seq<bool>)
      requires |addresses| > 0 && |conns| < |connects| && address == addresses[Backend(|conns|, |addresses|)]
      requires NoDup(conns) && ReadyUpTo(connects)
      modifies this`conns
      ensures |conns| == old(|conns|) + 1 && conns[..old(|conns|)] == old(conns) && fresh(conns[old(|conns|)])
      ensures NoDup(conns) && ReadyUpTo(connects)
    {
      var conn := new Connection(address.0, address.1);
      conn.Init(connects[|conns|]);
      ghost var before := conns;
      conns := conns + [conn];
      forall k | 0 <= k < |conns|
        ensures Ready(k, connects)
      {
        if k < |before| { assert conns[k] == before[k] && old(Ready(k, connects)); }
      }
    }

    /** Slot `k` holds an idle connection to its backend, open and alive iff it connected. */
    ghost predicate Ready(k: nat, connects: seq<bool>)
      requires k < |conns| && k < |connects| && |addresses| > 0
      reads this, conns
    {
      && (conns[k].ip, conns[k].port) == addresses[k % |addresses|]
      && conns[k].State() == Flags(false, !connects[k], connects[k])
    }

    /** availableCount. */
    method AvailableCount() returns (n: nat)
      requires Valid()
      ensures n == Available(FlagsOf(conns)) == |set j | 0 <= j < poolSize && Usable(conns[j].State())|
    {
      n := 0;
      ghost var v := FlagsOf(conns);
      for i := 0 to poolSize
        invariant n == Available(v[..i])
      {
        assert v[..i + 1][..i] == v[..i];
        if conns[i].IsAvailable() { n := n + 1; }
      }
      assert v[..poolSize] == v;
      AvailableCounts(v);
      assert (set j | 0 <= j < |v| && Usable(v[j])) == set j | 0 <= j < poolSize && Usable(conns[j].State());
    }

    /** getConnection; `connects` tells which opens would succeed. */
    method GetConnection(connects: seq<bool>) returns (c: Connection?)
      requires Valid() && |connects| == poolSize
      modifies this`count, conns
      ensures Valid() && conns == old(conns)
      ensures var g := Get(old(Value()), connects);
        && Value() == g.view
        && (c == null <==> g.found == NotFound)
        && (g.found.At? ==> g.found.index < |conns| && c == conns[g.found.index])
    {
      ghost var v := FlagsOf(conns);
      var index: nat := count % poolSize;
      for i := 0 to poolSize
        invariant Valid() && conns == old(conns) && Value() == old(Value())
        invariant 0 <= index < poolSize && i <= poolSize
        invariant FindFrom(v, index, poolSize - i) == FindFrom(v, count % poolSize, poolSize)
      {
        if conns[index].IsAvailable() {
          count := count + 1;
          return conns[index];
        }
        index := (index + 1) % poolSize;
      }
      c := OpenOne(connects);
    }

    /** The slow path of getConnection. */
    method OpenOne(connects: seq<bool>) returns (c: Connection?)
      requires Valid() && |connects| == poolSize
      modifies conns
      ensures FlagsOf(conns) == OpenFrom(old(FlagsOf(conns)), connects, 0).0
      ensures var r := OpenFrom(old(FlagsOf(conns)), connects, 0).1;
        && (c == null <==> r == NotFound)
        && (r.At? ==> r.index < |conns| && c == conns[r.index])
    {
      ghost var v := FlagsOf(conns);
      for i := 0 to poolSize
        invariant OpenFrom(FlagsOf(conns), connects, i) == OpenFrom(v, connects, 0)
      {
        ghost var w := FlagsOf(conns);
        if !conns[i].isBusy {
          var ok := conns[i].Open(connects[i]);
          if ok {
            conns[i].isBusy := true;
            assert FlagsOf(conns) == w[i := w[i].(open := true, busy := true)];
            return conns[i];
          }
          conns[i].isDead := true;
          assert FlagsOf(conns) == w[i := w[i].(dead := true)];
        }
      }
      c := null;
    }

    /** release of connection `conn` at time `now`. */
    method ReleaseConnection(conn: Connection, status: bool, now: int, connects: seq<bool>, ghost i: nat)
      requires Valid() && |connects| == poolSize && i < poolSize && conns[i] == conn
      modifies this`lastChecked, conns
      ensures Valid() && conns == old(conns)
      ensures Value() == Release(old(Value()), Bounds(), i, status, now, connects)
    {
      ghost var s, v := Value(), FlagsOf(conns);
      assert s.flags == v;
      conn.isBusy := false;
      assert FlagsOf(conns) == v[i := v[i].(busy := false)];
      if status {
        conn.isDead := false;
        assert FlagsOf(conns) == Returned(v, i, status);
      } else {
        CloseAll();
      }
      ghost var w := FlagsOf(conns);
      assert w == Returned(v, i, status) == Returned(s.flags, i, status);
      var n := AvailableCount();
      assert FlagsOf(conns) == w;
      if !status || n < minSize {
        if now - lastChecked > checkInterval {
          ReopenIdle(connects);
          lastChecked := now;
          assert FlagsOf(conns) == Reopened(Returned(v, i, status), connects);
          assert Reopens(s, Bounds(), i, status, now);
          assert Value() == Release(s, Bounds(), i, status, now, connects);
          return;
        }
      }
      assert !Reopens(s, Bounds(), i, status, now);
      assert Value() == Release(s, Bounds(), i, status, now, connects);
    }

    method CloseAll()
      requires Valid()
      modifies conns
      ensures FlagsOf(conns) == Closed(old(FlagsOf(conns)))
    {
      ghost var v := FlagsOf(conns);
      for i := 0 to poolSize
        invariant forall k :: 0 <= k < i ==> conns[k].State() == Closed(v)[k]
        invariant forall k :: i <= k < poolSize ==> conns[k].State() == v[k]
      {
        conns[i].isOpen := false;
        conns[i].isDead := true;
      }
    }

    method ReopenIdle(connects: seq<bool>)
      requires Valid() && |connects| == poolSize
      modifies conns
      ensures FlagsOf(conns) == Reopened(old(FlagsOf(conns)), connects)
    {
      ghost var v := FlagsOf(conns);
      for i := 0 to poolSize
        invariant forall k :: 0 <= k < i ==> conns[k].State() == Reopened(v, connects)[k]
        invariant forall k :: i <= k < poolSize ==> conns[k].State() == v[k]
      {
        if !conns[i].isBusy {
          var ok := conns[i].Open(connects[i]);
          conns[i].isDead := !ok;
        }
      }
    }
  }

  lemma RoundsFit(size: nat, n: nat)
    requires n > 0
    ensures size / n * n <= size
    ensures size / n * n == size <==> size % n == 0
  {
    assert size == size / n * n + size % n;
  }

  lemma RoundEnd(i: nat, rounds: nat, n: nat, size: nat)
    requires i < rounds && rounds * n <= size
    ensures i * n + n <= size
  {
    assert (i + 1) * n == i * n + n;
    assert (rounds - (i + 1)) * n >= 0;
    assert rounds * n == (i + 1) * n + (rounds - (i + 1)) * n;
  }

  lemma SlotBackend(i: nat, j: nat, n: nat)
    requires n > 0 && j < n
    ensures i * n + j >= 0 && Backend(i * n + j, n) == j
  {
    assert i * n == n * i >= 0;
    ModUnique(i * n + j, n, i, j);
  }
}
