/** src/base/thread_pool.h before `stop`: a bounded queue behind one mutex and two condition
    variables. A step is what one thread does between acquiring the mutex and giving it up
    by unlocking or by waiting, so steps interleave freely. */
module ThreadPool {

  type Id = nat

  /** `called` and `taking` hold the threads inside put and take. A thread in a `Waiting` set
      sleeps on the condition variable and has not been notified; one in a `Notified` set has
      been notified and has not run since. `puts` and `taken` record the history. */
  datatype State<T> = State(
    capacity: nat,
    queue: seq<T>,
    called: map<Id, T>,
    putWaiting: set<Id>,
    putNotified: set<Id>,
    taking: set<Id>,
    getWaiting: set<Id>,
    getNotified: set<Id>,
    puts: seq<T>,
    taken: seq<(Id, T)>)

  /** `wake` is the thread notify_one picks, if any thread is waiting. Resize is
      setMaxQueueSize, which notifies nobody. */
  datatype Step<T> =
    | CallPut(p: Id, t: T)
    | TryPut(p: Id, wake: Id)
    | SpuriousPut(p: Id)
    | CallTake(w: Id)
    | TryTake(w: Id, wake: Id)
    | SpuriousTake(w: Id)
    | Resize(size: nat)

  /** isFull compares for equality only. */
  predicate IsFull<T>(s: State<T>) { |s.queue| == s.capacity }

  predicate Enabled<T>(s: State<T>, step: Step<T>) {
    match step
    case CallPut(p, t) => p !in s.called
    case TryPut(p, wake) =>
      && p in s.called && p !in s.putWaiting
      && (!IsFull(s) && s.getWaiting != {} ==> wake in s.getWaiting)
    case SpuriousPut(p) => p in s.putWaiting
    case CallTake(w) => w !in s.taking
    case TryTake(w, wake) =>
      && w in s.taking && w !in s.getWaiting
      && (s.queue != [] && s.putWaiting != {} ==> wake in s.putWaiting)
    case SpuriousTake(w) => w in s.getWaiting
    case Resize(_) => true
  }

  function Next<T>(s: State<T>, step: Step<T>): State<T>
    requires Enabled(s, step)
  {
    match step
    case CallPut(p, t) => s.(called := s.called[p := t])
    case TryPut(p, wake) =>
      var s' := s.(putNotified := s.putNotified - {p});
      if IsFull(s) then s'.(putWaiting := s.putWaiting + {p})
      else
        var s'' := s'.(queue := s.queue + [s.called[p]],
                       puts := s.puts + [s.called[p]],
                       called := s.called - {p});
        if s.getWaiting == {} then s''
        else s''.(getWaiting := s.getWaiting - {wake}, getNotified := s.getNotified + {wake})
    case SpuriousPut(p) => s.(putWaiting := s.putWaiting - {p})
    case CallTake(w) => s.(taking := s.taking + {w})
    case TryTake(w, wake) =>
      var s' := s.(getNotified := s.getNotified - {w});
      if s.queue == [] then s'.(getWaiting := s.getWaiting + {w})
      else
        var s'' := s'.(queue := s.queue[1..],
                       taken := s.taken + [(w, s.queue[0])],
                       taking := s.taking - {w});
        if s.putWaiting == {} then s''
        else s''.(putWaiting := s.putWaiting - {wake}, putNotified := s.putNotified + {wake})
    case SpuriousTake(w) => s.(getWaiting := s.getWaiting - {w})
    case Resize(n) => s.(capacity := n)
  }

  ghost predicate Initial<T>(s: State<T>) {
    && s.queue == [] && s.called == map[] && s.taking == {}
    && s.putWaiting == {} && s.putNotified == {} && s.getWaiting == {} && s.getNotified == {}
    && s.puts == [] && s.taken == []
  }

  /** Any interleaving, first state to last. */
  ghost predicate IsRun<T>(run: seq<State<T>>, steps: seq<Step<T>>) {
    && |run| == |steps| + 1
    && Initial(run[0])
    && forall i :: 0 <= i < |steps| ==> Enabled(run[i], steps[i]) && run[i + 1] == Next(run[i], steps[i])
  }

  function Tasks<T>(taken: seq<(Id, T)>): (r: seq<T>)
    ensures |r| == |taken|
    ensures forall i :: 0 <= i < |r| ==> r[i] == taken[i].1
  {
    seq(|taken|, i requires 0 <= i < |taken| => taken[i].1)
  }

  /** Sleepers are inside the call, and a thread is not both asleep and notified. */
  ghost predicate Placed<T>(s: State<T>) {
    && s.putWaiting !! s.putNotified && s.putWaiting + s.putNotified <= s.called.Keys
    && s.getWaiting !! s.getNotified && s.getWaiting + s.getNotified <= s.taking
  }

  /** While a worker sleeps un-notified there are no more tasks than notified workers. */
  ghost predicate NoLostTask<T>(s: State<T>) {
    s.getWaiting != {} ==> |s.queue| <= |s.getNotified|
  }

  /** While a producer sleeps un-notified there are no more free slots than notified producers. */
  ghost predicate NoLostSlot<T>(s: State<T>) {
    s.putWaiting != {} ==> s.capacity - |s.queue| <= |s.putNotified|
  }

  /** Nothing is lost, repeated or reordered between put and take. */
  ghost predicate Conserved<T>(s: State<T>) {
    s.puts == Tasks(s.taken) + s.queue
  }

  ghost predicate Bounded<T>(s: State<T>) { |s.queue| <= s.capacity }

  /** What no choice of sizes can break. */
  ghost predicate Solid<T>(s: State<T>) { Placed(s) && NoLostTask(s) && Conserved(s) }

  ghost predicate Inv<T>(s: State<T>) { Solid(s) && Bounded(s) && NoLostSlot(s) }

  lemma Cards(s: set<Id>, x: Id)
    ensures |s - {x}| >= |s| - 1
    ensures x !in s ==> |s + {x}| == |s| + 1
    ensures x !in s ==> |s - {x}| == |s|
  {
    if x !in s { assert s - {x} == s; }
  }

  lemma WakeNew<T>(s: State<T>, wake: Id)
    requires Placed(s)
    ensures wake in s.getWaiting ==> |s.getNotified + {wake}| == |s.getNotified| + 1
    ensures wake in s.putWaiting ==> |s.putNotified + {wake}| == |s.putNotified| + 1
  {
    Cards(s.getNotified, wake);
    Cards(s.putNotified, wake);
  }

  lemma StepPlaced<T>(s: State<T>, step: Step<T>)
    requires Placed(s) && Enabled(s, step)
    ensures Placed(Next(s, step))
  {
  }

  lemma StepKeepsTasks<T>(s: State<T>, step: Step<T>)
    requires Placed(s) && NoLostTask(s) && Enabled(s, step)
    ensures NoLostTask(Next(s, step))
  {
    if step.TryPut? {
      WakeNew(s, step.wake);
    } else if step.TryTake? {
      hide Placed;
      Cards(s.getNotified, step.w);
    }
  }

  lemma StepKeepsSlots<T>(s: State<T>, step: Step<T>)
    requires Placed(s) && NoLostSlot(s) && Enabled(s, step) && !step.Resize?
    ensures NoLostSlot(Next(s, step))
  {
    if step.TryPut? {
      hide Placed;
      Cards(s.putNotified, step.p);
    } else if step.TryTake? {
      WakeNew(s, step.wake);
    }
  }

  lemma StepConserves<T>(s: State<T>, step: Step<T>)
    requires Conserved(s) && Enabled(s, step)
    ensures Conserved(Next(s, step))
  {
    if step.TryPut? && !IsFull(s) {
      var t := s.called[step.p];
      assert s.puts + [t] == Tasks(s.taken) + (s.queue + [t]);
    }
    if step.TryTake? && s.queue != [] {
      var x := s.queue[0];
      assert Tasks(s.taken + [(step.w, x)]) == Tasks(s.taken) + [x];
      assert s.queue == [x] + s.queue[1..];
      assert s.puts == Tasks(s.taken + [(step.w, x)]) + s.queue[1..];
    }
  }

  lemma StepKeepsSolid<T>(s: State<T>, step: Step<T>)
    requires Solid(s) && Enabled(s, step)
    ensures Solid(Next(s, step))
  {
    hide Placed, NoLostTask, Conserved, Next;
    StepPlaced(s, step);
    StepKeepsTasks(s, step);
    StepConserves(s, step);
  }

  /** A new size no smaller than the queue. */
  predicate Roomy<T>(s: State<T>, step: Step<T>) {
    step.Resize? ==> step.size >= |s.queue|
  }

  /** A new size that opens no more slots to sleeping producers than are notified. */
  predicate Quiet<T>(s: State<T>, step: Step<T>) {
    step.Resize? && s.putWaiting != {} ==> step.size - |s.queue| <= |s.putNotified|
  }

  lemma StepKeepsInv<T>(s: State<T>, step: Step<T>)
    requires Solid(s) && Enabled(s, step)
    ensures Solid(Next(s, step))
    ensures Bounded(s) ==> (Bounded(Next(s, step)) <==> Roomy(s, step))
    ensures NoLostSlot(s) ==> (NoLostSlot(Next(s, step)) <==> Quiet(s, step))
    ensures !step.Resize? ==> Next(s, step).capacity == s.capacity
  {
    StepKeepsSolid(s, step);
    if !step.Resize? {
      hide Placed;
      if NoLostSlot(s) { StepKeepsSlots(s, step); }
    }
  }

  // --------------------------------------------------------------------- runs

  /** Every state of every interleaving, whatever sizes are set meanwhile: no task is lost,
      repeated or reordered, and none waits on sleeping workers alone. */
  lemma {:induction false} AlwaysSolid<T>(run: seq<State<T>>, steps: seq<Step<T>>, k: nat)
    requires IsRun(run, steps) && k <= |steps|
    ensures Solid(run[k])
  {
    if k > 0 {
      AlwaysSolid(run, steps, k - 1);
      assert run[k - 1 + 1] == Next(run[k - 1], steps[k - 1]);
      StepKeepsSolid(run[k - 1], steps[k - 1]);
    }
  }

  /** The queue stays within its size throughout a run exactly when no size set in it is
      smaller than the queue of the moment. */
  lemma {:induction false} QueueBoundedIff<T>(run: seq<State<T>>, steps: seq<Step<T>>, k: nat)
    requires IsRun(run, steps) && k <= |steps|
    ensures (forall i :: 0 <= i <= k ==> Bounded(run[i])) <==> (forall i :: 0 <= i < k ==> Roomy(run[i], steps[i]))
  {
    if k > 0 {
      var s, step := run[k - 1], steps[k - 1];
      assert run[k - 1 + 1] == Next(s, step);
      AlwaysSolid(run, steps, k - 1);
      StepKeepsInv(s, step);
      QueueBoundedIff(run, steps, k - 1);
      hide *;
      assert (forall i :: 0 <= i <= k ==> Bounded(run[i])) <==> (forall i :: 0 <= i <= k - 1 ==> Bounded(run[i])) && Bounded(run[k]);
    } else {
      assert Bounded(run[0]);
    }
  }

  /** No free slot is ever lost on sleeping producers exactly when no size set opens more slots
      to sleepers than are notified. */
  lemma {:induction false} NoSlotLostIff<T>(run: seq<State<T>>, steps: seq<Step<T>>, k: nat)
    requires IsRun(run, steps) && k <= |steps|
    ensures (forall i :: 0 <= i <= k ==> NoLostSlot(run[i])) <==> (forall i :: 0 <= i < k ==> Quiet(run[i], steps[i]))
  {
    if k > 0 {
      var s, step := run[k - 1], steps[k - 1];
      assert run[k - 1 + 1] == Next(s, step);
      AlwaysSolid(run, steps, k - 1);
      StepKeepsInv(s, step);
      NoSlotLostIff(run, steps, k - 1);
      hide *;
      assert (forall i :: 0 <= i <= k ==> NoLostSlot(run[i])) <==> (forall i :: 0 <= i <= k - 1 ==> NoLostSlot(run[i])) && NoLostSlot(run[k]);
    } else {
      assert NoLostSlot(run[0]);
    }
  }

  /** A size only ever lowered, never below the queue, is safe; so is a size never set. */
  ghost predicate OnlyShrinks<T>(run: seq<State<T>>, steps: seq<Step<T>>)
    requires |run| == |steps| + 1
  {
    forall i :: 0 <= i < |steps| && steps[i].Resize? ==> |run[i].queue| <= steps[i].size <= run[i].capacity
  }

  lemma {:induction false} EveryState<T>(run: seq<State<T>>, steps: seq<Step<T>>, k: nat)
    requires IsRun(run, steps) && k <= |steps| && OnlyShrinks(run, steps)
    ensures Inv(run[k]) && run[k].capacity <= run[0].capacity
    ensures (forall i :: 0 <= i < k ==> !steps[i].Resize?) ==> run[k].capacity == run[0].capacity
  {
    if k > 0 {
      EveryState(run, steps, k - 1);
      assert run[k - 1 + 1] == Next(run[k - 1], steps[k - 1]);
      StepKeepsInv(run[k - 1], steps[k - 1]);
    }
  }

  /** Whatever sizes are set, the i-th task run is the i-th task put, so each is run at most
      once, by one worker, and the rest are queued in order. */
  lemma Fifo<T>(run: seq<State<T>>, steps: seq<Step<T>>, k: nat)
    requires IsRun(run, steps) && k <= |steps|
    ensures var s := run[k];
      && |s.puts| == |s.taken| + |s.queue|
      && (forall i :: 0 <= i < |s.taken| ==> s.taken[i].1 == s.puts[i])
      && (forall i :: 0 <= i < |s.queue| ==> s.queue[i] == s.puts[|s.taken| + i])
  {
    AlwaysSolid(run, steps, k);
    var s := run[k];
    assert forall i :: 0 <= i < |s.taken| ==> s.puts[i] == Tasks(s.taken)[i];
  }

  // ------------------------------------------------- calls, puts and takes

  /** The tasks handed to put in these steps. */
  ghost function Called<T>(steps: seq<Step<T>>): multiset<T> {
    if steps == [] then multiset{}
    else
      var n := |steps| - 1;
      Called(steps[..n]) + if steps[n].CallPut? then multiset{steps[n].t} else multiset{}
  }

  /** The tasks of the puts still under way. */
  ghost function Pending<T>(called: map<Id, T>): multiset<T>
    decreases |called|
  {
    if called == map[] then multiset{}
    else
      var p :| p in called;
      assert |called - {p}| < |called| by { FewerCalls(called, p); }
      Pending(called - {p}) + multiset{called[p]}
  }

  lemma FewerCalls<T>(called: map<Id, T>, p: Id)
    requires p in called
    ensures |called - {p}| == |called| - 1
  {
    assert (called - {p}).Keys == called.Keys - {p};
  }

  lemma PendingPick<T>(called: map<Id, T>) returns (q: Id)
    requires called != map[]
    ensures q in called && Pending(called) == Pending(called - {q}) + multiset{called[q]}
  {
    q :| q in called && Pending(called) == Pending(called - {q}) + multiset{called[q]};
  }

  /** The order in which calls are counted does not matter. */
  lemma {:induction false} PendingLess<T>(called: map<Id, T>, p: Id)
    requires p in called
    ensures Pending(called) == Pending(called - {p}) + multiset{called[p]}
    decreases |called|
  {
    hide Pending;
    var q := PendingPick(called);
    if q != p {
      FewerCalls(called, p);
      FewerCalls(called, q);
      PendingLess(called - {q}, p);
      PendingLess(called - {p}, q);
      assert called - {q} - {p} == called - {p} - {q};
    }
  }

  lemma PendingMore<T>(called: map<Id, T>, p: Id, t: T)
    requires p !in called
    ensures Pending(called[p := t]) == Pending(called) + multiset{t}
  {
    PendingLess(called[p := t], p);
    assert called[p := t] - {p} == called;
  }

  /** A producer leaves put exactly when it runs and the queue is not at its size. Then the task
      it called with, and nothing else, goes to the end of the queue and one sleeping worker is
      notified; running on a full queue it goes to sleep. */
  lemma PutExact<T>(s: State<T>, step: Step<T>, p: Id)
    requires Enabled(s, step) && p in s.called
    ensures var u := Next(s, step);
      && (p !in u.called <==> step.TryPut? && step.p == p && |s.queue| != s.capacity)
      && (p in u.called ==> u.called[p] == s.called[p])
      && (p !in u.called ==>
            && u.called == s.called - {p}
            && u.puts == s.puts + [s.called[p]] && u.queue == s.queue + [s.called[p]]
            && u.taken == s.taken && u.taking == s.taking
            && WakesOne(s.getWaiting, s.getNotified, u.getWaiting, u.getNotified, step.wake))
      && (step.TryPut? && step.p == p && p in u.called ==>
            u == s.(putWaiting := s.putWaiting + {p}, putNotified := s.putNotified - {p}))
  {
  }

  /** notify_one: of the sleepers, if any, exactly `wake` has been notified. */
  ghost predicate WakesOne(asleep: set<Id>, notified: set<Id>, asleep': set<Id>, notified': set<Id>, wake: Id) {
    if asleep == {} then asleep' == {} && notified' == notified
    else wake in asleep && asleep' == asleep - {wake} && notified' == notified + {wake}
  }

  /** Nor does `puts` grow otherwise; a call adds the caller and its task. */
  lemma OnlyPutsPut<T>(s: State<T>, step: Step<T>)
    requires Enabled(s, step)
    ensures var u := Next(s, step);
      && (u.puts == s.puts || exists p :: p in s.called && p !in u.called)
      && (step.CallPut? ==> u == s.(called := s.called[step.p := step.t]) && step.p !in s.called)
      && (!step.CallPut? ==> u.called.Keys <= s.called.Keys)
  {
    if step.TryPut? && !IsFull(s) {
      assert step.p in s.called && step.p !in Next(s, step).called;
    }
  }

  /** A worker leaves take exactly when it runs and the queue is not empty. Then the front task
      is its own and one sleeping producer is notified; running on an empty queue it goes to
      sleep. */
  lemma TakeExact<T>(s: State<T>, step: Step<T>, w: Id)
    requires Enabled(s, step) && w in s.taking
    ensures var u := Next(s, step);
      && (w !in u.taking <==> step.TryTake? && step.w == w && s.queue != [])
      && (w !in u.taking ==>
            && u.taking == s.taking - {w}
            && u.taken == s.taken + [(w, s.queue[0])] && s.queue == [s.queue[0]] + u.queue
            && u.puts == s.puts && u.called == s.called
            && WakesOne(s.putWaiting, s.putNotified, u.putWaiting, u.putNotified, step.wake))
      && (step.TryTake? && step.w == w && w in u.taking ==>
            u == s.(getWaiting := s.getWaiting + {w}, getNotified := s.getNotified - {w}))
  {
  }

  lemma OnlyTakesTake<T>(s: State<T>, step: Step<T>)
    requires Enabled(s, step)
    ensures var u := Next(s, step);
      && (u.taken == s.taken || exists w :: w in s.taking && w !in u.taking)
      && (step.CallTake? ==> u == s.(taking := s.taking + {step.w}) && step.w !in s.taking)
      && (!step.CallTake? ==> u.taking <= s.taking)
  {
    if step.TryTake? && s.queue != [] {
      assert step.w in s.taking && step.w !in Next(s, step).taking;
    }
  }

  lemma StepAccounts<T>(s: State<T>, step: Step<T>)
    requires Enabled(s, step)
    ensures var u := Next(s, step);
      multiset(u.puts) + Pending(u.called) ==
        multiset(s.puts) + Pending(s.called) + if step.CallPut? then multiset{step.t} else multiset{}
  {
    if step.CallPut? { PendingMore(s.called, step.p, step.t); }
    if step.TryPut? && !IsFull(s) { PendingLess(s.called, step.p); }
  }

  lemma {:induction false} PutsAreCalls<T>(run: seq<State<T>>, steps: seq<Step<T>>, k: nat)
    requires IsRun(run, steps) && k <= |steps|
    ensures Called(steps[..k]) == multiset(run[k].puts) + Pending(run[k].called)
  {
    if k > 0 {
      PutsAreCalls(run, steps, k - 1);
      assert run[k - 1 + 1] == Next(run[k - 1], steps[k - 1]);
      StepAccounts(run[k - 1], steps[k - 1]);
      assert steps[..k][..k - 1] == steps[..k - 1];
    }
  }

  /** In every state of every run, whatever sizes are set, the tasks handed to put so far are
      exactly those taken, those queued and those of puts under way. */
  lemma EveryTaskAccounted<T>(run: seq<State<T>>, steps: seq<Step<T>>, k: nat)
    requires IsRun(run, steps) && k <= |steps|
    ensures var s := run[k];
      Called(steps[..k]) == multiset(Tasks(s.taken)) + multiset(s.queue) + Pending(s.called)
  {
    PutsAreCalls(run, steps, k);
    AlwaysSolid(run, steps, k);
  }

  /** A queued task never waits on a sleeping worker alone: some notified worker takes it at
      its next step. */
  lemma TaskHasTaker<T>(run: seq<State<T>>, steps: seq<Step<T>>, k: nat)
    requires IsRun(run, steps) && k <= |steps|
    requires run[k].queue != [] && run[k].getWaiting != {}
    ensures exists w, wake :: TakesFront(run[k], w, wake) && w in run[k].getNotified
  {
    AlwaysSolid(run, steps, k);
    var s := run[k];
    assert |s.getNotified| > 0;
    var w :| w in s.getNotified;
    var wake: Id :| s.putWaiting != {} ==> wake in s.putWaiting;
    assert TakesFront(s, w, wake);
  }

  ghost predicate TakesFront<T>(s: State<T>, w: Id, wake: Id) {
    && s.queue != []
    && Enabled(s, TryTake(w, wake))
    && Next(s, TryTake(w, wake)).taken == s.taken + [(w, s.queue[0])]
  }

  /** Workers and producers are never all asleep against each other. */
  lemma NoDeadlock<T>(run: seq<State<T>>, steps: seq<Step<T>>, k: nat)
    requires IsRun(run, steps) && k <= |steps| && OnlyShrinks(run, steps) && run[k].capacity > 0
    requires run[k].getWaiting != {} && run[k].putWaiting != {}
    ensures run[k].getNotified != {} || run[k].putNotified != {}
  {
    EveryState(run, steps, k);
  }

  // ------------------------------------------------------ sizes that break them

  lemma Extend<T>(run: seq<State<T>>, steps: seq<Step<T>>, step: Step<T>)
    returns (run': seq<State<T>>, steps': seq<Step<T>>)
    requires IsRun(run, steps) && Enabled(run[|steps|], step)
    ensures IsRun(run', steps') && run'[0] == run[0] && |steps'| == |steps| + 1
    ensures run'[|steps'|] == Next(run[|steps|], step)
    ensures steps' == steps + [step]
  {
    run', steps' := run + [Next(run[|steps|], step)], steps + [step];
  }

  /** One producer's whole put when the queue is not full and no worker is in take. */
  lemma PutOne<T>(run: seq<State<T>>, steps: seq<Step<T>>, t: T)
    returns (run': seq<State<T>>, steps': seq<Step<T>>)
    requires IsRun(run, steps)
    requires var s := run[|steps|]; s.called == map[] && s.putNotified == {} && s.getWaiting == {} && !IsFull(s)
    requires run[|steps|].putWaiting == {}
    ensures IsRun(run', steps') && run'[0] == run[0]
    ensures run'[|steps'|] == run[|steps|].(queue := run[|steps|].queue + [t], puts := run[|steps|].puts + [t])
  {
    var r, ss := Extend(run, steps, CallPut(0, t));
    run', steps' := Extend(r, ss, TryPut(0, 0));
    var s := run[|steps|];
    assert s.called[0 := t] - {0} == map[];
    assert s.putNotified - {0} == {};
  }

  /** A size set below the queue is never seen by the equality test again: for any n there is
      a run, on a pool of size two lowered to one, whose queue holds n tasks and no producer
      ever slept. */
  lemma {:induction false} QueueGrowsPastAnyBound<T>(t: T, n: nat)
    returns (run: seq<State<T>>, steps: seq<Step<T>>)
    requires n >= 2
    ensures IsRun(run, steps) && run[0].capacity == 2
    ensures var s := run[|steps|];
      s.capacity == 1 && |s.queue| == n && s.called == map[] && s.putNotified == {} && s.getWaiting == {} && s.putWaiting == {}
  {
    if n == 2 {
      var s0: State<T> := State(2, [], map[], {}, {}, {}, {}, {}, [], []);
      run, steps := [s0], [];
      run, steps := PutOne(run, steps, t);
      run, steps := PutOne(run, steps, t);
      run, steps := Extend(run, steps, Resize(1));
    } else {
      run, steps := QueueGrowsPastAnyBound(t, n - 1);
      run, steps := PutOne(run, steps, t);
    }
  }

  /** A size raised while a producer sleeps wakes nobody: for any n there is a run at whose end
      every producer sleeps un-notified beside n free slots. */
  lemma SleepersBesideFreeSlots<T>(t: T, n: nat)
    returns (run: seq<State<T>>, steps: seq<Step<T>>)
    ensures IsRun(run, steps) && run[0].capacity == 1
    ensures var s := run[|steps|];
      && s.capacity - |s.queue| == n
      && s.putWaiting == s.called.Keys == {0} && s.putNotified == {}
  {
    var s0: State<T> := State(1, [], map[], {}, {}, {}, {}, {}, [], []);
    run, steps := [s0], [];
    run, steps := PutOne(run, steps, t);
    run, steps := Extend(run, steps, CallPut(0, t));
    run, steps := Extend(run, steps, TryPut(0, 0));
    run, steps := Extend(run, steps, Resize(n + 1));
  }
}
