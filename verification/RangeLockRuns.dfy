/** Range locking by any number of threads: what holds at every point of every run. */
module RangeLockRuns {
  import opened Basics
  import opened RangeLock

  ghost predicate IsRun(run: seq<System>, events: seq<Event>) {
    && |run| == |events| + 1 && Initial(run[0])
    && forall i :: 0 <= i < |events| ==> Next(run[i], events[i]) == Some(run[i + 1])
  }

  lemma {:induction false} RunInv(run: seq<System>, events: seq<Event>, i: nat)
    requires IsRun(run, events) && i < |run|
    ensures Inv(run[i])
  {
    if i == 0 {
      InitialInv(run[0]);
    } else {
      RunInv(run, events, i - 1);
      assert Next(run[i - 1], events[i - 1]) == Some(run[i - 1 + 1]);
      NextInv(run[i - 1], events[i - 1]);
    }
  }

  /** Thread `t` is stopped at a blocking `lock()` on a mutex that `u` owns. */
  ghost predicate WaitsFor(s: System, t: ThreadId, u: ThreadId) {
    && t in s.threads
    && var th := s.threads[t];
       && th.phase.Locking? && Intent(th).Lock? && Intent(th).p < |th.locks|
       && th.locks[Intent(th).p] in s.owner && s.owner[th.locks[Intent(th).p]] == u
  }

  /** In every state of every run a thread about to block owns no mutex at all, at any recursion depth. */
  lemma BlocksEmptyHanded(run: seq<System>, events: seq<Event>, i: nat, t: ThreadId, m: Mutex)
    requires IsRun(run, events) && i < |run| && t in run[i].threads && Intent(run[i].threads[t]).Lock?
    ensures Held(run[i].threads[t]) == {} && !(m in run[i].owner && run[i].owner[m] == t)
  {
    RunInv(run, events, i);
    EmptyHanded(run[i], t, m);
  }

  lemma EmptyHanded(s: System, t: ThreadId, m: Mutex)
    requires Inv(s) && t in s.threads && Intent(s.threads[t]).Lock?
    ensures Held(s.threads[t]) == {} && !(m in s.owner && s.owner[m] == t)
  {
    ThreadStep(s.threads[t], true);
    assert !Holds(s.threads[t], m);
  }

  /** The owner that a thread waits for is not itself waiting, so waiting never closes a cycle. */
  lemma NoWaitChain(run: seq<System>, events: seq<Event>, i: nat, t: ThreadId, u: ThreadId, v: ThreadId)
    requires IsRun(run, events) && i < |run|
    requires WaitsFor(run[i], t, u)
    ensures t != u && u in run[i].threads && !WaitsFor(run[i], u, v)
  {
    RunInv(run, events, i);
    var s := run[i];
    var m := s.threads[t].locks[Intent(s.threads[t]).p];
    EmptyHanded(s, t, m);
    if WaitsFor(s, u, v) {
      EmptyHanded(s, u, m);
    }
  }

  /** No deadlock: while any thread is not idle, some thread can take a step. */
  lemma RunProgress(run: seq<System>, events: seq<Event>, i: nat, t: ThreadId) returns (u: ThreadId)
    requires IsRun(run, events) && i < |run| && t in run[i].threads && !run[i].threads[t].phase.Idle?
    ensures Next(run[i], Run(u, true)).Some?
  {
    RunInv(run, events, i);
    var s := run[i];
    var th := s.threads[t];
    HeldInRange(th);
    u := t;
    if Intent(th).Lock? && th.locks[Intent(th).p] in s.owner {
      u := s.owner[th.locks[Intent(th).p]];
      assert WaitsFor(s, t, u);
      OwnerRuns(s, t, u);
    }
  }

  lemma OwnerRuns(s: System, t: ThreadId, u: ThreadId)
    requires Inv(s) && WaitsFor(s, t, u)
    ensures Next(s, Run(u, true)).Some?
  {
    var m := s.threads[t].locks[Intent(s.threads[t]).p];
    assert Holds(s.threads[u], m);
    HeldInRange(s.threads[u]);
    if Intent(s.threads[u]).Lock? {
      EmptyHanded(s, u, m);
    }
  }

  /** When `LockRange` has returned, the thread owns exactly the mutexes of its range. */
  lemma ReturnedHoldsAll(run: seq<System>, events: seq<Event>, i: nat, t: ThreadId, m: Mutex)
    requires IsRun(run, events) && i < |run| && t in run[i].threads && run[i].threads[t].phase.Holding?
    ensures m in run[i].threads[t].locks <==> m in run[i].owner && run[i].owner[m] == t
  {
    RunInv(run, events, i);
    var th := run[i].threads[t];
    assert Held(th) == Interval(0, |th.locks|);
    assert Holds(th, m) <==> m in th.locks;
  }

  /** The frame is at the end of a back-off, and position `p` is in the range it failed to lock. */
  predicate BackedOff(f: Frame, p: nat) {
    || (f.pc.BackRest? && f.pc.i == f.next && p >= f.next)
    || (f.pc.BackMiddle? && f.pc.i == f.begin + 1 && f.begin < p < f.next)
  }

  /**
   A failed `TryLockRange` owns none of its range: when the back-off of the tail is over, no mutex from `next`
   on is owned by the thread, and when that of the middle is over, none strictly between `begin` and `next`.
   */
  lemma FailedTryHoldsNothing(run: seq<System>, events: seq<Event>, i: nat, t: ThreadId, p: nat)
    requires IsRun(run, events) && i < |run| && t in run[i].threads && run[i].threads[t].phase.Locking?
    requires p < |run[i].threads[t].locks|
    requires run[i].threads[t].phase.stack != [] && BackedOff(run[i].threads[t].phase.stack[|run[i].threads[t].phase.stack| - 1], p)
    ensures var m := run[i].threads[t].locks[p]; !(m in run[i].owner && run[i].owner[m] == t)
  {
    RunInv(run, events, i);
    var th := run[i].threads[t];
    var f := th.phase.stack[|th.phase.stack| - 1];
    assert Interval(f.next, f.next) == {} && Interval(f.begin + 1, f.begin + 1) == {};
    assert p !in Held(th);
    assert Holds(th, th.locks[p]) <==> th.locks[p] in run[i].owner && run[i].owner[th.locks[p]] == t;
  }

  /** In every state of a run the recursion through guards is no deeper than the range is long. */
  lemma DepthBounded(run: seq<System>, events: seq<Event>, i: nat, t: ThreadId)
    requires IsRun(run, events) && i < |run| && t in run[i].threads && run[i].threads[t].phase.Locking?
    ensures |run[i].threads[t].phase.stack| <= |run[i].threads[t].locks|
  {
    RunInv(run, events, i);
    var th := run[i].threads[t];
    BeginsGrow(th.phase.stack, |th.locks|, |th.phase.stack| - 1);
  }

  /** A guard inside a frame starts further right than the frame. */
  lemma {:induction false} BeginsGrow(stack: seq<Frame>, end: nat, j: nat)
    requires StackOk(stack, end) && j < |stack|
    ensures j <= stack[j].begin < end
  {
    if j > 0 {
      BeginsGrow(stack, end, j - 1);
      assert stack[j - 1 + 1].begin == stack[j - 1].next;
    }
  }
}
