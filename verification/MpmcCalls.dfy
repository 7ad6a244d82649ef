/** What one call by one of many threads does, from its start to its return, in any interleaving. */
module MpmcCalls {
  import opened Basics
  import opened SpscQueue
  import opened MpmcQueue
  import opened SpscCalls

  function PlaceOf<T>(m: Shared<T>, t: ThreadId): Place<T> {
    if t in m.threads then m.threads[t].place else Outside
  }

  /** The call that thread `t` begins with `calls[i]` returns with state `j`. */
  ghost predicate Returns<T>(run: seq<Shared<T>>, calls: seq<Call<T>>, cap: nat, t: ThreadId, i: nat, j: nat) {
    && IsSharedRun(run, calls, cap) && i < j < |run|
    && PlaceOf(run[j], t) == Outside && forall l :: i < l < j ==> PlaceOf(run[l], t) != Outside
  }

  /** A step of thread `t`, which may wake another. */
  predicate StepOf<T>(e: Call<T>, t: ThreadId) {
    e.Step? && e.t == t
  }

  /** Thread `t` stays where it is, unless it sleeps and is woken. */
  ghost predicate Stays<T>(m: Shared<T>, m': Shared<T>, t: ThreadId) {
    && t in m.threads && t in m'.threads
    && (m'.threads[t].place == m.threads[t].place || Wakes(m.threads[t].place, m'.threads[t].place))
  }

  lemma OthersPush<T>(m: Shared<T>, u: ThreadId, p: ProducerPc<T>, woken: Option<ThreadId>, cap: nat, t: ThreadId)
    requires |m.data| == cap > 0 && t in m.threads && u in m.threads && t != u && PushStep(m, u, p, woken, cap).Some?
    ensures Stays(m, PushStep(m, u, p, woken, cap).value, t)
  {
    hide Sub;
  }

  lemma OthersPop<T>(m: Shared<T>, u: ThreadId, c: ConsumerPc<T>, woken: Option<ThreadId>, cap: nat, t: ThreadId)
    requires |m.data| == cap > 0 && t in m.threads && u in m.threads && t != u && PopStep(m, u, c, woken, cap).Some?
    ensures Stays(m, PopStep(m, u, c, woken, cap).value, t)
  {
  }

  /** The other threads only wake this one, and the history only grows. */
  lemma OthersStep<T>(m: Shared<T>, e: Call<T>, m': Shared<T>, cap: nat, t: ThreadId)
    requires |m.data| == cap > 0 && Next(m, e, cap) == Some(m') && t in m.threads && e.t != t
    ensures Stays(m, m', t) && m'.threads[t].sent == m.threads[t].sent && m'.threads[t].got == m.threads[t].got
    ensures m.popped <= m'.popped && m.poppedBy <= m'.poppedBy && m.pushed <= m'.pushed && m.pushedBy <= m'.pushedBy
  {
    NextGrows(m, e, cap);
    hide PushStep, PopStep, Wakes;
    var place := m.threads[e.t].place;
    if e.Step? && place.Pushing? {
      OthersPush(m, e.t, place.p, e.woken, cap, t);
    } else if e.Step? && place.Popping? {
      OthersPop(m, e.t, place.c, e.woken, cap, t);
    }
  }

  ghost predicate Wakes<T>(place: Place<T>, place': Place<T>) {
    || (place.Popping? && place.c.CSleep? && place' == Popping(Woken(place.c)))
    || (place.Pushing? && place.p.PSleep? && place' == Pushing(WokenProducer(place.p)))
  }

  // ----- Pop

  /** Since `lo` values had been popped, thread `t` has got exactly one more, in its place in the order. */
  ghost predicate Took<T>(m: Shared<T>, t: ThreadId, lo: nat, before: seq<T>)
    requires t in m.threads
  {
    exists n :: lo <= n < |m.popped| && n < |m.poppedBy| && m.poppedBy[n] == t && m.threads[t].got == before + [m.popped[n]]
  }

  ghost predicate TookNothing<T>(m: Shared<T>, t: ThreadId, before: seq<T>)
    requires t in m.threads
  {
    m.threads[t].got == before
  }

  ghost predicate PopPlace<T>(m: Shared<T>, t: ThreadId, mode: PopMode, lo: nat, before: seq<T>, stopped: bool, found: Option<bool>)
    requires t in m.threads
  {
    match m.threads[t].place
    case WaitRead(pop) => pop == mode && TookNothing(m, t, before) && !stopped && found == None
    case EnteredPop(pop) => pop == mode && TookNothing(m, t, before) && !stopped && found == None
    case Popping(c) =>
      if c.CIdle? then
        && (mode == TryPop <==> found.Some?) && (mode == WaitPop ==> !stopped) && (mode == TryPop ==> !stopped)
        && if found == Some(false) || stopped then TookNothing(m, t, before) else Took(m, t, lo, before)
      else if c.CNotifyLock? || c.CNotify? || c.CNotifyUnlock? then
        Took(m, t, lo, before) && !stopped && GoesOn(mode, found)
      else
        TookNothing(m, t, before) && PopPhase(c, mode, before, before, stopped, found)
    case _ => false
  }

  /** What a try finds out if this is the call with which it looks. */
  ghost function FindsValue<T>(m: Shared<T>, e: Call<T>, t: ThreadId, found: Option<bool>): Option<bool>
    requires t in m.threads
  {
    if PopLooks(m, e, t) then Some(|m.popped| < |m.pushed|) else found
  }

  ghost predicate PopLooks<T>(m: Shared<T>, e: Call<T>, t: ThreadId)
    requires t in m.threads
  {
    StepOf(e, t) && m.threads[t].place.Popping? && m.threads[t].place.c.CTry?
  }

  lemma PopOthers<T>(m: Shared<T>, e: Call<T>, m': Shared<T>, cap: nat, t: ThreadId, mode: PopMode, lo: nat, before: seq<T>,
                     stopped: bool, found: Option<bool>)
    requires |m.data| == cap > 0 && Next(m, e, cap) == Some(m') && t in m.threads && e.t != t
    requires PopPlace(m, t, mode, lo, before, stopped, found)
    ensures t in m'.threads && PopPlace(m', t, mode, lo, before, stopped, found)
  {
    OthersStep(m, e, m', cap, t);
    hide Next;
    if Took(m, t, lo, before) {
      var n :| lo <= n < |m.popped| && n < |m.poppedBy| && m.poppedBy[n] == t && m.threads[t].got == before + [m.popped[n]];
      assert m'.popped[n] == m.popped[n] && m'.poppedBy[n] == t;
      assert Took(m', t, lo, before);
    }
  }

  /** The reading thread's copy of the index is current, and its comparison is exact. */
  lemma PopIndex<T>(m: Shared<T>, cap: nat, t: ThreadId)
    requires CapacityOk(cap) && SharedInv(m, cap) && t in m.threads && m.threads[t].place.Popping?
    ensures var c := m.threads[t].place.c;
            HasReadIndex(c) ==> (c.ri == m.writeIndex <==> |m.popped| == |m.pushed|)
    ensures |m.popped| <= |m.pushed| && |m.popped| == |m.poppedBy|
  {
    TheConsumer(m, t);
    ChecksAreExact(Inside(m), cap);
  }

  /** A step inside the inner `Pop`. */
  lemma PopInside<T>(m: Shared<T>, t: ThreadId, c: ConsumerPc<T>, woken: Option<ThreadId>, m': Shared<T>, cap: nat, mode: PopMode,
                     lo: nat, before: seq<T>, stopped: bool, found: Option<bool>)
    requires |m.data| == cap > 0 && t in m.threads && m.threads[t].place == Popping(c) && !c.CIdle? && !c.CNotify?
    requires PopStep(m, t, c, woken, cap) == Some(m')
    requires HasReadIndex(c) ==> (c.ri == m.writeIndex <==> |m.popped| == |m.pushed|)
    requires |m.popped| <= |m.pushed| && |m.popped| == |m.poppedBy| && lo <= |m.popped|
    requires PopPlace(m, t, mode, lo, before, stopped, found)
    ensures PopPlace(m', t, mode, lo, before, stopped, if c.CTry? then Some(|m.popped| < |m.pushed|) else found)
  {
    if c.CIncrement? {
      assert m'.popped[|m.popped|] == c.v && m'.poppedBy[|m.popped|] == t;
    } else {
      SameHistory(m, m', t, lo, before);
    }
    hide NotifyProducer;
  }

  lemma SameHistory<T>(m: Shared<T>, m': Shared<T>, t: ThreadId, lo: nat, before: seq<T>)
    requires t in m.threads && t in m'.threads && m'.threads[t].got == m.threads[t].got
    requires m'.popped == m.popped && m'.poppedBy == m.poppedBy
    ensures Took(m', t, lo, before) <==> Took(m, t, lo, before)
  {
  }

  lemma PopNotifies<T>(m: Shared<T>, t: ThreadId, woken: Option<ThreadId>, m': Shared<T>, cap: nat, mode: PopMode,
                       lo: nat, before: seq<T>, stopped: bool, found: Option<bool>)
    requires |m.data| == cap > 0 && t in m.threads && m.threads[t].place == Popping(CNotify)
    requires PopStep(m, t, CNotify, woken, cap) == Some(m')
    requires PopPlace(m, t, mode, lo, before, stopped, found)
    ensures t in m'.threads && PopPlace(m', t, mode, lo, before, stopped, found)
  {
    assert m'.threads[t] == m.threads[t].(place := Popping(CNotifyUnlock));
    SameHistory(m, m', t, lo, before);
    hide NotifyProducer, PopStep, PopPhase;
  }

  /** Steps of the thread outside the inner `Pop`, a spurious wake-up, and a stop request. */
  lemma PopAround<T>(m: Shared<T>, e: Call<T>, m': Shared<T>, cap: nat, t: ThreadId, mode: PopMode, lo: nat, before: seq<T>,
                     stopped: bool, found: Option<bool>)
    requires |m.data| == cap > 0 && Next(m, e, cap) == Some(m') && t in m.threads && e.t == t
    requires PopPlace(m, t, mode, lo, before, stopped, found)
    requires !e.Step? || !m.threads[t].place.Popping?
    ensures t in m'.threads && m'.threads[t].place != Outside
    ensures PopPlace(m', t, mode, lo, before, stopped || e == Call<T>.Stop(t), found)
  {
    hide PushStep, PopStep;
    SameHistory(m, m', t, lo, before);
  }

  /** The thread's own step keeps track, and it returns only from the end of the inner `Pop`. */
  lemma PopOwn<T>(m: Shared<T>, e: Call<T>, m': Shared<T>, cap: nat, t: ThreadId, mode: PopMode, lo: nat, before: seq<T>,
                  stopped: bool, found: Option<bool>)
    requires CapacityOk(cap) && SharedInv(m, cap) && Next(m, e, cap) == Some(m') && t in m.threads && e.t == t
    requires PopPlace(m, t, mode, lo, before, stopped, found) && lo <= |m.popped|
    ensures t in m'.threads
    ensures m'.threads[t].place != Outside ==>
              PopPlace(m', t, mode, lo, before, stopped || e == Call<T>.Stop(t), FindsValue(m, e, t, found))
    ensures m'.threads[t].place == Outside ==>
              e.Step? && m.threads[t].place == Popping(CIdle) && PopPlace(m, t, mode, lo, before, stopped, found)
              && m'.threads[t].got == m.threads[t].got && m'.popped == m.popped && m'.poppedBy == m.poppedBy
  {
    assert |m.data| == cap > 0;
    if e.Step? && m.threads[t].place.Popping? {
      PopIndex(m, cap, t);
      hide SharedInv, CapacityOk, PopPlace;
      var c := m.threads[t].place.c;
      assert PopStep(m, t, c, e.woken, cap) == Some(m');
      if c.CIdle? {
      } else if c.CNotify? {
        hide PopStep;
        PopNotifies(m, t, e.woken, m', cap, mode, lo, before, stopped, found);
      } else {
        PopInside(m, t, c, e.woken, m', cap, mode, lo, before, stopped, found);
        InsideStays(m, t, c, e.woken, m', cap);
      }
    } else {
      hide SharedInv, CapacityOk, PopPlace, PopStep, PushStep, Next;
      PopAround(m, e, m', cap, t, mode, lo, before, stopped, found);
    }
  }

  lemma InsideStays<T>(m: Shared<T>, t: ThreadId, c: ConsumerPc<T>, woken: Option<ThreadId>, m': Shared<T>, cap: nat)
    requires |m.data| == cap > 0 && t in m.threads && !c.CIdle? && !c.CNotify? && PopStep(m, t, c, woken, cap) == Some(m')
    ensures t in m'.threads && m'.threads[t].place.Popping?
  {
    hide NotifyProducer;
  }

  ghost function Found<T>(run: seq<Shared<T>>, look: Option<nat>): Option<bool>
    requires look.Some? ==> look.value < |run|
  {
    if look == None then None else Some(|run[look.value].popped| < |run[look.value].pushed|)
  }

  /** Up to its return the call is at one of those places; `look` is when a try has looked. */
  lemma {:induction false} PopPlaces<T>(run: seq<Shared<T>>, calls: seq<Call<T>>, cap: nat, t: ThreadId, i: nat, k: nat, mode: PopMode)
    returns (look: Option<nat>)
    requires CapacityOk(cap) && IsSharedRun(run, calls, cap) && i < k < |run| && calls[i] == Call<T>.CallPop(t, mode)
    requires forall l :: i < l <= k ==> PlaceOf(run[l], t) != Outside
    ensures t in run[i].threads && t in run[k].threads && |run[i].popped| <= |run[k].popped|
    ensures look.Some? ==> i < look.value < k && t in run[look.value].threads && PopLooks(run[look.value], calls[look.value], t)
    ensures PopPlace(run[k], t, mode, |run[i].popped|, run[i].threads[t].got, Call<T>.Stop(t) in calls[i + 1..k], Found(run, look))
  {
    hide InitShared, SharedInv, PopPlace, PopStep, PushStep, ThreadStep;
    var m, e := run[k - 1], calls[k - 1];
    SharedRunInv(run, calls, cap, k - 1);
    assert Next(m, e, cap) == Some(run[k - 1 + 1]);
    if k == i + 1 {
      look := None;
      PopStarts(m, run[k], cap, t, mode);
    } else {
      look := PopPlaces(run, calls, cap, t, i, k - 1, mode);
      var lo, before, found := |run[i].popped|, run[i].threads[t].got, Found(run, look);
      assert calls[i + 1..k] == calls[i + 1..k - 1] + [e];
      NextHistory(m, e, run[k], cap);
      hide Next;
      if e.t == t {
        PopOwn(m, e, run[k], cap, t, mode, lo, before, Call<T>.Stop(t) in calls[i + 1..k - 1], found);
        if PopLooks(m, e, t) { look := Some(k - 1); }
      } else {
        SharedFacts(m, cap);
        PopOthers(m, e, run[k], cap, t, mode, lo, before, Call<T>.Stop(t) in calls[i + 1..k - 1], found);
      }
    }
  }

  lemma NextHistory<T>(m: Shared<T>, e: Call<T>, m': Shared<T>, cap: nat)
    requires |m.data| == cap > 0 && Next(m, e, cap) == Some(m')
    ensures m'.threads.Keys == m.threads.Keys && m.popped <= m'.popped && m.pushed <= m'.pushed
  {
    NextGrows(m, e, cap);
    hide Next;
  }

  lemma PopStarts<T>(m: Shared<T>, m': Shared<T>, cap: nat, t: ThreadId, mode: PopMode)
    requires |m.data| == cap > 0 && Next(m, Call<T>.CallPop(t, mode), cap) == Some(m')
    ensures t in m.threads && t in m'.threads && m'.popped == m.popped
    ensures PopPlace(m', t, mode, |m.popped|, m.threads[t].got, false, None)
  {
  }

  /** What thread `t` has got from state `i` to `j`: nothing, or one value, in its place in the order of the queue. */
  ghost predicate Gets<T>(run: seq<Shared<T>>, t: ThreadId, i: nat, j: nat, taken: bool) {
    && i < j < |run| && t in run[i].threads && t in run[j].threads
    && if taken then
         exists n :: |run[i].popped| <= n < |run[j].popped| && GotAs(run[j], t, n, run[i].threads[t].got)
       else run[j].threads[t].got == run[i].threads[t].got
  }

  /** The thread has got one value beyond `before`, the `n`-th that was pushed. */
  ghost predicate GotAs<T>(m: Shared<T>, t: ThreadId, n: nat, before: seq<T>)
    requires t in m.threads
  {
    && n < |m.popped| && n < |m.pushed| && n < |m.poppedBy| && m.poppedBy[n] == t
    && m.threads[t].got == before + [m.pushed[n]] && m.popped[n] == m.pushed[n]
  }

  lemma PopGets<T>(run: seq<Shared<T>>, calls: seq<Call<T>>, cap: nat, t: ThreadId, i: nat, j: nat, mode: PopMode) returns (look: Option<nat>)
    requires CapacityOk(cap) && Returns(run, calls, cap, t, i, j) && calls[i] == Call<T>.CallPop(t, mode)
    ensures look.Some? ==> i < look.value < j && t in run[look.value].threads && PopLooks(run[look.value], calls[look.value], t)
    ensures look.Some? <==> mode == TryPop
    ensures Gets(run, t, i, j, if mode == TryPop then |run[look.value].popped| < |run[look.value].pushed|
                               else Call<T>.Stop(t) !in calls[i + 1..j])
    ensures mode == WaitPop ==> Call<T>.Stop(t) !in calls[i + 1..j]
  {
    hide InitShared, SharedInv, PopStep, PushStep, ThreadStep;
    NotAtOnce(run, calls, cap, t, i, j);
    var m, e := run[j - 1], calls[j - 1];
    SharedRunInv(run, calls, cap, j - 1);
    assert Next(m, e, cap) == Some(run[j - 1 + 1]);
    look := PopPlaces(run, calls, cap, t, i, j - 1, mode);
    SharedFacts(m, cap);
    LeavesItself(m, e, run[j], cap, t);
    SharedRunSafe(run, calls, cap, j);
    hide Next;
    var lo, before, stopped := |run[i].popped|, run[i].threads[t].got, Call<T>.Stop(t) in calls[i + 1..j - 1];
    assert calls[i + 1..j] == calls[i + 1..j - 1] + [e];
    PopOwn(m, e, run[j], cap, t, mode, lo, before, stopped, Found(run, look));
    TookAs(m, run[j], t, lo, before);
  }

  /** A call takes more than the step with which it begins. */
  lemma NotAtOnce<T>(run: seq<Shared<T>>, calls: seq<Call<T>>, cap: nat, t: ThreadId, i: nat, j: nat)
    requires Returns(run, calls, cap, t, i, j) && (calls[i].CallPop? || calls[i].CallPush?) && calls[i].t == t
    ensures j > i + 1
  {
    assert Next(run[i], calls[i], cap) == Some(run[i + 1]);
    hide ThreadStep;
  }

  /** A thread only leaves by its own step. */
  lemma LeavesItself<T>(m: Shared<T>, e: Call<T>, m': Shared<T>, cap: nat, t: ThreadId)
    requires |m.data| == cap > 0 && Next(m, e, cap) == Some(m') && PlaceOf(m, t) != Outside && PlaceOf(m', t) == Outside
    ensures e.t == t
  {
    if e.t != t { OthersStep(m, e, m', cap, t); }
    hide Next;
  }

  lemma TookAs<T>(m: Shared<T>, m': Shared<T>, t: ThreadId, lo: nat, before: seq<T>)
    requires t in m.threads && t in m'.threads && m'.threads[t].got == m.threads[t].got
    requires m'.popped == m.popped && m'.poppedBy == m.poppedBy && m'.popped <= m'.pushed
    ensures Took(m, t, lo, before) ==> exists n :: lo <= n < |m'.popped| && GotAs(m', t, n, before)
  {
    if Took(m, t, lo, before) {
      var n :| lo <= n < |m.popped| && n < |m.poppedBy| && m.poppedBy[n] == t && m.threads[t].got == before + [m.popped[n]];
      assert GotAs(m', t, n, before);
    }
  }

  /** `PopWait`: a thread that returns has got one value of the queue. */
  lemma SharedPopWaitDelivers<T>(run: seq<Shared<T>>, calls: seq<Call<T>>, cap: nat, t: ThreadId, i: nat, j: nat)
    requires CapacityOk(cap) && Returns(run, calls, cap, t, i, j) && calls[i] == Call<T>.CallPop(t, WaitPop)
    ensures Gets(run, t, i, j, true)
  {
    hide Returns, Gets;
    var look := PopGets(run, calls, cap, t, i, j, WaitPop);
  }

  /** `TryPop`: it has got one if and only if the queue was not empty when it looked. */
  lemma SharedTryPopExact<T>(run: seq<Shared<T>>, calls: seq<Call<T>>, cap: nat, t: ThreadId, i: nat, j: nat) returns (look: nat)
    requires CapacityOk(cap) && Returns(run, calls, cap, t, i, j) && calls[i] == Call<T>.CallPop(t, TryPop)
    ensures i < look < j < |run| && t in run[look].threads && look < |calls| && PopLooks(run[look], calls[look], t)
    ensures Gets(run, t, i, j, |run[look].popped| < |run[look].pushed|)
  {
    hide Gets;
    var l := PopGets(run, calls, cap, t, i, j, TryPop);
    look := l.value;
  }

  /** `PopWait` with a stop token: if and only if it has not seen a stop request. */
  lemma SharedStopPopExact<T>(run: seq<Shared<T>>, calls: seq<Call<T>>, cap: nat, t: ThreadId, i: nat, j: nat)
    requires CapacityOk(cap) && Returns(run, calls, cap, t, i, j) && calls[i] == Call<T>.CallPop(t, StopPop)
    ensures Gets(run, t, i, j, Call<T>.Stop(t) !in calls[i + 1..j])
  {
    hide Gets;
    var look := PopGets(run, calls, cap, t, i, j, StopPop);
  }

  // ----- Emplace

  /** Since `lo` values had been pushed, thread `t` has sent exactly `v`. */
  ghost predicate Sent<T>(m: Shared<T>, t: ThreadId, lo: nat, before: seq<T>, v: T)
    requires t in m.threads
  {
    m.threads[t].sent == before + [v] && exists n :: lo <= n < |m.pushed| && SentAs(m, t, n, v)
  }

  ghost predicate SentAs<T>(m: Shared<T>, t: ThreadId, n: nat, v: T) {
    n < |m.pushed| && n < |m.pushedBy| && m.pushedBy[n] == t && m.pushed[n] == v
  }

  ghost predicate PushPlace<T>(m: Shared<T>, t: ThreadId, v: T, mode: PushMode, lo: nat, before: seq<T>, found: Option<bool>)
    requires t in m.threads
  {
    match m.threads[t].place
    case WaitWrite(x, push) => x == v && push == mode && m.threads[t].sent == before && found == None
    case EnteredPush(x, push) => x == v && push == mode && m.threads[t].sent == before && found == None
    case Pushing(p) =>
      if p.PIdle? then
        (mode == TryPush <==> found.Some?) && if found == Some(false) then m.threads[t].sent == before else Sent(m, t, lo, before, v)
      else if p.PNotifyLock? || p.PNotify? || p.PNotifyUnlock? then
        Sent(m, t, lo, before, v) && PushGoesOn(mode, found)
      else
        m.threads[t].sent == before && PushPhase(p, v, mode, before, before, found)
    case _ => false
  }

  ghost predicate PushLooks<T>(m: Shared<T>, e: Call<T>, t: ThreadId)
    requires t in m.threads
  {
    StepOf(e, t) && m.threads[t].place.Pushing? && m.threads[t].place.p.PTry?
  }

  ghost function FoundRoom<T>(run: seq<Shared<T>>, look: Option<nat>, cap: nat): Option<bool>
    requires look.Some? ==> look.value < |run|
  {
    if look == None then None else Some(|run[look.value].pushed| - |run[look.value].popped| < cap)
  }

  lemma PushOthers<T>(m: Shared<T>, e: Call<T>, m': Shared<T>, cap: nat, t: ThreadId, v: T, mode: PushMode, lo: nat, before: seq<T>,
                      found: Option<bool>)
    requires |m.data| == cap > 0 && Next(m, e, cap) == Some(m') && t in m.threads && e.t != t
    requires PushPlace(m, t, v, mode, lo, before, found)
    ensures t in m'.threads && PushPlace(m', t, v, mode, lo, before, found)
  {
    OthersStep(m, e, m', cap, t);
    hide Next;
    if Sent(m, t, lo, before, v) {
      var n :| lo <= n < |m.pushed| && SentAs(m, t, n, v);
      assert m'.pushed[n] == v && m'.pushedBy[n] == t;
      assert SentAs(m', t, n, v);
    }
  }

  lemma PushIndex<T>(m: Shared<T>, cap: nat, t: ThreadId)
    requires CapacityOk(cap) && SharedInv(m, cap) && t in m.threads && m.threads[t].place.Pushing?
    ensures var p := m.threads[t].place.p;
            HasIndex(p) ==> Sub(p.wi, m.readIndex) == |m.pushed| - |m.popped|
    ensures |m.pushed| - |m.popped| <= cap && |m.pushed| == |m.pushedBy|
  {
    TheProducer(m, t);
    ChecksAreExact(Inside(m), cap);
    hide Sub;
  }

  lemma SamePushes<T>(m: Shared<T>, m': Shared<T>, t: ThreadId, lo: nat, before: seq<T>, v: T)
    requires t in m.threads && t in m'.threads && m'.threads[t].sent == m.threads[t].sent
    requires m'.pushed == m.pushed && m'.pushedBy == m.pushedBy
    ensures Sent(m', t, lo, before, v) <==> Sent(m, t, lo, before, v)
  {
    if Sent(m, t, lo, before, v) {
      var n :| lo <= n < |m.pushed| && SentAs(m, t, n, v);
      assert SentAs(m', t, n, v);
    }
    if Sent(m', t, lo, before, v) {
      var n :| lo <= n < |m.pushed| && SentAs(m', t, n, v);
      assert SentAs(m, t, n, v);
    }
  }

  /** A step inside the inner `Emplace`. */
  lemma PushInside<T>(m: Shared<T>, t: ThreadId, p: ProducerPc<T>, woken: Option<ThreadId>, m': Shared<T>, cap: nat, v: T,
                      mode: PushMode, lo: nat, before: seq<T>, found: Option<bool>)
    requires |m.data| == cap > 0 && t in m.threads && m.threads[t].place == Pushing(p) && !p.PIdle? && !p.PNotify?
    requires PushStep(m, t, p, woken, cap) == Some(m')
    requires HasIndex(p) ==> Sub(p.wi, m.readIndex) == |m.pushed| - |m.popped|
    requires |m.pushed| - |m.popped| <= cap && |m.pushed| == |m.pushedBy| && lo <= |m.pushed|
    requires PushPlace(m, t, v, mode, lo, before, found)
    ensures t in m'.threads && m'.threads[t].place.Pushing?
    ensures PushPlace(m', t, v, mode, lo, before, if p.PTry? then Some(|m.pushed| - |m.popped| < cap) else found)
  {
    if p.PIncrement? {
      assert SentAs(m', t, |m.pushed|, v);
    } else {
      SamePushes(m, m', t, lo, before, v);
    }
    hide NotifyConsumer, Sub;
  }

  lemma PushNotifies<T>(m: Shared<T>, t: ThreadId, woken: Option<ThreadId>, m': Shared<T>, cap: nat, v: T, mode: PushMode,
                        lo: nat, before: seq<T>, found: Option<bool>)
    requires |m.data| == cap > 0 && t in m.threads && m.threads[t].place == Pushing(PNotify)
    requires PushStep(m, t, PNotify, woken, cap) == Some(m')
    requires PushPlace(m, t, v, mode, lo, before, found)
    ensures t in m'.threads && PushPlace(m', t, v, mode, lo, before, found)
  {
    assert m'.threads[t] == m.threads[t].(place := Pushing(PNotifyUnlock));
    SamePushes(m, m', t, lo, before, v);
    hide NotifyConsumer, PushStep, PushPhase;
  }

  lemma PushAround<T>(m: Shared<T>, e: Call<T>, m': Shared<T>, cap: nat, t: ThreadId, v: T, mode: PushMode, lo: nat, before: seq<T>,
                      found: Option<bool>)
    requires |m.data| == cap > 0 && Next(m, e, cap) == Some(m') && t in m.threads && e.t == t
    requires PushPlace(m, t, v, mode, lo, before, found)
    requires !e.Step? || !m.threads[t].place.Pushing?
    ensures t in m'.threads && m'.threads[t].place != Outside
    ensures PushPlace(m', t, v, mode, lo, before, found)
  {
    hide PushStep, PopStep;
    SamePushes(m, m', t, lo, before, v);
  }

  lemma PushOwn<T>(m: Shared<T>, e: Call<T>, m': Shared<T>, cap: nat, t: ThreadId, v: T, mode: PushMode, lo: nat, before: seq<T>,
                   found: Option<bool>)
    requires CapacityOk(cap) && SharedInv(m, cap) && Next(m, e, cap) == Some(m') && t in m.threads && e.t == t
    requires PushPlace(m, t, v, mode, lo, before, found) && lo <= |m.pushed|
    ensures t in m'.threads
    ensures m'.threads[t].place != Outside ==>
              PushPlace(m', t, v, mode, lo, before, if PushLooks(m, e, t) then Some(|m.pushed| - |m.popped| < cap) else found)
    ensures m'.threads[t].place == Outside ==>
              e.Step? && m.threads[t].place == Pushing(PIdle) && PushPlace(m, t, v, mode, lo, before, found)
              && m'.threads[t].sent == m.threads[t].sent && m'.pushed == m.pushed && m'.pushedBy == m.pushedBy
  {
    assert |m.data| == cap > 0;
    if e.Step? && m.threads[t].place.Pushing? {
      PushIndex(m, cap, t);
      hide SharedInv, CapacityOk, PushPlace, Sub;
      var p := m.threads[t].place.p;
      assert PushStep(m, t, p, e.woken, cap) == Some(m');
      if p.PIdle? {
      } else if p.PNotify? {
        hide PushStep;
        PushNotifies(m, t, e.woken, m', cap, v, mode, lo, before, found);
      } else {
        hide PushStep;
        PushInside(m, t, p, e.woken, m', cap, v, mode, lo, before, found);
      }
    } else {
      hide SharedInv, CapacityOk, PushPlace, PopStep, PushStep, Next;
      PushAround(m, e, m', cap, t, v, mode, lo, before, found);
    }
  }

  lemma {:induction false} PushPlaces<T>(run: seq<Shared<T>>, calls: seq<Call<T>>, cap: nat, t: ThreadId, i: nat, k: nat, v: T, mode: PushMode)
    returns (look: Option<nat>)
    requires CapacityOk(cap) && IsSharedRun(run, calls, cap) && i < k < |run| && calls[i] == Call<T>.CallPush(t, v, mode)
    requires forall l :: i < l <= k ==> PlaceOf(run[l], t) != Outside
    ensures t in run[i].threads && t in run[k].threads && |run[i].pushed| <= |run[k].pushed|
    ensures look.Some? ==> i < look.value < k && t in run[look.value].threads && PushLooks(run[look.value], calls[look.value], t)
    ensures PushPlace(run[k], t, v, mode, |run[i].pushed|, run[i].threads[t].sent, FoundRoom(run, look, cap))
  {
    hide InitShared, SharedInv, PushPlace, PopStep, PushStep, ThreadStep;
    var m, e := run[k - 1], calls[k - 1];
    SharedRunInv(run, calls, cap, k - 1);
    assert Next(m, e, cap) == Some(run[k - 1 + 1]);
    if k == i + 1 {
      look := None;
      PushStarts(m, run[k], cap, t, v, mode);
    } else {
      look := PushPlaces(run, calls, cap, t, i, k - 1, v, mode);
      var lo, before, found := |run[i].pushed|, run[i].threads[t].sent, FoundRoom(run, look, cap);
      NextHistory(m, e, run[k], cap);
      hide Next;
      if e.t == t {
        PushOwn(m, e, run[k], cap, t, v, mode, lo, before, found);
        if PushLooks(m, e, t) { look := Some(k - 1); }
      } else {
        SharedFacts(m, cap);
        PushOthers(m, e, run[k], cap, t, v, mode, lo, before, found);
      }
    }
  }

  lemma PushStarts<T>(m: Shared<T>, m': Shared<T>, cap: nat, t: ThreadId, v: T, mode: PushMode)
    requires |m.data| == cap > 0 && Next(m, Call<T>.CallPush(t, v, mode), cap) == Some(m')
    ensures t in m.threads && t in m'.threads && m'.pushed == m.pushed
    ensures PushPlace(m', t, v, mode, |m.pushed|, m.threads[t].sent, None)
  {
  }

  /** What thread `t` has put in from state `i` to `j`: nothing, or `v`, which has a place in the order of the queue. */
  ghost predicate Sends<T>(run: seq<Shared<T>>, t: ThreadId, i: nat, j: nat, v: T, put: bool) {
    && i < j < |run| && t in run[i].threads && t in run[j].threads
    && if put then
         && run[j].threads[t].sent == run[i].threads[t].sent + [v]
         && exists n :: |run[i].pushed| <= n < |run[j].pushed| && SentAs(run[j], t, n, v)
       else run[j].threads[t].sent == run[i].threads[t].sent
  }

  lemma PushSends<T>(run: seq<Shared<T>>, calls: seq<Call<T>>, cap: nat, t: ThreadId, i: nat, j: nat, v: T, mode: PushMode)
    returns (look: Option<nat>)
    requires CapacityOk(cap) && Returns(run, calls, cap, t, i, j) && calls[i] == Call<T>.CallPush(t, v, mode)
    ensures look.Some? ==> i < look.value < j && t in run[look.value].threads && PushLooks(run[look.value], calls[look.value], t)
    ensures look.Some? <==> mode == TryPush
    ensures Sends(run, t, i, j, v, mode == TryPush ==> |run[look.value].pushed| - |run[look.value].popped| < cap)
  {
    hide InitShared, SharedInv, PopStep, PushStep, ThreadStep;
    NotAtOnce(run, calls, cap, t, i, j);
    var m, e := run[j - 1], calls[j - 1];
    SharedRunInv(run, calls, cap, j - 1);
    assert Next(m, e, cap) == Some(run[j - 1 + 1]);
    look := PushPlaces(run, calls, cap, t, i, j - 1, v, mode);
    SharedFacts(m, cap);
    LeavesItself(m, e, run[j], cap, t);
    hide Next;
    var lo, before := |run[i].pushed|, run[i].threads[t].sent;
    PushOwn(m, e, run[j], cap, t, v, mode, lo, before, FoundRoom(run, look, cap));
    SamePushes(m, run[j], t, lo, before, v);
  }

  /** `EmplaceWait`: a thread that returns has put in exactly its value. */
  lemma SharedEmplaceWaitDelivers<T>(run: seq<Shared<T>>, calls: seq<Call<T>>, cap: nat, t: ThreadId, i: nat, j: nat, v: T)
    requires CapacityOk(cap) && Returns(run, calls, cap, t, i, j) && calls[i] == Call<T>.CallPush(t, v, WaitPush)
    ensures Sends(run, t, i, j, v, true)
  {
    hide Returns, Sends;
    var look := PushSends(run, calls, cap, t, i, j, v, WaitPush);
  }

  /** `TryEmplace`: it has if and only if the queue was not full when it looked. */
  lemma SharedTryEmplaceExact<T>(run: seq<Shared<T>>, calls: seq<Call<T>>, cap: nat, t: ThreadId, i: nat, j: nat, v: T) returns (look: nat)
    requires CapacityOk(cap) && Returns(run, calls, cap, t, i, j) && calls[i] == Call<T>.CallPush(t, v, TryPush)
    ensures i < look < j < |run| && t in run[look].threads && look < |calls| && PushLooks(run[look], calls[look], t)
    ensures Sends(run, t, i, j, v, |run[look].pushed| - |run[look].popped| < cap)
  {
    hide Sends;
    var l := PushSends(run, calls, cap, t, i, j, v, TryPush);
    look := l.value;
  }
}
