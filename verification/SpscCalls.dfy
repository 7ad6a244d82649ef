/** What one call of `Emplace` or `Pop` does, from its start to its return, in any interleaving. */
module SpscCalls {
  import opened Basics
  import opened SpscQueue

  // ----- Pop

  /** The call of `Pop` that begins with event `i` returns with state `j`. */
  ghost predicate PopReturns<T>(run: seq<State<T>>, events: seq<Event<T>>, cap: nat, i: nat, j: nat, mode: PopMode) {
    && IsRun(run, events, cap) && i < j < |run| && events[i] == Event<T>.Pop(mode)
    && run[j].consumer == CIdle && forall l :: i < l < j ==> run[l].consumer != CIdle
  }

  /**
   Where a `Pop` can be: what it has taken so far, whether it has been told to stop, and what a try has
   found, if it has looked.
   */
  ghost predicate PopPhase<T>(c: ConsumerPc<T>, mode: PopMode, before: seq<T>, now: seq<T>, stopped: bool, found: Option<bool>) {
    match c
    case CIdle => false
    case CTry(_) => mode == TryPop && now == before && found == None && !stopped
    case CLock(_, stop) => Waiting(mode, stop, before, now, stopped, found)
    case CCheck(_, stop) => Waiting(mode, stop, before, now, stopped, found)
    case CBlock(_, stop) => Waiting(mode, stop, before, now, stopped, found)
    case CSleep(_, stop) => Waiting(mode, stop, before, now, stopped, found)
    case CAbandon => mode == StopPop && now == before && stopped && found == None
    case CUnlock(_) => now == before && !stopped && GoesOn(mode, found)
    case CRead(_) => now == before && !stopped && GoesOn(mode, found)
    case CIncrement(_, _) => now == before && !stopped && GoesOn(mode, found)
    case _ => Longer(before, now) && !stopped && GoesOn(mode, found)
  }

  predicate GoesOn(mode: PopMode, found: Option<bool>) {
    found == if mode == TryPop then Some(true) else None
  }

  ghost predicate Waiting<T>(mode: PopMode, stop: bool, before: seq<T>, now: seq<T>, stopped: bool, found: Option<bool>) {
    mode != TryPop && (stop <==> mode == StopPop) && now == before && !stopped && found == None
  }

  /** One value more. */
  ghost predicate Longer<T>(before: seq<T>, now: seq<T>) {
    |now| == |before| + 1 && now[..|before|] == before
  }

  /** What a try finds out if this is the event with which it looks. */
  ghost function Finds<T>(s: State<T>, e: Event<T>, found: Option<bool>): Option<bool> {
    if e == ConsumerStep && s.consumer.CTry? then Some(Used(s) > 0) else found
  }

  lemma PopPhaseNext<T>(s: State<T>, e: Event<T>, s': State<T>, cap: nat, mode: PopMode, before: seq<T>, stopped: bool, found: Option<bool>)
    requires CapacityOk(cap) && Inv(s, cap) && Apply(s, e, cap) == Some(s') && s'.consumer != CIdle
    requires PopPhase(s.consumer, mode, before, s.popped, stopped, found)
    ensures PopPhase(s'.consumer, mode, before, s'.popped, stopped || e == ConsumerStop, Finds(s, e, found))
  {
    ChecksAreExact(s, cap);
    hide Inv, Sub;
  }

  /** Up to its return a call is at one of those places; `look` is when a try has looked. */
  lemma {:induction false} PopPhases<T>(run: seq<State<T>>, events: seq<Event<T>>, cap: nat, i: nat, k: nat, mode: PopMode)
    returns (look: Option<nat>)
    requires CapacityOk(cap) && IsRun(run, events, cap) && i < k < |run| && events[i] == Event<T>.Pop(mode)
    requires forall l :: i < l <= k ==> run[l].consumer != CIdle
    ensures look.Some? ==> i < look.value < k && events[look.value] == ConsumerStep && run[look.value].consumer.CTry?
    ensures PopPhase(run[k].consumer, mode, run[i].popped, run[k].popped, ConsumerStop in events[i + 1..k],
                     if look == None then None else Some(Used(run[look.value]) > 0))
  {
    hide Apply, Init, Inv, PopPhase;
    var s, e := run[k - 1], events[k - 1];
    RunInv(run, events, cap, k - 1);
    assert Apply(s, e, cap) == Some(run[k - 1 + 1]);
    if k == i + 1 {
      look := None;
      PopBegins(s, run[k], cap, mode);
    } else {
      look := PopPhases(run, events, cap, i, k - 1, mode);
      var found := if look == None then None else Some(Used(run[look.value]) > 0);
      PopPhaseNext(s, e, run[k], cap, mode, run[i].popped, ConsumerStop in events[i + 1..k - 1], found);
      assert events[i + 1..k] == events[i + 1..k - 1] + [e];
      if e == ConsumerStep && s.consumer.CTry? { look := Some(k - 1); }
    }
  }

  lemma PopBegins<T>(s: State<T>, s': State<T>, cap: nat, mode: PopMode)
    requires |s.data| == cap > 0 && Apply(s, Event<T>.Pop(mode), cap) == Some(s')
    ensures PopPhase(s'.consumer, mode, s.popped, s'.popped, false, None)
  {
  }

  /** From where a call can return: a failed try, a stop, or a notification sent. */
  lemma PopEnds<T>(s: State<T>, e: Event<T>, s': State<T>, cap: nat)
    requires CapacityOk(cap) && Inv(s, cap) && Apply(s, e, cap) == Some(s') && s.consumer != CIdle && s'.consumer == CIdle
    ensures e == ConsumerStep && s'.popped == s.popped
    ensures s.consumer.CTry? || s.consumer == CAbandon || s.consumer == CNotifyUnlock
    ensures s.consumer.CTry? ==> Used(s) == 0
  {
    ChecksAreExact(s, cap);
  }

  /** What `Pop` returns when it returns from `c`. */
  predicate PopResult<T>(c: ConsumerPc<T>) {
    c == CNotifyUnlock
  }

  /** What a call has taken when it returns: nothing, or the oldest value in the queue. */
  ghost predicate Takes<T>(run: seq<State<T>>, i: nat, j: nat, taken: bool)
    requires i < j < |run|
  {
    && (PopResult(run[j - 1].consumer) <==> taken)
    && if taken then |run[i].popped| < |run[j].pushed| && run[j].popped == run[i].popped + [run[j].pushed[|run[i].popped|]]
       else run[j].popped == run[i].popped
  }

  /** The last step of a call, for all modes at once. */
  lemma PopTakes<T>(run: seq<State<T>>, events: seq<Event<T>>, cap: nat, i: nat, j: nat, mode: PopMode) returns (look: Option<nat>)
    requires CapacityOk(cap) && PopReturns(run, events, cap, i, j, mode)
    ensures look.Some? ==> i < look.value < j && events[look.value] == ConsumerStep && run[look.value].consumer.CTry?
    ensures look.Some? <==> mode == TryPop
    ensures Takes(run, i, j, if mode == TryPop then Used(run[look.value]) > 0 else ConsumerStop !in events[i + 1..j])
    ensures mode == WaitPop ==> ConsumerStop !in events[i + 1..j]
  {
    hide Apply, Init, Inv;
    if j == i + 1 {
      RunInv(run, events, cap, i);
      assert Apply(run[i], events[i], cap) == Some(run[i + 1]);
      PopBegins(run[i], run[j], cap, mode);
    } else {
      look := PopPhases(run, events, cap, i, j - 1, mode);
      RunInv(run, events, cap, j - 1);
      RunSafe(run, events, cap, j);
      assert Apply(run[j - 1], events[j - 1], cap) == Some(run[j - 1 + 1]);
      PopEnds(run[j - 1], events[j - 1], run[j], cap);
      assert events[i + 1..j] == events[i + 1..j - 1] + [events[j - 1]];
      if run[j - 1].consumer.CTry? { look := Some(j - 1); }
    }
  }

  /** `PopWait` delivers: when it returns it has taken the oldest value. */
  lemma PopWaitDelivers<T>(run: seq<State<T>>, events: seq<Event<T>>, cap: nat, i: nat, j: nat)
    requires CapacityOk(cap) && PopReturns(run, events, cap, i, j, WaitPop)
    ensures Takes(run, i, j, true)
  {
    hide IsRun, Takes;
    var look := PopTakes(run, events, cap, i, j, WaitPop);
  }

  /** `TryPop` takes a value if and only if the queue is not empty when it looks. */
  lemma TryPopExact<T>(run: seq<State<T>>, events: seq<Event<T>>, cap: nat, i: nat, j: nat) returns (look: nat)
    requires CapacityOk(cap) && PopReturns(run, events, cap, i, j, TryPop)
    ensures i < look < j && events[look] == ConsumerStep && run[look].consumer.CTry?
    ensures Takes(run, i, j, Used(run[look]) > 0)
  {
    hide IsRun, Takes;
    var l := PopTakes(run, events, cap, i, j, TryPop);
    look := l.value;
  }

  /** `PopWait` with a stop token takes a value if and only if it has not seen a stop request. */
  lemma StopPopExact<T>(run: seq<State<T>>, events: seq<Event<T>>, cap: nat, i: nat, j: nat)
    requires CapacityOk(cap) && PopReturns(run, events, cap, i, j, StopPop)
    ensures Takes(run, i, j, ConsumerStop !in events[i + 1..j])
  {
    hide IsRun, Takes;
    var look := PopTakes(run, events, cap, i, j, StopPop);
  }

  // ----- Emplace

  ghost predicate PushReturns<T>(run: seq<State<T>>, events: seq<Event<T>>, cap: nat, i: nat, j: nat, v: T, mode: PushMode) {
    && IsRun(run, events, cap) && i < j < |run| && events[i] == Event<T>.Emplace(v, mode)
    && run[j].producer == PIdle && forall l :: i < l < j ==> run[l].producer != PIdle
  }

  ghost predicate PushPhase<T>(p: ProducerPc<T>, v: T, mode: PushMode, before: seq<T>, now: seq<T>, found: Option<bool>) {
    match p
    case PIdle => false
    case PTry(x, _) => mode == TryPush && x == v && now == before && found == None
    case PWrite(x, _) => x == v && now == before && PushGoesOn(mode, found)
    case PIncrement(x, _) => x == v && now == before && PushGoesOn(mode, found)
    case PNotifyLock => now == before + [v] && PushGoesOn(mode, found)
    case PNotify => now == before + [v] && PushGoesOn(mode, found)
    case PNotifyUnlock => now == before + [v] && PushGoesOn(mode, found)
    case _ => mode == WaitPush && p.v == v && now == before && found == None
  }

  predicate PushGoesOn(mode: PushMode, found: Option<bool>) {
    found == if mode == TryPush then Some(true) else None
  }

  ghost function FindsRoom<T>(s: State<T>, e: Event<T>, cap: nat, found: Option<bool>): Option<bool> {
    if e == ProducerStep && s.producer.PTry? then Some(Used(s) < cap) else found
  }

  lemma PushPhaseNext<T>(s: State<T>, e: Event<T>, s': State<T>, cap: nat, v: T, mode: PushMode, before: seq<T>, found: Option<bool>)
    requires CapacityOk(cap) && Inv(s, cap) && Apply(s, e, cap) == Some(s') && s'.producer != PIdle
    requires PushPhase(s.producer, v, mode, before, s.pushed, found)
    ensures PushPhase(s'.producer, v, mode, before, s'.pushed, FindsRoom(s, e, cap, found))
  {
    ChecksAreExact(s, cap);
    hide Sub, Stored;
  }

  lemma {:induction false} PushPhases<T>(run: seq<State<T>>, events: seq<Event<T>>, cap: nat, i: nat, k: nat, v: T, mode: PushMode)
    returns (look: Option<nat>)
    requires CapacityOk(cap) && IsRun(run, events, cap) && i < k < |run| && events[i] == Event<T>.Emplace(v, mode)
    requires forall l :: i < l <= k ==> run[l].producer != PIdle
    ensures look.Some? ==> i < look.value < k && events[look.value] == ProducerStep && run[look.value].producer.PTry?
    ensures PushPhase(run[k].producer, v, mode, run[i].pushed, run[k].pushed,
                      if look == None then None else Some(Used(run[look.value]) < cap))
  {
    hide Apply, Init, Inv, PushPhase;
    var s, e := run[k - 1], events[k - 1];
    RunInv(run, events, cap, k - 1);
    assert Apply(s, e, cap) == Some(run[k - 1 + 1]);
    if k == i + 1 {
      look := None;
      PushBegins(s, run[k], cap, v, mode);
    } else {
      look := PushPhases(run, events, cap, i, k - 1, v, mode);
      PushPhaseNext(s, e, run[k], cap, v, mode, run[i].pushed, if look == None then None else Some(Used(run[look.value]) < cap));
      if e == ProducerStep && s.producer.PTry? { look := Some(k - 1); }
    }
  }

  lemma PushBegins<T>(s: State<T>, s': State<T>, cap: nat, v: T, mode: PushMode)
    requires |s.data| == cap > 0 && Apply(s, Event<T>.Emplace(v, mode), cap) == Some(s')
    ensures PushPhase(s'.producer, v, mode, s.pushed, s'.pushed, None)
  {
  }

  lemma PushEnds<T>(s: State<T>, e: Event<T>, s': State<T>, cap: nat)
    requires CapacityOk(cap) && Inv(s, cap) && Apply(s, e, cap) == Some(s') && s.producer != PIdle && s'.producer == PIdle
    ensures e == ProducerStep && s'.pushed == s.pushed
    ensures s.producer.PTry? || s.producer == PNotifyUnlock
    ensures s.producer.PTry? ==> Used(s) == cap
  {
    ChecksAreExact(s, cap);
    hide Sub;
  }

  /** What `Emplace` returns when it returns from `p`. */
  predicate PushResult<T>(p: ProducerPc<T>) {
    p == PNotifyUnlock
  }

  /** What a call has put in when it returns: its value, or nothing. */
  ghost predicate Puts<T>(run: seq<State<T>>, i: nat, j: nat, v: T, put: bool)
    requires i < j < |run|
  {
    && (PushResult(run[j - 1].producer) <==> put)
    && run[j].pushed == run[i].pushed + if put then [v] else []
  }

  lemma PushPuts<T>(run: seq<State<T>>, events: seq<Event<T>>, cap: nat, i: nat, j: nat, v: T, mode: PushMode) returns (look: Option<nat>)
    requires CapacityOk(cap) && PushReturns(run, events, cap, i, j, v, mode)
    ensures look.Some? ==> i < look.value < j && events[look.value] == ProducerStep && run[look.value].producer.PTry?
    ensures look.Some? <==> mode == TryPush
    ensures Puts(run, i, j, v, mode == TryPush ==> Used(run[look.value]) < cap)
  {
    hide Apply, Init, Inv;
    if j == i + 1 {
      RunInv(run, events, cap, i);
      assert Apply(run[i], events[i], cap) == Some(run[i + 1]);
      PushBegins(run[i], run[j], cap, v, mode);
    } else {
      look := PushPhases(run, events, cap, i, j - 1, v, mode);
      RunInv(run, events, cap, j - 1);
      assert Apply(run[j - 1], events[j - 1], cap) == Some(run[j - 1 + 1]);
      PushEnds(run[j - 1], events[j - 1], run[j], cap);
      if run[j - 1].producer.PTry? { look := Some(j - 1); }
    }
  }

  /** `EmplaceWait` has put in exactly its value when it returns. */
  lemma EmplaceWaitDelivers<T>(run: seq<State<T>>, events: seq<Event<T>>, cap: nat, i: nat, j: nat, v: T)
    requires CapacityOk(cap) && PushReturns(run, events, cap, i, j, v, WaitPush)
    ensures Puts(run, i, j, v, true)
  {
    hide IsRun, Puts;
    var look := PushPuts(run, events, cap, i, j, v, WaitPush);
  }

  /** `TryEmplace` puts its value in if and only if the queue is not full when it looks. */
  lemma TryEmplaceExact<T>(run: seq<State<T>>, events: seq<Event<T>>, cap: nat, i: nat, j: nat, v: T) returns (look: nat)
    requires CapacityOk(cap) && PushReturns(run, events, cap, i, j, v, TryPush)
    ensures i < look < j && events[look] == ProducerStep && run[look].producer.PTry?
    ensures Puts(run, i, j, v, Used(run[look]) < cap)
  {
    hide IsRun, Puts;
    var l := PushPuts(run, events, cap, i, j, v, TryPush);
    look := l.value;
  }
}
