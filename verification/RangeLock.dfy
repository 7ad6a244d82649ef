/**
 `LockRange`, `TryLockRange` and `RangeLockGuard`: locking a whole range of mutexes without a global order,
 by blocking on one, trying the rest and backing off.  Every thread is a stack of `LockRange` frames cut into
 single mutex operations; any number of threads run in any interleaving over shared mutexes.
 */
module RangeLock {
  import opened Basics

  type Mutex = nat
  type ThreadId = nat

  // ----- one thread

  /** How a failed attempt goes on: the next round's locals, and whether `begin_lock` must be released. */
  datatype Retry = Retry(next: nat, fromBegin: bool, ownsBegin: bool)

  /** Position inside one round of the loop of `LockRange(begin, end)`. */
  datatype Pc =
    | BlockBegin
    | TryRest(i: nat)
    | BackRest(i: nat, failed: nat)
    | InGuard
    | TryBegin
    | TryMiddle(i: nat)
    | BackMiddle(i: nat, failed: nat)
    | DropGuard(i: nat, after: Retry)
    | DropBegin(after: Retry)

  datatype Frame = Frame(begin: nat, next: nat, pc: Pc)

  datatype Phase = Idle | Locking(stack: seq<Frame>) | Holding | Unlocking(i: nat)

  /** A thread with the mutexes of its range, in range order. */
  datatype Thread = Thread(locks: seq<Mutex>, phase: Phase)

  datatype Action = Lock(p: nat) | TryLock(p: nat) | Unlock(p: nat) | Internal

  /** The mutex operation that frame `f` of a range with `end` mutexes is about to perform. */
  function FrameIntent(f: Frame, end: nat): Action {
    match f.pc
    case BlockBegin => Lock(f.begin)
    case TryRest(i) => if i < end then TryLock(i) else Internal
    case BackRest(i, failed) => if i > f.next then Unlock(i - 1) else Internal
    case InGuard => Internal
    case TryBegin => TryLock(f.begin)
    case TryMiddle(i) => if i < f.next then TryLock(i) else Internal
    case BackMiddle(i, failed) => if i > f.begin + 1 then Unlock(i - 1) else Internal
    case DropGuard(i, after) => if i < end then Unlock(i) else Internal
    case DropBegin(after) => if after.ownsBegin then Unlock(f.begin) else Internal
  }

  /** Go on in this round, start a round that blocks on `begin`, start one that builds a guard, or return. */
  datatype Outcome = Stay(pc: Pc) | Restart(next: nat) | Recurse(next: nat) | Done

  /** What the frame does after its operation; `ok` is the outcome of a `try_lock`. */
  function FrameAfter(f: Frame, end: nat, ok: bool): Outcome {
    match f.pc
    case BlockBegin => Stay(TryRest(f.next))
    case TryRest(i) =>
      if i >= end then Done else if ok then Stay(TryRest(i + 1)) else Stay(BackRest(i, i))
    case BackRest(i, failed) =>
      if i > f.next then Stay(BackRest(i - 1, failed)) else Stay(DropBegin(Retry(failed, false, true)))
    case InGuard => Stay(InGuard)
    case TryBegin =>
      if ok then Stay(TryMiddle(f.begin + 1)) else Stay(DropGuard(f.next, Retry(f.begin + 1, true, false)))
    case TryMiddle(i) =>
      if i >= f.next then Done else if ok then Stay(TryMiddle(i + 1)) else Stay(BackMiddle(i, i))
    case BackMiddle(i, failed) =>
      if i > f.begin + 1 then Stay(BackMiddle(i - 1, failed)) else Stay(DropGuard(f.next, Retry(failed, false, true)))
    case DropGuard(i, after) => if i < end then Stay(DropGuard(i + 1, after)) else Stay(DropBegin(after))
    case DropBegin(after) => if after.fromBegin then Restart(after.next) else Recurse(after.next)
  }

  /** The mutex operation a thread is about to perform. */
  function Intent(th: Thread): Action {
    match th.phase
    case Idle => Internal
    case Holding => Internal
    case Unlocking(i) => if i < |th.locks| then Unlock(i) else Internal
    case Locking(stack) =>
      if stack == [] then Internal else FrameIntent(stack[|stack| - 1], |th.locks|)
  }

  /** Entering `LockRange(begin, end)`. */
  function Enter(begin: nat): Frame {
    Frame(begin, begin + 1, BlockBegin)
  }

  /** Returning from `LockRange`: to the caller, or to the frame whose guard has now been built. */
  function Return(rest: seq<Frame>): Phase {
    if rest == [] then Holding
    else Locking(rest[|rest| - 1 := rest[|rest| - 1].(pc := TryBegin)])
  }

  function StackAfter(stack: seq<Frame>, end: nat, ok: bool): Phase
    requires stack != []
  {
    var top := |stack| - 1;
    var f := stack[top];
    match FrameAfter(f, end, ok)
    case Stay(pc) => Locking(stack[top := f.(pc := pc)])
    case Restart(next) => Locking(stack[top := Frame(f.begin, next, BlockBegin)])
    case Recurse(next) => Locking(stack[top := Frame(f.begin, next, InGuard)] + [Enter(next)])
    case Done => Return(stack[..top])
  }

  /** The phase after the intended operation. */
  function After(th: Thread, ok: bool): Phase {
    match th.phase
    case Idle => Idle
    case Holding => Unlocking(0)
    case Unlocking(i) => if i < |th.locks| then Unlocking(i + 1) else Idle
    case Locking(stack) => if stack == [] then Holding else StackAfter(stack, |th.locks|, ok)
  }

  /** The call `LockRange` on a whole range. */
  function Call(locks: seq<Mutex>): Phase {
    if locks == [] then Holding else Locking([Enter(0)])
  }

  // ----- what a thread holds

  /** Positions held while the top frame is `f`; `end` is the end of the range. */
  function HeldByFrame(f: Frame, end: nat): set<nat> {
    match f.pc
    case BlockBegin => {}
    case TryRest(i) => {f.begin} + Interval(f.next, i)
    case BackRest(i, failed) => {f.begin} + Interval(f.next, i)
    case InGuard => {}
    case TryBegin => Interval(f.next, end)
    case TryMiddle(i) => {f.begin} + Interval(f.begin + 1, i) + Interval(f.next, end)
    case BackMiddle(i, failed) => {f.begin} + Interval(f.begin + 1, i) + Interval(f.next, end)
    case DropGuard(i, after) => Interval(i, end) + if after.ownsBegin then {f.begin} else {}
    case DropBegin(after) => if after.ownsBegin then {f.begin} else {}
  }

  function Held(th: Thread): set<nat> {
    match th.phase
    case Idle => {}
    case Holding => Interval(0, |th.locks|)
    case Unlocking(i) => Interval(i, |th.locks|)
    case Locking(stack) => if stack == [] then {} else HeldByFrame(stack[|stack| - 1], |th.locks|)
  }

  ghost predicate RetryOk(f: Frame, after: Retry, end: nat) {
    && f.begin < after.next
    && (after.fromBegin ==> after.next == f.begin + 1 && !after.ownsBegin)
    && (!after.fromBegin ==> after.next < end && after.ownsBegin)
  }

  ghost predicate FrameOk(f: Frame, end: nat) {
    && f.begin < f.next && f.begin < end
    && match f.pc
       case BlockBegin => f.next == f.begin + 1
       case TryRest(i) => f.next == f.begin + 1 && f.next <= i <= end
       case BackRest(i, failed) => f.next == f.begin + 1 && f.next <= i <= failed < end
       case InGuard => f.next < end
       case TryBegin => f.next < end
       case TryMiddle(i) => f.next < end && f.begin < i <= f.next
       case BackMiddle(i, failed) => f.next < end && f.begin < i <= failed < f.next
       case DropGuard(i, after) => f.next < end && f.next <= i <= end && RetryOk(f, after, end)
       case DropBegin(after) => RetryOk(f, after, end)
  }

  /** Only the top frame is active; every caller is waiting for its guard, further left in the range. */
  ghost predicate StackOk(stack: seq<Frame>, end: nat) {
    && stack != [] && stack[0].begin == 0
    && (forall j :: 0 <= j < |stack| ==> FrameOk(stack[j], end) && (stack[j].pc.InGuard? <==> j < |stack| - 1))
    && (forall j :: 0 <= j < |stack| - 1 ==> stack[j + 1].begin == stack[j].next)
  }

  ghost predicate ThreadOk(th: Thread) {
    && (forall i, j :: 0 <= i < j < |th.locks| ==> th.locks[i] != th.locks[j])
    && (th.phase.Locking? ==> StackOk(th.phase.stack, |th.locks|))
    && (th.phase.Unlocking? ==> th.phase.i <= |th.locks|)
  }

  /** Positions held after performing `a` with outcome `ok`. */
  function Performed(held: set<nat>, a: Action, ok: bool): set<nat> {
    match a
    case Lock(p) => held + {p}
    case TryLock(p) => if ok then held + {p} else held
    case Unlock(p) => held - {p}
    case Internal => held
  }

  /** The operation is sensible: acquire what is not held, release what is. */
  predicate Sensible(held: set<nat>, a: Action, end: nat) {
    match a
    case Lock(p) => p < end && held == {}
    case TryLock(p) => p < end && p !in held
    case Unlock(p) => p < end && p in held
    case Internal => true
  }

  /** What `o` says is held next is `held`. */
  ghost predicate OutcomeOk(f: Frame, end: nat, o: Outcome, held: set<nat>) {
    match o
    case Stay(pc) => FrameOk(f.(pc := pc), end) && !pc.InGuard? && held == HeldByFrame(f.(pc := pc), end)
    case Restart(next) => next == f.begin + 1 && held == {}
    case Recurse(next) => f.begin < next < end && held == {}
    case Done => held == Interval(f.begin, end)
  }

  lemma FrameSensible(f: Frame, end: nat)
    requires FrameOk(f, end)
    ensures Sensible(HeldByFrame(f, end), FrameIntent(f, end), end)
  {
  }

  lemma PlainFrameStep(f: Frame, end: nat, ok: bool)
    requires FrameOk(f, end) && (f.pc.BlockBegin? || f.pc.TryRest? || f.pc.BackRest? || f.pc.DropBegin?)
    ensures OutcomeOk(f, end, FrameAfter(f, end, ok), Performed(HeldByFrame(f, end), FrameIntent(f, end), ok))
  {
  }

  lemma GuardedFrameStep(f: Frame, end: nat, ok: bool)
    requires FrameOk(f, end) && (f.pc.TryBegin? || f.pc.TryMiddle? || f.pc.BackMiddle? || f.pc.DropGuard?)
    ensures OutcomeOk(f, end, FrameAfter(f, end, ok), Performed(HeldByFrame(f, end), FrameIntent(f, end), ok))
  {
  }

  /** A step of an active frame is well-formed and exact about what is held. */
  lemma FrameStep(f: Frame, end: nat, ok: bool)
    requires FrameOk(f, end) && !f.pc.InGuard?
    ensures OutcomeOk(f, end, FrameAfter(f, end, ok), Performed(HeldByFrame(f, end), FrameIntent(f, end), ok))
  {
    hide FrameOk, OutcomeOk;
    if f.pc.BlockBegin? || f.pc.TryRest? || f.pc.BackRest? || f.pc.DropBegin? {
      PlainFrameStep(f, end, ok);
    } else {
      GuardedFrameStep(f, end, ok);
    }
  }

  lemma ReturnOk(stack: seq<Frame>, end: nat)
    requires StackOk(stack, end)
    ensures var r, top := Return(stack[..|stack| - 1]), stack[|stack| - 1];
            if |stack| == 1 then r == Holding && top.begin == 0
            else && r.Locking? && StackOk(r.stack, end)
                 && HeldByFrame(r.stack[|r.stack| - 1], end) == Interval(top.begin, end)
  {
  }

  lemma ReplaceTop(stack: seq<Frame>, end: nat, f: Frame)
    requires StackOk(stack, end) && FrameOk(f, end) && !f.pc.InGuard? && f.begin == stack[|stack| - 1].begin
    ensures StackOk(stack[|stack| - 1 := f], end)
  {
  }

  lemma PushFrame(stack: seq<Frame>, end: nat, next: nat)
    requires StackOk(stack, end) && stack[|stack| - 1].begin < next < end
    ensures StackOk(stack[|stack| - 1 := Frame(stack[|stack| - 1].begin, next, InGuard)] + [Enter(next)], end)
  {
  }

  lemma EnterOk(begin: nat, end: nat)
    requires begin < end
    ensures FrameOk(Enter(begin), end) && HeldByFrame(Enter(begin), end) == {}
  {
  }

  lemma StackStep(stack: seq<Frame>, end: nat, ok: bool)
    requires StackOk(stack, end)
    ensures var after, top := StackAfter(stack, end, ok), stack[|stack| - 1];
            && (after.Locking? || after == Holding)
            && (after.Locking? ==> StackOk(after.stack, end))
            && Performed(HeldByFrame(top, end), FrameIntent(top, end), ok) ==
                 if after.Locking? then HeldByFrame(after.stack[|after.stack| - 1], end) else Interval(0, end)
  {
    var top := stack[|stack| - 1];
    FrameStep(top, end, ok);
    hide HeldByFrame, FrameOk, FrameIntent, Performed;
    match FrameAfter(top, end, ok)
    case Stay(pc) => ReplaceTop(stack, end, top.(pc := pc));
    case Restart(next) =>
      EnterOk(top.begin, end);
      ReplaceTop(stack, end, Enter(top.begin));
    case Recurse(next) =>
      PushFrame(stack, end, next);
      EnterOk(next, end);
    case Done => ReturnOk(stack, end);
  }

  /** Every step of a thread keeps it well-formed, is sensible, and changes what it holds by exactly that step. */
  lemma ThreadStep(th: Thread, ok: bool)
    requires ThreadOk(th)
    ensures ThreadOk(th.(phase := After(th, ok)))
    ensures Sensible(Held(th), Intent(th), |th.locks|)
    ensures Held(th.(phase := After(th, ok))) == Performed(Held(th), Intent(th), ok)
  {
    match th.phase
    case Locking(stack) =>
      FrameSensible(stack[|stack| - 1], |th.locks|);
      StackStep(stack, |th.locks|, ok);
    case _ =>
  }

  // ----- all threads together

  datatype System = System(owner: map<Mutex, ThreadId>, threads: map<ThreadId, Thread>)

  /** A call on a range, or one step of a thread; without `luck` a `try_lock` fails spuriously. */
  datatype Event = Start(t: ThreadId, locks: seq<Mutex>) | Run(t: ThreadId, luck: bool)

  predicate Distinct(locks: seq<Mutex>) {
    forall i, j :: 0 <= i < j < |locks| ==> locks[i] != locks[j]
  }

  /** The system after an event; `None` if the thread has to wait or there is nothing to do. */
  function Next(s: System, e: Event): Option<System> {
    if e.t !in s.threads then None
    else
      var th := s.threads[e.t];
      match e
      case Start(t, locks) =>
        if th.phase.Idle? && Distinct(locks) then Some(s.(threads := s.threads[t := Thread(locks, Call(locks))]))
        else None
      case Run(t, luck) =>
        if th.phase.Idle? then None
        else match Intent(th)
          case Lock(p) =>
            if p < |th.locks| && th.locks[p] !in s.owner
            then Some(Moved(s, t, true, s.owner[th.locks[p] := t])) else None
          case TryLock(p) =>
            if p < |th.locks| && luck && th.locks[p] !in s.owner
            then Some(Moved(s, t, true, s.owner[th.locks[p] := t])) else Some(Moved(s, t, false, s.owner))
          case Unlock(p) =>
            Some(Moved(s, t, true, if p < |th.locks| then s.owner - {th.locks[p]} else s.owner))
          case Internal => Some(Moved(s, t, true, s.owner))
  }

  function Moved(s: System, t: ThreadId, ok: bool, owner: map<Mutex, ThreadId>): System
    requires t in s.threads
  {
    System(owner, s.threads[t := s.threads[t].(phase := After(s.threads[t], ok))])
  }

  ghost predicate Initial(s: System) {
    s.owner == map[] && forall t :: t in s.threads ==> s.threads[t] == Thread([], Idle)
  }

  /** Thread `th` holds mutex `m` at some position of its range. */
  ghost predicate Holds(th: Thread, m: Mutex) {
    exists i :: 0 <= i < |th.locks| && i in Held(th) && th.locks[i] == m
  }

  /** The owner table says exactly what the threads' positions say. */
  ghost predicate Inv(s: System) {
    && (forall t :: t in s.threads ==> ThreadOk(s.threads[t]))
    && (forall t, m :: t in s.threads ==> (Holds(s.threads[t], m) <==> m in s.owner && s.owner[m] == t))
    && (forall m :: m in s.owner ==> s.owner[m] in s.threads)
  }

  /** One thread's step changes which mutexes it holds by exactly the mutex it operated on. */
  lemma HoldsAfter(th: Thread, ok: bool, m: Mutex)
    requires ThreadOk(th)
    ensures var th', a := th.(phase := After(th, ok)), Intent(th);
            ThreadOk(th') &&
            (Holds(th', m) <==>
               if a.Unlock? && m == th.locks[a.p] then false
               else if (a.Lock? || (a.TryLock? && ok)) && m == th.locks[a.p] then true
               else Holds(th, m))
  {
    ThreadStep(th, ok);
    hide Held, After, Intent, ThreadOk;
  }

  lemma InitialInv(s: System)
    requires Initial(s)
    ensures Inv(s)
  {
  }

  /** The owner table after thread `t` performs `a` on the mutexes `locks`. */
  ghost predicate OwnerAfter(s: System, t: ThreadId, locks: seq<Mutex>, a: Action, ok: bool, owner: map<Mutex, ThreadId>) {
    match a
    case Lock(p) => p < |locks| && locks[p] !in s.owner && owner == s.owner[locks[p] := t]
    case TryLock(p) =>
      p < |locks| && if ok then locks[p] !in s.owner && owner == s.owner[locks[p] := t] else owner == s.owner
    case Unlock(p) => p < |locks| && owner == s.owner - {locks[p]}
    case Internal => owner == s.owner
  }

  lemma MovedHolds(s: System, t: ThreadId, ok: bool, owner: map<Mutex, ThreadId>, u: ThreadId, m: Mutex)
    requires Inv(s) && t in s.threads && u in s.threads
    requires OwnerAfter(s, t, s.threads[t].locks, Intent(s.threads[t]), ok, owner)
    ensures Holds(Moved(s, t, ok, owner).threads[u], m) <==> m in owner && owner[m] == u
  {
    HoldsAfter(s.threads[t], ok, m);
    HeldInRange(s.threads[t]);
    hide Holds, Intent, After, ThreadOk;
    assert Holds(s.threads[u], m) <==> m in s.owner && s.owner[m] == u;
  }

  lemma OwnersKnown(s: System, t: ThreadId, locks: seq<Mutex>, a: Action, ok: bool, owner: map<Mutex, ThreadId>)
    requires t in s.threads && OwnerAfter(s, t, locks, a, ok, owner)
    requires forall m :: m in s.owner ==> s.owner[m] in s.threads
    ensures forall m :: m in owner ==> owner[m] in s.threads
  {
  }

  /** The step of thread `t` that takes the owner table to `owner` keeps the invariant. */
  lemma MovedInv(s: System, t: ThreadId, ok: bool, owner: map<Mutex, ThreadId>)
    requires Inv(s) && t in s.threads
    requires OwnerAfter(s, t, s.threads[t].locks, Intent(s.threads[t]), ok, owner)
    ensures Inv(Moved(s, t, ok, owner))
  {
    hide Holds, Intent, After, ThreadOk, Held, Sensible, Performed;
    var s' := Moved(s, t, ok, owner);
    ThreadStep(s.threads[t], ok);
    assert ThreadOk(s'.threads[t]);
    OwnersKnown(s, t, s.threads[t].locks, Intent(s.threads[t]), ok, owner);
    hide OwnerAfter;
    forall u, m | u in s'.threads
      ensures Holds(s'.threads[u], m) <==> m in s'.owner && s'.owner[m] == u
    {
      MovedHolds(s, t, ok, owner, u, m);
    }
  }

  /** What is about to be released is held. */
  lemma HeldInRange(th: Thread)
    requires ThreadOk(th)
    ensures Intent(th).Unlock? ==> Intent(th).p < |th.locks| && Holds(th, th.locks[Intent(th).p])
    ensures !Intent(th).Internal? ==> Intent(th).p < |th.locks|
  {
    ThreadStep(th, true);
  }

  lemma NextInv(s: System, e: Event)
    requires Inv(s) && Next(s, e).Some?
    ensures Inv(Next(s, e).value)
  {
    var th := s.threads[e.t];
    match e
    case Start(t, locks) =>
      StartInv(s, t, locks);
    case Run(t, luck) =>
      HeldInRange(th);
      match Intent(th)
      case Lock(p) => MovedInv(s, t, true, s.owner[th.locks[p] := t]);
      case TryLock(p) =>
        if luck && th.locks[p] !in s.owner {
          MovedInv(s, t, true, s.owner[th.locks[p] := t]);
        } else {
          MovedInv(s, t, false, s.owner);
        }
      case Unlock(p) => MovedInv(s, t, true, s.owner - {th.locks[p]});
      case Internal => MovedInv(s, t, true, s.owner);
  }

  lemma StartInv(s: System, t: ThreadId, locks: seq<Mutex>)
    requires Inv(s) && t in s.threads && s.threads[t].phase.Idle? && Distinct(locks)
    ensures Inv(s.(threads := s.threads[t := Thread(locks, Call(locks))]))
  {
    var s', th' := s.(threads := s.threads[t := Thread(locks, Call(locks))]), Thread(locks, Call(locks));
    assert Held(s.threads[t]) == {} && Held(th') == {};
    forall u, m | u in s'.threads
      ensures Holds(s'.threads[u], m) <==> m in s'.owner && s'.owner[m] == u
    {
      assert Holds(s.threads[u], m) <==> m in s.owner && s.owner[m] == u;
    }
  }
}
