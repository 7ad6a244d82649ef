/**
 The multi-producer multi-consumer queue: any number of threads, each with a position of its own, call
 `Emplace` and `Pop` of one inner queue, behind a write mutex and a read mutex.
 */
module MpmcQueue {
  import opened Basics
  import opened SpscQueue

  type ThreadId = nat

  /** Where a thread is. `Entered` has the outer mutex and has not yet read its index. */
  datatype Place<T> =
    | Outside
    | WaitWrite(v: T, push: PushMode)
    | EnteredPush(v: T, push: PushMode)
    | Pushing(p: ProducerPc<T>)
    | WaitRead(pop: PopMode)
    | EnteredPop(pop: PopMode)
    | Popping(c: ConsumerPc<T>)

  /** A thread, with the values it has put in and taken out. */
  datatype Thread<T> = Thread(place: Place<T>, sent: seq<T>, got: seq<T>)

  /** The queue objects with thread ids as mutex owners; the history says who pushed and popped each value. */
  datatype Shared<T> = Shared(
    threads: map<ThreadId, Thread<T>>,
    readIndex: nat, writeIndex: nat, data: seq<T>,
    producerMutex: Option<ThreadId>, consumerMutex: Option<ThreadId>,
    writeMutex: Option<ThreadId>, readMutex: Option<ThreadId>,
    pushed: seq<T>, popped: seq<T>, pushedBy: seq<ThreadId>, poppedBy: seq<ThreadId>)

  /** A scheduler's choice; a step that notifies wakes the sleeper `woken`. */
  datatype Call<T> =
    | CallPush(t: ThreadId, v: T, push: PushMode)
    | CallPop(t: ThreadId, pop: PopMode)
    | Step(t: ThreadId, woken: Option<ThreadId>)
    | Wake(t: ThreadId)
    | Stop(t: ThreadId)

  ghost predicate InitShared<T>(m: Shared<T>, cap: nat) {
    && (forall t :: t in m.threads ==> m.threads[t] == Thread(Outside, [], []))
    && m.readIndex == m.writeIndex == 0 && |m.data| == cap
    && m.producerMutex == m.consumerMutex == m.writeMutex == m.readMutex == None
    && m.pushed == m.popped == [] && m.pushedBy == m.poppedBy == []
  }

  // ----- steps

  function Goto<T>(m: Shared<T>, t: ThreadId, place: Place<T>): Shared<T>
    requires t in m.threads
  {
    m.(threads := m.threads[t := m.threads[t].(place := place)])
  }

  predicate AsleepPop<T>(m: Shared<T>, u: ThreadId) {
    u in m.threads && m.threads[u].place.Popping? && m.threads[u].place.c.CSleep?
  }

  predicate AsleepPush<T>(m: Shared<T>, u: ThreadId) {
    u in m.threads && m.threads[u].place.Pushing? && m.threads[u].place.p.PSleep?
  }

  /** `consumer_cv.notify_one()`: some sleeper if there is one; `None` if `woken` is no such choice. */
  ghost function NotifyConsumer<T>(m: Shared<T>, woken: Option<ThreadId>): Option<Shared<T>> {
    match woken
    case None => if exists u :: AsleepPop(m, u) then None else Some(m)
    case Some(u) => if AsleepPop(m, u) then Some(Goto(m, u, Popping(Woken(m.threads[u].place.c)))) else None
  }

  ghost function NotifyProducer<T>(m: Shared<T>, woken: Option<ThreadId>): Option<Shared<T>> {
    match woken
    case None => if exists u :: AsleepPush(m, u) then None else Some(m)
    case Some(u) => if AsleepPush(m, u) then Some(Goto(m, u, Pushing(WokenProducer(m.threads[u].place.p)))) else None
  }

  /** One atomic step of `Emplace` by thread `t` at `p`; nothing here asks who else is inside. */
  ghost function PushStep<T>(m: Shared<T>, t: ThreadId, p: ProducerPc<T>, woken: Option<ThreadId>, cap: nat): Option<Shared<T>>
    requires |m.data| == cap > 0 && t in m.threads
  {
    match p
    case PIdle => Some(Goto(m, t, Outside).(writeMutex := None))
    case PTry(v, wi) =>
      Some(Goto(m, t, Pushing(if Sub(wi, m.readIndex) == cap then PIdle else PWrite(v, wi))))
    case PLock(v, wi) =>
      if m.producerMutex == None then Some(Goto(m, t, Pushing(PCheck(v, wi))).(producerMutex := Some(t))) else None
    case PCheck(v, wi) =>
      Some(Goto(m, t, Pushing(if Sub(wi, m.readIndex) < cap then PUnlock(v, wi) else PBlock(v, wi))))
    case PBlock(v, wi) => Some(Goto(m, t, Pushing(PSleep(v, wi))).(producerMutex := None))
    case PSleep(v, wi) => None
    case PUnlock(v, wi) => Some(Goto(m, t, Pushing(PWrite(v, wi))).(producerMutex := None))
    case PWrite(v, wi) => Some(Goto(m, t, Pushing(PIncrement(v, wi))).(data := m.data[wi % cap := v]))
    case PIncrement(v, wi) =>
      Some(m.(threads := m.threads[t := Thread(Pushing(PNotifyLock), m.threads[t].sent + [v], m.threads[t].got)],
              writeIndex := (m.writeIndex + 1) % WORD, pushed := m.pushed + [v], pushedBy := m.pushedBy + [t]))
    case PNotifyLock =>
      if m.consumerMutex == None then Some(Goto(m, t, Pushing(PNotify)).(consumerMutex := Some(t))) else None
    case PNotify => NotifyConsumer(Goto(m, t, Pushing(PNotifyUnlock)), woken)
    case PNotifyUnlock => Some(Goto(m, t, Pushing(PIdle)).(consumerMutex := None))
  }

  ghost function PopStep<T>(m: Shared<T>, t: ThreadId, c: ConsumerPc<T>, woken: Option<ThreadId>, cap: nat): Option<Shared<T>>
    requires |m.data| == cap > 0 && t in m.threads
  {
    match c
    case CIdle => Some(Goto(m, t, Outside).(readMutex := None))
    case CTry(ri) => Some(Goto(m, t, Popping(if ri == m.writeIndex then CIdle else CRead(ri))))
    case CLock(ri, stop) =>
      if m.consumerMutex == None then Some(Goto(m, t, Popping(CCheck(ri, stop))).(consumerMutex := Some(t))) else None
    case CCheck(ri, stop) =>
      Some(Goto(m, t, Popping(if ri != m.writeIndex then CUnlock(ri) else CBlock(ri, stop))))
    case CBlock(ri, stop) => Some(Goto(m, t, Popping(CSleep(ri, stop))).(consumerMutex := None))
    case CSleep(ri, stop) => None
    case CUnlock(ri) => Some(Goto(m, t, Popping(CRead(ri))).(consumerMutex := None))
    case CAbandon => Some(Goto(m, t, Popping(CIdle)).(consumerMutex := None))
    case CRead(ri) => Some(Goto(m, t, Popping(CIncrement(m.data[ri % cap], ri))))
    case CIncrement(v, ri) =>
      Some(m.(threads := m.threads[t := Thread(Popping(CNotifyLock), m.threads[t].sent, m.threads[t].got + [v])],
              readIndex := (m.readIndex + 1) % WORD, popped := m.popped + [v], poppedBy := m.poppedBy + [t]))
    case CNotifyLock =>
      if m.producerMutex == None then Some(Goto(m, t, Popping(CNotify)).(producerMutex := Some(t))) else None
    case CNotify => NotifyProducer(Goto(m, t, Popping(CNotifyUnlock)), woken)
    case CNotifyUnlock => Some(Goto(m, t, Popping(CIdle)).(producerMutex := None))
  }

  ghost function ThreadStep<T>(m: Shared<T>, t: ThreadId, woken: Option<ThreadId>, cap: nat): Option<Shared<T>>
    requires |m.data| == cap > 0 && t in m.threads
  {
    match m.threads[t].place
    case Outside => None
    case WaitWrite(v, mode) =>
      if m.writeMutex == None then Some(Goto(m, t, EnteredPush(v, mode)).(writeMutex := Some(t))) else None
    case EnteredPush(v, mode) =>
      Some(Goto(m, t, Pushing(if mode == TryPush then PTry(v, m.writeIndex) else PLock(v, m.writeIndex))))
    case Pushing(p) => PushStep(m, t, p, woken, cap)
    case WaitRead(mode) =>
      if m.readMutex == None then Some(Goto(m, t, EnteredPop(mode)).(readMutex := Some(t))) else None
    case EnteredPop(mode) =>
      Some(Goto(m, t, Popping(if mode == TryPop then CTry(m.readIndex) else CLock(m.readIndex, mode == StopPop))))
    case Popping(c) => PopStep(m, t, c, woken, cap)
  }

  /** The state after a call, or `None` if it cannot happen now. */
  ghost function Next<T>(m: Shared<T>, e: Call<T>, cap: nat): Option<Shared<T>>
    requires |m.data| == cap > 0
  {
    if e.t !in m.threads then None
    else
      match e
      case CallPush(t, v, mode) => if m.threads[t].place.Outside? then Some(Goto(m, t, WaitWrite(v, mode))) else None
      case CallPop(t, mode) => if m.threads[t].place.Outside? then Some(Goto(m, t, WaitRead(mode))) else None
      case Step(t, woken) => ThreadStep(m, t, woken, cap)
      case Wake(t) =>
        if AsleepPop(m, t) then Some(Goto(m, t, Popping(Woken(m.threads[t].place.c))))
        else if AsleepPush(m, t) then Some(Goto(m, t, Pushing(WokenProducer(m.threads[t].place.p))))
        else None
      case Stop(t) =>
        if m.threads[t].place.Popping? && m.threads[t].place.c.CCheck? && m.threads[t].place.c.stop
        then Some(Goto(m, t, Popping(CAbandon))) else None
  }

  // ----- mutual exclusion and the inner queue

  /** Positions at which a thread has taken the write mutex, and the read mutex. */
  predicate InPush<T>(place: Place<T>) {
    place.EnteredPush? || place.Pushing?
  }

  predicate InPop<T>(place: Place<T>) {
    place.EnteredPop? || place.Popping?
  }

  /** A thread is inside an end exactly if it owns that end's mutex. */
  ghost predicate Exclusive<T>(m: Shared<T>) {
    && (forall t :: t in m.threads ==> (InPush(m.threads[t].place) <==> m.writeMutex == Some(t)))
    && (forall t :: t in m.threads ==> (InPop(m.threads[t].place) <==> m.readMutex == Some(t)))
    && (m.writeMutex.Some? ==> m.writeMutex.value in m.threads)
    && (m.readMutex.Some? ==> m.readMutex.value in m.threads)
  }

  /** The mutexes of the condition variables are only owned by threads inside the inner queue. */
  ghost predicate OwnersInside<T>(m: Shared<T>, owner: Option<ThreadId>) {
    owner.Some? ==>
      owner.value in m.threads && (m.threads[owner.value].place.Pushing? || m.threads[owner.value].place.Popping?)
  }

  function ProducerAt<T>(m: Shared<T>): ProducerPc<T> {
    if m.writeMutex.Some? && m.writeMutex.value in m.threads && m.threads[m.writeMutex.value].place.Pushing?
    then m.threads[m.writeMutex.value].place.p else PIdle
  }

  function ConsumerAt<T>(m: Shared<T>): ConsumerPc<T> {
    if m.readMutex.Some? && m.readMutex.value in m.threads && m.threads[m.readMutex.value].place.Popping?
    then m.threads[m.readMutex.value].place.c else CIdle
  }

  function OwnerOf<T>(m: Shared<T>, owner: Option<ThreadId>): Owner {
    if owner.None? then Nobody
    else if owner.value in m.threads && m.threads[owner.value].place.Pushing? then Producer
    else Consumer
  }

  /** The inner queue with the owners of the outer mutexes as its producer and consumer. */
  function Inside<T>(m: Shared<T>): State<T> {
    State(m.readIndex, m.writeIndex, m.data, ProducerAt(m), ConsumerAt(m),
          OwnerOf(m, m.producerMutex), OwnerOf(m, m.consumerMutex), m.pushed, m.popped)
  }

  /** The event of the inner queue that a call stands for, if it touches the inner queue. */
  function Inner<T>(m: Shared<T>, e: Call<T>): Option<Event<T>>
    requires e.t in m.threads
  {
    var place := m.threads[e.t].place;
    match e
    case CallPush(_, _, _) => None
    case CallPop(_, _) => None
    case Step(_, _) =>
      (match place
       case EnteredPush(v, mode) => Some(Emplace(v, mode))
       case Pushing(p) => if p.PIdle? then None else Some(ProducerStep)
       case EnteredPop(mode) => Some(Pop(mode))
       case Popping(c) => if c.CIdle? then None else Some(ConsumerStep)
       case _ => None)
    case Wake(_) => Some(if place.Popping? then ConsumerWake else ProducerWake)
    case Stop(_) => Some(ConsumerStop)
  }

  ghost predicate Shape<T>(m: Shared<T>) {
    Exclusive(m) && OwnersInside(m, m.producerMutex) && OwnersInside(m, m.consumerMutex)
  }

  /** Owning an end's mutex, a thread is the inner queue's producer, or its consumer. */
  lemma TheProducer<T>(m: Shared<T>, t: ThreadId)
    requires Exclusive(m) && t in m.threads && InPush(m.threads[t].place)
    ensures m.writeMutex == Some(t) && m.readMutex != Some(t)
    ensures ProducerAt(m) == if m.threads[t].place.Pushing? then m.threads[t].place.p else PIdle
  {
  }

  lemma TheConsumer<T>(m: Shared<T>, t: ThreadId)
    requires Exclusive(m) && t in m.threads && InPop(m.threads[t].place)
    ensures m.readMutex == Some(t) && m.writeMutex != Some(t)
    ensures ConsumerAt(m) == if m.threads[t].place.Popping? then m.threads[t].place.c else CIdle
  {
  }

  /** The producer moves on inside `Emplace`. */
  lemma GotoPush<T>(m: Shared<T>, t: ThreadId, p: ProducerPc<T>)
    requires Shape(m) && t in m.threads && m.threads[t].place.Pushing?
    ensures Shape(Goto(m, t, Pushing(p))) && Inside(Goto(m, t, Pushing(p))) == Inside(m).(producer := p)
  {
    MovesPush(m, Goto(m, t, Pushing(p)), t, p);
    hide Shape, ProducerAt, ConsumerAt;
  }

  lemma GotoPop<T>(m: Shared<T>, t: ThreadId, c: ConsumerPc<T>)
    requires Shape(m) && t in m.threads && m.threads[t].place.Popping?
    ensures Shape(Goto(m, t, Popping(c))) && Inside(Goto(m, t, Popping(c))) == Inside(m).(consumer := c)
  {
    MovesPop(m, Goto(m, t, Popping(c)), t, c);
    hide Shape, ProducerAt, ConsumerAt;
  }

  /** Notifying wakes the inner queue's consumer if it sleeps, and nobody else can be asleep. */
  lemma NotifyConsumerInside<T>(m: Shared<T>, woken: Option<ThreadId>)
    requires Shape(m) && NotifyConsumer(m, woken).Some?
    ensures var m' := NotifyConsumer(m, woken).value;
            Shape(m') && Inside(m') == Inside(m).(consumer := Woken(ConsumerAt(m)))
  {
    if woken.Some? {
      TheConsumer(m, woken.value);
      GotoPop(m, woken.value, Woken(m.threads[woken.value].place.c));
    } else if ConsumerAt(m).CSleep? {
      assert AsleepPop(m, m.readMutex.value);
    }
  }

  lemma NotifyProducerInside<T>(m: Shared<T>, woken: Option<ThreadId>)
    requires Shape(m) && NotifyProducer(m, woken).Some?
    ensures var m' := NotifyProducer(m, woken).value;
            Shape(m') && Inside(m') == Inside(m).(producer := WokenProducer(ProducerAt(m)))
  {
    if woken.Some? {
      TheProducer(m, woken.value);
      GotoPush(m, woken.value, WokenProducer(m.threads[woken.value].place.p));
    } else if ProducerAt(m).PSleep? {
      assert AsleepPush(m, m.writeMutex.value);
    }
  }

  /** `owner` is as it was, or nobody, or thread `t`. */
  predicate Taken(owner: Option<ThreadId>, owner': Option<ThreadId>, t: ThreadId) {
    owner' == owner || owner' == None || owner' == Some(t)
  }

  /** `m'` is `m` after thread `t` has moved to `place` and perhaps changed a condition variable's mutex or the data. */
  ghost predicate Moves<T>(m: Shared<T>, m': Shared<T>, t: ThreadId, place: Place<T>) {
    && t in m.threads && m'.threads.Keys == m.threads.Keys
    && (forall u :: u in m.threads && u != t ==> m'.threads[u] == m.threads[u])
    && m'.threads[t].place == place
    && m'.writeMutex == m.writeMutex && m'.readMutex == m.readMutex
    && Taken(m.producerMutex, m'.producerMutex, t) && Taken(m.consumerMutex, m'.consumerMutex, t)
  }

  /** Who `owner` is once `t`, a producer or a consumer, may have taken or left the mutex. */
  function OwnerAfter<T>(m: Shared<T>, owner': Option<ThreadId>, t: ThreadId, self: Owner): Owner {
    if owner' == Some(t) then self else OwnerOf(m, owner')
  }

  lemma MovesPush<T>(m: Shared<T>, m': Shared<T>, t: ThreadId, p: ProducerPc<T>)
    requires Shape(m) && t in m.threads && m.threads[t].place.Pushing? && Moves(m, m', t, Pushing(p))
    ensures Shape(m') && ProducerAt(m') == p && ConsumerAt(m') == ConsumerAt(m)
    ensures OwnerOf(m', m'.producerMutex) == OwnerAfter(m, m'.producerMutex, t, Producer)
    ensures OwnerOf(m', m'.consumerMutex) == OwnerAfter(m, m'.consumerMutex, t, Producer)
  {
    TheProducer(m, t);
  }

  lemma MovesPop<T>(m: Shared<T>, m': Shared<T>, t: ThreadId, c: ConsumerPc<T>)
    requires Shape(m) && t in m.threads && m.threads[t].place.Popping? && Moves(m, m', t, Popping(c))
    ensures Shape(m') && ConsumerAt(m') == c && ProducerAt(m') == ProducerAt(m)
    ensures OwnerOf(m', m'.producerMutex) == OwnerAfter(m, m'.producerMutex, t, Consumer)
    ensures OwnerOf(m', m'.consumerMutex) == OwnerAfter(m, m'.consumerMutex, t, Consumer)
  {
    TheConsumer(m, t);
  }

  /** A thread's step inside `Emplace` is the inner producer's step. */
  lemma PushStepInside<T>(m: Shared<T>, t: ThreadId, p: ProducerPc<T>, woken: Option<ThreadId>, cap: nat)
    requires Shape(m) && |m.data| == cap > 0 && t in m.threads && m.threads[t].place == Pushing(p) && !p.PIdle?
    requires PushStep(m, t, p, woken, cap).Some?
    ensures Shape(PushStep(m, t, p, woken, cap).value)
    ensures StepProducer(Inside(m), cap) == Some(Inside(PushStep(m, t, p, woken, cap).value))
  {
    TheProducer(m, t);
    var m' := PushStep(m, t, p, woken, cap).value;
    if p.PNotify? {
      GotoPush(m, t, PNotifyUnlock);
      hide Shape, ProducerAt, ConsumerAt, OwnerOf, NotifyConsumer;
      NotifyConsumerInside(Goto(m, t, Pushing(PNotifyUnlock)), woken);
    } else {
      hide Sub, Shape, ProducerAt, ConsumerAt, NotifyConsumer;
      MovesPush(m, m', t, m'.threads[t].place.p);
    }
  }

  lemma PopStepInside<T>(m: Shared<T>, t: ThreadId, c: ConsumerPc<T>, woken: Option<ThreadId>, cap: nat)
    requires Shape(m) && |m.data| == cap > 0 && t in m.threads && m.threads[t].place == Popping(c) && !c.CIdle?
    requires PopStep(m, t, c, woken, cap).Some?
    ensures Shape(PopStep(m, t, c, woken, cap).value)
    ensures StepConsumer(Inside(m), cap) == Some(Inside(PopStep(m, t, c, woken, cap).value))
  {
    TheConsumer(m, t);
    var m' := PopStep(m, t, c, woken, cap).value;
    if c.CNotify? {
      GotoPop(m, t, CNotifyUnlock);
      hide Shape, ProducerAt, ConsumerAt, OwnerOf, NotifyProducer;
      NotifyProducerInside(Goto(m, t, Popping(CNotifyUnlock)), woken);
    } else {
      hide Shape, ProducerAt, ConsumerAt, NotifyProducer;
      MovesPop(m, m', t, m'.threads[t].place.c);
    }
  }

  /** `m'` is `m` with thread `t` at another place outside the inner queue, perhaps taking or leaving an outer mutex. */
  lemma Passes<T>(m: Shared<T>, m': Shared<T>, t: ThreadId)
    requires Shape(m) && t in m.threads && !m.threads[t].place.Pushing? && !m.threads[t].place.Popping?
    requires t in m'.threads && m' == Goto(m, t, m'.threads[t].place).(writeMutex := m'.writeMutex, readMutex := m'.readMutex)
    requires !m'.threads[t].place.Pushing? && !m'.threads[t].place.Popping? && Exclusive(m')
    requires m'.writeMutex == m.writeMutex || (m.writeMutex == None && m'.writeMutex == Some(t))
    requires m'.readMutex == m.readMutex || (m.readMutex == None && m'.readMutex == Some(t))
    ensures Shape(m') && Inside(m') == Inside(m)
  {
  }

  /** Reading the index: the thread becomes the inner producer. */
  lemma EntersPush<T>(m: Shared<T>, t: ThreadId, p: ProducerPc<T>)
    requires Shape(m) && t in m.threads && m.threads[t].place.EnteredPush?
    ensures var m' := Goto(m, t, Pushing(p));
            Shape(m') && Inside(m).producer == PIdle && Inside(m') == Inside(m).(producer := p)
  {
    TheProducer(m, t);
  }

  lemma EntersPop<T>(m: Shared<T>, t: ThreadId, c: ConsumerPc<T>)
    requires Shape(m) && t in m.threads && m.threads[t].place.EnteredPop?
    ensures var m' := Goto(m, t, Popping(c));
            Shape(m') && Inside(m).consumer == CIdle && Inside(m') == Inside(m).(consumer := c)
  {
    TheConsumer(m, t);
  }

  /** Leaving: the thread holds no inner mutex any more. */
  lemma LeavesPush<T>(m: Shared<T>, t: ThreadId)
    requires Shape(m) && MutexesOk(Inside(m)) && t in m.threads && m.threads[t].place == Pushing(PIdle)
    ensures var m' := Goto(m, t, Outside).(writeMutex := None);
            Shape(m') && Inside(m') == Inside(m)
  {
    TheProducer(m, t);
    assert m.producerMutex != Some(t) && m.consumerMutex != Some(t);
  }

  lemma LeavesPop<T>(m: Shared<T>, t: ThreadId)
    requires Shape(m) && MutexesOk(Inside(m)) && t in m.threads && m.threads[t].place == Popping(CIdle)
    ensures var m' := Goto(m, t, Outside).(readMutex := None);
            Shape(m') && Inside(m') == Inside(m)
  {
    TheConsumer(m, t);
    assert m.producerMutex != Some(t) && m.consumerMutex != Some(t);
  }

  /** The call moves the inner queue as its event says, or not at all. */
  ghost predicate Projects<T>(m: Shared<T>, m': Shared<T>, inner: Option<Event<T>>, cap: nat)
    requires |m.data| == cap > 0
  {
    if inner.None? then Inside(m') == Inside(m) else Apply(Inside(m), inner.value, cap) == Some(Inside(m'))
  }

  lemma ThreadStepInside<T>(m: Shared<T>, t: ThreadId, woken: Option<ThreadId>, cap: nat)
    requires Shape(m) && MutexesOk(Inside(m)) && |m.data| == cap > 0 && t in m.threads && ThreadStep(m, t, woken, cap).Some?
    ensures Shape(ThreadStep(m, t, woken, cap).value)
    ensures Projects(m, ThreadStep(m, t, woken, cap).value, Inner(m, Step(t, woken)), cap)
  {
    var m' := ThreadStep(m, t, woken, cap).value;
    match m.threads[t].place {
      case WaitWrite(v, mode) => Passes(m, m', t);
      case EnteredPush(v, mode) =>
        hide Shape, Inside, MutexesOk;
        EntersPush(m, t, m'.threads[t].place.p);
      case Pushing(p) =>
        if p.PIdle? {
          LeavesPush(m, t);
        } else {
          hide Shape, Inside, PushStep, MutexesOk;
          PushStepInside(m, t, p, woken, cap);
        }
      case WaitRead(mode) => Passes(m, m', t);
      case EnteredPop(mode) =>
        hide Shape, Inside, MutexesOk;
        EntersPop(m, t, m'.threads[t].place.c);
      case Popping(c) =>
        if c.CIdle? {
          LeavesPop(m, t);
        } else {
          hide Shape, Inside, PopStep, MutexesOk;
          PopStepInside(m, t, c, woken, cap);
        }
    }
  }

  /** Mutual exclusion is kept, and every call projects to the inner queue. */
  lemma NextInside<T>(m: Shared<T>, e: Call<T>, cap: nat)
    requires Shape(m) && MutexesOk(Inside(m)) && |m.data| == cap > 0 && Next(m, e, cap).Some?
    ensures e.t in m.threads && Shape(Next(m, e, cap).value) && Projects(m, Next(m, e, cap).value, Inner(m, e), cap)
  {
    var t, m' := e.t, Next(m, e, cap).value;
    match e {
      case CallPush(_, _, _) => Passes(m, m', t);
      case CallPop(_, _) => Passes(m, m', t);
      case Step(_, woken) => ThreadStepInside(m, t, woken, cap);
      case Wake(_) =>
        if AsleepPop(m, t) {
          TheConsumer(m, t);
          GotoPop(m, t, Woken(m.threads[t].place.c));
        } else {
          TheProducer(m, t);
          GotoPush(m, t, WokenProducer(m.threads[t].place.p));
        }
      case Stop(_) =>
        TheConsumer(m, t);
        GotoPop(m, t, CAbandon);
    }
  }

  // ----- who sent and got what

  /** The values that thread `t` is responsible for, in order. */
  function ByThread<T>(values: seq<T>, who: seq<ThreadId>, t: ThreadId): seq<T>
    requires |values| == |who|
  {
    if values == [] then []
    else
      var n := |values| - 1;
      ByThread(values[..n], who[..n], t) + if who[n] == t then [values[n]] else []
  }

  lemma ByThreadSnoc<T>(values: seq<T>, who: seq<ThreadId>, v: T, u: ThreadId, t: ThreadId)
    requires |values| == |who|
    ensures ByThread(values + [v], who + [u], t) == ByThread(values, who, t) + if u == t then [v] else []
  {
    assert (values + [v])[..|values|] == values && (who + [u])[..|who|] == who;
  }

  /** Each thread's own record agrees with the history of the queue. */
  ghost predicate Logged<T>(m: Shared<T>) {
    && |m.pushedBy| == |m.pushed| && |m.poppedBy| == |m.popped|
    && (forall t :: t in m.threads ==> m.threads[t].sent == ByThread(m.pushed, m.pushedBy, t))
    && (forall t :: t in m.threads ==> m.threads[t].got == ByThread(m.popped, m.poppedBy, t))
  }

  /** Records and history stay, or one thread's grow by one value together. */
  ghost predicate Grows<T>(m: Shared<T>, m': Shared<T>, t: ThreadId) {
    && t in m.threads && m'.threads.Keys == m.threads.Keys
    && (forall u :: u in m.threads && u != t ==> m'.threads[u].sent == m.threads[u].sent && m'.threads[u].got == m.threads[u].got)
    && var th, th' := m.threads[t], m'.threads[t];
       || (m'.pushed == m.pushed && m'.pushedBy == m.pushedBy && m'.popped == m.popped && m'.poppedBy == m.poppedBy
           && th'.sent == th.sent && th'.got == th.got)
       || (th'.got == th.got && m'.popped == m.popped && m'.poppedBy == m.poppedBy
           && |th'.sent| > 0 && var v := th'.sent[|th'.sent| - 1];
              th'.sent == th.sent + [v] && m'.pushed == m.pushed + [v] && m'.pushedBy == m.pushedBy + [t])
       || (th'.sent == th.sent && m'.pushed == m.pushed && m'.pushedBy == m.pushedBy
           && |th'.got| > 0 && var v := th'.got[|th'.got| - 1];
              th'.got == th.got + [v] && m'.popped == m.popped + [v] && m'.poppedBy == m.poppedBy + [t])
  }

  lemma PushStepGrows<T>(m: Shared<T>, t: ThreadId, p: ProducerPc<T>, woken: Option<ThreadId>, cap: nat)
    requires |m.data| == cap > 0 && t in m.threads && PushStep(m, t, p, woken, cap).Some?
    ensures Grows(m, PushStep(m, t, p, woken, cap).value, t)
  {
    hide Sub;
  }

  lemma PopStepGrows<T>(m: Shared<T>, t: ThreadId, c: ConsumerPc<T>, woken: Option<ThreadId>, cap: nat)
    requires |m.data| == cap > 0 && t in m.threads && PopStep(m, t, c, woken, cap).Some?
    ensures Grows(m, PopStep(m, t, c, woken, cap).value, t)
  {
  }

  lemma NextGrows<T>(m: Shared<T>, e: Call<T>, cap: nat)
    requires |m.data| == cap > 0 && Next(m, e, cap).Some?
    ensures Grows(m, Next(m, e, cap).value, e.t)
  {
    hide PushStep, PopStep;
    var place := m.threads[e.t].place;
    if e.Step? && place.Pushing? {
      PushStepGrows(m, e.t, place.p, e.woken, cap);
    } else if e.Step? && place.Popping? {
      PopStepGrows(m, e.t, place.c, e.woken, cap);
    }
  }

  lemma GrowsLogged<T>(m: Shared<T>, m': Shared<T>, t: ThreadId)
    requires Logged(m) && Grows(m, m', t)
    ensures Logged(m')
  {
    if m'.pushed != m.pushed {
      var v :| m'.pushed == m.pushed + [v];
      forall u | u in m'.threads ensures m'.threads[u].sent == ByThread(m'.pushed, m'.pushedBy, u) {
        ByThreadSnoc(m.pushed, m.pushedBy, v, t, u);
      }
    } else if m'.popped != m.popped {
      var v :| m'.popped == m.popped + [v];
      forall u | u in m'.threads ensures m'.threads[u].got == ByThread(m'.popped, m'.poppedBy, u) {
        ByThreadSnoc(m.popped, m.poppedBy, v, t, u);
      }
    }
  }

  // ----- runs

  ghost predicate SharedInv<T>(m: Shared<T>, cap: nat) {
    |m.data| == cap > 0 && Shape(m) && Logged(m) && Inv(Inside(m), cap)
  }

  lemma NextInv<T>(m: Shared<T>, e: Call<T>, cap: nat)
    requires CapacityOk(cap) && SharedInv(m, cap) && Next(m, e, cap).Some?
    ensures SharedInv(Next(m, e, cap).value, cap)
  {
    var m', s := Next(m, e, cap).value, Inside(m);
    InvFacts(s, cap);
    assert Inside(m').data == m'.data;
    hide Inv, Shape, Logged, Inside, MutexesOk, Next;
    NextInside(m, e, cap);
    NextGrows(m, e, cap);
    GrowsLogged(m, m', e.t);
    if Inner(m, e).Some? {
      StepInv(s, Inner(m, e).value, cap);
    }
    InvFacts(Inside(m'), cap);
  }

  lemma InvFacts<T>(s: State<T>, cap: nat)
    requires Inv(s, cap)
    ensures MutexesOk(s) && |s.data| == cap > 0
  {
  }

  ghost predicate IsSharedRun<T>(run: seq<Shared<T>>, calls: seq<Call<T>>, cap: nat) {
    && |run| == |calls| + 1 && cap > 0 && InitShared(run[0], cap)
    && forall i :: 0 <= i < |calls| ==>
         |run[i].data| == cap && Next(run[i], calls[i], cap) == Some(run[i + 1])
  }

  lemma InitSharedInv<T>(m: Shared<T>, cap: nat)
    requires CapacityOk(cap) && cap > 0 && InitShared(m, cap)
    ensures SharedInv(m, cap) && Init(Inside(m), cap)
  {
    InitInv(Inside(m), cap);
  }

  /** In every state of every run of any number of threads. */
  lemma {:induction false} SharedRunInv<T>(run: seq<Shared<T>>, calls: seq<Call<T>>, cap: nat, i: nat)
    requires CapacityOk(cap) && IsSharedRun(run, calls, cap) && i < |run|
    ensures SharedInv(run[i], cap)
  {
    hide SharedInv, Next, InitShared;
    if i == 0 {
      InitSharedInv(run[0], cap);
    } else {
      SharedRunInv(run, calls, cap, i - 1);
      assert Next(run[i - 1], calls[i - 1], cap) == Some(run[i - 1 + 1]);
      NextInv(run[i - 1], calls[i - 1], cap);
    }
  }

  /** Every run is, on the inner queue, a run of one producer and one consumer. */
  lemma {:induction false} SharedRunProjects<T>(run: seq<Shared<T>>, calls: seq<Call<T>>, cap: nat, i: nat)
    returns (inner: seq<State<T>>, events: seq<Event<T>>)
    requires CapacityOk(cap) && IsSharedRun(run, calls, cap) && i < |run|
    ensures IsRun(inner, events, cap) && |events| <= i && inner[|events|] == Inside(run[i])
  {
    hide SharedInv, Next, Shape, InitShared, Inner, Apply, Inside, Init;
    if i == 0 {
      InitSharedInv(run[0], cap);
      inner, events := [Inside(run[0])], [];
    } else {
      var m, e := run[i - 1], calls[i - 1];
      inner, events := SharedRunProjects(run, calls, cap, i - 1);
      SharedRunInv(run, calls, cap, i - 1);
      SharedFacts(m, cap);
      assert Next(m, e, cap) == Some(run[i - 1 + 1]);
      NextInside(m, e, cap);
      if Inner(m, e).Some? {
        RunSnoc(inner, events, Inner(m, e).value, Inside(run[i]), cap);
        inner, events := inner + [Inside(run[i])], events + [Inner(m, e).value];
      }
    }
  }

  lemma SharedFacts<T>(m: Shared<T>, cap: nat)
    requires SharedInv(m, cap)
    ensures Shape(m) && MutexesOk(Inside(m)) && |m.data| == |Inside(m).data| == cap > 0
  {
    hide Shape, Logged;
  }

  lemma RunSnoc<T>(run: seq<State<T>>, events: seq<Event<T>>, e: Event<T>, s: State<T>, cap: nat)
    requires IsRun(run, events, cap) && |run[|events|].data| == cap && Apply(run[|events|], e, cap) == Some(s)
    ensures IsRun(run + [s], events + [e], cap)
  {
    hide Apply, Init;
    var run', events' := run + [s], events + [e];
    forall i | 0 <= i < |events'| ensures |run'[i].data| == cap && Apply(run'[i], events'[i], cap) == Some(run'[i + 1]) {
      if i < |events| { assert Apply(run[i], events[i], cap) == Some(run[i + 1]); }
    }
  }

  /** At most one thread is inside each end, and the slot one of them writes is not the slot another one reads. */
  ghost predicate Separate<T>(m: Shared<T>, cap: nat)
    requires cap > 0
  {
    forall t, u :: t in m.threads && u in m.threads ==>
      var a, b := m.threads[t].place, m.threads[u].place;
      && (t != u ==> !(InPush(a) && InPush(b)) && !(InPop(a) && InPop(b)))
      && (a.Pushing? && a.p.PWrite? && b.Popping? && b.c.CRead? ==> a.p.wi % cap != b.c.ri % cap)
  }

  /** Taken together the consumers got, in order, a prefix of what the producers sent, each in its own order. */
  ghost predicate Delivered<T>(m: Shared<T>, cap: nat) {
    Logged(m) && m.popped <= m.pushed && |m.pushed| - |m.popped| <= cap
  }

  /** Safety in every run: exclusion at both ends, bounds, and delivery of every thread's values. */
  lemma SharedRunSafe<T>(run: seq<Shared<T>>, calls: seq<Call<T>>, cap: nat, i: nat)
    requires CapacityOk(cap) && IsSharedRun(run, calls, cap) && i < |run|
    ensures cap > 0 && Separate(run[i], cap) && Delivered(run[i], cap)
  {
    SharedRunInv(run, calls, cap, i);
    var m := run[i];
    InvSafe(Inside(m), cap);
    hide Inv, Logged;
    forall t, u | t in m.threads && u in m.threads
      ensures var a, b := m.threads[t].place, m.threads[u].place;
              && (t != u ==> !(InPush(a) && InPush(b)) && !(InPop(a) && InPop(b)))
              && (a.Pushing? && a.p.PWrite? && b.Popping? && b.c.CRead? ==> a.p.wi % cap != b.c.ri % cap)
    {
      if InPush(m.threads[t].place) { TheProducer(m, t); }
      if InPop(m.threads[u].place) { TheConsumer(m, u); }
    }
  }

  /** Thread `t` is on its way to notify the other end. */
  predicate Notifying<T>(place: Place<T>) {
    (place.Pushing? && (place.p.PNotifyLock? || place.p.PNotify?)) || (place.Popping? && (place.c.CNotifyLock? || place.c.CNotify?))
  }

  /** No wake-up is lost: a thread that sleeps, or is about to, although it could go on is about to be notified. */
  lemma SharedRunWakesUp<T>(run: seq<Shared<T>>, calls: seq<Call<T>>, cap: nat, i: nat, t: ThreadId) returns (u: ThreadId)
    requires CapacityOk(cap) && IsSharedRun(run, calls, cap) && i < |run| && t in run[i].threads
    requires var place := run[i].threads[t].place;
             || (place.Popping? && (place.c.CBlock? || place.c.CSleep?) && |run[i].popped| < |run[i].pushed|)
             || (place.Pushing? && (place.p.PBlock? || place.p.PSleep?) && |run[i].pushed| - |run[i].popped| < cap)
    ensures u in run[i].threads && Notifying(run[i].threads[u].place)
    ensures run[i].threads[t].place.Popping? <==> run[i].threads[u].place.Pushing?
  {
    SharedRunInv(run, calls, cap, i);
    var m := run[i];
    if m.threads[t].place.Popping? {
      TheConsumer(m, t);
      u := m.writeMutex.value;
    } else {
      TheProducer(m, t);
      u := m.readMutex.value;
    }
  }

  /** A thread with no step to take: outside, asleep for a reason, or behind a thread that is. */
  ghost predicate Resting<T>(m: Shared<T>, t: ThreadId, cap: nat)
    requires t in m.threads
  {
    match m.threads[t].place
    case Outside => true
    case WaitWrite(_, _) => m.writeMutex.Some? && AsleepPush(m, m.writeMutex.value) && |m.pushed| - |m.popped| == cap
    case WaitRead(_) => m.readMutex.Some? && AsleepPop(m, m.readMutex.value) && |m.pushed| == |m.popped|
    case Pushing(p) => p.PSleep? && |m.pushed| - |m.popped| == cap
    case Popping(c) => c.CSleep? && |m.pushed| == |m.popped|
    case _ => false
  }

  /** The thread that stands for the inner producer can take that step, waking whom it must. */
  lemma ProducerLifts<T>(m: Shared<T>, cap: nat) returns (u: ThreadId, woken: Option<ThreadId>)
    requires |m.data| == cap > 0 && StepProducer(Inside(m), cap).Some?
    ensures u in m.threads && ThreadStep(m, u, woken, cap).Some?
  {
    u, woken := m.writeMutex.value, None;
    var m1 := Goto(m, u, Pushing(PNotifyUnlock));
    if m.threads[u].place.p.PNotify? && exists x :: AsleepPop(m1, x) {
      var x :| AsleepPop(m1, x);
      woken := Some(x);
    }
    hide Sub;
  }

  lemma ConsumerLifts<T>(m: Shared<T>, cap: nat) returns (u: ThreadId, woken: Option<ThreadId>)
    requires |m.data| == cap > 0 && StepConsumer(Inside(m), cap).Some?
    ensures u in m.threads && ThreadStep(m, u, woken, cap).Some?
  {
    u, woken := m.readMutex.value, None;
    var m1 := Goto(m, u, Popping(CNotifyUnlock));
    if m.threads[u].place.c.CNotify? && exists x :: AsleepPush(m1, x) {
      var x :| AsleepPush(m1, x);
      woken := Some(x);
    }
  }

  /** A thread that is not at rest either steps itself or shows that the inner queue is not quiet. */
  lemma Restless<T>(m: Shared<T>, t: ThreadId, cap: nat) returns (u: ThreadId)
    requires |m.data| == cap > 0 && Exclusive(m) && t in m.threads && !Resting(m, t, cap)
    ensures u in m.threads && (ThreadStep(m, u, None, cap).Some? || !Quiet(Inside(m), cap))
  {
    u := t;
    var place := m.threads[t].place;
    if place.WaitWrite? && m.writeMutex.Some? {
      u := m.writeMutex.value;
    } else if place.WaitRead? && m.readMutex.Some? {
      u := m.readMutex.value;
    }
    if InPush(m.threads[u].place) {
      TheProducer(m, u);
    } else if InPop(m.threads[u].place) {
      TheConsumer(m, u);
    }
  }

  /** No deadlock in any run: if any thread is not at rest, some thread can take a step. */
  lemma SharedRunProgress<T>(run: seq<Shared<T>>, calls: seq<Call<T>>, cap: nat, i: nat, t: ThreadId)
    returns (u: ThreadId, woken: Option<ThreadId>)
    requires CapacityOk(cap) && IsSharedRun(run, calls, cap) && i < |run| && t in run[i].threads && !Resting(run[i], t, cap)
    ensures |run[i].data| == cap > 0 && u in run[i].threads && ThreadStep(run[i], u, woken, cap).Some?
  {
    var m := run[i];
    SharedRunInv(run, calls, cap, i);
    hide Inv, Logged, Inside, ThreadStep, StepProducer, StepConsumer, Quiet, Resting;
    u := Restless(m, t, cap);
    woken := None;
    if !Quiet(Inside(m), cap) {
      InvProgress(Inside(m), cap);
      if StepProducer(Inside(m), cap).Some? {
        u, woken := ProducerLifts(m, cap);
      } else {
        u, woken := ConsumerLifts(m, cap);
      }
    }
  }
}
