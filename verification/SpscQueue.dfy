/**
 The single-producer single-consumer queue: `Emplace` and `Pop` cut into their atomic steps, run in any
 interleaving.  Indices are 64-bit and wrap; both sides sleep on condition variables.
 */
module SpscQueue {
  import opened Basics

  const WORD: nat := 0x1_0000_0000_0000_0000

  /** `Capacity` is a power of two that fits a 64-bit size. */
  ghost predicate CapacityOk(cap: nat) {
    exists k: nat :: k < 64 && cap == TwoToThe(k)
  }

  /** Unsigned 64-bit subtraction. */
  function Sub(x: nat, y: nat): nat {
    (x + WORD - y % WORD) % WORD
  }

  // ----- state

  datatype Owner = Nobody | Producer | Consumer

  /** Where the producer is inside `Emplace`; `wi` is its local copy of the write index. */
  datatype ProducerPc<T> =
    | PIdle
    | PTry(v: T, wi: nat)
    | PLock(v: T, wi: nat)
    | PCheck(v: T, wi: nat)
    | PBlock(v: T, wi: nat)
    | PSleep(v: T, wi: nat)
    | PUnlock(v: T, wi: nat)
    | PWrite(v: T, wi: nat)
    | PIncrement(v: T, wi: nat)
    | PNotifyLock
    | PNotify
    | PNotifyUnlock

  /** Where the consumer is inside `Pop`; `stop` marks the form with a stop token. */
  datatype ConsumerPc<T> =
    | CIdle
    | CTry(ri: nat)
    | CLock(ri: nat, stop: bool)
    | CCheck(ri: nat, stop: bool)
    | CBlock(ri: nat, stop: bool)
    | CSleep(ri: nat, stop: bool)
    | CUnlock(ri: nat)
    | CAbandon
    | CRead(ri: nat)
    | CIncrement(v: T, ri: nat)
    | CNotifyLock
    | CNotify
    | CNotifyUnlock

  /** The queue object, both threads, and the history of values pushed and popped. */
  datatype State<T> = State(
    readIndex: nat, writeIndex: nat, data: seq<T>,
    producer: ProducerPc<T>, consumer: ConsumerPc<T>,
    producerMutex: Owner, consumerMutex: Owner,
    pushed: seq<T>, popped: seq<T>)

  datatype PushMode = TryPush | WaitPush

  datatype PopMode = TryPop | WaitPop | StopPop

  /** A scheduler's choice.  `Wake` is a spurious wake-up, `Stop` a stop request seen by the waiting consumer. */
  datatype Event<T> =
    | Emplace(v: T, push: PushMode)
    | Pop(pop: PopMode)
    | ProducerStep
    | ConsumerStep
    | ProducerWake
    | ConsumerWake
    | ConsumerStop

  ghost predicate Init<T>(s: State<T>, cap: nat) {
    && s.readIndex == s.writeIndex == 0 && |s.data| == cap
    && s.producer == PIdle && s.consumer == CIdle
    && s.producerMutex == s.consumerMutex == Nobody
    && s.pushed == s.popped == []
  }

  /** One atomic step of `Emplace`; `None` while the producer has to wait. */
  function StepProducer<T>(s: State<T>, cap: nat): Option<State<T>>
    requires |s.data| == cap > 0
  {
    match s.producer
    case PIdle => None
    case PTry(v, wi) =>
      if Sub(wi, s.readIndex) == cap then Some(s.(producer := PIdle))
      else Some(s.(producer := PWrite(v, wi)))
    case PLock(v, wi) =>
      if s.producerMutex == Nobody then Some(s.(producer := PCheck(v, wi), producerMutex := Producer)) else None
    case PCheck(v, wi) =>
      if Sub(wi, s.readIndex) < cap then Some(s.(producer := PUnlock(v, wi)))
      else Some(s.(producer := PBlock(v, wi)))
    case PBlock(v, wi) => Some(s.(producer := PSleep(v, wi), producerMutex := Nobody))
    case PSleep(v, wi) => None
    case PUnlock(v, wi) => Some(s.(producer := PWrite(v, wi), producerMutex := Nobody))
    case PWrite(v, wi) => Some(s.(producer := PIncrement(v, wi), data := s.data[wi % cap := v]))
    case PIncrement(v, wi) =>
      Some(s.(producer := PNotifyLock, writeIndex := (s.writeIndex + 1) % WORD, pushed := s.pushed + [v]))
    case PNotifyLock =>
      if s.consumerMutex == Nobody then Some(s.(producer := PNotify, consumerMutex := Producer)) else None
    case PNotify =>
      Some(s.(producer := PNotifyUnlock, consumer := Woken(s.consumer)))
    case PNotifyUnlock => Some(s.(producer := PIdle, consumerMutex := Nobody))
  }

  /** `consumer_cv.notify_one()`: a sleeping consumer goes back to taking its mutex. */
  function Woken<T>(c: ConsumerPc<T>): ConsumerPc<T> {
    if c.CSleep? then CLock(c.ri, c.stop) else c
  }

  /** `producer_cv.notify_one()`. */
  function WokenProducer<T>(p: ProducerPc<T>): ProducerPc<T> {
    if p.PSleep? then PLock(p.v, p.wi) else p
  }

  /** One atomic step of `Pop`; `None` while the consumer has to wait. */
  function StepConsumer<T>(s: State<T>, cap: nat): Option<State<T>>
    requires |s.data| == cap > 0
  {
    match s.consumer
    case CIdle => None
    case CTry(ri) =>
      if ri == s.writeIndex then Some(s.(consumer := CIdle)) else Some(s.(consumer := CRead(ri)))
    case CLock(ri, stop) =>
      if s.consumerMutex == Nobody then Some(s.(consumer := CCheck(ri, stop), consumerMutex := Consumer)) else None
    case CCheck(ri, stop) =>
      if ri != s.writeIndex then Some(s.(consumer := CUnlock(ri))) else Some(s.(consumer := CBlock(ri, stop)))
    case CBlock(ri, stop) => Some(s.(consumer := CSleep(ri, stop), consumerMutex := Nobody))
    case CSleep(ri, stop) => None
    case CUnlock(ri) => Some(s.(consumer := CRead(ri), consumerMutex := Nobody))
    case CAbandon => Some(s.(consumer := CIdle, consumerMutex := Nobody))
    case CRead(ri) => Some(s.(consumer := CIncrement(s.data[ri % cap], ri)))
    case CIncrement(v, ri) =>
      Some(s.(consumer := CNotifyLock, readIndex := (s.readIndex + 1) % WORD, popped := s.popped + [v]))
    case CNotifyLock =>
      if s.producerMutex == Nobody then Some(s.(consumer := CNotify, producerMutex := Consumer)) else None
    case CNotify => Some(s.(consumer := CNotifyUnlock, producer := WokenProducer(s.producer)))
    case CNotifyUnlock => Some(s.(consumer := CIdle, producerMutex := Nobody))
  }

  /** The state after an event, or `None` if the event cannot happen now. */
  function Apply<T>(s: State<T>, e: Event<T>, cap: nat): Option<State<T>>
    requires |s.data| == cap > 0
  {
    match e
    case Emplace(v, mode) =>
      if s.producer != PIdle then None
      else if mode == TryPush then Some(s.(producer := PTry(v, s.writeIndex)))
      else Some(s.(producer := PLock(v, s.writeIndex)))
    case Pop(mode) =>
      if s.consumer != CIdle then None
      else if mode == TryPop then Some(s.(consumer := CTry(s.readIndex)))
      else Some(s.(consumer := CLock(s.readIndex, mode == StopPop)))
    case ProducerStep => StepProducer(s, cap)
    case ConsumerStep => StepConsumer(s, cap)
    case ProducerWake => if s.producer.PSleep? then Some(s.(producer := WokenProducer(s.producer))) else None
    case ConsumerWake => if s.consumer.CSleep? then Some(s.(consumer := Woken(s.consumer))) else None
    case ConsumerStop =>
      if s.consumer.CCheck? && s.consumer.stop then Some(s.(consumer := CAbandon)) else None
  }

  // ----- modular arithmetic

  lemma ModUnique(a: int, c: int, x: int, r: int)
    requires 0 <= r < c && a == c * x + r
    ensures a % c == r
  {
    var y := a / c;
    assert a == c * y + a % c;
    assert c * (x - y) == a % c - r;
    if x > y { MulAtLeast(c, x - y); } else if x < y { MulAtLeast(c, y - x); }
  }

  lemma MulAtLeast(c: int, k: int)
    requires c > 0 && k >= 1
    ensures c * k >= c
  {
  }

  lemma {:induction false} TwoToTheSum(a: nat, b: nat)
    ensures TwoToThe(a + b) == TwoToThe(a) * TwoToThe(b)
  {
    if a > 0 {
      TwoToTheSum(a - 1, b);
      assert TwoToThe(a + b) == 2 * (TwoToThe(a - 1) * TwoToThe(b)) == (2 * TwoToThe(a - 1)) * TwoToThe(b);
    }
  }

  lemma TwoToTheWord()
    ensures TwoToThe(64) == WORD
  {
    assert TwoToThe(8) == 0x100;
    TwoToTheSum(8, 8);
    TwoToTheSum(16, 16);
    TwoToTheSum(32, 32);
  }

  /** The capacity divides the index range and is smaller than it. */
  lemma CapacityDivides(cap: nat) returns (q: nat)
    requires CapacityOk(cap)
    ensures 0 < cap < WORD && cap * q == WORD
  {
    var k: nat :| k < 64 && cap == TwoToThe(k);
    TwoToTheSum(k, 64 - k);
    TwoToTheWord();
    q := TwoToThe(64 - k);
    assert q >= 2;
    if cap >= WORD { MulAtLeast(cap, q - 1); }
  }

  /** Wrapping an index does not change its slot. */
  lemma SlotOfWrapped(n: nat, cap: nat)
    requires CapacityOk(cap)
    ensures n % WORD % cap == n % cap
  {
    var q := CapacityDivides(cap);
    var m := n % WORD;
    var x := n / WORD;
    assert n == WORD * x + m;
    assert WORD * x == cap * (q * x);
    var y, r := m / cap, m % cap;
    assert m == cap * y + r;
    assert n == cap * (q * x + y) + r;
    ModUnique(n, cap, q * x + y, r);
  }

  /** The wrapped difference of wrapped indices is the true difference. */
  lemma SubOfWrapped(p: nat, q: nat)
    requires q <= p < q + WORD
    ensures Sub(p % WORD, q % WORD) == p - q
  {
    var x, y := p / WORD, q / WORD;
    assert p == WORD * x + p % WORD && q == WORD * y + q % WORD;
    var a := p % WORD + WORD - q % WORD;
    assert a == p - q + WORD * (1 + y - x);
    ModUnique(a, WORD, 1 + y - x, p - q);
  }

  lemma WrapStep(n: nat)
    ensures (n % WORD + 1) % WORD == (n + 1) % WORD
  {
  }

  /** Positions less than a capacity apart have different slots. */
  lemma SlotsDiffer(n: nat, m: nat, cap: nat)
    requires 0 < cap && n < m < n + cap
    ensures n % cap != m % cap
  {
    if n % cap == m % cap {
      var x, y := n / cap, m / cap;
      assert n == cap * x + n % cap && m == cap * y + m % cap;
      assert m - n == cap * (y - x);
      if y > x { MulAtLeast(cap, y - x); }
    }
  }

  // ----- what every step keeps

  function Used<T>(s: State<T>): int {
    |s.pushed| - |s.popped|
  }

  /** The indices count the pushes and pops, and the queue is neither over- nor underfull. */
  ghost predicate Counted<T>(s: State<T>, cap: nat) {
    && |s.data| == cap
    && s.writeIndex == |s.pushed| % WORD && s.readIndex == |s.popped| % WORD
    && s.popped <= s.pushed && Used(s) <= cap
  }

  /** Every value pushed and not yet popped is in its slot. */
  ghost predicate Stored<T>(s: State<T>, cap: nat)
    requires |s.data| == cap > 0
  {
    forall n :: |s.popped| <= n < |s.pushed| ==> s.data[n % cap] == s.pushed[n]
  }

  predicate HasRoom<T>(p: ProducerPc<T>) {
    p.PUnlock? || p.PWrite? || p.PIncrement?
  }

  predicate HasValue<T>(c: ConsumerPc<T>) {
    c.CUnlock? || c.CRead? || c.CIncrement?
  }

  predicate HasIndex<T>(p: ProducerPc<T>) {
    p.PTry? || p.PLock? || p.PCheck? || p.PBlock? || p.PSleep? || HasRoom(p)
  }

  predicate HasReadIndex<T>(c: ConsumerPc<T>) {
    c.CTry? || c.CLock? || c.CCheck? || c.CBlock? || c.CSleep? || HasValue(c)
  }

  /** The producer's local copy is current, and past its check there is room. */
  ghost predicate ProducerOk<T>(s: State<T>, cap: nat)
    requires |s.data| == cap > 0
  {
    && (HasIndex(s.producer) ==> s.producer.wi == s.writeIndex)
    && (HasRoom(s.producer) ==> Used(s) < cap)
    && (s.producer.PIncrement? ==> s.data[|s.pushed| % cap] == s.producer.v)
  }

  /** The consumer's local copy is current, past its check there is a value, and past its read it holds it. */
  ghost predicate ConsumerOk<T>(s: State<T>) {
    && (HasReadIndex(s.consumer) ==> s.consumer.ri == s.readIndex)
    && (HasValue(s.consumer) ==> Used(s) > 0)
    && (s.consumer.CIncrement? ==> Used(s) > 0 && s.consumer.v == s.pushed[|s.popped|])
  }

  /** A mutex is owned exactly by the thread whose position says so. */
  ghost predicate MutexesOk<T>(s: State<T>) {
    var p, c := s.producer, s.consumer;
    && (s.producerMutex == Producer <==> p.PCheck? || p.PBlock? || p.PUnlock?)
    && (s.producerMutex == Consumer <==> c.CNotify? || c.CNotifyUnlock?)
    && (s.consumerMutex == Consumer <==> c.CCheck? || c.CBlock? || c.CUnlock? || c.CAbandon?)
    && (s.consumerMutex == Producer <==> p.PNotify? || p.PNotifyUnlock?)
  }

  /** A side that decided to sleep although it could go on has a notification coming. */
  ghost predicate NoLostWakeUp<T>(s: State<T>, cap: nat) {
    && ((s.consumer.CBlock? || s.consumer.CSleep?) && Used(s) > 0 ==> s.producer.PNotifyLock? || s.producer.PNotify?)
    && ((s.producer.PBlock? || s.producer.PSleep?) && Used(s) < cap ==> s.consumer.CNotifyLock? || s.consumer.CNotify?)
  }

  ghost predicate Inv<T>(s: State<T>, cap: nat) {
    && cap > 0 && Counted(s, cap) && Stored(s, cap) && ProducerOk(s, cap) && ConsumerOk(s)
    && MutexesOk(s) && NoLostWakeUp(s, cap)
  }

  /** Under the invariant both sides' index comparisons decide the true fill level. */
  lemma ChecksAreExact<T>(s: State<T>, cap: nat)
    requires CapacityOk(cap) && Counted(s, cap)
    ensures Sub(s.writeIndex, s.readIndex) == Used(s)
    ensures s.readIndex == s.writeIndex <==> Used(s) == 0
  {
    var q := CapacityDivides(cap);
    SubOfWrapped(|s.pushed|, |s.popped|);
    SubOfWrapped(|s.popped|, |s.popped|);
  }

  lemma InitInv<T>(s: State<T>, cap: nat)
    requires CapacityOk(cap) && Init(s, cap)
    ensures Inv(s, cap)
  {
    var q := CapacityDivides(cap);
  }

  /** Writing the slot of the next push keeps all stored values. */
  lemma WriteKeepsStored<T>(s: State<T>, cap: nat, v: T)
    requires CapacityOk(cap) && |s.data| == cap > 0 && Counted(s, cap) && Stored(s, cap) && Used(s) < cap
    ensures s.writeIndex % cap == |s.pushed| % cap
    ensures Stored(s.(data := s.data[|s.pushed| % cap := v]), cap)
  {
    SlotOfWrapped(|s.pushed|, cap);
    forall n | |s.popped| <= n < |s.pushed| ensures n % cap != |s.pushed| % cap {
      SlotsDiffer(n, |s.pushed|, cap);
    }
  }

  lemma ProducerStepInv<T>(s: State<T>, cap: nat)
    requires CapacityOk(cap) && Inv(s, cap) && StepProducer(s, cap).Some?
    ensures Inv(StepProducer(s, cap).value, cap)
  {
    ChecksAreExact(s, cap);
    WrapStep(|s.pushed|);
    if s.producer.PWrite? {
      WriteKeepsStored(s, cap, s.producer.v);
    }
  }

  lemma ConsumerCheckInv<T>(s: State<T>, cap: nat)
    requires CapacityOk(cap) && Inv(s, cap) && StepConsumer(s, cap).Some?
    requires s.consumer.CTry? || s.consumer.CLock? || s.consumer.CCheck? || s.consumer.CBlock? || s.consumer.CRead?
    ensures Inv(StepConsumer(s, cap).value, cap)
  {
    ChecksAreExact(s, cap);
    SlotOfWrapped(|s.popped|, cap);
  }

  lemma ConsumerStepInv<T>(s: State<T>, cap: nat)
    requires CapacityOk(cap) && Inv(s, cap) && StepConsumer(s, cap).Some?
    ensures Inv(StepConsumer(s, cap).value, cap)
  {
    if s.consumer.CTry? || s.consumer.CLock? || s.consumer.CCheck? || s.consumer.CBlock? || s.consumer.CRead? {
      ConsumerCheckInv(s, cap);
    } else {
      WrapStep(|s.popped|);
    }
  }

  lemma StepInv<T>(s: State<T>, e: Event<T>, cap: nat)
    requires CapacityOk(cap) && Inv(s, cap) && Apply(s, e, cap).Some?
    ensures Inv(Apply(s, e, cap).value, cap)
  {
    match e
    case ProducerStep => ProducerStepInv(s, cap);
    case ConsumerStep => ConsumerStepInv(s, cap);
    case _ =>
  }

  // ----- what holds in every run

  /** The states a schedule passes through. */
  ghost predicate IsRun<T>(run: seq<State<T>>, events: seq<Event<T>>, cap: nat) {
    && |run| == |events| + 1 && cap > 0 && Init(run[0], cap)
    && forall i :: 0 <= i < |events| ==>
         |run[i].data| == cap && Apply(run[i], events[i], cap) == Some(run[i + 1])
  }

  lemma {:induction false} RunInv<T>(run: seq<State<T>>, events: seq<Event<T>>, cap: nat, i: nat)
    requires CapacityOk(cap) && IsRun(run, events, cap) && i < |run|
    ensures Inv(run[i], cap)
  {
    if i == 0 {
      InitInv(run[0], cap);
    } else {
      RunInv(run, events, cap, i - 1);
      assert Apply(run[i - 1], events[i - 1], cap) == Some(run[i - 1 + 1]);
      StepInv(run[i - 1], events[i - 1], cap);
    }
  }

  /** The queue is first-in first-out, never over- or underfull, and never reads the slot being written. */
  ghost predicate Safe<T>(s: State<T>, cap: nat)
    requires cap > 0
  {
    && s.popped <= s.pushed && 0 <= |s.pushed| - |s.popped| <= cap
    && (s.producer.PWrite? && s.consumer.CRead? ==> s.producer.wi % cap != s.consumer.ri % cap)
  }

  lemma InvSafe<T>(s: State<T>, cap: nat)
    requires CapacityOk(cap) && Inv(s, cap)
    ensures Safe(s, cap)
  {
    if s.producer.PWrite? && s.consumer.CRead? {
      SlotOfWrapped(|s.pushed|, cap);
      SlotOfWrapped(|s.popped|, cap);
      SlotsDiffer(|s.popped|, |s.pushed|, cap);
    }
  }

  /** Safety over every interleaving, index wrap-around included. */
  lemma RunSafe<T>(run: seq<State<T>>, events: seq<Event<T>>, cap: nat, i: nat)
    requires CapacityOk(cap) && IsRun(run, events, cap) && i < |run|
    ensures Safe(run[i], cap)
  {
    RunInv(run, events, cap, i);
    InvSafe(run[i], cap);
  }

  /** A sleeping consumer has an empty queue or a notification on its way, and likewise a producer. */
  lemma RunWakesUp<T>(run: seq<State<T>>, events: seq<Event<T>>, cap: nat, i: nat)
    requires CapacityOk(cap) && IsRun(run, events, cap) && i < |run|
    ensures NoLostWakeUp(run[i], cap)
    ensures !(run[i].producer.PSleep? && run[i].consumer.CSleep?)
  {
    RunInv(run, events, cap, i);
  }

  /** The thread has nothing to do: it is outside the queue, or asleep with good reason. */
  predicate Quiet<T>(s: State<T>, cap: nat) {
    && (s.producer.PIdle? || (s.producer.PSleep? && Used(s) == cap))
    && (s.consumer.CIdle? || (s.consumer.CSleep? && Used(s) == 0))
  }

  lemma InvProgress<T>(s: State<T>, cap: nat)
    requires Inv(s, cap) && !Quiet(s, cap)
    ensures |s.data| == cap > 0 && (StepProducer(s, cap).Some? || StepConsumer(s, cap).Some?)
  {
  }

  /** No deadlock: unless both sides are quiet, some thread can take its next step. */
  lemma RunProgress<T>(run: seq<State<T>>, events: seq<Event<T>>, cap: nat, i: nat)
    requires CapacityOk(cap) && IsRun(run, events, cap) && i < |run| && !Quiet(run[i], cap)
    ensures |run[i].data| == cap > 0
    ensures StepProducer(run[i], cap).Some? || StepConsumer(run[i], cap).Some?
  {
    RunInv(run, events, cap, i);
    InvProgress(run[i], cap);
  }
}
