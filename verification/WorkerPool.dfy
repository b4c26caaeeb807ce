// The worker pool of Sockets/Task_2/Producer_Consumer/server.c as interleaved
// steps: one accepting thread, any number of workers, one mutex and one
// condition variable.  Connections are numbered in the order they are accepted.
module WorkerPool {
  import opened RingQueue
  import opened Sums
  import opened Wrappers

  // A worker: about to lock, testing the queue, asleep in pthread_cond_wait,
  // woken but without the mutex, about to dequeue, about to unlock, serving.
  datatype Worker =
    | Entering | Testing | Asleep | Waking | Taking
    | Releasing(conn: nat) | Serving(conn: nat)

  // The accepting thread inside enqueue and after it.
  datatype Producer =
    | Accepting | Locking(conn: nat) | Checking(conn: nat) | Closing(conn: nat) | Signalling | Unlocking

  datatype Owner = Free | Main | Pool(worker: nat)

  // The last four fields record the history of a run.
  datatype State = State(
    queue: seq<nat>,
    owner: Owner,
    producer: Producer,
    workers: seq<Worker>,
    accepted: nat,
    admitted: seq<nat>,
    taken: seq<nat>,
    refused: seq<nat>,
    closed: seq<nat>)

  datatype Event =
    | Accept | Lock | Check | Signal(woken: nat) | Unlock | Close
    | WorkerLock(i: nat) | WorkerTest(i: nat) | WorkerTake(i: nat) | WorkerRelease(i: nat) | WorkerServe(i: nat)
    | Spurious(i: nat)

  predicate Start(s: State) {
    s.queue == [] && s.owner == Free && s.producer == Accepting && s.accepted == 0 &&
    s.admitted == s.taken == s.refused == s.closed == [] &&
    forall i :: 0 <= i < |s.workers| ==> s.workers[i] == Entering
  }

  predicate Sleeper(s: State, i: nat) {
    i < |s.workers| && s.workers[i] == Asleep
  }

  predicate Enabled(s: State, e: Event) {
    match e
    case Accept => s.producer == Accepting
    case Lock => s.producer.Locking? && s.owner == Free
    case Check => s.producer.Checking?
    case Signal(k) => s.producer == Signalling && (Sleeper(s, k) || Asleep !in s.workers)
    case Unlock => s.producer == Unlocking
    case Close => s.producer.Closing?
    case WorkerLock(i) => i < |s.workers| && (s.workers[i] == Entering || s.workers[i] == Waking) && s.owner == Free
    case WorkerTest(i) => i < |s.workers| && s.workers[i] == Testing
    case WorkerTake(i) => i < |s.workers| && s.workers[i] == Taking && s.queue != []
    case WorkerRelease(i) => i < |s.workers| && s.workers[i].Releasing?
    case WorkerServe(i) => i < |s.workers| && s.workers[i].Serving?
    case Spurious(i) => Sleeper(s, i)
  }

  function Next(s: State, e: Event): State
    requires Enabled(s, e)
  {
    match e
    case Accept => s.(producer := Locking(s.accepted), accepted := s.accepted + 1)
    case Lock => s.(producer := Checking(s.producer.conn), owner := Main)
    case Check =>
      (match Enqueued(s.queue, s.producer.conn)
       case None => s.(producer := Closing(s.producer.conn), owner := Free)
       case Some(queue) => s.(producer := Signalling, queue := queue, admitted := s.admitted + [s.producer.conn]))
    case Signal(k) =>
      if Sleeper(s, k) then s.(producer := Unlocking, workers := s.workers[k := Waking])
      else s.(producer := Unlocking)
    case Unlock => s.(producer := Accepting, owner := Free)
    case Close => s.(producer := Accepting, refused := s.refused + [s.producer.conn])
    case WorkerLock(i) => s.(workers := s.workers[i := Testing], owner := Pool(i))
    case WorkerTest(i) =>
      if s.queue == [] then s.(workers := s.workers[i := Asleep], owner := Free)
      else s.(workers := s.workers[i := Taking])
    case WorkerTake(i) =>
      var (conn, queue) := Dequeued(s.queue);
      s.(workers := s.workers[i := Releasing(conn)], queue := queue, taken := s.taken + [conn])
    case WorkerRelease(i) => s.(workers := s.workers[i := Serving(s.workers[i].conn)], owner := Free)
    case WorkerServe(i) => s.(workers := s.workers[i := Entering], closed := s.closed + [s.workers[i].conn])
    case Spurious(i) => s.(workers := s.workers[i := Waking])
  }

  // A run; an event that cannot happen is skipped.
  function Run(s: State, es: seq<Event>): State
    decreases |es|
  {
    if es == [] then s
    else if Enabled(s, es[0]) then Run(Next(s, es[0]), es[1..])
    else Run(s, es[1..])
  }

  // ----- connections

  // How often connection c stands in a sequence, and whether a worker holds it.
  function Occurs(q: seq<nat>, c: nat): nat {
    if q == [] then 0 else (if q[0] == c then 1 else 0) + Occurs(q[1..], c)
  }

  lemma {:induction false} OccursSnoc(q: seq<nat>, x: nat, c: nat)
    ensures Occurs(q + [x], c) == Occurs(q, c) + if x == c then 1 else 0
  {
    if q == [] {
      assert q + [x] == [x];
    } else {
      assert (q + [x])[1..] == q[1..] + [x];
      OccursSnoc(q[1..], x, c);
    }
  }

  function Holding(c: nat): Worker -> nat {
    (w: Worker) => if (w.Releasing? || w.Serving?) && w.conn == c then 1 else 0
  }

  // ----- mutual exclusion

  predicate HoldsMutex(w: Worker) {
    w == Testing || w == Taking || w.Releasing?
  }

  predicate MainHolds(p: Producer) {
    p.Checking? || p == Signalling || p == Unlocking
  }

  predicate MutexOk(s: State) {
    (MainHolds(s.producer) <==> s.owner == Main) &&
    (forall i: nat :: i < |s.workers| ==> (HoldsMutex(s.workers[i]) <==> s.owner == Pool(i))) &&
    (forall i: nat :: i < |s.workers| && s.workers[i] == Taking ==> s.queue != []) &&
    (s.owner.Pool? ==> s.owner.worker < |s.workers|)
  }

  lemma MutexKept(s: State, e: Event)
    requires MutexOk(s) && Enabled(s, e)
    ensures MutexOk(Next(s, e))
  {
  }

  // ----- no lost wake-up

  // Awake and on the way to the test of the queue.
  function Contends(w: Worker): nat {
    if w == Entering || w == Waking || w == Testing || w == Taking then 1 else 0
  }

  // While some worker sleeps, the queue is no longer than the number of workers
  // that contend for it; between an insertion and its signal it may be one longer.
  predicate NoLostWakeup(s: State) {
    Asleep in s.workers ==>
      |s.queue| <= Total(s.workers, Contends) + if s.producer == Signalling then 1 else 0
  }

  lemma WakeupKept(s: State, e: Event)
    requires MutexOk(s) && NoLostWakeup(s) && Enabled(s, e)
    ensures NoLostWakeup(Next(s, e))
  {
    var t := Next(s, e);
    if Asleep in t.workers && t.workers != s.workers {
      if e.WorkerTest? && s.queue == [] {
      } else {
        var k, w := Changed(s, e);
        TotalUpdate(s.workers, Contends, k, w);
        var i :| 0 <= i < |t.workers| && t.workers[i] == Asleep;
        assert s.workers[i] == Asleep;
      }
    }
  }

  // The one worker an event moves, and where to.
  lemma Changed(s: State, e: Event) returns (k: nat, w: Worker)
    requires Enabled(s, e) && Next(s, e).workers != s.workers
    ensures k < |s.workers| && Next(s, e).workers == s.workers[k := w]
    ensures e.Signal? ==> k == e.woken && w == Waking && s.workers[k] == Asleep
    ensures !e.Signal? ==> !e.Accept? && !e.Lock? && !e.Check? && !e.Unlock? && !e.Close? && k == e.i
    ensures w == Next(s, e).workers[k]
  {
    if e.Signal? {
      k := e.woken;
    } else {
      k := e.i;
    }
    w := Next(s, e).workers[k];
  }

  // ----- every connection is in exactly one place, in order

  predicate Carries(p: Producer) {
    p.Locking? || p.Checking? || p.Closing?
  }

  function ProducerHolds(p: Producer, c: nat): nat {
    if Carries(p) && p.conn == c then 1 else 0
  }

  // The number of places where connection c is: with the accepting thread,
  // refused, queued, in service or closed.
  function Places(s: State, c: nat): nat {
    ProducerHolds(s.producer, c) + Occurs(s.refused, c) + Occurs(s.queue, c) +
    Total(s.workers, Holding(c)) + Occurs(s.closed, c)
  }

  ghost predicate Conserved(s: State) {
    forall c: nat :: Places(s, c) == if c < s.accepted then 1 else 0
  }

  predicate Fifo(s: State) {
    s.admitted == s.taken + s.queue && |s.queue| <= MAX_QUEUE
  }

  lemma FifoKept(s: State, e: Event)
    requires Fifo(s) && Enabled(s, e)
    ensures Fifo(Next(s, e))
  {
    match e
    case WorkerTake(i) => assert s.queue == [s.queue[0]] + s.queue[1..];
    case _ =>
  }

  // Connections are admitted in the order in which they were accepted.  The bound
  // is the connection in the accepting thread's hands, or the next one.
  function NextConn(s: State): nat {
    if Carries(s.producer) then s.producer.conn else s.accepted
  }

  predicate InOrder(s: State) {
    (Carries(s.producer) ==> s.producer.conn < s.accepted) &&
    (forall i, j :: 0 <= i < j < |s.admitted| ==> s.admitted[i] < s.admitted[j]) &&
    (forall i :: 0 <= i < |s.admitted| ==> s.admitted[i] < NextConn(s))
  }

  // A refusal means that 21 connections have come.
  predicate LateRefusal(s: State) {
    s.refused != [] || s.producer.Closing? ==> s.accepted > 20
  }

  lemma LateRefusalKept(s: State, e: Event)
    requires Fifo(s) && InOrder(s) && LateRefusal(s) && Enabled(s, e)
    ensures LateRefusal(Next(s, e))
  {
    if e.Check? {
      IncreasingBound(s.admitted, NextConn(s));
    }
  }

  lemma InOrderKept(s: State, e: Event)
    requires InOrder(s) && Enabled(s, e)
    ensures InOrder(Next(s, e))
  {
  }

  lemma PlacesKept(s: State, e: Event, c: nat)
    requires Enabled(s, e)
    ensures Places(Next(s, e), c) == Places(s, c) + if e.Accept? && c == s.accepted then 1 else 0
  {
    var t := Next(s, e);
    if t.workers != s.workers {
      var k, w := Changed(s, e);
      TotalUpdate(s.workers, Holding(c), k, w);
    }
    match e
    case Check => OccursSnoc(s.queue, s.producer.conn, c);
    case Close => OccursSnoc(s.refused, s.producer.conn, c);
    case WorkerServe(i) => OccursSnoc(s.closed, s.workers[i].conn, c);
    case _ =>
  }

  ghost predicate Good(s: State) {
    MutexOk(s) && NoLostWakeup(s) && Fifo(s) && InOrder(s) && LateRefusal(s) && Conserved(s)
  }

  lemma GoodStart(s: State)
    requires Start(s)
    ensures Good(s)
  {
    forall c: nat ensures Places(s, c) == 0 {
      TotalZero(s.workers, Holding(c));
    }
  }

  lemma StepKeeps(s: State, e: Event)
    requires Good(s) && Enabled(s, e)
    ensures Good(Next(s, e))
  {
    MutexKept(s, e);
    WakeupKept(s, e);
    FifoKept(s, e);
    InOrderKept(s, e);
    LateRefusalKept(s, e);
    forall c: nat ensures Places(Next(s, e), c) == if c < Next(s, e).accepted then 1 else 0 {
      PlacesKept(s, e, c);
    }
  }

  lemma {:induction false} RunKeeps(s: State, es: seq<Event>)
    requires Good(s)
    ensures Good(Run(s, es)) && |Run(s, es).workers| == |s.workers|
    decreases |es|
  {
    if es != [] {
      if Enabled(s, es[0]) {
        StepKeeps(s, es[0]);
        RunKeeps(Next(s, es[0]), es[1..]);
      } else {
        RunKeeps(s, es[1..]);
      }
    }
  }

  // ----- the results

  // In every interleaving a non-empty queue never meets a pool fast asleep,
  // except for the moment between an insertion and its signal.
  lemma WorkConservation(start: State, es: seq<Event>, s: State)
    requires Start(start) && s == Run(start, es)
    ensures Asleep in s.workers && s.producer != Signalling ==> |s.queue| <= Total(s.workers, Contends)
    ensures Asleep in s.workers && s.producer == Signalling ==> |s.queue| <= Total(s.workers, Contends) + 1
    ensures |s.workers| > 0 && s.producer != Signalling &&
            (forall i :: 0 <= i < |s.workers| ==> s.workers[i] == Asleep) ==>
              s.queue == []
  {
    GoodStart(start);
    RunKeeps(start, es);
    if |s.workers| > 0 && (forall i :: 0 <= i < |s.workers| ==> s.workers[i] == Asleep) {
      assert s.workers[0] == Asleep;
      TotalZero(s.workers, Contends);
    }
  }

  // Connections enter the queue in the order they were accepted and leave it in
  // the order they entered it, the queue never outgrows the ring, and at most one
  // thread is inside the critical section.
  lemma FirstInFirstOut(start: State, es: seq<Event>, s: State)
    requires Start(start) && s == Run(start, es)
    ensures s.taken <= s.admitted && s.queue == s.admitted[|s.taken|..] && |s.queue| <= 20
    ensures forall i, j :: 0 <= i < j < |s.admitted| ==> s.admitted[i] < s.admitted[j] < s.accepted
    ensures forall i: nat, j: nat ::
              i < |s.workers| && j < |s.workers| && HoldsMutex(s.workers[i]) && HoldsMutex(s.workers[j]) ==>
              i == j && !MainHolds(s.producer)
  {
    GoodStart(start);
    RunKeeps(start, es);
  }

  // The accepting thread refuses the connection in its hands exactly when 20
  // others wait, and otherwise puts it behind them and goes on to signal.
  lemma RefusedIffFull(start: State, es: seq<Event>, s: State, c: nat)
    requires Start(start) && s == Run(start, es) && s.producer == Checking(c)
    ensures Enabled(s, Check)
    ensures var t := Next(s, Check);
            (t.producer == Closing(c) <==> |s.queue| == 20) &&
            (t.producer == Closing(c) ==> t.queue == s.queue && t.admitted == s.admitted) &&
            (t.producer != Closing(c) ==>
               t.producer == Signalling && t.queue == s.queue + [c] && t.admitted == s.admitted + [c])
  {
    GoodStart(start);
    RunKeeps(start, es);
  }

  // Nobody comes to be refused in any other way.
  lemma RefusedOnlyIfFull(start: State, es: seq<Event>, s: State, e: Event, c: nat)
    requires Start(start) && s == Run(start, es) && Enabled(s, e)
    requires s.producer != Closing(c) && Next(s, e).producer == Closing(c)
    ensures s.producer == Checking(c) && |s.queue| == 20
    ensures Next(s, e).refused == s.refused
  {
    GoodStart(start);
    RunKeeps(start, es);
  }

  lemma {:induction false} IncreasingBound(q: seq<nat>, bound: nat)
    requires forall i, j :: 0 <= i < j < |q| ==> q[i] < q[j]
    requires forall i :: 0 <= i < |q| ==> q[i] < bound
    ensures |q| <= bound
  {
    if q != [] {
      var init, last := q[..|q| - 1], q[|q| - 1];
      forall i | 0 <= i < |init| ensures init[i] < last {
        assert q[i] < q[|q| - 1];
      }
      IncreasingBound(init, last);
    }
  }

  // As long as at most 20 connections have come, none is refused.
  lemma FirstTwentyServed(start: State, es: seq<Event>, s: State)
    requires Start(start) && s == Run(start, es) && s.accepted <= 20
    ensures s.refused == [] && !s.producer.Closing?
  {
    GoodStart(start);
    RunKeeps(start, es);
  }

  // Every accepted connection is in exactly one place, and no other is anywhere.
  lemma ExactlyOnePlace(start: State, es: seq<Event>, s: State, c: nat)
    requires Start(start) && s == Run(start, es)
    ensures Places(s, c) == if c < s.accepted then 1 else 0
  {
    GoodStart(start);
    RunKeeps(start, es);
  }

  // ----- draining

  // Neither an arrival nor a spurious wake-up.
  predicate Internal(e: Event) {
    !e.Accept? && !e.Spurious?
  }

  function WorkerCredit(w: Worker): nat {
    match w
    case Asleep => 0
    case Taking => 1
    case Testing => 2
    case Entering => 3
    case Waking => 3
    case Serving(_) => 4
    case Releasing(_) => 5
  }

  function ProducerCredit(p: Producer): nat {
    match p
    case Accepting => 0
    case Unlocking => 1
    case Closing(_) => 1
    case Signalling => 5
    case Checking(_) => 11
    case Locking(_) => 12
  }

  function Work(s: State): nat {
    5 * |s.queue| + Total(s.workers, WorkerCredit) + ProducerCredit(s.producer)
  }

  lemma InternalStepWorks(s: State, e: Event)
    requires Enabled(s, e) && Internal(e)
    ensures Work(Next(s, e)) < Work(s)
  {
    var t := Next(s, e);
    if t.workers != s.workers {
      var k, w := Changed(s, e);
      TotalUpdate(s.workers, WorkerCredit, k, w);
    }
  }

  predicate AllInternal(s: State, es: seq<Event>)
    decreases |es|
  {
    es == [] || (Internal(es[0]) && Enabled(s, es[0]) && AllInternal(Next(s, es[0]), es[1..]))
  }

  // Once arrivals stop, the pool runs out of steps.
  lemma {:induction false} NoArrivalsTerminates(s: State, es: seq<Event>)
    requires AllInternal(s, es)
    ensures |es| + Work(Run(s, es)) <= Work(s)
    decreases |es|
  {
    if es != [] {
      InternalStepWorks(s, es[0]);
      NoArrivalsTerminates(Next(s, es[0]), es[1..]);
    }
  }

  lemma SignalPossible(s: State)
    requires s.producer == Signalling
    ensures exists k: nat :: Enabled(s, Signal(k))
  {
    if Asleep in s.workers {
      var k: nat :| k < |s.workers| && s.workers[k] == Asleep;
      assert Enabled(s, Signal(k));
    } else {
      assert Enabled(s, Signal(0));
    }
  }

  lemma HolderPossible(s: State)
    requires MutexOk(s) && s.owner.Pool?
    ensures var i := s.owner.worker;
            Enabled(s, WorkerTest(i)) || Enabled(s, WorkerTake(i)) || Enabled(s, WorkerRelease(i))
  {
    assert HoldsMutex(s.workers[s.owner.worker]);
  }

  // A state with no internal step left: nobody waits for anybody.
  lemma StuckMeansIdle(s: State)
    requires MutexOk(s) && forall e: Event :: Internal(e) ==> !Enabled(s, e)
    ensures s.producer == Accepting && forall i: nat :: i < |s.workers| ==> s.workers[i] == Asleep
    ensures Enabled(s, Accept)
  {
    if s.producer == Signalling {
      SignalPossible(s);
      assert false;
    }
    if s.owner.Pool? {
      HolderPossible(s);
      assert false;
    }
    assert !Enabled(s, Check) && !Enabled(s, Unlock) && !Enabled(s, Close) && !Enabled(s, Lock);
    forall i: nat | i < |s.workers| ensures s.workers[i] == Asleep {
      assert !Enabled(s, WorkerLock(i)) && !Enabled(s, WorkerServe(i));
    }
  }

  // When the pool runs out of steps, the queue is drained and every accepted
  // connection has been refused or closed.
  lemma DrainedWhenStuck(start: State, es: seq<Event>, s: State, c: nat)
    requires Start(start) && s == Run(start, es) && |start.workers| > 0
    requires forall e: Event :: Internal(e) ==> !Enabled(s, e)
    ensures s.queue == [] && s.taken == s.admitted
    ensures c < s.accepted ==> Occurs(s.refused, c) + Occurs(s.closed, c) == 1
  {
    GoodStart(start);
    RunKeeps(start, es);
    StuckMeansIdle(s);
    WorkConservation(start, es, s);
    TotalZero(s.workers, Holding(c));
    ExactlyOnePlace(start, es, s, c);
  }
}
