// The one-slot broadcast of Shared_Memory/Message for a fixed set of n
// registered clients: the server takes n permits from sem_server2, overwrites
// the slot under mutex2 and hands out n permits on sem_client; a client takes a
// permit, copies the slot under mutex2 and gives a permit back.
module Broadcast {
  import opened Sums

  datatype Server = Collecting(k: nat) | Writing | Written | Posting(k: nat)
  datatype Reader = Idle | Granted | Locked | Copied(msg: nat) | Showing(msg: nat)
  datatype Owner = Free | ByServer | ByReader(i: nat)
  datatype Reading = Reading(reader: nat, msg: nat)

  // Messages are numbered as they are written, so the slot holds number
  // published - 1; log records every read.
  datatype State = State(
    semClient: nat,
    semServer2: nat,
    mutex2: Owner,
    server: Server,
    readers: seq<Reader>,
    published: nat,
    log: seq<Reading>)

  datatype Event =
    | Collect | LockSlot | Write | UnlockSlot | Post | Finish
    | Wait(i: nat) | Lock(i: nat) | Copy(i: nat) | Unlock(i: nat) | Acknowledge(i: nat)

  // Every client has posted its first permit and nothing was broadcast yet.
  function Start(n: nat): State {
    State(0, n, Free, Collecting(0), seq(n, _ => Idle), 0, [])
  }

  predicate Enabled(s: State, e: Event) {
    var n := |s.readers|;
    match e
    case Collect => s.server.Collecting? && s.server.k < n && s.semServer2 > 0
    case LockSlot => s.server == Collecting(n) && s.mutex2 == Free
    case Write => s.server == Writing
    case UnlockSlot => s.server == Written
    case Post => s.server.Posting? && s.server.k < n
    case Finish => s.server == Posting(n)
    case Wait(i) => i < n && s.readers[i] == Idle && s.semClient > 0
    case Lock(i) => i < n && s.readers[i] == Granted && s.mutex2 == Free
    case Copy(i) => i < n && s.readers[i] == Locked && s.published > 0
    case Unlock(i) => i < n && s.readers[i].Copied?
    case Acknowledge(i) => i < n && s.readers[i].Showing?
  }

  function Next(s: State, e: Event): State
    requires Enabled(s, e)
  {
    match e
    case Collect => s.(server := Collecting(s.server.k + 1), semServer2 := s.semServer2 - 1)
    case LockSlot => s.(server := Writing, mutex2 := ByServer)
    case Write => s.(server := Written, published := s.published + 1)
    case UnlockSlot => s.(server := Posting(0), mutex2 := Free)
    case Post => s.(server := Posting(s.server.k + 1), semClient := s.semClient + 1)
    case Finish => s.(server := Collecting(0))
    case Wait(i) => s.(readers := s.readers[i := Granted], semClient := s.semClient - 1)
    case Lock(i) => s.(readers := s.readers[i := Locked], mutex2 := ByReader(i))
    case Copy(i) => s.(readers := s.readers[i := Copied(s.published - 1)], log := s.log + [Reading(i, s.published - 1)])
    case Unlock(i) => s.(readers := s.readers[i := Showing(s.readers[i].msg)], mutex2 := Free)
    case Acknowledge(i) => s.(readers := s.readers[i := Idle], semServer2 := s.semServer2 + 1)
  }

  // A run; an event that cannot happen is skipped.
  function Run(s: State, es: seq<Event>): State
    decreases |es|
  {
    if es == [] then s
    else if Enabled(s, es[0]) then Run(Next(s, es[0]), es[1..])
    else Run(s, es[1..])
  }

  // ----- permits

  function Active(r: Reader): nat {
    if r == Idle then 0 else 1
  }

  // Permits in the server's hand.
  function Hand(s: State): int {
    match s.server
    case Collecting(k) => k
    case Writing => |s.readers|
    case Written => |s.readers|
    case Posting(k) => |s.readers| - k
  }

  predicate ServerOk(s: State) {
    (s.server.Collecting? || s.server.Posting? ==> s.server.k <= |s.readers|) &&
    (s.server == Writing || s.server == Written <==> s.mutex2 == ByServer) &&
    (s.server == Written || s.server.Posting? ==> s.published > 0)
  }

  predicate ReadersOk(s: State) {
    forall i: nat :: i < |s.readers| ==>
      (s.readers[i] == Locked || s.readers[i].Copied? <==> s.mutex2 == ByReader(i)) &&
      (s.readers[i] != Idle ==> s.published > 0) &&
      (s.readers[i].Copied? || s.readers[i].Showing? ==> s.readers[i].msg == s.published - 1)
  }

  predicate PermitsOk(s: State) {
    s.semClient + s.semServer2 + Total(s.readers, Active) + Hand(s) == |s.readers| &&
    (s.semClient > 0 ==> s.published > 0) &&
    (s.mutex2.ByReader? ==> s.mutex2.i < |s.readers|)
  }

  // ----- reads

  function Reads(log: seq<Reading>, b: nat): nat {
    if log == [] then 0 else (if log[0].msg == b then 1 else 0) + Reads(log[1..], b)
  }

  function ReadsBy(log: seq<Reading>, i: nat, b: nat): nat {
    if log == [] then 0 else (if log[0] == Reading(i, b) then 1 else 0) + ReadsBy(log[1..], i, b)
  }

  lemma {:induction false} ReadsSnoc(log: seq<Reading>, r: Reading, i: nat, b: nat)
    ensures Reads(log + [r], b) == Reads(log, b) + if r.msg == b then 1 else 0
    ensures ReadsBy(log + [r], i, b) == ReadsBy(log, i, b) + if r == Reading(i, b) then 1 else 0
  {
    if log == [] {
      assert log + [r] == [r];
    } else {
      assert (log + [r])[1..] == log[1..] + [r];
      ReadsSnoc(log[1..], r, i, b);
    }
  }

  // A reader that holds a message is on record with it.
  predicate Recorded(s: State) {
    forall i: nat :: i < |s.readers| && (s.readers[i].Copied? || s.readers[i].Showing?) ==>
      Reading(i, s.readers[i].msg) in s.log
  }

  lemma RecordedKept(s: State, e: Event)
    requires Recorded(s) && Enabled(s, e)
    ensures Recorded(Next(s, e))
  {
  }

  // A reader that has its permit but not yet the message.
  function Pending(r: Reader): nat {
    if r == Granted || r == Locked then 1 else 0
  }

  // Permits for the latest message that the server has yet to post.
  function Unposted(s: State): int {
    match s.server
    case Written => |s.readers|
    case Posting(k) => |s.readers| - k
    case _ => 0
  }

  // Earlier messages were read n times, later ones never, and the latest lacks
  // exactly the reads whose permits are still on their way.
  ghost predicate ReadsOk(s: State) {
    (forall b: nat :: b + 1 < s.published ==> Reads(s.log, b) == |s.readers|) &&
    (forall b: nat :: b >= s.published ==> Reads(s.log, b) == 0) &&
    (s.published > 0 ==>
       Reads(s.log, s.published - 1) + s.semClient + Total(s.readers, Pending) + Unposted(s) == |s.readers|)
  }

  ghost predicate Counted(s: State) {
    ServerOk(s) && ReadersOk(s) && PermitsOk(s) && ReadsOk(s)
  }

  ghost predicate Good(s: State) {
    Counted(s) && Recorded(s)
  }

  lemma GoodStart(n: nat)
    ensures Good(Start(n))
  {
    TotalZero(Start(n).readers, Active);
  }

  // While the server holds all permits, nobody else holds or can take one.
  lemma SlotQuiet(s: State)
    requires PermitsOk(s) && Hand(s) == |s.readers|
    ensures s.semClient == 0 && s.semServer2 == 0
    ensures forall i :: 0 <= i < |s.readers| ==> s.readers[i] == Idle
    ensures Total(s.readers, Pending) == 0
  {
    forall i | 0 <= i < |s.readers| ensures s.readers[i] == Idle {
      TotalAtLeast(s.readers, Active, i);
    }
    TotalZero(s.readers, Pending);
  }

  predicate ReaderEvent(e: Event) {
    e.Wait? || e.Lock? || e.Copy? || e.Unlock? || e.Acknowledge?
  }

  lemma ReaderMoves(s: State, e: Event)
    requires Enabled(s, e) && ReaderEvent(e)
    ensures e.i < |s.readers| && Next(s, e).readers == s.readers[e.i := Next(s, e).readers[e.i]]
    ensures Total(Next(s, e).readers, Active) + Active(s.readers[e.i]) ==
            Total(s.readers, Active) + Active(Next(s, e).readers[e.i])
    ensures Total(Next(s, e).readers, Pending) + Pending(s.readers[e.i]) ==
            Total(s.readers, Pending) + Pending(Next(s, e).readers[e.i])
  {
    TotalUpdate(s.readers, Active, e.i, Next(s, e).readers[e.i]);
    TotalUpdate(s.readers, Pending, e.i, Next(s, e).readers[e.i]);
  }

  lemma PermitsKept(s: State, e: Event)
    requires Counted(s) && Enabled(s, e)
    ensures ServerOk(Next(s, e)) && PermitsOk(Next(s, e))
  {
    if ReaderEvent(e) {
      ReaderMoves(s, e);
    }
  }

  lemma ReadersKept(s: State, e: Event)
    requires Counted(s) && Enabled(s, e)
    ensures ReadersOk(Next(s, e))
  {
    if e.Write? {
      SlotQuiet(s);
    }
  }

  lemma ReadsKeptByWrite(s: State)
    requires Counted(s) && s.server == Writing
    ensures ReadsOk(Next(s, Write))
  {
    SlotQuiet(s);
  }

  lemma ReadsKeptByCopy(s: State, i: nat)
    requires Counted(s) && Enabled(s, Copy(i))
    ensures ReadsOk(Next(s, Copy(i)))
  {
    ReaderMoves(s, Copy(i));
    forall b: nat ensures Reads(Next(s, Copy(i)).log, b) == Reads(s.log, b) + if b == s.published - 1 then 1 else 0 {
      ReadsSnoc(s.log, Reading(i, s.published - 1), i, b);
    }
  }

  lemma ReadsKept(s: State, e: Event)
    requires Counted(s) && Enabled(s, e)
    ensures ReadsOk(Next(s, e))
  {
    if e.Write? {
      ReadsKeptByWrite(s);
    } else if e.Copy? {
      ReadsKeptByCopy(s, e.i);
    } else if ReaderEvent(e) {
      ReaderMoves(s, e);
    }
  }

  lemma StepKeeps(s: State, e: Event)
    requires Good(s) && Enabled(s, e)
    ensures Good(Next(s, e)) && |Next(s, e).readers| == |s.readers|
  {
    PermitsKept(s, e);
    ReadersKept(s, e);
    ReadsKept(s, e);
    RecordedKept(s, e);
  }

  lemma {:induction false} RunKeeps(s: State, es: seq<Event>)
    requires Good(s)
    ensures Good(Run(s, es)) && |Run(s, es).readers| == |s.readers|
    decreases |es|
  {
    if es != [] {
      if Enabled(s, es[0]) {
        StepKeeps(s, es[0]);
        RunKeeps(Next(s, es[0]), es[1..]);
      } else {
        RunKeeps(s, es[1..]);
      }
    }
  }

  // ----- the results

  // Permits are neither made nor lost: semaphores, readers and the server's
  // hand always total n.
  lemma PermitsConserved(n: nat, es: seq<Event>, s: State)
    requires s == Run(Start(n), es)
    ensures s.semClient + s.semServer2 + Total(s.readers, Active) + Hand(s) == n
  {
    GoodStart(n);
    RunKeeps(Start(n), es);
  }

  // The slot is overwritten only when every reader is idle and none can start.
  lemma OverwriteIsSafe(n: nat, es: seq<Event>, s: State)
    requires s == Run(Start(n), es) && Enabled(s, Write)
    ensures |s.readers| == n && s.semClient == 0
    ensures forall i :: 0 <= i < n ==> s.readers[i] == Idle
  {
    GoodStart(n);
    RunKeeps(Start(n), es);
    SlotQuiet(s);
  }

  // Whatever a reader holds is the latest message, from its copy to its
  // acknowledgement; and each finished message was read exactly n times in all.
  lemma ReadersSeeLatest(n: nat, es: seq<Event>, s: State, i: nat, b: nat)
    requires s == Run(Start(n), es) && i < n
    ensures |s.readers| == n
    ensures s.readers[i].Copied? || s.readers[i].Showing? ==>
              s.readers[i].msg == s.published - 1 && Reading(i, s.published - 1) in s.log
    ensures b + 1 < s.published ==> Reads(s.log, b) == n
    ensures Enabled(s, Write) && b < s.published ==> Reads(s.log, b) == n
  {
    GoodStart(n);
    RunKeeps(Start(n), es);
    if Enabled(s, Write) {
      SlotQuiet(s);
    }
  }

  lemma SomeEnabled(s: State)
    requires Good(s)
    ensures exists e :: Enabled(s, e)
  {
    var n := |s.readers|;
    if s.mutex2.ByReader? {
      assert Enabled(s, Copy(s.mutex2.i)) || Enabled(s, Unlock(s.mutex2.i));
    } else if s.server == Writing {
      assert Enabled(s, Write);
    } else if s.server == Written {
      assert Enabled(s, UnlockSlot);
    } else if s.server.Posting? {
      assert Enabled(s, Post) || Enabled(s, Finish);
    } else if s.server.k == n {
      assert Enabled(s, LockSlot);
    } else if s.semServer2 > 0 {
      assert Enabled(s, Collect);
    } else if Total(s.readers, Active) > 0 {
      var i := TotalPositive(s.readers, Active);
      assert Enabled(s, Lock(i)) || Enabled(s, Acknowledge(i));
    } else {
      TotalAtLeast(s.readers, Active, 0);
      assert Enabled(s, Wait(0));
    }
  }

  // Server and readers never block one another for good.
  lemma NeverStuck(n: nat, es: seq<Event>, s: State)
    requires s == Run(Start(n), es)
    ensures exists e :: Enabled(s, e)
  {
    GoodStart(n);
    RunKeeps(Start(n), es);
    SomeEnabled(s);
  }

  // ----- from one overwrite to the next

  // The steps a reader still has to take and the server's collection after them.
  function ReaderCredit(r: Reader): nat {
    match r
    case Idle => 0
    case Showing(_) => 2
    case Copied(_) => 3
    case Locked => 4
    case Granted => 5
  }

  function ServerCredit(s: State): int {
    match s.server
    case Writing => 0
    case Collecting(_) => 1
    case Posting(k) => 2 + 7 * (|s.readers| - k)
    case Written => 3 + 7 * |s.readers|
  }

  // How many steps remain before the next overwrite: every permit is posted,
  // carried through a read in five steps and collected.
  function StepsLeft(s: State): int {
    6 * s.semClient + s.semServer2 + Total(s.readers, ReaderCredit) + ServerCredit(s)
  }

  lemma StepUsesOne(s: State, e: Event)
    requires Enabled(s, e) && e != Write
    ensures StepsLeft(Next(s, e)) == StepsLeft(s) - 1
  {
    if ReaderEvent(e) {
      TotalUpdate(s.readers, ReaderCredit, e.i, Next(s, e).readers[e.i]);
    }
  }

  // With all permits in the server's hand only its own steps remain.
  lemma StepsLeftQuiet(s: State)
    requires PermitsOk(s) && Hand(s) == |s.readers|
    ensures StepsLeft(s) == ServerCredit(s)
  {
    SlotQuiet(s);
    TotalZero(s.readers, ReaderCredit);
  }

  lemma StepsLeftPositive(s: State)
    requires Good(s) && s.server != Writing
    ensures StepsLeft(s) > 0
  {
  }

  // A run without an overwrite, every event of which happens.
  predicate Between(s: State, es: seq<Event>)
    decreases |es|
  {
    es == [] || (es[0] != Write && Enabled(s, es[0]) && Between(Next(s, es[0]), es[1..]))
  }

  lemma {:induction false} BetweenUses(s: State, es: seq<Event>)
    requires Good(s) && Between(s, es)
    ensures Good(Run(s, es)) && |Run(s, es).readers| == |s.readers|
    ensures StepsLeft(Run(s, es)) == StepsLeft(s) - |es|
    decreases |es|
  {
    if es != [] {
      StepKeeps(s, es[0]);
      StepUsesOne(s, es[0]);
      BetweenUses(Next(s, es[0]), es[1..]);
    }
  }

  // In every interleaving exactly 7n + 3 steps lie between two overwrites: after
  // fewer the next one is not yet possible but some other step is, and more there
  // cannot be.
  lemma {:induction false} CycleLength(n: nat, before: seq<Event>, s: State, es: seq<Event>, t: State)
    requires s == Run(Start(n), before) && s.server == Written && Between(s, es) && t == Run(s, es)
    ensures |es| <= 7 * n + 3
    ensures Enabled(t, Write) <==> |es| == 7 * n + 3
    ensures |es| < 7 * n + 3 ==> exists e :: e != Write && Enabled(t, e)
  {
    GoodStart(n);
    RunKeeps(Start(n), before);
    BetweenUses(s, es);
    StepsLeftQuiet(s);
    if t.server == Writing {
      StepsLeftQuiet(t);
    } else {
      StepsLeftPositive(t);
      SomeEnabled(t);
    }
  }

  // ----- does every reader read every message?

  ghost predicate Reachable(n: nat, s: State) {
    exists es :: Run(Start(n), es) == s
  }

  // Every finished message was read exactly once by every reader.
  ghost predicate EachOnce(s: State) {
    forall i: nat, b: nat :: i < |s.readers| && b + 1 < s.published ==> ReadsBy(s.log, i, b) == 1
  }

  lemma {:induction false} RunAppend(s: State, es: seq<Event>, e: Event)
    ensures Run(s, es + [e]) == if Enabled(Run(s, es), e) then Next(Run(s, es), e) else Run(s, es)
    decreases |es|
  {
    if es == [] {
      assert [e][1..] == [];
    } else {
      assert (es + [e])[1..] == es[1..] + [e];
      RunAppend(if Enabled(s, es[0]) then Next(s, es[0]) else s, es[1..], e);
    }
  }

  lemma ReachNext(n: nat, s: State, e: Event)
    requires Reachable(n, s) && Enabled(s, e)
    ensures Reachable(n, Next(s, e))
  {
    var es :| Run(Start(n), es) == s;
    RunAppend(Start(n), es, e);
    assert Run(Start(n), es + [e]) == Next(s, e);
  }

  lemma {:induction false} ReachCollected(n: nat, s: State)
    requires Reachable(n, s) && s.server.Collecting? && s.server.k <= |s.readers|
    requires s.semServer2 >= |s.readers| - s.server.k
    ensures Reachable(n, s.(server := Collecting(|s.readers|), semServer2 := s.semServer2 - (|s.readers| - s.server.k)))
    decreases |s.readers| - s.server.k
  {
    if s.server.k < |s.readers| {
      ReachNext(n, s, Collect);
      ReachCollected(n, Next(s, Collect));
    }
  }

  lemma {:induction false} ReachPosted(n: nat, s: State)
    requires Reachable(n, s) && s.server.Posting? && s.server.k <= |s.readers|
    ensures Reachable(n, s.(server := Posting(|s.readers|), semClient := s.semClient + (|s.readers| - s.server.k)))
    decreases |s.readers| - s.server.k
  {
    if s.server.k < |s.readers| {
      ReachNext(n, s, Post);
      ReachPosted(n, Next(s, Post));
    }
  }

  // From a full collection to the next message in the slot.
  lemma ReachWritten(n: nat, s: State) returns (t: State)
    requires Reachable(n, s) && s.server == Collecting(0) && s.semServer2 == |s.readers| && s.mutex2 == Free
    ensures t == s.(server := Written, semServer2 := 0, mutex2 := ByServer, published := s.published + 1)
    ensures Reachable(n, t)
  {
    ReachCollected(n, s);
    var c := s.(server := Collecting(|s.readers|), semServer2 := 0);
    ReachNext(n, c, LockSlot);
    ReachNext(n, Next(c, LockSlot), Write);
    t := Next(Next(c, LockSlot), Write);
  }

  // Reader 0 may take every permit of a message, one after the other.
  lemma {:induction false} ReachGreedy(n: nat, s: State) returns (t: State)
    requires Reachable(n, s) && |s.readers| > 0 && s.readers[0] == Idle && s.mutex2 == Free && s.published > 0
    ensures Reachable(n, t) && t.(log := s.log) == s.(semClient := 0, semServer2 := s.semServer2 + s.semClient)
    ensures ReadsBy(t.log, 0, s.published - 1) == ReadsBy(s.log, 0, s.published - 1) + s.semClient
    decreases s.semClient
  {
    if s.semClient == 0 {
      t := s;
    } else {
      var a := Next(s, Wait(0));
      var b := Next(a, Lock(0));
      var c := Next(b, Copy(0));
      var d := Next(c, Unlock(0));
      var e := Next(d, Acknowledge(0));
      ReachNext(n, s, Wait(0));
      ReachNext(n, a, Lock(0));
      ReachNext(n, b, Copy(0));
      ReachNext(n, c, Unlock(0));
      ReachNext(n, d, Acknowledge(0));
      assert e.readers == s.readers;
      ReadsSnoc(s.log, Reading(0, s.published - 1), 0, s.published - 1);
      t := ReachGreedy(n, e);
    }
  }

  // With two or more clients a run exists in which one client reads a message
  // n times and the others never do.
  lemma GreedyRun(n: nat) returns (s: State)
    requires n > 0
    ensures Reachable(n, s) && |s.readers| == n && s.published == 2 && ReadsBy(s.log, 0, 0) == n
  {
    assert Run(Start(n), []) == Start(n);
    var w := ReachWritten(n, Start(n));
    ReachNext(n, w, UnlockSlot);
    var u := Next(w, UnlockSlot);
    ReachPosted(n, u);
    var p := u.(server := Posting(n), semClient := n);
    ReachNext(n, p, Finish);
    var g := ReachGreedy(n, Next(p, Finish));
    s := ReachWritten(n, g);
  }

  lemma {:induction false} OneReaderReadsAll(log: seq<Reading>, b: nat)
    requires forall k :: 0 <= k < |log| ==> log[k].reader == 0
    ensures ReadsBy(log, 0, b) == Reads(log, b)
  {
    if log != [] {
      assert log[0].reader == 0;
      assert forall k :: 0 <= k < |log[1..]| ==> log[1..][k] == log[k + 1];
      OneReaderReadsAll(log[1..], b);
    }
  }

  lemma {:induction false} LogOfReaders(s: State, es: seq<Event>)
    requires forall k :: 0 <= k < |s.log| ==> s.log[k].reader < |s.readers|
    ensures |Run(s, es).readers| == |s.readers|
    ensures forall k :: 0 <= k < |Run(s, es).log| ==> Run(s, es).log[k].reader < |s.readers|
    decreases |es|
  {
    if es != [] {
      LogOfReaders(if Enabled(s, es[0]) then Next(s, es[0]) else s, es[1..]);
    }
  }

  // The semaphores count reads, not readers: every client is sure to read every
  // message exactly when there is at most one client.
  lemma EachOnceIffSingle(n: nat)
    ensures (forall s :: Reachable(n, s) ==> EachOnce(s)) <==> n <= 1
  {
    if n >= 2 {
      var s := GreedyRun(n);
      assert ReadsBy(s.log, 0, 0) != 1;
      assert !EachOnce(s);
    } else {
      forall s | Reachable(n, s) ensures EachOnce(s) {
        var es :| Run(Start(n), es) == s;
        GoodStart(n);
        RunKeeps(Start(n), es);
        LogOfReaders(Start(n), es);
        forall i: nat, b: nat | i < |s.readers| && b + 1 < s.published ensures ReadsBy(s.log, i, b) == 1 {
          OneReaderReadsAll(s.log, b);
        }
      }
    }
  }
}
