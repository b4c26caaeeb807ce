// Dispatcher and drivers together, joined only by one message queue.
module TaxiSystem {
  import opened MessageQueue
  import opened TaxiTable

  // A driver blocks in msgrcv or works: seconds left, seconds slept, and the
  // timer it was sent.
  datatype Process = Receiving | Working(left: int, ticks: nat, time: int)

  // The last four fields record the history of a run: tasks accepted, tasks
  // acknowledged, drivers that swallowed a task, and (timer, seconds) of each
  // completed task.
  datatype State = State(
    mainPid: int,
    table: seq<Driver>,
    procs: map<int, Process>,
    queue: seq<Message>,
    accepted: nat,
    acked: nat,
    swallowed: set<int>,
    finished: seq<(int, nat)>)

  datatype Event =
    | Create(pid: int)
    | Task(pid: int, timer: int, junk: int)
    | Ack
    | Fetch(pid: int)
    | Tick(pid: int)

  function Start(mainPid: int): State {
    State(mainPid, [], map[], [], 0, 0, {}, [])
  }

  predicate Enabled(s: State, e: Event) {
    match e
    case Create(p) => p !in s.procs && p != s.mainPid && |s.table| < MAX_DRIVERS
    case Task(p, timer, junk) => true
    case Ack => Mailbox(s.queue, s.mainPid) != []
    case Fetch(p) => p in s.procs && s.procs[p] == Receiving && Mailbox(s.queue, p) != []
    case Tick(p) => p in s.procs && s.procs[p].Working?
  }

  function CreateStep(s: State, p: int): State {
    s.(table := s.table + [Driver(p, false, 0)], procs := s.procs[p := Receiving])
  }

  function TaskStep(s: State, p: int, timer: int, junk: int): State {
    s.(table := WithTask(s.table, p, timer), queue := s.queue + TaskMessages(s.table, p, timer, junk),
       accepted := s.accepted + if Accepts(s.table, p) then 1 else 0)
  }

  function AckStep(s: State): State
    requires Mailbox(s.queue, s.mainPid) != []
  {
    s.(table := WithDone(s.table, Mailbox(s.queue, s.mainPid)[0].pid),
       queue := Receive(s.queue, s.mainPid), acked := s.acked + 1)
  }

  function FetchStep(s: State, p: int): State
    requires Mailbox(s.queue, p) != []
  {
    var time := Mailbox(s.queue, p)[0].time;
    var t := s.(queue := Receive(s.queue, p));
    if time > 0 then t.(procs := s.procs[p := Working(time, 0, time)])
    else t.(swallowed := s.swallowed + {p})
  }

  function TickStep(s: State, p: int): State
    requires p in s.procs && s.procs[p].Working?
  {
    var w := s.procs[p];
    if w.left - 1 <= 0 then
      s.(procs := s.procs[p := Receiving], queue := s.queue + [Envelope(s.mainPid, Body(w.time, p))],
         finished := s.finished + [(w.time, w.ticks + 1)])
    else
      s.(procs := s.procs[p := Working(w.left - 1, w.ticks + 1, w.time)])
  }

  function Next(s: State, e: Event): State
    requires Enabled(s, e)
  {
    match e
    case Create(p) => CreateStep(s, p)
    case Task(p, timer, junk) => TaskStep(s, p, timer, junk)
    case Ack => AckStep(s)
    case Fetch(p) => FetchStep(s, p)
    case Tick(p) => TickStep(s, p)
  }

  // A run; an event that cannot happen is skipped.
  function Run(s: State, es: seq<Event>): State
    decreases |es|
  {
    if es == [] then s
    else if Enabled(s, es[0]) then Run(Next(s, es[0]), es[1..])
    else Run(s, es[1..])
  }

  // ----- tokens

  // Completions of driver p among the messages for the dispatcher.
  function From(ms: seq<Body>, p: int): nat {
    if ms == [] then 0 else (if ms[0].pid == p then 1 else 0) + From(ms[1..], p)
  }

  lemma {:induction false} FromAppend(a: seq<Body>, b: seq<Body>, p: int)
    ensures From(a + b, p) == From(a, p) + From(b, p)
  {
    if a == [] {
      assert a + b == b;
    } else {
      assert (a + b)[1..] == a[1..] + b;
      FromAppend(a[1..], b, p);
    }
  }

  // A token of driver p: its task in the queue, its work, or its completion.
  function Tokens(s: State, p: int): nat {
    |Mailbox(s.queue, p)| + (if p in s.procs && s.procs[p].Working? then 1 else 0) +
    From(Mailbox(s.queue, s.mainPid), p)
  }

  function Lost(s: State, p: int): nat {
    if p in s.swallowed then 1 else 0
  }

  // What the property of the table should be: busy exactly when one token
  // exists, available exactly when none does.
  predicate Agrees(s: State, d: Driver) {
    Tokens(s, d.pid) == if d.isBusy then 1 else 0
  }

  predicate Distinct(t: seq<Driver>) {
    forall i, j :: 0 <= i < j < |t| ==> t[i].pid != t[j].pid
  }

  // ----- the invariant

  ghost predicate TableOk(s: State) {
    Distinct(s.table) && |s.table| <= MAX_DRIVERS && s.mainPid !in s.procs &&
    (forall p :: p in s.procs <==> Find(s.table, p) >= 0)
  }

  ghost predicate ProcsOk(s: State) {
    (forall p :: p in s.procs && s.procs[p].Working? ==>
       s.procs[p].left > 0 && s.procs[p].left + s.procs[p].ticks == s.procs[p].time) &&
    (forall k :: 0 <= k < |s.finished| ==> s.finished[k].1 == s.finished[k].0)
  }

  ghost predicate TokenOk(s: State, p: int) {
    if Accepts(s.table, p) || p !in s.procs then Tokens(s, p) == 0 && p !in s.swallowed
    else Tokens(s, p) + Lost(s, p) == 1
  }

  function BusyCount(t: seq<Driver>): nat {
    if t == [] then 0 else (if t[0].isBusy then 1 else 0) + BusyCount(t[1..])
  }

  // Drivers are never sent the dispatcher's mail, so a token has one meaning.
  ghost predicate Good(s: State) {
    TableOk(s) && ProcsOk(s) && (forall p :: p != s.mainPid ==> TokenOk(s, p)) &&
    From(Mailbox(s.queue, s.mainPid), s.mainPid) == 0 &&
    s.accepted == s.acked + BusyCount(s.table) &&
    |s.finished| == s.acked + |Mailbox(s.queue, s.mainPid)|
  }

  // ----- the table

  lemma FindAt(t: seq<Driver>, i: nat)
    requires Distinct(t) && i < |t|
    ensures Find(t, t[i].pid) == i
  {
  }

  lemma FindUpdate(t: seq<Driver>, i: nat, d: Driver, p: int)
    requires Distinct(t) && i < |t| && d.pid == t[i].pid
    ensures Distinct(t[i := d]) && Find(t[i := d], p) == Find(t, p)
  {
    var u := t[i := d];
    assert forall j :: 0 <= j < |t| ==> u[j].pid == t[j].pid;
  }

  lemma FindSnoc(t: seq<Driver>, d: Driver, p: int)
    requires Distinct(t) && Find(t, d.pid) == -1
    ensures Distinct(t + [d])
    ensures Find(t + [d], p) == if p == d.pid then |t| else Find(t, p)
  {
    var u := t + [d];
    assert u[|t|] == d;
    assert forall j :: 0 <= j < |t| ==> u[j] == t[j];
  }

  lemma {:induction false} BusyUpdate(t: seq<Driver>, i: nat, d: Driver)
    requires i < |t|
    ensures BusyCount(t[i := d]) + (if t[i].isBusy then 1 else 0) == BusyCount(t) + if d.isBusy then 1 else 0
  {
    if i == 0 {
      assert t[0 := d][1..] == t[1..];
    } else {
      assert t[i := d][1..] == t[1..][i - 1 := d];
      BusyUpdate(t[1..], i - 1, d);
    }
  }

  lemma {:induction false} BusySnoc(t: seq<Driver>, d: Driver)
    ensures BusyCount(t + [d]) == BusyCount(t) + if d.isBusy then 1 else 0
  {
    if t == [] {
      assert t + [d] == [d];
    } else {
      assert (t + [d])[1..] == t[1..] + [d];
      BusySnoc(t[1..], d);
    }
  }

  // ----- the steps

  lemma OneMore(q: seq<Message>, m: Message, p: int)
    ensures Mailbox(q + [m], p) == if m.mtype == p then Mailbox(q, p) + [m.body] else Mailbox(q, p)
  {
    MailboxAppend(q, [m], p);
    assert [m][1..] == [];
    assert Mailbox(q, p) + [] == Mailbox(q, p);
  }

  lemma CreateKeeps(s: State, p: int)
    requires Good(s) && Enabled(s, Create(p))
    ensures Good(CreateStep(s, p))
  {
    var t := CreateStep(s, p);
    var d := Driver(p, false, 0);
    BusySnoc(s.table, d);
    forall q ensures Distinct(t.table) && Find(t.table, q) == if q == p then |s.table| else Find(s.table, q) {
      FindSnoc(s.table, d, q);
    }
    forall q | q != t.mainPid ensures TokenOk(t, q) {
      assert TokenOk(s, q);
    }
  }

  lemma TaskTokens(s: State, p: int, timer: int, junk: int, q: int)
    requires Accepts(s.table, p) && p != s.mainPid
    ensures Tokens(TaskStep(s, p, timer, junk), q) == Tokens(s, q) + if q == p then 1 else 0
  {
    OneMore(s.queue, Envelope(p, Body(timer, junk)), q);
    OneMore(s.queue, Envelope(p, Body(timer, junk)), s.mainPid);
  }

  lemma TaskKeeps(s: State, p: int, timer: int, junk: int)
    requires Good(s)
    ensures Good(TaskStep(s, p, timer, junk))
  {
    var t := TaskStep(s, p, timer, junk);
    if Accepts(s.table, p) {
      var i := Find(s.table, p);
      assert p in s.procs;
      BusyUpdate(s.table, i, Driver(p, true, timer));
      forall q ensures Distinct(t.table) && Find(t.table, q) == Find(s.table, q) {
        FindUpdate(s.table, i, Driver(p, true, timer), q);
      }
      forall q | q != t.mainPid ensures TokenOk(t, q) {
        TaskTokens(s, p, timer, junk, q);
        assert TokenOk(s, q);
        if q != p && Find(s.table, q) >= 0 {
          assert Find(s.table, q) != i;
        }
      }
      OneMore(s.queue, Envelope(p, Body(timer, junk)), s.mainPid);
    } else {
      assert s.queue + [] == s.queue;
      assert t == s;
    }
  }

  // The completion at the head of the dispatcher's mailbox is its driver's token.
  lemma AckTokens(s: State, q: int)
    requires Mailbox(s.queue, s.mainPid) != [] && q != s.mainPid
    ensures Tokens(AckStep(s), q) + (if q == Mailbox(s.queue, s.mainPid)[0].pid then 1 else 0) == Tokens(s, q)
  {
    ReceiveTakesHead(s.queue, s.mainPid, q);
    ReceiveTakesHead(s.queue, s.mainPid, s.mainPid);
  }

  lemma AckKeeps(s: State)
    requires Good(s) && Mailbox(s.queue, s.mainPid) != []
    ensures Good(AckStep(s))
  {
    var t := AckStep(s);
    var p := Mailbox(s.queue, s.mainPid)[0].pid;
    ReceiveTakesHead(s.queue, s.mainPid, s.mainPid);
    assert p != s.mainPid;
    assert TokenOk(s, p) && Tokens(s, p) >= 1;
    var i := Find(s.table, p);
    assert s.table[i].isBusy;
    BusyUpdate(s.table, i, Driver(p, false, 0));
    forall q ensures Distinct(t.table) && Find(t.table, q) == Find(s.table, q) {
      FindUpdate(s.table, i, Driver(p, false, 0), q);
    }
    forall q | q != t.mainPid ensures TokenOk(t, q) {
      AckTokens(s, q);
      assert TokenOk(s, q);
      if q != p && Find(s.table, q) >= 0 {
        assert Find(s.table, q) != i;
      }
    }
  }

  lemma FetchTokens(s: State, p: int, q: int)
    requires Enabled(s, Fetch(p)) && p != s.mainPid
    ensures Tokens(FetchStep(s, p), q) + Lost(FetchStep(s, p), q) >= Tokens(s, q)
    ensures p !in s.swallowed ==> Tokens(FetchStep(s, p), q) + Lost(FetchStep(s, p), q) == Tokens(s, q) + Lost(s, q)
    ensures q != p ==> Tokens(FetchStep(s, p), q) == Tokens(s, q)
  {
    ReceiveTakesHead(s.queue, p, q);
    ReceiveTakesHead(s.queue, p, s.mainPid);
  }

  lemma FetchKeeps(s: State, p: int)
    requires Good(s) && Enabled(s, Fetch(p))
    ensures Good(FetchStep(s, p))
  {
    var t := FetchStep(s, p);
    assert TokenOk(s, p) && Tokens(s, p) >= 1;
    assert p !in s.swallowed;
    ReceiveTakesHead(s.queue, p, s.mainPid);
    forall q | q != t.mainPid ensures TokenOk(t, q) {
      FetchTokens(s, p, q);
      assert TokenOk(s, q);
    }
  }

  lemma TickTokens(s: State, p: int, q: int)
    requires Enabled(s, Tick(p)) && q != s.mainPid
    ensures Tokens(TickStep(s, p), q) == Tokens(s, q)
  {
    var w := s.procs[p];
    if w.left - 1 <= 0 {
      var m := Envelope(s.mainPid, Body(w.time, p));
      OneMore(s.queue, m, q);
      OneMore(s.queue, m, s.mainPid);
      FromAppend(Mailbox(s.queue, s.mainPid), [m.body], q);
      assert [m.body][1..] == [];
    }
  }

  lemma TickTokenOk(s: State, p: int, q: int)
    requires Enabled(s, Tick(p)) && q != s.mainPid && TokenOk(s, q)
    ensures TokenOk(TickStep(s, p), q)
  {
    TickTokens(s, p, q);
  }

  // The dispatcher's mail after a tick: one completion more when the work is done.
  lemma TickMail(s: State, p: int)
    requires Enabled(s, Tick(p)) && p != s.mainPid
    ensures var t := TickStep(s, p);
            From(Mailbox(t.queue, s.mainPid), s.mainPid) == From(Mailbox(s.queue, s.mainPid), s.mainPid) &&
            |Mailbox(t.queue, s.mainPid)| + |s.finished| == |Mailbox(s.queue, s.mainPid)| + |t.finished|
  {
    var m := Envelope(s.mainPid, Body(s.procs[p].time, p));
    OneMore(s.queue, m, s.mainPid);
    FromAppend(Mailbox(s.queue, s.mainPid), [m.body], s.mainPid);
    assert [m.body][1..] == [];
  }

  lemma TickTables(s: State, p: int)
    requires TableOk(s) && ProcsOk(s) && Enabled(s, Tick(p))
    ensures TableOk(TickStep(s, p)) && ProcsOk(TickStep(s, p))
  {
  }

  lemma TickKeeps(s: State, p: int)
    requires Good(s) && Enabled(s, Tick(p))
    ensures Good(TickStep(s, p))
  {
    var t := TickStep(s, p);
    assert p != s.mainPid;
    forall q | q != t.mainPid ensures TokenOk(t, q) {
      assert TokenOk(s, q);
      TickTokenOk(s, p, q);
    }
    TickTables(s, p);
    TickMail(s, p);
  }

  lemma StepKeeps(s: State, e: Event)
    requires Good(s) && Enabled(s, e)
    ensures Good(Next(s, e)) && s.swallowed <= Next(s, e).swallowed
  {
    match e
    case Create(p) => CreateKeeps(s, p);
    case Task(p, timer, junk) => TaskKeeps(s, p, timer, junk);
    case Ack => AckKeeps(s);
    case Fetch(p) => FetchKeeps(s, p);
    case Tick(p) => TickKeeps(s, p);
  }

  lemma {:induction false} RunKeeps(s: State, es: seq<Event>)
    requires Good(s)
    ensures Good(Run(s, es)) && s.swallowed <= Run(s, es).swallowed
    decreases |es|
  {
    if es != [] {
      if Enabled(s, es[0]) {
        StepKeeps(s, es[0]);
        RunKeeps(Next(s, es[0]), es[1..]);
      } else {
        RunKeeps(s, es[1..]);
      }
    }
  }

  // ----- positive timers

  // No task with a timer of zero or less is under way or was swallowed.
  ghost predicate Positive(s: State) {
    s.swallowed == {} && forall p :: p != s.mainPid ==> forall m :: m in Mailbox(s.queue, p) ==> m.time > 0
  }

  predicate PositiveTimers(es: seq<Event>) {
    forall k :: 0 <= k < |es| && es[k].Task? ==> es[k].timer > 0
  }

  lemma PositiveStep(s: State, e: Event)
    requires Good(s) && Positive(s) && Enabled(s, e) && (e.Task? ==> e.timer > 0)
    ensures Positive(Next(s, e))
  {
    var t := Next(s, e);
    forall p, m | p != t.mainPid && m in Mailbox(t.queue, p) ensures m.time > 0 {
      match e
      case Task(q, timer, junk) =>
        if Accepts(s.table, q) {
          OneMore(s.queue, Envelope(q, Body(timer, junk)), p);
        } else {
          assert s.queue + [] == s.queue;
        }
      case Ack => ReceiveTakesHead(s.queue, s.mainPid, p);
      case Fetch(q) => ReceiveTakesHead(s.queue, q, p);
      case Tick(q) => OneMore(s.queue, Envelope(s.mainPid, Body(s.procs[q].time, q)), p);
      case Create(_) =>
    }
  }

  lemma {:induction false} PositiveRun(s: State, es: seq<Event>)
    requires Good(s) && Positive(s) && PositiveTimers(es)
    ensures Positive(Run(s, es))
    decreases |es|
  {
    if es != [] {
      assert PositiveTimers(es[1..]) by {
        forall k | 0 <= k < |es[1..]| && es[1..][k].Task? ensures es[1..][k].timer > 0 {
          assert es[k + 1].Task?;
        }
      }
      if Enabled(s, es[0]) {
        PositiveStep(s, es[0]);
        StepKeeps(s, es[0]);
        PositiveRun(Next(s, es[0]), es[1..]);
      } else {
        PositiveRun(s, es[1..]);
      }
    }
  }

  // ----- the results

  // In every run with positive timers, an entry is busy iff exactly one token
  // of its driver exists and available iff none does; a working driver has no
  // second task waiting.
  lemma DispatcherAgrees(mainPid: int, es: seq<Event>, s: State, i: nat)
    requires PositiveTimers(es) && s == Run(Start(mainPid), es) && i < |s.table|
    ensures Agrees(s, s.table[i])
    ensures s.table[i].pid in s.procs
    ensures s.procs[s.table[i].pid].Working? ==> Mailbox(s.queue, s.table[i].pid) == []
  {
    RunKeeps(Start(mainPid), es);
    PositiveRun(Start(mainPid), es);
    FindAt(s.table, i);
    assert s.table[i].pid in s.procs;
    assert TokenOk(s, s.table[i].pid);
  }

  // For any timers the table agrees exactly with the drivers that swallowed no
  // task, and a driver that swallowed one stays busy for ever.
  lemma AgreesUnlessSwallowed(mainPid: int, es: seq<Event>, more: seq<Event>, s: State, i: nat)
    requires s == Run(Start(mainPid), es) && i < |s.table|
    ensures Agrees(s, s.table[i]) <==> s.table[i].pid !in s.swallowed
    ensures s.table[i].pid in s.swallowed ==> !Accepts(Run(s, more).table, s.table[i].pid)
  {
    var p := s.table[i].pid;
    RunKeeps(Start(mainPid), es);
    FindAt(s.table, i);
    assert p in s.procs;
    assert TokenOk(s, p);
    RunKeeps(s, more);
    if p in s.swallowed {
      MainPidFixed(s, more);
      assert TokenOk(Run(s, more), p);
    }
  }

  lemma {:induction false} MainPidFixed(s: State, es: seq<Event>)
    ensures Run(s, es).mainPid == s.mainPid
    decreases |es|
  {
    if es != [] {
      MainPidFixed(if Enabled(s, es[0]) then Next(s, es[0]) else s, es[1..]);
    }
  }

  lemma TaskArrives(s: State, p: int, timer: int, junk: int)
    requires Good(s) && Accepts(s.table, p)
    ensures var t := TaskStep(s, p, timer, junk);
            p != s.mainPid && p !in s.swallowed && Enabled(t, Fetch(p)) && Mailbox(t.queue, p)[0].time == timer
  {
    assert p in s.procs;
    assert TokenOk(s, p);
    OneMore(s.queue, Envelope(p, Body(timer, junk)), p);
  }

  // Delivering a task keeps table and driver in agreement iff its timer is positive.
  lemma DeliveryAgreesIffPositive(mainPid: int, es: seq<Event>, s: State, p: int, timer: int, junk: int)
    requires s == Run(Start(mainPid), es) && Accepts(s.table, p)
    ensures var t := TaskStep(s, p, timer, junk);
            Enabled(t, Fetch(p)) &&
            var u := FetchStep(t, p);
            Find(u.table, p) >= 0 && u.table[Find(u.table, p)].isBusy &&
            (Agrees(u, u.table[Find(u.table, p)]) <==> timer > 0)
  {
    RunKeeps(Start(mainPid), es);
    var t := TaskStep(s, p, timer, junk);
    TaskArrives(s, p, timer, junk);
    TaskKeeps(s, p, timer, junk);
    FetchKeeps(t, p);
    var u := FetchStep(t, p);
    FindUpdate(s.table, Find(s.table, p), Driver(p, true, timer), p);
    assert TokenOk(u, p);
  }

  // A completed task slept exactly as many seconds as its timer said and sent
  // one completion, and accepted tasks are acknowledged ones plus busy entries.
  lemma TasksAccounted(mainPid: int, es: seq<Event>, s: State, k: nat)
    requires s == Run(Start(mainPid), es)
    ensures k < |s.finished| ==> s.finished[k].1 == s.finished[k].0
    ensures s.accepted == s.acked + BusyCount(s.table)
    ensures |s.finished| == s.acked + |Mailbox(s.queue, s.mainPid)|
  {
    RunKeeps(Start(mainPid), es);
  }

  // ----- what can be reached

  lemma {:induction false} RunAppend(s: State, es: seq<Event>, e: Event)
    ensures Run(s, es + [e]) == if Enabled(Run(s, es), e) then Next(Run(s, es), e) else Run(s, es)
    decreases |es|
  {
    if es == [] {
      assert [e][1..] == [];
    } else {
      assert (es + [e])[1..] == es[1..] + [e];
      RunAppend(if Enabled(s, es[0]) then Next(s, es[0]) else s, es[1..], e);
    }
  }

  // The table of n drivers with the pids after first, none of them with a task.
  ghost predicate Fleet(s: State, first: int, n: nat) {
    |s.table| == n && s.queue == [] && s.mainPid == first &&
    (forall p :: p in s.procs <==> first < p <= first + n) &&
    (forall p :: p in s.procs ==> s.procs[p] == Receiving) &&
    forall i :: 0 <= i < n ==> s.table[i] == Driver(first + 1 + i, false, 0)
  }

  lemma {:induction false} FleetReachable(first: int, n: nat) returns (es: seq<Event>)
    requires n <= 100
    ensures Fleet(Run(Start(first), es), first, n)
  {
    es := [];
    if n > 0 {
      es := FleetReachable(first, n - 1);
      RunAppend(Start(first), es, Create(first + n));
      es := es + [Create(first + n)];
    }
  }

  // Up to 100 drivers can be created, and each of them can be given any task: it
  // becomes busy with that timer and nothing happens to the others.
  lemma AnyTaskAccepted(first: int, n: nat, i: nat, timer: int, junk: int)
    requires i < n <= 100
    ensures exists es :: var s := Run(Start(first), es);
              |s.table| == n &&
              (forall k :: 0 <= k < n ==> s.table[k].isBusy == (k == i)) &&
              s.table[i].taskTimer == timer && Mailbox(s.queue, s.table[i].pid) == [Body(timer, junk)]
  {
    var es := FleetReachable(first, n);
    var s := Run(Start(first), es);
    var p := first + 1 + i;
    FindInFleet(s, first, n, i);
    RunAppend(Start(first), es, Task(p, timer, junk));
    OneMore(s.queue, Envelope(p, Body(timer, junk)), p);
    var t := Run(Start(first), es + [Task(p, timer, junk)]);
    assert t == TaskStep(s, p, timer, junk);
  }

  lemma FindInFleet(s: State, first: int, n: nat, i: nat)
    requires Fleet(s, first, n) && i < n
    ensures Find(s.table, first + 1 + i) == i && Accepts(s.table, first + 1 + i)
  {
    assert Distinct(s.table);
    FindAt(s.table, i);
  }

  // ----- timers on their way

  // The timer shown for a busy entry is the one its driver's token carries.
  ghost predicate CarriesTimer(s: State, d: Driver) {
    (forall m :: m in Mailbox(s.queue, d.pid) ==> m.time == d.taskTimer) &&
    (d.pid in s.procs && s.procs[d.pid].Working? ==> s.procs[d.pid].time == d.taskTimer) &&
    (forall m :: m in Mailbox(s.queue, s.mainPid) && m.pid == d.pid ==> m.time == d.taskTimer)
  }

  ghost predicate TimerOk(s: State, d: Driver) {
    if d.isBusy then CarriesTimer(s, d) else d.taskTimer == 0
  }

  ghost predicate TimersOk(s: State) {
    forall i :: 0 <= i < |s.table| ==> TimerOk(s, s.table[i])
  }

  lemma {:induction false} FromNone(ms: seq<Body>, p: int, m: Body)
    requires From(ms, p) == 0 && m in ms
    ensures m.pid != p
  {
    if ms[0] != m {
      assert m in ms[1..];
      FromNone(ms[1..], p, m);
    }
  }

  lemma TimersTask(s: State, p: int, timer: int, junk: int)
    requires Good(s) && TimersOk(s) && Accepts(s.table, p)
    ensures TimersOk(TaskStep(s, p, timer, junk))
  {
    var t := TaskStep(s, p, timer, junk);
    assert p in s.procs;
    assert TokenOk(s, p);
    var m := Envelope(p, Body(timer, junk));
    OneMore(s.queue, m, s.mainPid);
    forall i | 0 <= i < |t.table| ensures TimerOk(t, t.table[i]) {
      FindAt(s.table, i);
      OneMore(s.queue, m, t.table[i].pid);
      if t.table[i].pid == p {
        forall x | x in Mailbox(s.queue, s.mainPid) ensures x.pid != p {
          FromNone(Mailbox(s.queue, s.mainPid), p, x);
        }
      } else {
        assert i < |s.table| ==> TimerOk(s, s.table[i]);
      }
    }
  }

  lemma TimersReceive(s: State, t: State, p: int, d: Driver)
    requires CarriesTimer(s, d) && Mailbox(s.queue, p) != [] && t.queue == Receive(s.queue, p) && t.mainPid == s.mainPid
    requires d.pid in t.procs && t.procs[d.pid].Working? ==> t.procs[d.pid].time == d.taskTimer
    ensures CarriesTimer(t, d)
  {
    ReceiveTakesHead(s.queue, p, d.pid);
    ReceiveTakesHead(s.queue, p, s.mainPid);
  }

  lemma TimersTick(s: State, p: int)
    requires Good(s) && TimersOk(s) && Enabled(s, Tick(p))
    ensures TimersOk(TickStep(s, p))
  {
    var t := TickStep(s, p);
    var m := Envelope(s.mainPid, Body(s.procs[p].time, p));
    OneMore(s.queue, m, s.mainPid);
    forall i | 0 <= i < |t.table| ensures TimerOk(t, t.table[i]) {
      FindAt(s.table, i);
      assert t.table[i].pid in s.procs;
      OneMore(s.queue, m, t.table[i].pid);
      assert i < |s.table| ==> TimerOk(s, s.table[i]);
    }
  }

  lemma TimersStep(s: State, e: Event)
    requires Good(s) && TimersOk(s) && Enabled(s, e)
    ensures TimersOk(Next(s, e))
  {
    var t := Next(s, e);
    match e
    case Create(p) =>
      forall i | 0 <= i < |t.table| ensures TimerOk(t, t.table[i]) {
        assert i < |s.table| ==> TimerOk(s, s.table[i]);
      }
    case Task(p, timer, junk) =>
      if Accepts(s.table, p) {
        TimersTask(s, p, timer, junk);
      } else {
        assert s.queue + [] == s.queue;
      }
    case Ack =>
      forall i | 0 <= i < |t.table| ensures TimerOk(t, t.table[i]) {
        assert TimerOk(s, s.table[i]);
        if t.table[i].isBusy { TimersReceive(s, t, s.mainPid, s.table[i]); }
      }
    case Fetch(p) =>
      ReceiveTakesHead(s.queue, p, p);
      forall i | 0 <= i < |t.table| ensures TimerOk(t, t.table[i]) {
        assert Mailbox(s.queue, p)[0] in Mailbox(s.queue, p);
        assert TimerOk(s, s.table[i]);
        if t.table[i].isBusy { TimersReceive(s, t, p, s.table[i]); }
      }
    case Tick(p) => TimersTick(s, p);
  }

  lemma {:induction false} TimersRun(s: State, es: seq<Event>)
    requires Good(s) && TimersOk(s)
    ensures TimersOk(Run(s, es))
    decreases |es|
  {
    if es != [] {
      if Enabled(s, es[0]) {
        TimersStep(s, es[0]);
        StepKeeps(s, es[0]);
        TimersRun(Next(s, es[0]), es[1..]);
      } else {
        TimersRun(s, es[1..]);
      }
    }
  }

  // A driver works for exactly the timer its busy entry shows: seconds left and
  // seconds slept add up to it, and the next second ends the work when they are used up.
  lemma WorksAsShown(mainPid: int, es: seq<Event>, s: State, i: nat)
    requires s == Run(Start(mainPid), es) && i < |s.table|
    requires var p := s.table[i].pid; p in s.procs && s.procs[p].Working?
    ensures var w := s.procs[s.table[i].pid];
            s.table[i].isBusy && w.left > 0 && w.left + w.ticks == s.table[i].taskTimer
  {
    RunKeeps(Start(mainPid), es);
    TimersRun(Start(mainPid), es);
    FindAt(s.table, i);
    assert TokenOk(s, s.table[i].pid);
    assert TimerOk(s, s.table[i]);
  }

  // An available entry shows no timer.
  lemma AvailableShowsZero(mainPid: int, es: seq<Event>, s: State, i: nat)
    requires s == Run(Start(mainPid), es) && i < |s.table| && !s.table[i].isBusy
    ensures s.table[i].taskTimer == 0
  {
    TimersRun(Start(mainPid), es);
    assert TimerOk(s, s.table[i]);
  }

  // ----- progress

  function Weight(s: State, m: Message): nat {
    if m.mtype == s.mainPid then 1 else if m.body.time > 0 then m.body.time + 2 else 1
  }

  function QueueWeight(s: State, q: seq<Message>): nat {
    if q == [] then 0 else Weight(s, q[0]) + QueueWeight(s, q[1..])
  }

  function Credit(p: Process): nat {
    if p.Working? then (if p.left > 0 then p.left else 0) + 1 else 0
  }

  function Credits(t: seq<Driver>, procs: map<int, Process>): nat {
    if t == [] then 0
    else (if t[0].pid in procs then Credit(procs[t[0].pid]) else 0) + Credits(t[1..], procs)
  }

  // Phases and seconds that the tasks under way still have to go through.
  function Remaining(s: State): nat {
    QueueWeight(s, s.queue) + Credits(s.table, s.procs)
  }

  lemma {:induction false} QueueWeightAppend(s: State, a: seq<Message>, b: seq<Message>)
    ensures QueueWeight(s, a + b) == QueueWeight(s, a) + QueueWeight(s, b)
  {
    if a == [] {
      assert a + b == b;
    } else {
      assert (a + b)[1..] == a[1..] + b;
      QueueWeightAppend(s, a[1..], b);
    }
  }

  lemma QueueWeightReceive(s: State, p: int)
    requires Mailbox(s.queue, p) != []
    ensures QueueWeight(s, s.queue) ==
            QueueWeight(s, Receive(s.queue, p)) + Weight(s, Envelope(p, Mailbox(s.queue, p)[0]))
  {
    var k := FirstOf(s.queue, p);
    ReceiveTakesHead(s.queue, p, p);
    QueueWeightAppend(s, s.queue[..k], s.queue[k + 1..]);
    QueueWeightAppend(s, s.queue[..k], s.queue[k..]);
    assert s.queue[..k] + s.queue[k..] == s.queue;
    assert s.queue[k..][1..] == s.queue[k + 1..];
  }

  lemma {:induction false} QueueWeightSame(s: State, t: State, q: seq<Message>)
    requires s.mainPid == t.mainPid
    ensures QueueWeight(s, q) == QueueWeight(t, q)
  {
    if q != [] {
      QueueWeightSame(s, t, q[1..]);
    }
  }

  lemma {:induction false} CreditsElsewhere(t: seq<Driver>, procs: map<int, Process>, p: int, x: Process)
    requires forall j :: 0 <= j < |t| ==> t[j].pid != p
    ensures Credits(t, procs[p := x]) == Credits(t, procs)
  {
    if t != [] {
      assert t[0].pid != p;
      assert forall j :: 0 <= j < |t[1..]| ==> t[1..][j] == t[j + 1];
      CreditsElsewhere(t[1..], procs, p, x);
    }
  }

  lemma {:induction false} CreditsUpdate(t: seq<Driver>, procs: map<int, Process>, p: int, x: Process)
    requires Distinct(t) && p in procs && Find(t, p) >= 0
    ensures Credits(t, procs[p := x]) + Credit(procs[p]) == Credits(t, procs) + Credit(x)
  {
    assert forall j :: 0 <= j < |t[1..]| ==> t[1..][j] == t[j + 1];
    if t[0].pid == p {
      CreditsElsewhere(t[1..], procs, p, x);
    } else {
      CreditsUpdate(t[1..], procs, p, x);
    }
  }

  lemma {:induction false} CreditsSamePids(t: seq<Driver>, u: seq<Driver>, procs: map<int, Process>)
    requires |t| == |u| && forall j :: 0 <= j < |t| ==> t[j].pid == u[j].pid
    ensures Credits(t, procs) == Credits(u, procs)
  {
    if t != [] {
      assert t[0].pid == u[0].pid;
      assert forall j :: 0 <= j < |t[1..]| ==> t[1..][j] == t[j + 1] && u[1..][j] == u[j + 1];
      CreditsSamePids(t[1..], u[1..], procs);
    }
  }

  predicate Internal(e: Event) {
    e.Ack? || e.Fetch? || e.Tick?
  }

  // Every step that is not a command uses up exactly one unit.
  lemma StepUsesOne(s: State, e: Event)
    requires Good(s) && Enabled(s, e) && Internal(e)
    ensures Remaining(Next(s, e)) + 1 == Remaining(s)
  {
    var t := Next(s, e);
    QueueWeightSame(s, t, t.queue);
    match e
    case Ack =>
      QueueWeightReceive(s, s.mainPid);
      CreditsSamePids(s.table, t.table, s.procs);
    case Fetch(p) =>
      QueueWeightReceive(s, p);
      var time := Mailbox(s.queue, p)[0].time;
      CreditsUpdate(s.table, s.procs, p, Working(time, 0, time));
    case Tick(p) =>
      var w := s.procs[p];
      CreditsUpdate(s.table, s.procs, p, t.procs[p]);
      var m := Envelope(s.mainPid, Body(w.time, p));
      QueueWeightAppend(s, s.queue, [m]);
      assert [m][1..] == [];
  }

  predicate AllInternal(s: State, es: seq<Event>)
    decreases |es|
  {
    es == [] || (Internal(es[0]) && Enabled(s, es[0]) && AllInternal(Next(s, es[0]), es[1..]))
  }

  lemma {:induction false} InternalRun(s: State, es: seq<Event>)
    requires Good(s) && AllInternal(s, es)
    ensures |es| + Remaining(Run(s, es)) == Remaining(s)
    decreases |es|
  {
    if es != [] {
      StepUsesOne(s, es[0]);
      StepKeeps(s, es[0]);
      InternalRun(Next(s, es[0]), es[1..]);
    }
  }

  // Without new commands the system stops after exactly Remaining steps, and
  // then every driver whose timers were positive is available again.
  lemma QuietMeansAvailable(mainPid: int, es: seq<Event>, s: State, i: nat)
    requires s == Run(Start(mainPid), es) && i < |s.table|
    requires forall e: Event :: Internal(e) ==> !Enabled(s, e)
    ensures s.table[i].isBusy <==> s.table[i].pid in s.swallowed
    ensures PositiveTimers(es) ==> !s.table[i].isBusy
  {
    var p := s.table[i].pid;
    RunKeeps(Start(mainPid), es);
    FindAt(s.table, i);
    assert p in s.procs;
    assert !Enabled(s, Ack) && !Enabled(s, Fetch(p)) && !Enabled(s, Tick(p));
    assert TokenOk(s, p);
    if PositiveTimers(es) {
      PositiveRun(Start(mainPid), es);
    }
  }

  lemma StopsAfterRemaining(mainPid: int, es: seq<Event>, s: State, more: seq<Event>)
    requires s == Run(Start(mainPid), es) && AllInternal(s, more)
    ensures |more| <= Remaining(s)
    ensures Remaining(Run(s, more)) == Remaining(s) - |more|
  {
    RunKeeps(Start(mainPid), es);
    InternalRun(s, more);
  }
}
