// The whole chat: one server, any number of clients, two kernel queues.  Every
// msgsnd and every msgrcv is a step of its own, so a client may read while the
// server is still in the middle of a broadcast.
module ChatReplication {
  import opened CStrings
  import opened MessageQueue
  import opened ChatProtocol
  import opened Sequences
  import opened Wrappers

  // A client: the name it joined with as a table holds it, its reading thread's
  // table, the talk it has shown so far, and whether its writing thread still runs.
  datatype Client = Client(name: Name, table: seq<Entry>, heard: seq<Spoken>, active: bool)

  // pending holds the messages of the current request the server has yet to send.
  datatype System = System(
    server: Server,
    pending: seq<Message>,
    inbox: seq<Message>,
    outq: seq<Message>,
    clients: map<int, Client>)

  datatype Event =
    | Join(pid: int, text: Buffer)
    | Talk(pid: int, text: Buffer)
    | Leave(pid: int, text: Buffer)
    | Serve
    | Send
    | Read(pid: int)

  const START := System(Server([], []), [], [], [], map[])

  // What a client has not read yet, including what is still to be sent to it.
  function Unread(s: System, p: int): seq<Body> {
    Mailbox(s.outq + s.pending, p)
  }

  predicate CanServe(s: System) {
    s.pending == [] && s.inbox != []
  }

  predicate CanRead(s: System, p: int) {
    p in s.clients && Mailbox(s.outq, p) != []
  }

  // The client reads at most 255 characters of talk.
  predicate Enabled(s: System, e: Event) {
    match e
    case Join(p, text) => p > 0 && p !in s.clients
    case Talk(p, text) => p in s.clients && s.clients[p].active && |CString(text)| < TEXT_SIZE
    case Leave(p, text) => p in s.clients && s.clients[p].active
    case Serve => CanServe(s)
    case Send => s.pending != []
    case Read(p) => CanRead(s, p)
  }

  function Request(kind: int, p: int, text: Buffer): Message {
    Envelope(kind, Body(text, p, kind))
  }

  function JoinStep(s: System, p: int, text: Buffer): System {
    s.(inbox := s.inbox + [Request(NEW_CLIENT, p, text)], clients := s.clients[p := Client(NameOf(text), [], [], true)])
  }

  function TalkStep(s: System, p: int, text: Buffer): System {
    s.(inbox := s.inbox + [Request(MESSAGE_FROM_CLIENT, p, text)])
  }

  function LeaveStep(s: System, p: int, text: Buffer): System
    requires p in s.clients
  {
    s.(inbox := s.inbox + [Request(CLIENT_LEAVE, p, text)],
       clients := s.clients[p := s.clients[p].(active := false)])
  }

  function Announce(s: System, server: Server, r: Message): System
    requires s.inbox != []
  {
    s.(server := server, inbox := s.inbox[1..], pending := Outgoing(server, r))
  }

  // One round of the server's loop up to its first msgsnd.  A run ends where the
  // server goes outside a table, and where it announces an eleventh member, whom
  // no member's table has room for (see EleventhJoinFails).
  function ServeStep(s: System): Option<System>
    requires CanServe(s)
  {
    match Register(s.server, s.inbox[0])
    case None => None
    case Some((server, r)) =>
      if r.mtype == NEW_CLIENT && |s.server.roster| >= SIZE_CLIENTS then None
      else Some(Announce(s, server, r))
  }

  function SendStep(s: System): System
    requires s.pending != []
  {
    s.(outq := s.outq + [s.pending[0]], pending := s.pending[1..])
  }

  function ReadStep(s: System, p: int): Option<System>
    requires CanRead(s, p)
  {
    var m := Mailbox(s.outq, p)[0];
    var c := s.clients[p];
    match ApplyOne(c.table, m)
    case None => None
    case Some(table) =>
      Some(s.(outq := Receive(s.outq, p),
              clients := s.clients[p := c.(table := table, heard := c.heard + Heard([m]))]))
  }

  function Next(s: System, e: Event): Option<System>
    requires Enabled(s, e)
  {
    match e
    case Join(p, text) => Some(JoinStep(s, p, text))
    case Talk(p, text) => Some(TalkStep(s, p, text))
    case Leave(p, text) => Some(LeaveStep(s, p, text))
    case Serve => ServeStep(s)
    case Send => Some(SendStep(s))
    case Read(p) => ReadStep(s, p)
  }

  // A run of the chat; an event that cannot happen is skipped.
  function Run(s: System, es: seq<Event>): Option<System>
    decreases |es|
  {
    if es == [] then Some(s)
    else if !Enabled(s, es[0]) then Run(s, es[1..])
    else match Next(s, es[0])
         case None => None
         case Some(t) => Run(t, es[1..])
  }

  // ----- the order of requests

  // Requests that make sense one after the other: join, then talk, then leave.
  predicate RequestOk(members: set<int>, r: Message) {
    if r.mtype == NEW_CLIENT then r.body.sender !in members
    else r.body.sender in members && (r.mtype == CLIENT_LEAVE || r.mtype == MESSAGE_FROM_CLIENT)
  }

  function MembersStep(members: set<int>, r: Message): set<int> {
    if r.mtype == NEW_CLIENT then members + {r.body.sender}
    else if r.mtype == CLIENT_LEAVE then members - {r.body.sender}
    else members
  }

  predicate Orderly(members: set<int>, q: seq<Message>)
    decreases |q|
  {
    q == [] || (RequestOk(members, q[0]) && Orderly(MembersStep(members, q[0]), q[1..]))
  }

  function MembersAfter(members: set<int>, q: seq<Message>): set<int>
    decreases |q|
  {
    if q == [] then members else MembersAfter(MembersStep(members, q[0]), q[1..])
  }

  lemma {:induction false} OrderlyAppend(members: set<int>, q: seq<Message>, r: Message)
    requires Orderly(members, q) && RequestOk(MembersAfter(members, q), r)
    ensures Orderly(members, q + [r])
    ensures MembersAfter(members, q + [r]) == MembersStep(MembersAfter(members, q), r)
    decreases |q|
  {
    if q == [] {
      assert (q + [r])[1..] == [];
    } else {
      assert (q + [r])[1..] == q[1..] + [r];
      OrderlyAppend(MembersStep(members, q[0]), q[1..], r);
    }
  }

  // ----- the invariant

  // Name fields as strncpy leaves them: nothing but NULs after the first NUL.
  predicate Canonical(e: Entry) {
    NameOf(e.name) == e.name
  }

  predicate NamesCanonical(t: seq<Entry>) {
    forall i :: 0 <= i < |t| ==> Canonical(t[i])
  }

  ghost predicate RosterOk(s: System) {
    DistinctPids(s.server.roster) && |s.server.roster| <= SIZE_CLIENTS && NamesCanonical(s.server.roster) &&
    PlainLog(s.server.log) &&
    forall e :: e in s.server.roster ==> e.pid in s.clients && s.clients[e.pid].name == e.name
  }

  function ActivePids(clients: map<int, Client>): set<int> {
    set p | p in clients && clients[p].active
  }

  predicate Joining(s: System, i: nat) {
    i < |s.inbox| && s.inbox[i].mtype == NEW_CLIENT
  }

  // A client whose request to join is still queued has seen nothing yet.
  ghost predicate InboxOk(s: System) {
    Orderly(Pids(s.server.roster), s.inbox) &&
    MembersAfter(Pids(s.server.roster), s.inbox) == ActivePids(s.clients) &&
    (forall i: nat :: Joining(s, i) ==>
       var p := s.inbox[i].body.sender;
       p in s.clients && p !in Pids(s.server.roster) && Unread(s, p) == [] &&
       s.clients[p] == Client(NameOf(s.inbox[i].body.text), [], [], s.clients[p].active)) &&
    (forall i: nat, j: nat :: i < j && Joining(s, i) && Joining(s, j) ==>
       s.inbox[i].body.sender != s.inbox[j].body.sender)
  }

  // What replication means for one client of the server's roster.
  ghost predicate Replicates(s: System, p: int)
    requires p in s.clients
  {
    Apply(s.clients[p].table, Unread(s, p)) == Some(s.server.roster) &&
    Repeats(s.clients[p].heard + Heard(Unread(s, p)), s.server.log)
  }

  ghost predicate ClientOk(s: System, p: int)
    requires p in s.clients
  {
    Apply(s.clients[p].table, Unread(s, p)).Some? &&
    (p in Pids(s.server.roster) ==> Replicates(s, p))
  }

  ghost predicate Good(s: System) {
    RosterOk(s) && InboxOk(s) &&
    (forall p :: p in s.clients ==> ClientOk(s, p)) &&
    (forall p :: p !in s.clients ==> Unread(s, p) == [])
  }

  // ----- folding over messages

  lemma {:induction false} ApplyAppend(t: seq<Entry>, a: seq<Body>, b: seq<Body>)
    ensures Apply(t, a + b) == match Apply(t, a) case None => None case Some(u) => Apply(u, b)
    decreases |a|
  {
    if a == [] {
      assert a + b == b;
    } else {
      assert (a + b)[1..] == a[1..] + b;
      match ApplyOne(t, a[0])
      case None =>
      case Some(u) => ApplyAppend(u, a[1..], b);
    }
  }

  lemma {:induction false} HeardAppend(a: seq<Body>, b: seq<Body>)
    ensures Heard(a + b) == Heard(a) + Heard(b)
  {
    if a == [] {
      assert a + b == b;
    } else {
      assert (a + b)[1..] == a[1..] + b;
      HeardAppend(a[1..], b);
      Associate(TalkOf(a[0]), Heard(a[1..]), Heard(b));
    }
  }

  // ----- what one request puts into each mailbox

  lemma PidsCons(t: seq<Entry>)
    requires t != [] && DistinctPids(t)
    ensures Pids(t) == {t[0].pid} + Pids(t[1..]) && t[0].pid !in Pids(t[1..]) && DistinctPids(t[1..])
  {
    assert t == [t[0]] + t[1..];
    forall e | e in t[1..] ensures e.pid != t[0].pid {
      var k :| 0 <= k < |t| - 1 && t[1..][k] == e;
      assert t[k + 1] == e;
    }
  }

  lemma {:induction false} ToAllMailbox(roster: seq<Entry>, body: Body, skip: Option<int>, p: int)
    requires DistinctPids(roster)
    ensures Mailbox(ToAll(roster, body, skip), p) ==
            if p in Pids(roster) && skip != Some(p) then [body] else []
  {
    if roster != [] {
      var q := roster[0].pid;
      PidsCons(roster);
      ToAllMailbox(roster[1..], body, skip, p);
      var head: seq<Message> := if skip == Some(q) then [] else [Envelope(q, body)];
      MailboxAppend(head, ToAll(roster[1..], body, skip), p);
      assert Mailbox(head, p) == if q == p && skip != Some(q) then [body] else [];
    }
  }

  // A name sent to a newcomer arrives unchanged.
  lemma EntryBodyApplies(t: seq<Entry>, body: Body, e: Entry)
    requires Canonical(e) && body.category == NEW_CLIENT && |t| < SIZE_CLIENTS
    ensures ApplyOne(t, EntryBody(body, e)) == Some(t + [e])
  {
    First19Survives(e.name, body.text[NAME_SIZE - 1..]);
  }

  lemma {:induction false} SendRosterElsewhere(roster: seq<Entry>, body: Body, target: int, p: int)
    requires p != target
    ensures Mailbox(SendRoster(roster, body, target), p) == []
  {
    if roster != [] {
      var b := EntryBody(body, roster[0]);
      assert SendRoster(roster, body, target)[1..] == SendRoster(roster[1..], b, target);
      SendRosterElsewhere(roster[1..], b, target, p);
    }
  }

  lemma SendRosterStep(roster: seq<Entry>, body: Body, target: int, before: seq<Entry>)
    requires roster != [] && Canonical(roster[0]) && body.category == NEW_CLIENT && |before| < SIZE_CLIENTS
    ensures Apply(before, Mailbox(SendRoster(roster, body, target), target)) ==
            Apply(before + [roster[0]], Mailbox(SendRoster(roster[1..], EntryBody(body, roster[0]), target), target))
  {
    var b := EntryBody(body, roster[0]);
    SendRosterHead(roster, body, target);
    EntryBodyApplies(before, body, roster[0]);
    FoldOne(before, b, Mailbox(SendRoster(roster[1..], b, target), target));
  }

  lemma CanonicalTail(roster: seq<Entry>)
    requires roster != [] && NamesCanonical(roster)
    ensures Canonical(roster[0]) && NamesCanonical(roster[1..])
  {
  }

  // The roster sent to a newcomer rebuilds the roster, names included.
  lemma {:induction false} SendRosterMailbox(roster: seq<Entry>, body: Body, target: int, before: seq<Entry>)
    requires NamesCanonical(roster) && body.category == NEW_CLIENT && |before| + |roster| <= SIZE_CLIENTS
    ensures Apply(before, Mailbox(SendRoster(roster, body, target), target)) == Some(before + roster)
    decreases |roster|
  {
    MoveOne(before, roster);
    if roster != [] {
      CanonicalTail(roster);
      SendRosterStep(roster, body, target, before);
      SendRosterMailbox(roster[1..], EntryBody(body, roster[0]), target, before + [roster[0]]);
    }
  }

  lemma SendRosterHead(roster: seq<Entry>, body: Body, target: int)
    requires roster != []
    ensures var b := EntryBody(body, roster[0]);
            Mailbox(SendRoster(roster, body, target), target) ==
            [b] + Mailbox(SendRoster(roster[1..], b, target), target)
  {
    var b := EntryBody(body, roster[0]);
    assert SendRoster(roster, body, target)[1..] == SendRoster(roster[1..], b, target);
  }

  lemma {:induction false} SendRosterSilent(roster: seq<Entry>, body: Body, target: int)
    requires body.category == NEW_CLIENT
    ensures Heard(Mailbox(SendRoster(roster, body, target), target)) == []
  {
    if roster != [] {
      var b := EntryBody(body, roster[0]);
      SendRosterHead(roster, body, target);
      SendRosterSilent(roster[1..], b, target);
      FoldOne([], b, Mailbox(SendRoster(roster[1..], b, target), target));
    }
  }

  lemma FoldOne(t: seq<Entry>, m: Body, ms: seq<Body>)
    ensures Heard([m] + ms) == Heard([m]) + Heard(ms)
    ensures Heard([m]) == TalkOf(m)
    ensures Apply(t, [m] + ms) == match ApplyOne(t, m) case None => None case Some(u) => Apply(u, ms)
    ensures Apply(t, [m]) == ApplyOne(t, m)
  {
    assert ([m] + ms)[1..] == ms;
    assert [m][1..] == [];
  }

  // The line of a log entry is shown first when the entry is replayed.
  lemma SayingShown(body: Body, x: Saying)
    requires '\0' !in x.line
    ensures SayingBody(body, x).sender == x.sender && x.line <= Displayed(SayingBody(body, x))
  {
    ShownExactlyIff(body.(sender := x.sender), x.line);
  }

  lemma RepeatsOne(m: Body, ms: seq<Body>, x: Saying, log: seq<Saying>)
    requires m.category == MESSAGE_FROM_CLIENT && m.sender == x.sender && x.line <= Displayed(m)
    requires Repeats(Heard(ms), log)
    ensures Repeats(Heard([m] + ms), [x] + log)
  {
    FoldOne([], m, ms);
  }

  lemma {:induction false} SendLogQuiet(log: seq<Saying>, body: Body, target: int, p: int, table: seq<Entry>)
    requires body.category == MESSAGE_FROM_CLIENT
    ensures p != target ==> Mailbox(SendLog(log, body, target), p) == []
    ensures Apply(table, Mailbox(SendLog(log, body, target), target)) == Some(table)
  {
    if log != [] {
      var b := SayingBody(body, log[0]);
      var rest := SendLog(log[1..], b, target);
      assert SendLog(log, body, target)[1..] == rest;
      SendLogQuiet(log[1..], b, target, p, table);
      FoldOne(table, b, Mailbox(rest, target));
    }
  }

  // The replay repeats the log to the newcomer, line by line.
  lemma {:induction false} SendLogMailbox(log: seq<Saying>, body: Body, target: int)
    requires body.category == MESSAGE_FROM_CLIENT && PlainLog(log)
    ensures Repeats(Heard(Mailbox(SendLog(log, body, target), target)), log)
  {
    if log != [] {
      var b := SayingBody(body, log[0]);
      var rest := SendLog(log[1..], b, target);
      assert SendLog(log, body, target)[1..] == rest;
      SendLogMailbox(log[1..], b, target);
      SayingShown(body, log[0]);
      RepeatsOne(b, Mailbox(rest, target), log[0], log[1..]);
      assert [log[0]] + log[1..] == log;
    }
  }

  lemma RemoveAtPid(t: seq<Entry>, idx: nat, p: int)
    requires DistinctPids(t) && idx < |t|
    ensures p in Pids(RemoveAt(t, idx)) <==> p in Pids(t) && p != t[idx].pid
  {
    var u := RemoveAt(t, idx);
    if p in Pids(u) {
      var k :| 0 <= k < |u| && u[k].pid == p;
      PidsOf(t, if k < idx then k else k + 1);
    }
    if p in Pids(t) && p != t[idx].pid {
      var k :| 0 <= k < |t| && t[k].pid == p;
      PidsOf(u, if k < idx then k else k - 1);
    }
  }

  lemma RemoveAtKeeps(t: seq<Entry>, idx: nat)
    requires DistinctPids(t) && idx < |t|
    ensures DistinctPids(RemoveAt(t, idx))
    ensures NamesCanonical(t) ==> NamesCanonical(RemoveAt(t, idx))
  {
    var u := RemoveAt(t, idx);
    assert forall i :: 0 <= i < |u| ==> u[i] == if i < idx then t[i] else t[i + 1];
  }

  lemma RemoveAtPids(t: seq<Entry>, idx: nat)
    requires DistinctPids(t) && idx < |t|
    ensures Pids(RemoveAt(t, idx)) == Pids(t) - {t[idx].pid}
  {
    forall p ensures p in Pids(RemoveAt(t, idx)) <==> p in Pids(t) - {t[idx].pid} {
      RemoveAtPid(t, idx, p);
    }
  }

  // What one request must put into the mailbox of p, if the server moves from
  // sv to sv2: a member's fold follows the server, a newcomer is told everything
  // and nobody else is told anything.
  ghost predicate NewsOk(sv: Server, sv2: Server, news: seq<Body>, p: int) {
    sv.log <= sv2.log &&
    (p in Pids(sv2.roster) && p in Pids(sv.roster) ==>
       Apply(sv.roster, news) == Some(sv2.roster) && Repeats(Heard(news), sv2.log[|sv.log|..])) &&
    (p in Pids(sv2.roster) && p !in Pids(sv.roster) ==>
       Apply([], news) == Some(sv2.roster) && Repeats(Heard(news), sv2.log)) &&
    (p !in Pids(sv2.roster) ==> news == [])
  }

  // Serving r is defined, keeps the roster well formed and sends p the right news.
  ghost predicate Served(sv: Server, r: Message, p: int) {
    Register(sv, r).Some? &&
    var (sv2, r2) := Register(sv, r).value;
    DistinctPids(sv2.roster) && NamesCanonical(sv2.roster) && |sv2.roster| <= SIZE_CLIENTS && PlainLog(sv2.log) &&
    Pids(sv2.roster) == MembersStep(Pids(sv.roster), r) &&
    NewsOk(sv, sv2, Mailbox(Outgoing(sv2, r2), p), p)
  }

  lemma PidsOf(t: seq<Entry>, i: nat)
    requires i < |t|
    ensures t[i].pid in Pids(t)
  {
    assert t[i] in t;
  }

  lemma PidsSnoc(t: seq<Entry>, e: Entry)
    ensures Pids(t + [e]) == Pids(t) + {e.pid}
    ensures DistinctPids(t) && e.pid !in Pids(t) ==> DistinctPids(t + [e])
  {
    assert (t + [e])[|t|] == e;
    forall i: nat | i < |t| ensures t[i].pid in Pids(t) { PidsOf(t, i); }
  }

  // The three parts of what the server sends for a request to join.
  function JoinParts(s: Server, r: Message): (seq<Message>, seq<Message>, seq<Message>) {
    var body := r.body.(category := NEW_CLIENT);
    var skip := if |s.roster| > 1 then Some(r.body.sender) else None;
    var roster := if |s.roster| > 1 then s.roster else [];
    (ToAll(s.roster, body, skip), SendRoster(roster, body, r.body.sender),
     SendLog(s.log, BodyAfterRoster(roster, body).(category := MESSAGE_FROM_CLIENT), r.body.sender))
  }

  lemma JoinMailbox(s: Server, r: Message, p: int)
    requires r.mtype == NEW_CLIENT
    ensures var (a, b, c) := JoinParts(s, r);
            Mailbox(Outgoing(s, r), p) == (Mailbox(a, p) + Mailbox(b, p)) + Mailbox(c, p)
  {
    var (a, b, c) := JoinParts(s, r);
    MailboxAppend(a + b, c, p);
    MailboxAppend(a, b, p);
  }

  lemma OnlyNewcomer(t: seq<Entry>, body: Body)
    requires t == [Entry(NameOf(body.text), body.sender)] && body.category == NEW_CLIENT
    ensures Apply([], [body]) == Some(t) && Heard([body]) == []
  {
    FoldOne([], body, []);
    assert t == [] + t;
  }

  // The newcomer hears about the roster exactly once, itself included.
  lemma NewcomerRoster(s: Server, r: Message)
    requires DistinctPids(s.roster) && NamesCanonical(s.roster) && 0 < |s.roster| <= SIZE_CLIENTS
    requires s.roster[|s.roster| - 1] == Entry(NameOf(r.body.text), r.body.sender)
    ensures var (a, b, c) := JoinParts(s, r);
            var ms := Mailbox(a, r.body.sender) + Mailbox(b, r.body.sender);
            Apply([], ms) == Some(s.roster) && Heard(ms) == []
  {
    var p := r.body.sender;
    var body := r.body.(category := NEW_CLIENT);
    var (a, b, c) := JoinParts(s, r);
    PidsOf(s.roster, |s.roster| - 1);
    if |s.roster| == 1 {
      ToAllMailbox(s.roster, body, None, p);
      OnlyNewcomer(s.roster, body);
      assert Mailbox(a, p) + Mailbox(b, p) == [body];
    } else {
      ToAllMailbox(s.roster, body, Some(p), p);
      SendRosterMailbox(s.roster, body, p, []);
      SendRosterSilent(s.roster, body, p);
      assert Mailbox(a, p) + Mailbox(b, p) == Mailbox(b, p);
      assert [] + s.roster == s.roster;
    }
  }

  // The newcomer's own mailbox after its registration as the last entry.
  lemma NewcomerNews(s: Server, r: Message)
    requires r.mtype == NEW_CLIENT && DistinctPids(s.roster) && NamesCanonical(s.roster)
    requires 0 < |s.roster| <= SIZE_CLIENTS && PlainLog(s.log)
    requires s.roster[|s.roster| - 1] == Entry(NameOf(r.body.text), r.body.sender)
    ensures Apply([], Mailbox(Outgoing(s, r), r.body.sender)) == Some(s.roster)
    ensures Repeats(Heard(Mailbox(Outgoing(s, r), r.body.sender)), s.log)
  {
    var p := r.body.sender;
    var (a, b, c) := JoinParts(s, r);
    JoinMailbox(s, r, p);
    NewcomerRoster(s, r);
    JoinLog(s, r, p);
    ApplyAppend([], Mailbox(a, p) + Mailbox(b, p), Mailbox(c, p));
    HeardAppend(Mailbox(a, p) + Mailbox(b, p), Mailbox(c, p));
    assert [] + Heard(Mailbox(c, p)) == Heard(Mailbox(c, p));
  }

  lemma JoinLog(s: Server, r: Message, p: int)
    ensures var (a, b, c) := JoinParts(s, r);
            (p != r.body.sender ==> Mailbox(c, p) == []) &&
            Apply(s.roster, Mailbox(c, r.body.sender)) == Some(s.roster) &&
            (PlainLog(s.log) ==> Repeats(Heard(Mailbox(c, r.body.sender)), s.log))
  {
    var roster := if |s.roster| > 1 then s.roster else [];
    var body := BodyAfterRoster(roster, r.body.(category := NEW_CLIENT)).(category := MESSAGE_FROM_CLIENT);
    SendLogQuiet(s.log, body, r.body.sender, p, s.roster);
    if PlainLog(s.log) {
      SendLogMailbox(s.log, body, r.body.sender);
    }
  }

  lemma OthersNews(s: Server, r: Message, p: int)
    requires r.mtype == NEW_CLIENT && DistinctPids(s.roster) && p != r.body.sender
    ensures Mailbox(Outgoing(s, r), p) == if p in Pids(s.roster) then [r.body.(category := NEW_CLIENT)] else []
  {
    var body := r.body.(category := NEW_CLIENT);
    JoinMailbox(s, r, p);
    ToAllMailbox(s.roster, body, if |s.roster| > 1 then Some(r.body.sender) else None, p);
    SendRosterElsewhere(if |s.roster| > 1 then s.roster else [], body, r.body.sender, p);
    JoinLog(s, r, p);
  }

  // The roster after a join.
  lemma JoinRoster(roster: seq<Entry>, text: Buffer, p: int)
    requires p !in Pids(roster) && DistinctPids(roster) && NamesCanonical(roster)
    ensures var joined := roster + [Entry(NameOf(text), p)];
            DistinctPids(joined) && NamesCanonical(joined) && Pids(joined) == Pids(roster) + {p}
  {
    First19Survives(text, ['\0']);
    PidsSnoc(roster, Entry(NameOf(text), p));
  }

  lemma JoinNews(sv: Server, r: Message, p: int)
    requires r.mtype == NEW_CLIENT && r.body.sender !in Pids(sv.roster)
    requires DistinctPids(sv.roster) && NamesCanonical(sv.roster) && |sv.roster| < SIZE_CLIENTS && PlainLog(sv.log)
    ensures Served(sv, r, p)
  {
    var (sv2, r2) := Register(sv, r).value;
    JoinRoster(sv.roster, r.body.text, r.body.sender);
    if p == r.body.sender {
      NewcomerNews(sv2, r);
    } else {
      OthersNews(sv2, r, p);
      FoldOne(sv.roster, r.body.(category := NEW_CLIENT), []);
    }
  }

  lemma TalkFold(s: Server, r: Message, p: int)
    requires r.mtype == MESSAGE_FROM_CLIENT && DistinctPids(s.roster)
    ensures var news := Mailbox(Outgoing(s, r), p);
            if p in Pids(s.roster)
            then Apply(s.roster, news) == Some(s.roster) && Heard(news) == [Spoken(r.body.sender, Displayed(r.body))]
            else news == []
  {
    var b := r.body.(category := MESSAGE_FROM_CLIENT);
    ToAllMailbox(s.roster, b, None, p);
    FoldOne(s.roster, b, []);
  }

  // The server's copy of a line is shown with the line in front.
  lemma TalkShown(name: Name, body: Body)
    requires |TalkLine(name, body.text)| <= TEXT_SIZE
    ensures '\0' !in TalkLine(name, body.text)
    ensures TalkLine(name, body.text) <= Displayed(body.(text := Overlay(body.text, TalkLine(name, body.text))))
  {
    CStringPart(name);
    CStringPart(body.text);
    ShownExactlyIff(body, TalkLine(name, body.text));
  }

  lemma TalkNews(sv: Server, r: Message, p: int)
    requires r.mtype == MESSAGE_FROM_CLIENT && r.body.sender in Pids(sv.roster) && Register(sv, r).Some?
    requires DistinctPids(sv.roster) && NamesCanonical(sv.roster) && |sv.roster| <= SIZE_CLIENTS && PlainLog(sv.log)
    ensures Served(sv, r, p)
  {
    var (sv2, r2) := Register(sv, r).value;
    assert sv2.roster == sv.roster && r2.body.sender == r.body.sender;
    TalkFold(sv2, r2, p);
    TalkShown(sv.roster[IndexOf(sv.roster, r.body.sender)].name, r.body);
    assert sv2.log[|sv.log|..] == [sv2.log[|sv.log|]];
  }

  // Talk reaches every member, the speaker included, once, under the name the
  // roster has for the speaker.  Behind a line from a padded buffer something
  // more is shown only if the line fills the buffer.
  lemma TalkReaches(sv: Server, r: Message, p: int)
    requires r.mtype == MESSAGE_FROM_CLIENT && r.body.sender in Pids(sv.roster) && p in Pids(sv.roster)
    requires DistinctPids(sv.roster) && Register(sv, r).Some?
    ensures var (sv2, r2) := Register(sv, r).value;
            var news := Mailbox(Outgoing(sv2, r2), p);
            var line := CString(sv.roster[IndexOf(sv.roster, r.body.sender)].name) + ": " + CString(r.body.text);
            |news| == 1 && news[0].sender == r.body.sender && |line| <= TEXT_SIZE &&
            news[0].category == MESSAGE_FROM_CLIENT &&
            sv2.log == sv.log + [Saying(r.body.sender, line)] &&
            line <= Displayed(news[0]) &&
            (Padded(r.body.text) ==>
               (Displayed(news[0]) == line <==> |line| < TEXT_SIZE || r.body.sender % 0x100 == 0))
  {
    var idx := IndexOf(sv.roster, r.body.sender);
    var name := sv.roster[idx].name;
    var line := TalkLine(name, r.body.text);
    assert line == CString(name) + ": " + CString(r.body.text);
    var (sv2, r2) := Register(sv, r).value;
    ToAllMailbox(sv.roster, r2.body.(category := MESSAGE_FROM_CLIENT), None, p);
    CStringPart(name);
    CStringPart(r.body.text);
    ShownExactlyIff(r.body, line);
    assert Displayed(r2.body.(category := MESSAGE_FROM_CLIENT)) ==
           Displayed(r.body.(text := Overlay(r.body.text, line)));
  }

  lemma LeaveMailbox(s: Server, r: Message, p: int)
    requires r.mtype == CLIENT_LEAVE && DistinctPids(s.roster)
    ensures Mailbox(Outgoing(s, r), p) ==
            if p in Pids(s.roster)
            then [r.body.(category := MESSAGE_FROM_SERVER), r.body.(category := CLIENT_LEAVE)]
            else []
  {
    var spoken, gone := r.body.(category := MESSAGE_FROM_SERVER), r.body.(category := CLIENT_LEAVE);
    MailboxAppend(ToAll(s.roster, spoken, None), ToAll(s.roster, gone, None), p);
    ToAllMailbox(s.roster, spoken, None, p);
    ToAllMailbox(s.roster, gone, None, p);
  }

  lemma LeaveNews(sv: Server, r: Message, p: int)
    requires r.mtype == CLIENT_LEAVE && r.body.sender in Pids(sv.roster) && Register(sv, r).Some?
    requires DistinctPids(sv.roster) && NamesCanonical(sv.roster) && |sv.roster| <= SIZE_CLIENTS && PlainLog(sv.log)
    ensures Served(sv, r, p)
  {
    var idx := IndexOf(sv.roster, r.body.sender);
    var (sv2, r2) := Register(sv, r).value;
    RemoveAtPids(sv.roster, idx);
    RemoveAtKeeps(sv.roster, idx);
    LeaveMailbox(sv2, r2, p);
    FoldOne(sv.roster, r2.body.(category := MESSAGE_FROM_SERVER), [r2.body.(category := CLIENT_LEAVE)]);
    FoldOne(sv.roster, r2.body.(category := CLIENT_LEAVE), []);
  }

  // After a leave the others keep their order, and nothing is logged.
  lemma LeaveOrder(sv: Server, r: Message, k: nat)
    requires r.mtype == CLIENT_LEAVE && DistinctPids(sv.roster) && Register(sv, r).Some?
    requires k < |sv.roster| && sv.roster[k].pid == r.body.sender
    ensures var sv2 := Register(sv, r).value.0;
            |sv2.roster| == |sv.roster| - 1 && sv2.log == sv.log &&
            forall i :: 0 <= i < |sv2.roster| ==> sv2.roster[i] == sv.roster[if i < k then i else i + 1]
  {
    assert IndexOf(sv.roster, r.body.sender) == k;
  }

  lemma LeaveText(sv: Server, r: Message, k: nat)
    requires r.mtype == CLIENT_LEAVE && DistinctPids(sv.roster) && Register(sv, r).Some?
    requires k < |sv.roster| && sv.roster[k].pid == r.body.sender
    ensures var (sv2, r2) := Register(sv, r).value;
            DistinctPids(sv2.roster) && r2.mtype == CLIENT_LEAVE && r2.body.sender == r.body.sender &&
            r2.body.text == Overlay(r.body.text, FarewellLine(sv.roster[k].name))
  {
    assert IndexOf(sv.roster, r.body.sender) == k;
    RemoveAtKeeps(sv.roster, k);
  }

  // The farewell reaches every remaining member and names the one who left.
  lemma FarewellReaches(sv: Server, r: Message, k: nat, p: int)
    requires r.mtype == CLIENT_LEAVE && DistinctPids(sv.roster) && Register(sv, r).Some?
    requires k < |sv.roster| && sv.roster[k].pid == r.body.sender
    requires p in Pids(Register(sv, r).value.0.roster)
    ensures var (sv2, r2) := Register(sv, r).value;
            var news := Mailbox(Outgoing(sv2, r2), p);
            |news| == 2 && news[0].category == MESSAGE_FROM_SERVER &&
            Displayed(news[0]) == "server: " + CString(sv.roster[k].name) + " left the chat" &&
            news[1].category == CLIENT_LEAVE && news[1].sender == r.body.sender
  {
    var (sv2, r2) := Register(sv, r).value;
    LeaveText(sv, r, k);
    LeaveMailbox(sv2, r2, p);
    FarewellShown(r.body.(category := MESSAGE_FROM_SERVER), sv.roster[k].name);
    assert r2.body.(category := MESSAGE_FROM_SERVER) ==
           r.body.(category := MESSAGE_FROM_SERVER).(text := Overlay(r.body.text, FarewellLine(sv.roster[k].name)));
  }

  // ----- the steps

  lemma JoinKeeps(s: System, q: int, text: Buffer)
    requires Good(s) && q !in s.clients
    ensures Good(JoinStep(s, q, text))
  {
    var t := JoinStep(s, q, text);
    assert q !in ActivePids(s.clients);
    OrderlyAppend(Pids(s.server.roster), s.inbox, Request(NEW_CLIENT, q, text));
    assert ActivePids(t.clients) == ActivePids(s.clients) + {q};
    forall p ensures Unread(t, p) == Unread(s, p) {}
    forall i: nat | Joining(t, i)
      ensures if i < |s.inbox| then Joining(s, i) && t.inbox[i] == s.inbox[i] else t.inbox[i].body.sender == q
    {}
    forall p | p in t.clients ensures ClientOk(t, p) {
      if p != q { assert ClientOk(s, p); }
    }
  }

  lemma TalkKeeps(s: System, q: int, text: Buffer)
    requires Good(s) && q in s.clients && s.clients[q].active
    ensures Good(TalkStep(s, q, text))
  {
    var t := TalkStep(s, q, text);
    assert q in ActivePids(s.clients);
    OrderlyAppend(Pids(s.server.roster), s.inbox, Request(MESSAGE_FROM_CLIENT, q, text));
    forall i: nat | Joining(t, i) ensures Joining(s, i) && t.inbox[i] == s.inbox[i] {}
    forall p ensures Unread(t, p) == Unread(s, p) {}
    forall p | p in t.clients ensures ClientOk(t, p) {
      assert ClientOk(s, p);
    }
  }

  lemma LeaveKeeps(s: System, q: int, text: Buffer)
    requires Good(s) && q in s.clients && s.clients[q].active
    ensures Good(LeaveStep(s, q, text))
  {
    var t := LeaveStep(s, q, text);
    assert q in ActivePids(s.clients);
    OrderlyAppend(Pids(s.server.roster), s.inbox, Request(CLIENT_LEAVE, q, text));
    assert ActivePids(t.clients) == ActivePids(s.clients) - {q};
    forall i: nat | Joining(t, i) ensures Joining(s, i) && t.inbox[i] == s.inbox[i] {}
    forall p ensures Unread(t, p) == Unread(s, p) {}
    forall p | p in t.clients ensures ClientOk(t, p) {
      assert ClientOk(s, p);
    }
  }

  lemma SendKeeps(s: System)
    requires Good(s) && s.pending != []
    ensures Good(SendStep(s))
  {
    var t := SendStep(s);
    forall p ensures Unread(t, p) == Unread(s, p) {
      MailboxHandOver(s.outq, s.pending, p);
    }
    forall i: nat | Joining(t, i) ensures Joining(s, i) {}
    forall p | p in t.clients ensures ClientOk(t, p) {
      assert ClientOk(s, p);
    }
  }

  lemma UnreadAfterRead(s: System, p: int, u: int)
    requires Mailbox(s.outq, p) != []
    ensures Unread(s, p) != [] && Unread(s, p)[0] == Mailbox(s.outq, p)[0]
    ensures Mailbox(Receive(s.outq, p) + s.pending, u) == if u == p then Unread(s, u)[1..] else Unread(s, u)
  {
    ReceiveTakesHead(s.outq, p, u);
    MailboxAppend(s.outq, s.pending, p);
    MailboxAppend(s.outq, s.pending, u);
    MailboxAppend(Receive(s.outq, p), s.pending, u);
    TailOfSum(Mailbox(s.outq, p), Mailbox(s.pending, p));
  }

  // Reading never meets a removal of someone the client does not know.
  lemma ReadFits(s: System, p: int)
    requires CanRead(s, p) && ClientOk(s, p)
    ensures ReadStep(s, p).Some? && ClientOk(ReadStep(s, p).value, p)
  {
    UnreadAfterRead(s, p, p);
    var c, unread := s.clients[p], Unread(s, p);
    assert [unread[0]] + unread[1..] == unread;
    FoldOne(c.table, unread[0], unread[1..]);
    Associate(c.heard, Heard([unread[0]]), Heard(unread[1..]));
  }

  lemma ReadInbox(s: System, t: System, p: int)
    requires InboxOk(s) && p in s.clients && Unread(s, p) != [] && p in t.clients
    requires t.server == s.server && t.inbox == s.inbox && t.clients == s.clients[p := t.clients[p]]
    requires t.clients[p].active == s.clients[p].active
    requires forall u :: u != p ==> Unread(t, u) == Unread(s, u)
    ensures InboxOk(t)
  {
    assert ActivePids(t.clients) == ActivePids(s.clients);
    forall i: nat | Joining(t, i) ensures Joining(s, i) && t.inbox[i].body.sender != p {
      assert Joining(s, i);
    }
  }

  lemma ReadKeeps(s: System, p: int)
    requires Good(s) && CanRead(s, p)
    ensures ReadStep(s, p).Some? && Good(ReadStep(s, p).value)
  {
    assert ClientOk(s, p);
    ReadFits(s, p);
    var t := ReadStep(s, p).value;
    UnreadAfterRead(s, p, p);
    forall u | u != p ensures Unread(t, u) == Unread(s, u) { UnreadAfterRead(s, p, u); }
    ReadInbox(s, t, p);
    forall u | u in t.clients ensures ClientOk(t, u) {
      assert ClientOk(s, u);
    }
  }

  // When the request at the head of the inbox is served, its messages are the
  // right news for everyone.
  lemma ServeNews(sv: Server, r: Message, p: int)
    requires DistinctPids(sv.roster) && NamesCanonical(sv.roster) && |sv.roster| <= SIZE_CLIENTS && PlainLog(sv.log)
    requires RequestOk(Pids(sv.roster), r) && (r.mtype == NEW_CLIENT ==> |sv.roster| < SIZE_CLIENTS)
    requires Register(sv, r).Some?
    ensures Served(sv, r, p)
  {
    if r.mtype == NEW_CLIENT {
      JoinNews(sv, r, p);
    } else if r.mtype == MESSAGE_FROM_CLIENT {
      TalkNews(sv, r, p);
    } else {
      LeaveNews(sv, r, p);
    }
  }

  lemma ServeUnread(s: System, news: seq<Message>, p: int)
    requires s.pending == []
    ensures Mailbox(s.outq + news, p) == Unread(s, p) + Mailbox(news, p)
  {
    MailboxAppend(s.outq, news, p);
    assert s.outq + s.pending == s.outq;
  }

  // A client whose mailbox gets the right news follows the server.
  lemma NewsKeepsClient(s: System, t: System, news: seq<Body>, p: int)
    requires p in s.clients && t.clients == s.clients && ClientOk(s, p)
    requires Unread(t, p) == Unread(s, p) + news && NewsOk(s.server, t.server, news, p)
    requires p !in Pids(s.server.roster) && p in Pids(t.server.roster) ==>
               Unread(s, p) == [] && s.clients[p].table == [] && s.clients[p].heard == []
    ensures ClientOk(t, p)
  {
    var c, unread := s.clients[p], Unread(s, p);
    ApplyAppend(c.table, unread, news);
    HeardAppend(unread, news);
    if p !in Pids(t.server.roster) {
      assert unread + news == unread;
    } else if p in Pids(s.server.roster) {
      Associate(c.heard, Heard(unread), Heard(news));
      RepeatsAppend(c.heard + Heard(unread), Heard(news), s.server.log, t.server.log);
    } else {
      assert c.heard + Heard(unread + news) == Heard(news);
    }
  }

  lemma RepeatsAppend(a: seq<Spoken>, b: seq<Spoken>, log: seq<Saying>, longer: seq<Saying>)
    requires Repeats(a, log) && log <= longer && Repeats(b, longer[|log|..])
    ensures Repeats(a + b, longer)
  {
  }

  lemma ServeClient(s: System, t: System, p: int)
    requires CanServe(s) && ServeStep(s) == Some(t) && Served(s.server, s.inbox[0], p)
    requires p in s.clients ==> ClientOk(s, p)
    requires p in s.clients && Joining(s, 0) && p == s.inbox[0].body.sender ==>
               Unread(s, p) == [] && s.clients[p].table == [] && s.clients[p].heard == []
    ensures p !in Pids(t.server.roster) ==> Unread(t, p) == Unread(s, p)
    ensures p in t.clients ==> ClientOk(t, p)
  {
    var news := Mailbox(t.pending, p);
    ServeUnread(s, t.pending, p);
    assert Unread(s, p) + [] == Unread(s, p);
    if p in t.clients {
      NewsKeepsClient(s, t, news, p);
    }
  }

  // Serving keeps the rest of the inbox in order.
  lemma ServeInbox(s: System, t: System)
    requires Good(s) && s.inbox != [] && t.inbox == s.inbox[1..] && t.clients == s.clients
    requires Pids(t.server.roster) == MembersStep(Pids(s.server.roster), s.inbox[0])
    requires forall p :: p !in Pids(t.server.roster) ==> Unread(t, p) == Unread(s, p)
    ensures InboxOk(t)
    ensures forall p :: p in Pids(t.server.roster) ==> p in t.clients
  {
    var r := s.inbox[0];
    if r.mtype == NEW_CLIENT { assert Joining(s, 0); }
    forall i: nat | Joining(t, i)
      ensures Joining(s, i + 1) && t.inbox[i] == s.inbox[i + 1] && t.inbox[i].body.sender !in Pids(t.server.roster)
    {
      assert Joining(s, i + 1);
    }
  }

  // Every entry keeps the name its client joined with.
  lemma ServeNames(s: System, t: System, e: Entry)
    requires RosterOk(s) && InboxOk(s) && CanServe(s) && ServeStep(s) == Some(t) && e in t.server.roster
    ensures e.pid in t.clients && t.clients[e.pid].name == e.name
  {
    if e !in s.server.roster {
      assert Joining(s, 0);
    }
  }

  lemma ServeKeeps(s: System)
    requires Good(s) && CanServe(s) && ServeStep(s).Some?
    ensures Good(ServeStep(s).value)
  {
    ServeNews(s.server, s.inbox[0], 0);
    var t := ServeStep(s).value;
    forall p
      ensures p !in Pids(t.server.roster) ==> Unread(t, p) == Unread(s, p)
      ensures p in t.clients ==> ClientOk(t, p)
    {
      if Joining(s, 0) {}
      if p in s.clients { assert ClientOk(s, p); }
      ServeNews(s.server, s.inbox[0], p);
      ServeClient(s, t, p);
    }
    forall e | e in t.server.roster ensures e.pid in t.clients && t.clients[e.pid].name == e.name {
      ServeNames(s, t, e);
    }
    ServeInbox(s, t);
    forall p | p !in t.clients ensures Unread(t, p) == [] {
      assert p !in Pids(t.server.roster);
    }
  }

  // ----- which requests the server can serve

  // The server can register a request exactly when the line of a talk fits the
  // text buffer and the one who leaves a full roster is its last entry.
  lemma RegisterDefinedIff(sv: Server, r: Message)
    requires DistinctPids(sv.roster) && |sv.roster| <= SIZE_CLIENTS && RequestOk(Pids(sv.roster), r)
    ensures Register(sv, r).Some? <==>
            (r.mtype == MESSAGE_FROM_CLIENT ==>
               var name := sv.roster[IndexOf(sv.roster, r.body.sender)].name;
               |CString(name)| + 2 + |CString(r.body.text)| <= TEXT_SIZE) &&
            (r.mtype == CLIENT_LEAVE ==>
               |sv.roster| < SIZE_CLIENTS || sv.roster[SIZE_CLIENTS - 1].pid == r.body.sender)
  {
  }

  // A join below ten members, a talk whose line "name: text" fits under the name
  // its client joined with, and a leave from a roster that is not full or by its
  // last entry.
  predicate Fits(s: System, r: Message) {
    (r.mtype == NEW_CLIENT ==> |s.server.roster| < 10) &&
    (r.mtype == MESSAGE_FROM_CLIENT && r.body.sender in s.clients ==>
       |CString(s.clients[r.body.sender].name)| + 2 + |CString(r.body.text)| <= 256) &&
    (r.mtype == CLIENT_LEAVE ==> |s.server.roster| < 10 || s.server.roster[9].pid == r.body.sender)
  }

  lemma ServeDefinedIff(s: System)
    requires Good(s) && CanServe(s)
    ensures ServeStep(s).Some? <==> Fits(s, s.inbox[0])
  {
    var r := s.inbox[0];
    RegisterDefinedIff(s.server, r);
    if r.mtype == MESSAGE_FROM_CLIENT {
      var idx := IndexOf(s.server.roster, r.body.sender);
      assert s.server.roster[idx] in s.server.roster;
    }
  }

  // A newcomer keeps every member's fold defined exactly below ten members.
  lemma JoinServedIff(sv: Server, r: Message, p: int)
    requires r.mtype == NEW_CLIENT && r.body.sender !in Pids(sv.roster) && p in Pids(sv.roster)
    requires DistinctPids(sv.roster) && NamesCanonical(sv.roster) && |sv.roster| <= SIZE_CLIENTS
    ensures Register(sv, r).Some?
    ensures var (sv2, r2) := Register(sv, r).value;
            Apply(sv.roster, Mailbox(Outgoing(sv2, r2), p)).Some? <==> |sv.roster| < 10
  {
    if |sv.roster| < SIZE_CLIENTS {
      JoinRoster(sv.roster, r.body.text, r.body.sender);
    }
    OthersNews(Register(sv, r).value.0, r, p);
    FoldOne(sv.roster, r.body.(category := NEW_CLIENT), []);
  }

  // ----- runs

  lemma GoodStart()
    ensures Good(START)
  {
  }

  lemma StepKeeps(s: System, e: Event)
    requires Good(s) && Enabled(s, e)
    ensures Next(s, e).Some? <==> (e == Serve ==> Fits(s, s.inbox[0]))
    ensures Next(s, e).Some? ==> Good(Next(s, e).value)
  {
    match e
    case Join(p, text) => JoinKeeps(s, p, text);
    case Talk(p, text) => TalkKeeps(s, p, text);
    case Leave(p, text) => LeaveKeeps(s, p, text);
    case Serve =>
      ServeDefinedIff(s);
      if ServeStep(s).Some? { ServeKeeps(s); }
    case Send => SendKeeps(s);
    case Read(p) => ReadKeeps(s, p);
  }

  lemma {:induction false} RunKeeps(s: System, es: seq<Event>)
    requires Good(s) && Run(s, es).Some?
    ensures Good(Run(s, es).value)
    decreases |es|
  {
    if es != [] {
      if Enabled(s, es[0]) {
        StepKeeps(s, es[0]);
        RunKeeps(Next(s, es[0]).value, es[1..]);
      } else {
        RunKeeps(s, es[1..]);
      }
    }
  }

  lemma {:induction false} RunAppend(s: System, a: seq<Event>, b: seq<Event>)
    ensures Run(s, a + b) == match Run(s, a) case None => None case Some(t) => Run(t, b)
    decreases |a|
  {
    if a == [] {
      assert a + b == b;
    } else {
      assert (a + b)[0] == a[0] && (a + b)[1..] == a[1..] + b;
      if !Enabled(s, a[0]) {
        RunAppend(s, a[1..], b);
      } else if Next(s, a[0]).Some? {
        RunAppend(Next(s, a[0]).value, a[1..], b);
      }
    }
  }

  // ----- the results

  // Event k is the server taking a request that does not fit.
  predicate TakesUnfit(s: System, es: seq<Event>, k: nat) {
    k < |es| && es[k] == Serve && Run(s, es[..k]).Some? &&
    var t := Run(s, es[..k]).value;
    CanServe(t) && !Fits(t, t.inbox[0])
  }

  lemma TakesUnfitLater(s: System, es: seq<Event>, k: nat)
    requires es != [] && (Enabled(s, es[0]) ==> Next(s, es[0]).Some?)
    ensures var t := if Enabled(s, es[0]) then Next(s, es[0]).value else s;
            TakesUnfit(s, es, k + 1) <==> TakesUnfit(t, es[1..], k)
  {
    if k + 1 < |es| {
      assert es[..k + 1][0] == es[0] && es[..k + 1][1..] == es[1..][..k];
    }
  }

  lemma TakesUnfitNow(s: System, es: seq<Event>)
    requires es != [] && Good(s)
    ensures TakesUnfit(s, es, 0) <==> Enabled(s, es[0]) && Next(s, es[0]).None?
  {
    if Enabled(s, es[0]) {
      StepKeeps(s, es[0]);
    }
    assert es[..0] == [];
  }

  // A run leads outside a table, at the server or at any client, exactly when the
  // server takes a request that does not fit: every leaver and every speaker is
  // found, and no table overflows.
  lemma {:induction false} OutsideIff(s: System, es: seq<Event>)
    requires Good(s)
    ensures Run(s, es).None? <==> exists k: nat :: TakesUnfit(s, es, k)
    decreases |es|
  {
    if es != [] {
      TakesUnfitNow(s, es);
      if !TakesUnfit(s, es, 0) {
        if Enabled(s, es[0]) { StepKeeps(s, es[0]); }
        var t := if Enabled(s, es[0]) then Next(s, es[0]).value else s;
        OutsideIff(t, es[1..]);
        if Run(s, es).None? {
          var k: nat :| TakesUnfit(t, es[1..], k);
          TakesUnfitLater(s, es, k);
        } else {
          forall k: nat ensures !TakesUnfit(s, es, k) {
            if k > 0 { TakesUnfitLater(s, es, k - 1); }
          }
        }
      }
    }
  }

  lemma NeverOutsideTable(es: seq<Event>)
    ensures Run(START, es).Some? <==> forall k: nat :: !TakesUnfit(START, es, k)
  {
    GoodStart();
    OutsideIff(START, es);
  }

  // After any run, a registered client that reads on will hold exactly the
  // server's roster, names and pids in the same order.
  lemma RosterReplication(es: seq<Event>, s: System, p: int)
    requires Run(START, es) == Some(s) && p in Pids(s.server.roster)
    ensures p in s.clients
    ensures Apply(s.clients[p].table, Unread(s, p)) == Some(s.server.roster)
  {
    GoodStart();
    RunKeeps(START, es);
    assert ClientOk(s, p);
  }

  // After any run, what a registered client has heard and has yet to read is
  // the whole log, in order, however late it joined.
  lemma TotalOrderLog(es: seq<Event>, s: System, p: int)
    requires Run(START, es) == Some(s) && p in Pids(s.server.roster)
    ensures p in s.clients
    ensures Repeats(s.clients[p].heard + Heard(Unread(s, p)), s.server.log)
  {
    GoodStart();
    RunKeeps(START, es);
    assert ClientOk(s, p);
  }

  // One read of a client that is told everything: what it still has to read shrinks
  // and what it will end with stays.
  lemma ReadOne(s: System, p: int)
    requires p in s.clients && ClientOk(s, p) && s.pending == [] && CanRead(s, p)
    ensures var t := ReadStep(s, p);
            t.Some? && t.value.pending == [] && t.value.server == s.server && p in t.value.clients &&
            ClientOk(t.value, p) && Mailbox(t.value.outq, p) == Mailbox(s.outq, p)[1..]
  {
    ReadFits(s, p);
    ReceiveTakesHead(s.outq, p, p);
  }

  // After any run each roster entry stands under the name its client joined with,
  // no client stands there twice, and once the server has taken every request the
  // roster holds exactly the clients that joined and have not left.
  lemma RosterIsMembers(es: seq<Event>, s: System, p: int)
    requires Run(START, es) == Some(s)
    ensures DistinctPids(s.server.roster) && |s.server.roster| <= SIZE_CLIENTS
    ensures forall i :: 0 <= i < |s.server.roster| ==>
              s.server.roster[i].pid in s.clients && s.clients[s.server.roster[i].pid].name == s.server.roster[i].name
    ensures s.inbox == [] ==> (p in Pids(s.server.roster) <==> p in s.clients && s.clients[p].active)
  {
    GoodStart();
    RunKeeps(START, es);
    forall i | 0 <= i < |s.server.roster|
      ensures s.server.roster[i].pid in s.clients && s.clients[s.server.roster[i].pid].name == s.server.roster[i].name
    {
      assert s.server.roster[i] in s.server.roster;
    }
    assert s.inbox == [] ==> Pids(s.server.roster) == ActivePids(s.clients);
  }

  // Whoever talks or leaves stands in the roster under the name it joined with.
  lemma SenderKnown(s: System)
    requires RosterOk(s) && InboxOk(s) && s.inbox != [] && s.inbox[0].mtype != NEW_CLIENT
    ensures var q := s.inbox[0].body.sender;
            var k := IndexOf(s.server.roster, q);
            k >= 0 && q in s.clients && s.clients[q].name == s.server.roster[k].name
  {
    var k := IndexOf(s.server.roster, s.inbox[0].body.sender);
    assert s.server.roster[k] in s.server.roster;
  }

  // Taking a leave after any run: every remaining member is told that the leaver
  // left, under the name it joined with.
  lemma FarewellServed(es: seq<Event>, s: System, t: System, p: int)
    requires Run(START, es) == Some(s) && CanServe(s) && s.inbox[0].mtype == CLIENT_LEAVE && ServeStep(s) == Some(t)
    requires p in Pids(t.server.roster)
    ensures var q := s.inbox[0].body.sender;
            q in s.clients && q !in Pids(t.server.roster) &&
            var news := Mailbox(t.pending, p);
            |news| == 2 && news[0].category == MESSAGE_FROM_SERVER &&
            Displayed(news[0]) == "server: " + CString(s.clients[q].name) + " left the chat" &&
            news[1].category == CLIENT_LEAVE && news[1].sender == q
  {
    GoodStart();
    RunKeeps(START, es);
    FarewellSent(s, t, p);
  }

  lemma FarewellSent(s: System, t: System, p: int)
    requires RosterOk(s) && InboxOk(s) && CanServe(s) && s.inbox[0].mtype == CLIENT_LEAVE && ServeStep(s) == Some(t)
    requires p in Pids(t.server.roster)
    ensures var q := s.inbox[0].body.sender;
            q in s.clients && q !in Pids(t.server.roster) &&
            var news := Mailbox(t.pending, p);
            |news| == 2 && news[0].category == MESSAGE_FROM_SERVER &&
            Displayed(news[0]) == "server: " + CString(s.clients[q].name) + " left the chat" &&
            news[1].category == CLIENT_LEAVE && news[1].sender == q
  {
    SenderKnown(s);
    var k := IndexOf(s.server.roster, s.inbox[0].body.sender);
    FarewellReaches(s.server, s.inbox[0], k, p);
    RemoveAtPids(s.server.roster, k);
  }

  // Taking talk after any run: the log gains the line under the name the speaker
  // joined with, and every member is sent a message that shows it.
  lemma TalkServed(es: seq<Event>, s: System, t: System, p: int)
    requires Run(START, es) == Some(s) && CanServe(s) && ServeStep(s) == Some(t)
    requires s.inbox[0].mtype == MESSAGE_FROM_CLIENT && p in Pids(t.server.roster)
    ensures var r := s.inbox[0].body;
            r.sender in s.clients &&
            var line := CString(s.clients[r.sender].name) + ": " + CString(r.text);
            |line| <= TEXT_SIZE && t.server.log == s.server.log + [Saying(r.sender, line)] &&
            t.server.roster == s.server.roster &&
            var news := Mailbox(t.pending, p);
            |news| == 1 && news[0].sender == r.sender && news[0].category == MESSAGE_FROM_CLIENT &&
            line <= Displayed(news[0])
  {
    GoodStart();
    RunKeeps(START, es);
    SenderKnown(s);
    TalkReaches(s.server, s.inbox[0], p);
  }

  // Reading a whole mailbox, step by step, ends where the fold says.
  lemma {:induction false} ReadingCatchesUp(s: System, p: int)
    requires p in s.clients && ClientOk(s, p) && s.pending == [] && p in Pids(s.server.roster)
    ensures var end := Run(s, seq(|Mailbox(s.outq, p)|, _ => Read(p)));
            end.Some? && p in end.value.clients && end.value.server == s.server &&
            end.value.clients[p].table == s.server.roster && Repeats(end.value.clients[p].heard, s.server.log)
    decreases |Mailbox(s.outq, p)|
  {
    var box := Mailbox(s.outq, p);
    assert s.outq + s.pending == s.outq;
    if box == [] {
      assert s.clients[p].heard + [] == s.clients[p].heard;
    } else {
      ReadOne(s, p);
      assert seq(|box|, _ => Read(p))[1..] == seq(|box| - 1, _ => Read(p));
      ReadingCatchesUp(ReadStep(s, p).value, p);
    }
  }

  // A registered client that simply keeps reading, once the server has sent
  // everything, ends with the server's roster and the server's whole log.
  lemma ClientCatchesUp(es: seq<Event>, s: System, p: int)
    requires Run(START, es) == Some(s) && s.pending == [] && p in Pids(s.server.roster)
    ensures var end := Run(s, seq(|Mailbox(s.outq, p)|, _ => Read(p)));
            end.Some? && p in end.value.clients &&
            end.value.clients[p].table == s.server.roster && Repeats(end.value.clients[p].heard, s.server.log)
  {
    GoodStart();
    RunKeeps(START, es);
    assert p in s.clients && ClientOk(s, p);
    ReadingCatchesUp(s, p);
  }

  // Two registered clients that have read everything agree with the server and
  // with each other.
  lemma QuietClientsAgree(es: seq<Event>, s: System, p: int, q: int)
    requires Run(START, es) == Some(s)
    requires p in Pids(s.server.roster) && q in Pids(s.server.roster)
    requires Unread(s, p) == [] && Unread(s, q) == []
    ensures p in s.clients && q in s.clients
    ensures s.clients[p].table == s.clients[q].table == s.server.roster
    ensures Repeats(s.clients[p].heard, s.server.log) && Repeats(s.clients[q].heard, s.server.log)
  {
    RosterReplication(es, s, p);
    RosterReplication(es, s, q);
    TotalOrderLog(es, s, p);
    TotalOrderLog(es, s, q);
    assert s.clients[p].heard + [] == s.clients[p].heard;
    assert s.clients[q].heard + [] == s.clients[q].heard;
  }

  // ----- where the server goes outside its tables

  ghost predicate Quiet(s: System) {
    s.pending == [] && s.inbox == []
  }

  // With nothing queued, one more request and its service.
  lemma QuietRequest(s: System, e: Event)
    requires Good(s) && Quiet(s) && (e.Talk? || e.Leave?) && e.pid in Pids(s.server.roster)
    requires e.Talk? ==> |CString(e.text)| < TEXT_SIZE
    ensures e.pid in s.clients
    ensures Run(s, [e, Serve]).Some? <==>
            Fits(s, Request(if e.Talk? then MESSAGE_FROM_CLIENT else CLIENT_LEAVE, e.pid, e.text))
  {
    assert e.pid in ActivePids(s.clients);
    StepKeeps(s, e);
    var t := Next(s, e).value;
    assert [e, Serve][1..] == [Serve] && [Serve][1..] == [];
    StepKeeps(t, Serve);
  }

  // In any quiet reachable state a member's talk is served exactly when its line
  // "name: text" has at most 256 bytes.
  lemma TalkServedIff(es: seq<Event>, s: System, p: int, text: Buffer)
    requires Run(START, es) == Some(s) && Quiet(s) && p in Pids(s.server.roster) && |CString(text)| < TEXT_SIZE
    ensures p in s.clients
    ensures Run(s, [Talk(p, text), Serve]).Some? <==>
            |CString(s.clients[p].name)| + 2 + |CString(text)| <= 256
  {
    GoodStart();
    RunKeeps(START, es);
    QuietRequest(s, Talk(p, text));
  }

  // In any quiet reachable state a member's leave is served exactly when the
  // roster is not full or the member is its last entry.
  lemma LeaveServedIff(es: seq<Event>, s: System, p: int, text: Buffer)
    requires Run(START, es) == Some(s) && Quiet(s) && p in Pids(s.server.roster)
    ensures Run(s, [Leave(p, text), Serve]).Some? <==>
            |s.server.roster| < 10 || s.server.roster[9].pid == p
  {
    GoodStart();
    RunKeeps(START, es);
    QuietRequest(s, Leave(p, text));
  }

  lemma {:induction false} SendsAll(s: System)
    ensures Run(s, seq(|s.pending|, _ => Send)) == Some(s.(outq := s.outq + s.pending, pending := []))
    decreases |s.pending|
  {
    MoveOne(s.outq, s.pending);
    if s.pending != [] {
      assert seq(|s.pending|, _ => Send)[1..] == seq(|s.pending| - 1, _ => Send);
      SendsAll(SendStep(s));
    }
  }

  // A newcomer joins a quiet chat below ten members.
  lemma JoinMember(s: System, p: int, text: Buffer) returns (es: seq<Event>, t: System)
    requires Quiet(s) && p > 0 && p !in s.clients && |s.server.roster| < SIZE_CLIENTS
    ensures Run(s, es) == Some(t) && Quiet(t)
    ensures t.server.roster == s.server.roster + [Entry(NameOf(text), p)]
    ensures t.clients == s.clients[p := Client(NameOf(text), [], [], true)]
  {
    var u := JoinStep(s, p, text);
    var v := ServeStep(u).value;
    var sends := seq(|v.pending|, _ => Send);
    es := [Join(p, text), Serve] + sends;
    SendsAll(v);
    t := v.(outq := v.outq + v.pending, pending := []);
    assert [Join(p, text), Serve][1..] == [Serve] && [Serve][1..] == [];
    assert Run(s, [Join(p, text), Serve]) == Some(v);
    RunAppend(s, [Join(p, text), Serve], sends);
  }

  // Members 1 to n have joined under one name.
  ghost predicate Enrolled(s: System, n: nat, text: Buffer) {
    |s.server.roster| == n &&
    (forall p :: p in s.clients <==> 1 <= p <= n) &&
    (forall p :: 1 <= p <= n ==> s.clients[p].name == NameOf(text)) &&
    (forall i :: 0 <= i < n ==> s.server.roster[i] == Entry(NameOf(text), i + 1))
  }

  lemma EnrolledNext(s: System, t: System, n: nat, text: Buffer)
    requires Enrolled(s, n, text) && t.server.roster == s.server.roster + [Entry(NameOf(text), n + 1)]
    requires t.clients == s.clients[n + 1 := Client(NameOf(text), [], [], true)]
    ensures Enrolled(t, n + 1, text)
  {
  }

  lemma {:induction false} Members(n: nat, text: Buffer) returns (es: seq<Event>, s: System)
    requires n <= SIZE_CLIENTS
    ensures Run(START, es) == Some(s) && Quiet(s) && Enrolled(s, n, text)
  {
    if n == 0 {
      es, s := [], START;
    } else {
      var before, was := Members(n - 1, text);
      var more: seq<Event>;
      more, s := JoinMember(was, n, text);
      RunAppend(START, before, more);
      es := before + more;
      EnrolledNext(was, s, n - 1, text);
    }
  }

  // Ten joins reach a full roster.  From there an eleventh join leads outside the
  // members' tables; the leave of any of the first nine members goes outside the
  // server's and only that of the tenth does not.
  lemma FullRosterFails(text: Buffer)
    ensures exists es :: Run(START, es).Some? &&
              var s := Run(START, es).value;
              Quiet(s) && |s.server.roster| == 10 &&
              Run(s, [Join(11, text), Serve]).None? &&
              forall i :: 0 <= i < 10 ==>
                (Run(s, [Leave(s.server.roster[i].pid, text), Serve]).None? <==> i < 9)
  {
    var es, s := Members(SIZE_CLIENTS, text);
    PidsOf(s.server.roster, 0);
    EleventhJoinFails(es, s, SIZE_CLIENTS + 1, text, 1);
    forall i | 0 <= i < SIZE_CLIENTS
      ensures Run(s, [Leave(s.server.roster[i].pid, text), Serve]).None? <==> i < SIZE_CLIENTS - 1
    {
      PidsOf(s.server.roster, i);
      LeaveServedIff(es, s, s.server.roster[i].pid, text);
    }
  }

  // A client that reads its whole mailbox stays inside its table exactly when the
  // fold over the mailbox does.
  lemma {:induction false} ReadsFollowFold(s: System, q: int)
    requires s.pending == [] && q in s.clients
    ensures Run(s, seq(|Mailbox(s.outq, q)|, _ => Read(q))).Some? <==>
            Apply(s.clients[q].table, Mailbox(s.outq, q)).Some?
    decreases |Mailbox(s.outq, q)|
  {
    var box := Mailbox(s.outq, q);
    if box != [] {
      assert seq(|box|, _ => Read(q))[1..] == seq(|box| - 1, _ => Read(q));
      if ReadStep(s, q).Some? {
        ReceiveTakesHead(s.outq, q, q);
        ReadsFollowFold(ReadStep(s, q).value, q);
      }
    }
  }

  // What the server really does with an eleventh member: the roster stays as it
  // is, and what every member is then told leads outside its table.
  lemma EleventhAnnounced(s: System, r: Message, q: int)
    requires CanServe(s) && r.mtype == NEW_CLIENT && r.body.sender !in Pids(s.server.roster)
    requires DistinctPids(s.server.roster) && NamesCanonical(s.server.roster) && |s.server.roster| == SIZE_CLIENTS
    requires q in s.clients && ClientOk(s, q) && q in Pids(s.server.roster)
    ensures Register(s.server, r) == Some((s.server, r))
    ensures Apply(s.clients[q].table, Unread(Announce(s, s.server, r), q)).None?
  {
    var news := Outgoing(s.server, r);
    JoinServedIff(s.server, r, q);
    ServeUnread(s, news, q);
    ApplyAppend(s.clients[q].table, Unread(s, q), Mailbox(news, q));
  }

  lemma ReadingFails(t: System, q: int)
    requires q in t.clients && Apply(t.clients[q].table, Unread(t, q)).None?
    ensures Run(t, seq(|t.pending|, _ => Send) + seq(|Unread(t, q)|, _ => Read(q))).None?
  {
    var sent := t.(outq := t.outq + t.pending, pending := []);
    SendsAll(t);
    ReadsFollowFold(sent, q);
    RunAppend(t, seq(|t.pending|, _ => Send), seq(|Unread(t, q)|, _ => Read(q)));
  }

  lemma EleventhStops(s: System, p: int, text: Buffer)
    requires Quiet(s) && |s.server.roster| == SIZE_CLIENTS && p > 0 && p !in s.clients
    ensures Run(s, [Join(p, text), Serve]).None?
  {
    assert ServeStep(JoinStep(s, p, text)).None?;
    assert [Join(p, text), Serve][1..] == [Serve];
  }

  lemma EleventhRead(s: System, p: int, text: Buffer, q: int)
    requires Quiet(s) && RosterOk(s) && |s.server.roster| == SIZE_CLIENTS && p !in s.clients
    requires q in s.clients && ClientOk(s, q) && q in Pids(s.server.roster)
    ensures var r := Request(NEW_CLIENT, p, text);
            var t := Announce(JoinStep(s, p, text), s.server, r);
            Register(s.server, r) == Some((s.server, r)) &&
            Run(t, seq(|t.pending|, _ => Send) + seq(|Unread(t, q)|, _ => Read(q))).None?
  {
    var u, r := JoinStep(s, p, text), Request(NEW_CLIENT, p, text);
    assert ClientOk(u, q) by { assert Unread(u, q) == Unread(s, q); }
    EleventhAnnounced(u, r, q);
    ReadingFails(Announce(u, s.server, r), q);
  }

  // In any quiet reachable state with ten members a join is announced to every
  // member, and each of them goes outside its table once it reads on.
  lemma EleventhJoinFails(es: seq<Event>, s: System, p: int, text: Buffer, q: int)
    requires Run(START, es) == Some(s) && Quiet(s) && |s.server.roster| == SIZE_CLIENTS
    requires p > 0 && p !in s.clients && q in Pids(s.server.roster)
    ensures Run(s, [Join(p, text), Serve]).None?
    ensures var r := Request(NEW_CLIENT, p, text);
            var t := Announce(JoinStep(s, p, text), s.server, r);
            Register(s.server, r) == Some((s.server, r)) &&
            Run(t, seq(|t.pending|, _ => Send) + seq(|Unread(t, q)|, _ => Read(q))).None?
  {
    GoodStart();
    RunKeeps(START, es);
    EleventhStops(s, p, text);
    assert q in s.clients && ClientOk(s, q);
    EleventhRead(s, p, text, q);
  }

  // n letters, then NULs.
  function Letters(n: nat): (b: Buffer)
    requires n < TEXT_SIZE
    ensures CString(b) == seq(n, _ => 'a') && Padded(b)
  {
    CStringPrefix(seq(n, _ => 'a'), seq(TEXT_SIZE - n, _ => '\0'));
    seq(n, _ => 'a') + seq(TEXT_SIZE - n, _ => '\0')
  }

  // A lone member with a name of k letters may say up to 254 - k letters: with a
  // name of 19, the client accepts 236 to 255 and the server's copy overruns.
  lemma LongTalkFails(k: nat, n: nat)
    requires k < 20 && n < 256
    ensures exists es :: Run(START, es).Some? &&
              var s := Run(START, es).value;
              Quiet(s) && 1 in s.clients && s.clients[1].name == NameOf(Letters(k)) &&
              (Run(s, [Talk(1, Letters(n)), Serve]).Some? <==> k + 2 + n <= 256)
  {
    var es, s := Members(1, Letters(k));
    PidsOf(s.server.roster, 0);
    TalkServedIff(es, s, 1, Letters(n));
    NameKept(Letters(k));
  }
}
