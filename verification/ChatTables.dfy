// The tables behind the chat, as the C code keeps them: fixed arrays shifted in
// place, a message store that doubles, and one message structure that the
// server overwrites while it sends.
module ChatTables {
  import opened CStrings
  import opened MessageQueue
  import opened ChatProtocol
  import opened Sequences
  import opened Wrappers

  // ----- library.c

  method FindNameClient(infCl: array<Entry>, pid: int, size: nat) returns (r: int)
    requires size <= infCl.Length
    ensures r == IndexOf(infCl[..size], pid)
  {
    var i := 0;
    while i < size
      invariant 0 <= i <= size
      invariant IndexOf(infCl[..size], pid) ==
                var k := IndexOf(infCl[i..size], pid); if k == -1 then -1 else i + k
    {
      if pid == infCl[i].pid {
        return i;
      }
      assert infCl[i..size][1..] == infCl[i + 1..size];
      i := i + 1;
    }
    return -1;
  }

  // The table when the cells from idx to i - 1 have been filled from behind.
  ghost predicate Shifting(now: seq<Entry>, t: seq<Entry>, idx: nat, i: nat) {
    idx <= i <= |t| <= |now| &&
    (forall k :: 0 <= k < idx ==> now[k] == t[k]) &&
    (forall k :: idx <= k < i && k < |t| - 1 ==> now[k] == t[k + 1]) &&
    (forall k :: i <= k < |t| ==> now[k] == t[k])
  }

  lemma ShiftingNext(now: seq<Entry>, t: seq<Entry>, idx: nat, i: nat)
    requires Shifting(now, t, idx, i) && i < |t| && i + 1 < |now|
    ensures Shifting(now[i := now[i + 1]], t, idx, i + 1)
  {
  }

  lemma ShiftingEnds(now: seq<Entry>, t: seq<Entry>, idx: nat, i: nat)
    requires Shifting(now, t, idx, i) && idx < |t| && (i == |t| || idx + 1 == |t|)
    ensures now[..|t| - 1] == RemoveAt(t, idx)
  {
  }

  // The shift loop of server.c:98-103 and client.c:54-59, with the cells it touches.
  method ShiftOut(infCl: array<Entry>, idx: nat, size: nat) returns (ghost touched: set<int>)
    requires idx < size <= infCl.Length == SIZE_CLIENTS
    requires RemovalInBounds(infCl[..size], idx)
    modifies infCl
    ensures infCl[..size - 1] == RemoveAt(old(infCl[..size]), idx)
    ensures touched == RemovalTouches(idx, size)
  {
    ghost var t := infCl[..size];
    touched := {};
    var i := idx;
    if idx + 1 < size {
      while i < size
        invariant Shifting(infCl[..], t, idx, i)
        invariant touched + ShiftTouches(i, size) == RemovalTouches(idx, size)
      {
        assert touched + ShiftTouches(i, size) == (touched + {i, i + 1}) + ShiftTouches(i + 1, size);
        ShiftingNext(infCl[..], t, idx, i);
        infCl[i] := infCl[i + 1];
        touched := touched + {i, i + 1};
        i := i + 1;
      }
    }
    ShiftingEnds(infCl[..], t, idx, i);
    assert infCl[..size - 1] == infCl[..][..size - 1];
  }

  // ----- client.c, the reading thread

  class ChatClient {
    const infCl: array<Entry>
    var sizeInfcl: nat

    ghost predicate Valid()
      reads this
    {
      infCl.Length == SIZE_CLIENTS && sizeInfcl <= SIZE_CLIENTS
    }

    ghost function Table(): seq<Entry>
      requires Valid()
      reads this, infCl
    {
      infCl[..sizeInfcl]
    }

    constructor ()
      ensures Valid() && fresh(infCl) && Table() == []
    {
      infCl := new Entry[SIZE_CLIENTS];
      sizeInfcl := 0;
    }

    // One message from the client's mailbox.
    method ReadQueue(m: Body)
      requires Valid() && ApplyOne(Table(), m).Some?
      modifies this, infCl
      ensures Valid() && Some(Table()) == ApplyOne(old(Table()), m)
    {
      if m.category == NEW_CLIENT {
        var slot := infCl[sizeInfcl];
        infCl[sizeInfcl] := Entry(First19(m.text) + slot.name[NAME_SIZE - 1..], m.sender);
        sizeInfcl := sizeInfcl + 1;
        assert slot.name[NAME_SIZE - 1..] == ['\0'];
        assert Table() == old(Table()) + [Entry(NameOf(m.text), m.sender)];
      } else if m.category == CLIENT_LEAVE {
        var idx := FindNameClient(infCl, m.sender, sizeInfcl);
        var _ := ShiftOut(infCl, idx, sizeInfcl);
        sizeInfcl := sizeInfcl - 1;
      }
    }
  }

  // ----- server.c

  function Sayings(lines: seq<Line>, senders: seq<int>): (r: seq<Saying>)
    requires |lines| == |senders|
    ensures |r| == |lines|
    ensures forall i :: 0 <= i < |r| ==> r[i] == Saying(senders[i], lines[i])
  {
    seq(|lines|, i requires 0 <= i < |lines| => Saying(senders[i], lines[i]))
  }

  class ChatServer {
    const infCl: array<Entry>
    var sizeInfcl: nat
    var message: array<Line>
    var fromMessage: array<int>
    var size: nat
    var capacity: nat
    var localMsg: Message
    var sent: seq<Message>   // everything handed to the outgoing queue

    ghost predicate Valid()
      reads this`sizeInfcl, this`message, this`fromMessage, this`size, this`capacity
    {
      infCl.Length == SIZE_CLIENTS && sizeInfcl <= SIZE_CLIENTS &&
      message.Length == capacity && fromMessage.Length == capacity && size < capacity
    }

    ghost function Roster(): seq<Entry>
      requires Valid()
      reads this`sizeInfcl, this`message, this`fromMessage, this`size, this`capacity, infCl
    {
      infCl[..sizeInfcl]
    }

    ghost function Log(): seq<Saying>
      requires Valid()
      reads this`sizeInfcl, this`message, this`fromMessage, this`size, this`capacity, message, fromMessage
    {
      Sayings(message[..size], fromMessage[..size])
    }

    ghost function State(): Server
      requires Valid()
      reads this`sizeInfcl, this`message, this`fromMessage, this`size, this`capacity, infCl, message, fromMessage
    {
      Server(Roster(), Log())
    }

    // initStoreMessage and the empty roster.
    constructor ()
      ensures Valid() && State() == Server([], []) && sent == []
      ensures fresh(infCl) && fresh(message) && fresh(fromMessage)
    {
      infCl := new Entry[SIZE_CLIENTS];
      sizeInfcl := 0;
      capacity := 10;
      size := 0;
      message := new Line[10];
      fromMessage := new int[10];
      sent := [];
    }

    // Lines 71-83: the store doubles just before it would be full.
    method Reserve()
      requires Valid()
      modifies this`message, this`fromMessage, this`capacity
      ensures Valid() && size + 1 < capacity && Log() == old(Log())
      ensures message == old(message) || fresh(message)
      ensures fromMessage == old(fromMessage) || fresh(fromMessage)
    {
      if size >= capacity - 1 {
        var temp := new Line[capacity * 2];
        var tempFrom := new int[capacity * 2];
        for i := 0 to capacity
          invariant capacity == old(capacity) && size == old(size)
          invariant message == old(message) && fromMessage == old(fromMessage)
          invariant message.Length == fromMessage.Length == capacity
          invariant message[..] == old(message[..]) && fromMessage[..] == old(fromMessage[..])
          invariant forall k :: 0 <= k < i ==> temp[k] == message[k] && tempFrom[k] == fromMessage[k]
        {
          temp[i] := message[i];
          tempFrom[i] := fromMessage[i];
        }
        capacity := capacity * 2;
        message := temp;
        fromMessage := tempFrom;
      }
    }

    method StoreLine(from: int, line: Line)
      requires Valid()
      modifies this`message, this`fromMessage, this`capacity, this`size, message, fromMessage
      ensures Valid() && Log() == old(Log()) + [Saying(from, line)]
      ensures message == old(message) || fresh(message)
      ensures fromMessage == old(fromMessage) || fresh(fromMessage)
    {
      Reserve();
      message[size] := line;
      fromMessage[size] := from;
      size := size + 1;
    }

    // Lines 62-68.
    method RegisterNew(r: Message)
      requires Valid() && r.mtype == NEW_CLIENT && r == localMsg
      modifies this`sizeInfcl, infCl
      ensures Valid() && Some((State(), localMsg)) == Register(old(State()), r)
    {
      if sizeInfcl < SIZE_CLIENTS {
        infCl[sizeInfcl] := Entry(NameOf(r.body.text), r.body.sender);
        sizeInfcl := sizeInfcl + 1;
        assert Roster() == old(Roster()) + [Entry(NameOf(r.body.text), r.body.sender)];
      }
    }

    // Lines 70-91.
    method RegisterTalk(r: Message)
      requires Valid() && r.mtype == MESSAGE_FROM_CLIENT && r == localMsg && Register(State(), r).Some?
      modifies this`message, this`fromMessage, this`capacity, this`size, this`localMsg, message, fromMessage
      ensures Valid() && Some((State(), localMsg)) == Register(old(State()), r)
    {
      var idx := FindNameClient(infCl, r.body.sender, sizeInfcl);
      var line: Line := TalkLine(infCl[idx].name, r.body.text);
      StoreLine(r.body.sender, line);
      localMsg := localMsg.(body := localMsg.body.(text := Overlay(localMsg.body.text, line)));
    }

    // Lines 93-103.
    method RegisterLeave(r: Message)
      requires Valid() && r.mtype == CLIENT_LEAVE && r == localMsg && Register(State(), r).Some?
      modifies this`sizeInfcl, this`localMsg, infCl
      ensures Valid() && Some((State(), localMsg)) == Register(old(State()), r)
    {
      var idx := FindNameClient(infCl, r.body.sender, sizeInfcl);
      localMsg := localMsg.(body := localMsg.body.(text := Overlay(localMsg.body.text, FarewellLine(infCl[idx].name))));
      var _ := ShiftOut(infCl, idx, sizeInfcl);
      sizeInfcl := sizeInfcl - 1;
    }

    // read_queue: one request taken from the incoming queue.
    method ReadQueue(r: Message)
      requires Valid() && Register(State(), r).Some?
      modifies this`sizeInfcl, this`message, this`fromMessage, this`capacity, this`size, this`localMsg
      modifies infCl, message, fromMessage
      ensures Valid() && Some((State(), localMsg)) == Register(old(State()), r)
    {
      localMsg := r;
      if r.mtype == NEW_CLIENT {
        RegisterNew(r);
      } else if r.mtype == MESSAGE_FROM_CLIENT {
        RegisterTalk(r);
      } else if r.mtype == CLIENT_LEAVE {
        RegisterLeave(r);
      }
    }

    method MsgSnd()
      modifies this`sent
      ensures sent == old(sent) + [localMsg]
    {
      sent := sent + [localMsg];
    }

    // to_send_from_server, and the loops of lines 112-119, 147-151 and 156-160:
    // the message goes to every entry but the one to skip.
    method SendToAll(skip: Option<int>)
      requires Valid()
      modifies this`sent, this`localMsg
      ensures sent == old(sent) + ToAll(Roster(), old(localMsg).body, skip)
      ensures localMsg.body == old(localMsg).body
    {
      ghost var roster, body := Roster(), localMsg.body;
      ghost var done := [];
      for i := 0 to sizeInfcl
        invariant localMsg.body == body && sent == old(sent) + done
        invariant done + ToAll(roster[i..], body, skip) == ToAll(roster, body, skip)
      {
        assert roster[i..][1..] == roster[i + 1..];
        ghost var rest := ToAll(roster[i + 1..], body, skip);
        if skip != Some(infCl[i].pid) {
          localMsg := localMsg.(mtype := infCl[i].pid);
          MsgSnd();
          Associate(done, [localMsg], rest);
          Associate(old(sent), done, [localMsg]);
          done := done + [localMsg];
        } else {
          assert [] + rest == rest;
        }
      }
      assert done + [] == done;
    }

    // Lines 123-130.
    method SendWholeRoster()
      requires Valid()
      modifies this`sent, this`localMsg
      ensures sent == old(sent) + SendRoster(Roster(), old(localMsg).body, old(localMsg).mtype)
      ensures localMsg == old(localMsg).(body := BodyAfterRoster(Roster(), old(localMsg).body))
    {
      ghost var roster, body, target := Roster(), localMsg.body, localMsg.mtype;
      ghost var done := [];
      for i := 0 to sizeInfcl
        invariant localMsg.mtype == target && sent == old(sent) + done
        invariant done + SendRoster(roster[i..], localMsg.body, target) == SendRoster(roster, body, target)
        invariant BodyAfterRoster(roster[i..], localMsg.body) == BodyAfterRoster(roster, body)
      {
        assert roster[i..][1..] == roster[i + 1..];
        localMsg := localMsg.(body := EntryBody(localMsg.body, infCl[i]));
        MsgSnd();
        Associate(done, [localMsg], SendRoster(roster[i + 1..], localMsg.body, target));
        Associate(old(sent), done, [localMsg]);
        done := done + [localMsg];
      }
      assert done + [] == done;
    }

    // Lines 134-144.
    method SendWholeLog()
      requires Valid()
      modifies this`sent, this`localMsg
      ensures sent == old(sent) + SendLog(Log(), old(localMsg).body, old(localMsg).mtype)
    {
      ghost var log, body, target := Log(), localMsg.body, localMsg.mtype;
      ghost var done := [];
      for i := 0 to size
        invariant localMsg.mtype == target && Log() == log && sent == old(sent) + done
        invariant done + SendLog(log[i..], localMsg.body, target) == SendLog(log, body, target)
      {
        assert log[i..][1..] == log[i + 1..];
        localMsg := localMsg.(body := SayingBody(localMsg.body, Saying(fromMessage[i], message[i])));
        MsgSnd();
        Associate(done, [localMsg], SendLog(log[i + 1..], localMsg.body, target));
        Associate(old(sent), done, [localMsg]);
        done := done + [localMsg];
      }
      assert done + [] == done;
    }

    // Lines 109-144.
    method AnswerJoin()
      requires Valid() && localMsg.mtype == NEW_CLIENT
      modifies this`sent, this`localMsg
      ensures sent == old(sent) + Outgoing(State(), old(localMsg))
    {
      var from := localMsg.body.sender;
      localMsg := localMsg.(body := localMsg.body.(category := NEW_CLIENT));
      ghost var (s0, body) := (sent, localMsg.body);
      SendToAll(if sizeInfcl > 1 then Some(from) else None);
      ghost var a := ToAll(Roster(), body, if sizeInfcl > 1 then Some(from) else None);
      localMsg := localMsg.(mtype := localMsg.body.sender);
      ghost var b := SendRoster(if sizeInfcl > 1 then Roster() else [], body, from);
      if sizeInfcl > 1 {
        SendWholeRoster();
      }
      assert sent == (s0 + a) + b;
      localMsg := localMsg.(body := localMsg.body.(category := MESSAGE_FROM_CLIENT));
      ghost var c := SendLog(Log(), localMsg.body, from);
      SendWholeLog();
      Associate(s0, a, b);
      Associate(s0, a + b, c);
    }

    // Lines 152-161.
    method AnswerLeave()
      requires Valid() && localMsg.mtype == CLIENT_LEAVE
      modifies this`sent, this`localMsg
      ensures sent == old(sent) + Outgoing(State(), old(localMsg))
    {
      localMsg := localMsg.(body := localMsg.body.(category := MESSAGE_FROM_SERVER));
      SendToAll(None);
      localMsg := localMsg.(body := localMsg.body.(category := CLIENT_LEAVE));
      SendToAll(None);
    }

    // write_queue: everything that is sent for the request just read.
    method WriteQueue()
      requires Valid()
      modifies this`sent, this`localMsg
      ensures Valid() && State() == old(State())
      ensures sent == old(sent) + Outgoing(State(), old(localMsg))
    {
      if localMsg.mtype == NEW_CLIENT {
        AnswerJoin();
      } else if localMsg.mtype == MESSAGE_FROM_CLIENT {
        localMsg := localMsg.(body := localMsg.body.(category := MESSAGE_FROM_CLIENT));
        SendToAll(None);
      } else if localMsg.mtype == CLIENT_LEAVE {
        AnswerLeave();
      }
    }

    // One round of the main loop.
    method Serve(r: Message)
      requires Valid() && Register(State(), r).Some?
      modifies this, infCl, message, fromMessage
      ensures Valid()
      ensures var (s, local) := Register(old(State()), r).value;
              State() == s && sent == old(sent) + Outgoing(s, local)
    {
      ReadQueue(r);
      WriteQueue();
    }
  }
}
