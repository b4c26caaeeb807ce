// The message-queue chat of Queue_message/Message, as values: what the server
// does with one request and what a client does with one message.  A result of
// None stands for an access outside a table.
module ChatProtocol {
  import opened CStrings
  import opened MessageQueue
  import opened Sequences
  import opened Wrappers

  const SIZE_CLIENTS := 10
  const MESSAGE_FROM_SERVER := 1
  const MESSAGE_FROM_CLIENT := 2
  const NEW_CLIENT := 3
  const CLIENT_LEAVE := 4

  const TEXT_SIZE := 256
  const NAME_SIZE := 20

  // ----- text buffers

  // A text buffer of struct message, a name field of struct infoClients and a
  // stored line that still fits the text buffer.
  type Buffer = b: seq<char> | |b| == TEXT_SIZE witness seq(TEXT_SIZE, _ => '\0')
  type Name = b: seq<char> | |b| == NAME_SIZE && b[NAME_SIZE - 1] == '\0' witness seq(NAME_SIZE, _ => '\0')
  type Line = s: seq<char> | |s| <= TEXT_SIZE witness []

  // A name field holds at most 19 bytes of text.
  lemma NameLength(name: Name)
    ensures |CString(name)| < NAME_SIZE
  {
    CStringPart(name);
    assert |CString(name)| == NAME_SIZE ==> '\0' in CString(name);
  }

  // strncpy(dst, src, 19)
  function First19(src: seq<char>): (s: seq<char>)
    ensures |s| == NAME_SIZE - 1
  {
    Copied(src, NAME_SIZE - 1)
  }

  function NameOf(src: seq<char>): Name {
    First19(src) + ['\0']
  }

  // A name field holds the first 19 bytes of the name given.
  lemma NameKept(src: seq<char>)
    ensures CString(NameOf(src)) == if |CString(src)| < NAME_SIZE then CString(src) else CString(src)[..NAME_SIZE - 1]
  {
    var c := CString(src);
    CStringPart(src);
    if |c| < NAME_SIZE - 1 {
      var pad := seq(NAME_SIZE - 1 - |c|, _ => '\0') + ['\0'];
      assert NameOf(src) == c + pad;
      CStringPrefix(c, pad);
    } else {
      assert c[..NAME_SIZE - 1] <= c;
      CStringPrefix(c[..NAME_SIZE - 1], ['\0']);
    }
  }

  // Bytes written over the front of a text buffer.
  function Overlay(b: Buffer, s: Line): (r: Buffer) {
    s + b[|s|..]
  }

  // A name copied into a text buffer by strncpy(.., 19) is read back unchanged,
  // whatever the rest of the buffer holds.
  lemma First19Survives(src: seq<char>, rest: seq<char>)
    ensures First19(First19(src) + rest) == First19(src)
  {
    var c := CString(src);
    CStringPart(src);
    if |c| >= NAME_SIZE - 1 {
      CStringAppend(c[..NAME_SIZE - 1], rest);
    } else {
      var pad := seq(NAME_SIZE - 1 - |c|, _ => '\0') + rest;
      assert First19(src) + rest == c + pad;
      CStringPrefix(c, pad);
    }
  }

  // ----- rosters

  datatype Entry = Entry(name: Name, pid: int)

  // find_name_client
  function IndexOf(t: seq<Entry>, pid: int): (r: int)
    ensures -1 <= r < |t|
    ensures r >= 0 ==> t[r].pid == pid && forall j :: 0 <= j < r ==> t[j].pid != pid
    ensures r == -1 <==> pid !in Pids(t)
  {
    if t == [] then -1
    else if t[0].pid == pid then 0
    else var r := IndexOf(t[1..], pid); if r == -1 then -1 else r + 1
  }

  function Pids(t: seq<Entry>): set<int> {
    set e | e in t :: e.pid
  }

  predicate DistinctPids(t: seq<Entry>) {
    forall i, j :: 0 <= i < j < |t| ==> t[i].pid != t[j].pid
  }

  // The cells touched by moving every later entry one place down, from cell i to
  // the one behind the last of `size` entries.
  function ShiftTouches(i: int, size: int): set<int>
    decreases size - i
  {
    if i < size then {i, i + 1} + ShiftTouches(i + 1, size) else {}
  }

  // The removal code shifts only when something follows the entry.
  function RemovalTouches(idx: int, size: int): set<int> {
    if idx + 1 < size then ShiftTouches(idx, size) else {}
  }

  lemma {:induction false} ShiftTouchesRange(i: int, size: int, k: int)
    requires i <= size
    ensures k in ShiftTouches(i, size) <==> i < size && i <= k <= size
    decreases size - i
  {
    if i < size {
      ShiftTouchesRange(i + 1, size, k);
    }
  }

  // Cells of a table of ten.
  ghost predicate Inside(cells: set<int>) {
    forall k :: k in cells ==> 0 <= k < 10
  }

  lemma RemovalTouchesInside(idx: int, size: int)
    requires 0 < size <= 10 && -1 <= idx < size
    ensures Inside(RemovalTouches(idx, size)) <==> idx >= 0 && (size < 10 || idx + 1 == size)
  {
    forall k ensures k in ShiftTouches(idx, size) <==> idx <= k <= size {
      ShiftTouchesRange(idx, size, k);
    }
    if idx == -1 {
      assert -1 in RemovalTouches(idx, size);
    } else if size == 10 && idx + 1 < size {
      assert 10 in RemovalTouches(idx, size);
    }
  }

  // The removal of an entry that was looked up stays inside a table of ten
  // exactly when it was found and the table is not full or the entry is the last.
  lemma RemovalInsideIff(t: seq<Entry>, pid: int)
    requires 0 < |t| <= 10
    ensures Inside(RemovalTouches(IndexOf(t, pid), |t|)) <==>
            pid in Pids(t) && (|t| < 10 || IndexOf(t, pid) == 9)
    ensures RemovalInBounds(t, IndexOf(t, pid)) <==> pid in Pids(t) && (|t| < 10 || IndexOf(t, pid) == 9)
  {
    RemovalTouchesInside(IndexOf(t, pid), |t|);
  }

  // A found entry below a full table, or the last one.
  predicate RemovalInBounds(t: seq<Entry>, idx: int) {
    0 <= idx < |t| && (|t| < SIZE_CLIENTS || idx + 1 == |t|)
  }

  function RemoveAt(t: seq<Entry>, idx: nat): (r: seq<Entry>)
    requires idx < |t|
    ensures |r| == |t| - 1
    ensures forall k :: 0 <= k < |r| ==> r[k] == t[if k < idx then k else k + 1]
  {
    t[..idx] + t[idx + 1..]
  }

  // ----- messages

  datatype Body = Body(text: Buffer, sender: int, category: int)
  type Message = Envelope<Body>

  // The bytes of a long, lowest first.
  function LongBytes(v: int, n: nat): (r: seq<char>)
    ensures |r| == n && (n > 0 ==> (r[0] == '\0' <==> v % 0x100 == 0))
    decreases n
  {
    if n == 0 then [] else [(v % 0x100) as char] + LongBytes(v / 0x100, n - 1)
  }

  const LONG_SIZE := 8

  // The number that some bytes spell, lowest first.
  function Spelled(b: seq<char>): nat {
    if b == [] then 0 else b[0] as int + 0x100 * Spelled(b[1..])
  }

  function Reach(n: nat): nat {
    if n == 0 then 1 else 0x100 * Reach(n - 1)
  }

  // A pid is spelled by its bytes.
  lemma {:induction false} LongSpelled(v: nat, n: nat)
    requires v < Reach(n)
    ensures Spelled(LongBytes(v, n)) == v
    decreases n
  {
    if n > 0 {
      LongSpelled(v / 0x100, n - 1);
      assert LongBytes(v, n)[1..] == LongBytes(v / 0x100, n - 1);
    }
  }

  // What "%s" shows of a message: the text up to the first NUL, reading on into
  // the sender field if the text buffer holds none.
  function Displayed(m: Body): seq<char> {
    CString(m.text + LongBytes(m.sender, LONG_SIZE))
  }

  lemma ShownWhole(line: seq<char>, rest: seq<char>)
    requires '\0' !in line
    ensures CString(line + rest) == line <==> rest == [] || rest[0] == '\0'
    ensures line <= CString(line + rest)
  {
    CStringAppend(line, rest);
  }

  // The byte behind a line copied over the front of the text buffer.
  function ByteBehind(m: Body, line: Line): char {
    if |line| < TEXT_SIZE then m.text[|line|] else LongBytes(m.sender, LONG_SIZE)[0]
  }

  // A line copied into a message without its terminator is displayed unchanged
  // exactly when the byte behind it is NUL already; behind a line that fills the
  // buffer stands the low byte of the sender.
  lemma ShownExactlyIff(m: Body, line: Line)
    requires '\0' !in line
    ensures var shown := Displayed(m.(text := Overlay(m.text, line)));
            line <= shown && (shown == line <==> ByteBehind(m, line) == '\0') &&
            shown == line + CString(m.text[|line|..] + LongBytes(m.sender, LONG_SIZE))
    ensures |line| == TEXT_SIZE ==> (ByteBehind(m, line) == '\0' <==> m.sender % 0x100 == 0)
  {
    var rest := m.text[|line|..] + LongBytes(m.sender, LONG_SIZE);
    assert Overlay(m.text, line) + LongBytes(m.sender, LONG_SIZE) == line + rest;
    ShownWhole(line, rest);
    CStringAppend(line, rest);
  }

  // A buffer as strncpy fills it: NULs behind the string.
  predicate Padded(b: Buffer) {
    forall k :: |CString(b)| <= k < TEXT_SIZE ==> b[k] == '\0'
  }

  // ----- a line too long for the text buffer

  // The structure's bytes from the text on, and the same bytes after the
  // unterminated copy of a line.
  function Memory(m: Body, behind: seq<char>): seq<char> {
    m.text + LongBytes(m.sender, LONG_SIZE) + behind
  }

  function AfterCopy(m: Body, behind: seq<char>, line: seq<char>): seq<char>
    requires |line| <= TEXT_SIZE + LONG_SIZE + |behind|
  {
    line + Memory(m, behind)[|line|..]
  }

  // The sender field's bytes after the copy.
  function SenderAfterCopy(m: Body, behind: seq<char>, line: seq<char>): seq<char>
    requires |line| <= TEXT_SIZE + LONG_SIZE + |behind|
  {
    AfterCopy(m, behind, line)[TEXT_SIZE..TEXT_SIZE + LONG_SIZE]
  }

  // How many bytes of the line land in the sender field.
  function Overhang(line: seq<char>): (r: nat)
    ensures r <= LONG_SIZE && (r > 0 ==> TEXT_SIZE + r <= |line|)
  {
    if |line| <= TEXT_SIZE then 0 else if |line| > TEXT_SIZE + LONG_SIZE then LONG_SIZE else |line| - TEXT_SIZE
  }

  lemma SenderByte(m: Body, behind: seq<char>, line: seq<char>, k: nat)
    requires |line| <= TEXT_SIZE + LONG_SIZE + |behind| && k < LONG_SIZE
    ensures SenderAfterCopy(m, behind, line)[k] ==
            if k < Overhang(line) then line[TEXT_SIZE + k] else LongBytes(m.sender, LONG_SIZE)[k]
  {
    var i := TEXT_SIZE + k;
    var memory := Memory(m, behind);
    assert memory[i] == LongBytes(m.sender, LONG_SIZE)[k];
    assert SenderAfterCopy(m, behind, line)[k] == AfterCopy(m, behind, line)[i];
    assert AfterCopy(m, behind, line)[i] == if i < |line| then line[i] else memory[i];
  }

  // The copy leaves the sender as it was exactly when the line fits the text
  // buffer or its overhang repeats the sender's own bytes.
  lemma SenderKeptIff(m: Body, behind: seq<char>, line: seq<char>)
    requires |line| <= TEXT_SIZE + LONG_SIZE + |behind|
    ensures SenderAfterCopy(m, behind, line) == LongBytes(m.sender, LONG_SIZE) <==>
            forall k :: 0 <= k < Overhang(line) ==> line[TEXT_SIZE + k] == LongBytes(m.sender, LONG_SIZE)[k]
  {
    var now, was := SenderAfterCopy(m, behind, line), LongBytes(m.sender, LONG_SIZE);
    forall k: nat | k < LONG_SIZE
      ensures now[k] == if k < Overhang(line) then line[TEXT_SIZE + k] else was[k]
    {
      SenderByte(m, behind, line, k);
    }
  }

  // ----- a client's fold

  // One message handled by a client's reading thread.
  function ApplyOne(t: seq<Entry>, m: Body): Option<seq<Entry>> {
    if m.category == NEW_CLIENT then
      if |t| < SIZE_CLIENTS then Some(t + [Entry(NameOf(m.text), m.sender)]) else None
    else if m.category == CLIENT_LEAVE then
      var idx := IndexOf(t, m.sender);
      if RemovalInBounds(t, idx) then Some(RemoveAt(t, idx)) else None
    else Some(t)
  }

  function Apply(t: seq<Entry>, ms: seq<Body>): Option<seq<Entry>>
    decreases |ms|
  {
    if ms == [] then Some(t)
    else match ApplyOne(t, ms[0])
         case None => None
         case Some(u) => Apply(u, ms[1..])
  }

  // The talk among some messages: who is shown to have said what.
  datatype Spoken = Spoken(sender: int, shown: seq<char>)

  function TalkOf(m: Body): seq<Spoken> {
    if m.category == MESSAGE_FROM_CLIENT then [Spoken(m.sender, Displayed(m))] else []
  }

  function Heard(ms: seq<Body>): seq<Spoken> {
    if ms == [] then [] else TalkOf(ms[0]) + Heard(ms[1..])
  }

  // ----- the server

  datatype Saying = Saying(sender: int, line: Line)
  datatype Server = Server(roster: seq<Entry>, log: seq<Saying>)

  // The talk is the log, line by line: same senders, and what is shown begins
  // with the line.
  predicate Repeats(heard: seq<Spoken>, log: seq<Saying>) {
    |heard| == |log| &&
    forall k :: 0 <= k < |log| ==> heard[k].sender == log[k].sender && log[k].line <= heard[k].shown
  }

  predicate PlainLog(log: seq<Saying>) {
    forall k :: 0 <= k < |log| ==> '\0' !in log[k].line
  }

  function TalkLine(name: Name, text: Buffer): seq<char> {
    CString(name) + ": " + CString(text)
  }

  function FarewellLine(name: Name): Line {
    NameLength(name);
    "server: " + CString(name) + " left the chat" + ['\0']
  }

  // The farewell carries its terminator, so it is always displayed as it is.
  lemma FarewellShown(m: Body, name: Name)
    ensures Displayed(m.(text := Overlay(m.text, FarewellLine(name)))) == "server: " + CString(name) + " left the chat"
  {
    NameLength(name);
    CStringPart(name);
    var shown := "server: " + CString(name) + " left the chat";
    var behind := m.text[|shown| + 1..] + LongBytes(m.sender, LONG_SIZE);
    Associate(FarewellLine(name), m.text[|shown| + 1..], LongBytes(m.sender, LONG_SIZE));
    Associate(shown, ['\0'], behind);
    CStringPrefix(shown, ['\0'] + behind);
  }

  // read_queue of the server: the new roster and log, and the request as it is
  // left in the shared message structure.
  function Register(s: Server, r: Message): Option<(Server, Message)> {
    var from := r.body.sender;
    if r.mtype == NEW_CLIENT then
      if |s.roster| >= SIZE_CLIENTS then Some((s, r))
      else Some((s.(roster := s.roster + [Entry(NameOf(r.body.text), from)]), r))
    else if r.mtype == MESSAGE_FROM_CLIENT then
      var idx := IndexOf(s.roster, from);
      if idx == -1 || |TalkLine(s.roster[idx].name, r.body.text)| > TEXT_SIZE then None
      else
        var line: Line := TalkLine(s.roster[idx].name, r.body.text);
        Some((s.(log := s.log + [Saying(from, line)]),
              r.(body := r.body.(text := Overlay(r.body.text, line)))))
    else if r.mtype == CLIENT_LEAVE then
      var idx := IndexOf(s.roster, from);
      if !RemovalInBounds(s.roster, idx) then None
      else
        Some((s.(roster := RemoveAt(s.roster, idx)),
              r.(body := r.body.(text := Overlay(r.body.text, FarewellLine(s.roster[idx].name))))))
    else Some((s, r))
  }

  // The same body to every entry, except the one the announcement skips.
  function ToAll(roster: seq<Entry>, body: Body, skip: Option<int>): seq<Message> {
    if roster == [] then []
    else (if skip == Some(roster[0].pid) then [] else [Envelope(roster[0].pid, body)]) +
         ToAll(roster[1..], body, skip)
  }

  // The shared message structure refilled with one roster entry or one line.
  function EntryBody(body: Body, e: Entry): Body {
    body.(text := Overlay(body.text, First19(e.name)), sender := e.pid)
  }

  function SayingBody(body: Body, x: Saying): Body {
    body.(text := Overlay(body.text, x.line), sender := x.sender)
  }

  // The newcomer is sent the whole roster; the text buffer is reused.
  function SendRoster(roster: seq<Entry>, body: Body, target: int): seq<Message> {
    if roster == [] then []
    else
      var b := EntryBody(body, roster[0]);
      [Envelope(target, b)] + SendRoster(roster[1..], b, target)
  }

  function BodyAfterRoster(roster: seq<Entry>, body: Body): Body {
    if roster == [] then body
    else BodyAfterRoster(roster[1..], EntryBody(body, roster[0]))
  }

  // The newcomer is sent the whole log.
  function SendLog(log: seq<Saying>, body: Body, target: int): seq<Message> {
    if log == [] then []
    else
      var b := SayingBody(body, log[0]);
      [Envelope(target, b)] + SendLog(log[1..], b, target)
  }

  // write_queue of the server: every message sent for one request, in order.
  function Outgoing(s: Server, r: Message): seq<Message> {
    if r.mtype == NEW_CLIENT then
      var from := r.body.sender;
      var body := r.body.(category := NEW_CLIENT);
      var skip := if |s.roster| > 1 then Some(from) else None;
      var roster := if |s.roster| > 1 then s.roster else [];
      ToAll(s.roster, body, skip) + SendRoster(roster, body, from) +
      SendLog(s.log, BodyAfterRoster(roster, body).(category := MESSAGE_FROM_CLIENT), from)
    else if r.mtype == MESSAGE_FROM_CLIENT then
      ToAll(s.roster, r.body.(category := MESSAGE_FROM_CLIENT), None)
    else if r.mtype == CLIENT_LEAVE then
      ToAll(s.roster, r.body.(category := MESSAGE_FROM_SERVER), None) +
      ToAll(s.roster, r.body.(category := CLIENT_LEAVE), None)
    else []
  }
}
