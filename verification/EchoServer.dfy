// The client table of Final_Task1/echo_server.c against the history of packets.
module EchoServer {
  import opened Wrappers

  const MAX_CLIENTS := 100
  const CLOSE := "CLOSE"

  datatype Key = Key(ip: int, port: int)
  datatype Packet = Packet(key: Key, text: string)
  datatype ClientInfo = ClientInfo(key: Key, counter: int)

  // ----- what the counter should be

  // The messages of a client since its last CLOSE.
  function Since(h: seq<Packet>, k: Key): nat {
    if h == [] then 0
    else
      var p := h[|h| - 1];
      if p.key != k then Since(h[..|h| - 1], k)
      else if p.text == CLOSE then 0
      else Since(h[..|h| - 1], k) + 1
  }

  function From(h: seq<Packet>, k: Key): nat {
    if h == [] then 0 else From(h[..|h| - 1], k) + if h[|h| - 1].key == k then 1 else 0
  }

  // Since, spelled out: after the last CLOSE of k, if any, come exactly that
  // many packets of k and no further CLOSE.
  lemma {:induction false} SinceMeans(h: seq<Packet>, k: Key) returns (cut: nat)
    ensures cut <= |h| && Since(h, k) == From(h[cut..], k)
    ensures cut == 0 || h[cut - 1] == Packet(k, CLOSE)
    ensures forall i :: cut <= i < |h| ==> h[i] != Packet(k, CLOSE)
  {
    if h == [] {
      cut := 0;
    } else if h[|h| - 1] == Packet(k, CLOSE) {
      cut := |h|;
      assert h[cut..] == [];
    } else {
      cut := SinceMeans(h[..|h| - 1], k);
      assert h[cut..][..|h| - cut - 1] == h[..|h| - 1][cut..];
    }
  }

  // ----- tables

  function Find(t: seq<ClientInfo>, k: Key): (r: int)
    ensures -1 <= r < |t|
    ensures r >= 0 ==> t[r].key == k && forall j :: 0 <= j < r ==> t[j].key != k
    ensures r == -1 ==> forall j :: 0 <= j < |t| ==> t[j].key != k
  {
    if t == [] then -1
    else if t[0].key == k then 0
    else var r := Find(t[1..], k);
         if r == -1 then
           assert forall j :: 0 < j < |t| ==> t[j] == t[1..][j - 1];
           -1
         else r + 1
  }

  predicate DistinctKeys(t: seq<ClientInfo>) {
    forall i, j :: 0 <= i < j < |t| ==> t[i].key != t[j].key
  }

  function CounterOf(t: seq<ClientInfo>, k: Key): int {
    if Find(t, k) >= 0 then t[Find(t, k)].counter else 0
  }

  // The table holds exactly the clients with messages since their last CLOSE,
  // each with the number of those messages.
  ghost predicate Refines(t: seq<ClientInfo>, h: seq<Packet>) {
    DistinctKeys(t) && forall k: Key :: CounterOf(t, k) == Since(h, k) && (Find(t, k) >= 0 <==> Since(h, k) > 0)
  }

  lemma FindDistinct(t: seq<ClientInfo>, i: nat)
    requires DistinctKeys(t) && i < |t|
    ensures Find(t, t[i].key) == i
  {
  }

  lemma AfterRemoval(t: seq<ClientInfo>, i: nat, k: Key)
    requires DistinctKeys(t) && i < |t|
    ensures var u := t[..i] + t[i + 1..];
            DistinctKeys(u) && CounterOf(u, k) == (if k == t[i].key then 0 else CounterOf(t, k)) &&
            (Find(u, k) >= 0 <==> k != t[i].key && Find(t, k) >= 0)
  {
    var u := t[..i] + t[i + 1..];
    assert forall j :: 0 <= j < |u| ==> u[j] == if j < i then t[j] else t[j + 1];
    var f := Find(t, k);
    if f >= 0 && f != i {
      assert u[if f < i then f else f - 1] == t[f];
      FindDistinct(u, if f < i then f else f - 1);
    }
  }

  lemma AfterUpdate(t: seq<ClientInfo>, i: nat, c: int, k: Key)
    requires DistinctKeys(t) && i < |t|
    ensures var u := t[i := ClientInfo(t[i].key, c)];
            DistinctKeys(u) && CounterOf(u, k) == (if k == t[i].key then c else CounterOf(t, k)) &&
            Find(u, k) == Find(t, k)
  {
    var u := t[i := ClientInfo(t[i].key, c)];
    assert forall j :: 0 <= j < |u| ==> u[j].key == t[j].key;
    FindDistinct(t, i);
  }

  lemma AfterAddition(t: seq<ClientInfo>, info: ClientInfo, k: Key)
    requires DistinctKeys(t) && Find(t, info.key) == -1
    ensures var u := t + [info];
            DistinctKeys(u) && CounterOf(u, k) == (if k == info.key then info.counter else CounterOf(t, k)) &&
            (Find(u, k) >= 0 <==> k == info.key || Find(t, k) >= 0)
  {
    var u := t + [info];
    assert u[|t|] == info;
    assert forall j :: 0 <= j < |t| ==> u[j] == t[j];
    if Find(t, k) >= 0 {
      FindDistinct(u, Find(t, k));
    } else if k == info.key {
      FindDistinct(u, |t|);
    }
  }

  // ----- how many clients are active

  function Active(h: seq<Packet>): set<Key> {
    set i | 0 <= i < |h| && Since(h, h[i].key) > 0 :: h[i].key
  }

  lemma {:induction false} SinceNeedsPacket(h: seq<Packet>, k: Key)
    requires Since(h, k) > 0
    ensures k in Active(h)
  {
    var i := PacketOf(h, k);
    assert h[i].key == k;
  }

  lemma {:induction false} PacketOf(h: seq<Packet>, k: Key) returns (i: nat)
    requires Since(h, k) > 0
    ensures i < |h| && h[i].key == k
  {
    if h[|h| - 1].key == k {
      i := |h| - 1;
    } else {
      i := PacketOf(h[..|h| - 1], k);
    }
  }

  function Keys(t: seq<ClientInfo>): set<Key> {
    if t == [] then {} else Keys(t[..|t| - 1]) + {t[|t| - 1].key}
  }

  lemma {:induction false} KeysOf(t: seq<ClientInfo>, k: Key)
    ensures k in Keys(t) <==> Find(t, k) >= 0
  {
    if t != [] {
      var u := t[..|t| - 1];
      KeysOf(u, k);
      if Find(t, k) >= 0 {
        assert Find(t, k) == |t| - 1 || u[Find(t, k)].key == k;
      }
      if Find(u, k) >= 0 {
        assert t[Find(u, k)].key == k;
      }
    }
  }

  lemma {:induction false} KeysCount(t: seq<ClientInfo>)
    requires DistinctKeys(t)
    ensures |Keys(t)| == |t|
  {
    if t != [] {
      KeysCount(t[..|t| - 1]);
      KeysOf(t[..|t| - 1], t[|t| - 1].key);
    }
  }

  // A table that refines the history has one entry per active client.
  lemma TableSize(t: seq<ClientInfo>, h: seq<Packet>)
    requires Refines(t, h)
    ensures |t| == |Active(h)|
  {
    KeysCount(t);
    forall k: Key ensures k in Keys(t) <==> k in Active(h) {
      KeysOf(t, k);
      if Since(h, k) > 0 {
        SinceNeedsPacket(h, k);
      }
    }
    assert Keys(t) == Active(h);
  }

  lemma SinceSnoc(h: seq<Packet>, p: Packet, k: Key)
    ensures Since(h + [p], k) ==
            if p.key != k then Since(h, k) else if p.text == CLOSE then 0 else Since(h, k) + 1
  {
    assert (h + [p])[..|h|] == h;
  }

  // The table after a CLOSE and after a message of client k.
  function Dropped(t: seq<ClientInfo>, k: Key): seq<ClientInfo> {
    var i := Find(t, k);
    if i == -1 then t else t[..i] + t[i + 1..]
  }

  function Counted(t: seq<ClientInfo>, k: Key): seq<ClientInfo> {
    var i := Find(t, k);
    if i == -1 then t + [ClientInfo(k, 1)] else t[i := ClientInfo(k, t[i].counter + 1)]
  }

  // Removing one client leaves every other counter alone.
  lemma CloseRefines(t: seq<ClientInfo>, h: seq<Packet>, k: Key)
    requires Refines(t, h)
    ensures Refines(Dropped(t, k), h + [Packet(k, CLOSE)])
  {
    forall q: Key
      ensures DistinctKeys(Dropped(t, k)) && CounterOf(Dropped(t, k), q) == Since(h + [Packet(k, CLOSE)], q)
      ensures Find(Dropped(t, k), q) >= 0 <==> Since(h + [Packet(k, CLOSE)], q) > 0
    {
      SinceSnoc(h, Packet(k, CLOSE), q);
      if Find(t, k) != -1 {
        AfterRemoval(t, Find(t, k), q);
      }
    }
  }

  lemma EchoRefines(t: seq<ClientInfo>, h: seq<Packet>, k: Key, text: string)
    requires Refines(t, h) && text != CLOSE
    ensures Refines(Counted(t, k), h + [Packet(k, text)])
    ensures CounterOf(Counted(t, k), k) == Since(h, k) + 1
  {
    forall q: Key
      ensures DistinctKeys(Counted(t, k)) && CounterOf(Counted(t, k), q) == Since(h + [Packet(k, text)], q)
      ensures Find(Counted(t, k), q) >= 0 <==> Since(h + [Packet(k, text)], q) > 0
    {
      SinceSnoc(h, Packet(k, text), q);
      if Find(t, k) == -1 {
        AfterAddition(t, ClientInfo(k, 1), q);
      } else {
        AfterUpdate(t, Find(t, k), t[Find(t, k)].counter + 1, q);
      }
    }
  }

  // ----- the program

  class Server {
    const clients: array<ClientInfo>
    var clientCount: nat

    ghost predicate Shape()
      reads this`clientCount
    {
      clients.Length == MAX_CLIENTS && clientCount <= MAX_CLIENTS
    }

    ghost function Table(): seq<ClientInfo>
      requires Shape()
      reads this`clientCount, clients
    {
      clients[..clientCount]
    }

    constructor ()
      ensures Shape() && fresh(clients) && Refines(Table(), [])
    {
      clients := new ClientInfo[MAX_CLIENTS](_ => ClientInfo(Key(0, 0), 0));
      clientCount := 0;
    }

    method FindClient(k: Key) returns (r: int)
      requires Shape()
      ensures r == Find(Table(), k)
    {
      var i := 0;
      while i < clientCount
        invariant i <= clientCount
        invariant Find(Table(), k) == var r := Find(Table()[i..], k); if r == -1 then -1 else i + r
      {
        if clients[i].key == k {
          return i;
        }
        assert Table()[i..][1..] == Table()[i + 1..];
        i := i + 1;
      }
      return -1;
    }

    method AddClient(k: Key) returns (r: nat)
      requires Shape() && clientCount < MAX_CLIENTS
      modifies this`clientCount, clients
      ensures Shape() && Table() == old(Table()) + [ClientInfo(k, 0)] && r == clientCount - 1
    {
      clients[clientCount] := ClientInfo(k, 0);
      clientCount := clientCount + 1;
      return clientCount - 1;
    }

    // Lines 102-106.
    method RemoveClient(idx: nat)
      requires Shape() && idx < clientCount
      modifies this`clientCount, clients
      ensures Shape() && Table() == old(Table())[..idx] + old(Table())[idx + 1..]
    {
      ghost var t := Table();
      var i := idx;
      while i < clientCount - 1
        invariant clientCount == old(clientCount) && idx <= i <= clientCount - 1
        invariant forall j :: 0 <= j < clientCount ==> clients[j] == t[if idx <= j < i then j + 1 else j]
      {
        clients[i] := clients[i + 1];
        i := i + 1;
      }
      clientCount := clientCount - 1;
      assert forall j :: 0 <= j < clientCount ==> Table()[j] == (t[..idx] + t[idx + 1..])[j];
    }

    // The CLOSE branch.
    method Close(k: Key, ghost h: seq<Packet>)
      requires Shape() && Refines(Table(), h)
      modifies this`clientCount, clients
      ensures Shape() && Refines(Table(), h + [Packet(k, CLOSE)])
    {
      ghost var t := Table();
      var idx := FindClient(k);
      if idx != -1 {
        RemoveClient(idx);
      }
      CloseRefines(t, h, k);
    }

    // The echo branch: the counter put into the reply.
    method Echo(k: Key, text: string, ghost h: seq<Packet>) returns (counter: int)
      requires Shape() && Refines(Table(), h) && text != CLOSE
      requires clientCount < MAX_CLIENTS || Find(Table(), k) >= 0
      modifies this`clientCount, clients
      ensures Shape() && Refines(Table(), h + [Packet(k, text)])
      ensures counter == Since(h, k) + 1
    {
      ghost var t := Table();
      var idx := FindClient(k);
      if idx == -1 {
        idx := AddClient(k);
      }
      EchoRefines(t, h, k, text);
      clients[idx] := clients[idx].(counter := clients[idx].counter + 1);
      counter := clients[idx].counter;
      assert Table() == Counted(t, k);
    }

    // One packet: a CLOSE gets no reply, a message gets its counter.
    method HandlePacket(p: Packet, ghost h: seq<Packet>) returns (reply: Option<int>)
      requires Shape() && Refines(Table(), h) && |Active(h + [p])| <= MAX_CLIENTS
      modifies this`clientCount, clients
      ensures Shape() && Refines(Table(), h + [p])
      ensures RightReply(h, p, reply)
    {
      if p.text == CLOSE {
        Close(p.key, h);
        reply := None;
      } else {
        RoomForIff(Table(), h, p);
        var counter := Echo(p.key, p.text, h);
        reply := Some(counter);
      }
    }

    // One round of the main loop.
    method ServeOne(packets: seq<Packet>, n: nat) returns (reply: Option<int>)
      requires n < |packets| && Shape() && Refines(Table(), packets[..n]) && |Active(packets[..n + 1])| <= 100
      modifies this`clientCount, clients
      ensures Shape() && Refines(Table(), packets[..n + 1]) && RightReply(packets[..n], packets[n], reply)
    {
      assert packets[..n + 1] == packets[..n] + [packets[n]];
      reply := HandlePacket(packets[n], packets[..n]);
    }

    // The main loop on a finite run of packets with at most 100 clients active
    // at any time.
    method Serve(packets: seq<Packet>) returns (replies: seq<Option<int>>)
      requires Shape() && Refines(Table(), [])
      requires AtMostActive(packets, 100)
      modifies this`clientCount, clients
      ensures |replies| == |packets| && Answered(packets, replies)
      ensures Shape() && Refines(Table(), packets)
    {
      replies := [];
      for n := 0 to |packets|
        invariant Shape() && Refines(Table(), packets[..n]) && |replies| == n && Answered(packets, replies)
      {
        AtMostActiveAt(packets, 100, n + 1);
        var reply := ServeOne(packets, n);
        AnsweredNext(packets, replies, reply);
        replies := replies + [reply];
      }
      assert packets[..|packets|] == packets;
    }
  }

  // At no time are more clients active.
  ghost predicate AtMostActive(packets: seq<Packet>, limit: nat) {
    forall n :: 0 <= n <= |packets| ==> |Active(packets[..n])| <= limit
  }

  lemma AtMostActiveAt(packets: seq<Packet>, limit: nat, n: nat)
    requires AtMostActive(packets, limit) && n <= |packets|
    ensures |Active(packets[..n])| <= limit
  {
  }

  // The counter in a reply is one plus the earlier messages of the same client
  // since its last CLOSE, and a CLOSE has no reply.
  predicate RightReply(h: seq<Packet>, p: Packet, reply: Option<int>) {
    reply == if p.text == "CLOSE" then None else Some(1 + Since(h, p.key))
  }

  predicate Answered(packets: seq<Packet>, replies: seq<Option<int>>) {
    |replies| <= |packets| && forall n :: 0 <= n < |replies| ==> RightReply(packets[..n], packets[n], replies[n])
  }

  lemma AnsweredNext(packets: seq<Packet>, replies: seq<Option<int>>, reply: Option<int>)
    requires Answered(packets, replies) && |replies| < |packets|
    requires RightReply(packets[..|replies|], packets[|replies|], reply)
    ensures Answered(packets, replies + [reply])
  {
  }

  // A message finds its client or a free entry exactly when at most 100 clients
  // are active with it.
  lemma RoomForIff(t: seq<ClientInfo>, h: seq<Packet>, p: Packet)
    requires Refines(t, h) && p.text != CLOSE && |t| <= 100
    ensures |t| < 100 || Find(t, p.key) >= 0 <==> |Active(h + [p])| <= 100
  {
    EchoRefines(t, h, p.key, p.text);
    TableSize(Counted(t, p.key), h + [p]);
  }
}
