// A System V message queue: one sequence of messages, from which a receiver
// takes the first message of its own type.  The queue keyed by a process id is
// how both the chat and the taxi programs address one process.
module MessageQueue {

  datatype Envelope<B> = Envelope(mtype: int, body: B)

  // What a receiver of type t will read, in order.
  function Mailbox<B>(q: seq<Envelope<B>>, t: int): (r: seq<B>)
    ensures |r| <= |q|
  {
    if q == [] then []
    else if q[0].mtype == t then [q[0].body] + Mailbox(q[1..], t)
    else Mailbox(q[1..], t)
  }

  // Where msgrcv finds the message it takes.
  function FirstOf<B>(q: seq<Envelope<B>>, t: int): (k: nat)
    requires Mailbox(q, t) != []
    ensures k < |q| && q[k].mtype == t
    ensures forall j :: 0 <= j < k ==> q[j].mtype != t
  {
    if q[0].mtype == t then 0 else 1 + FirstOf(q[1..], t)
  }

  function Receive<B>(q: seq<Envelope<B>>, t: int): (r: seq<Envelope<B>>)
    requires Mailbox(q, t) != []
  {
    q[..FirstOf(q, t)] + q[FirstOf(q, t) + 1..]
  }

  lemma {:induction false} MailboxAppend<B>(p: seq<Envelope<B>>, q: seq<Envelope<B>>, t: int)
    ensures Mailbox(p + q, t) == Mailbox(p, t) + Mailbox(q, t)
  {
    if p == [] {
      assert p + q == q;
    } else {
      assert (p + q)[1..] == p[1..] + q;
      MailboxAppend(p[1..], q, t);
    }
  }

  // Receiving takes the head of one mailbox and leaves every other one alone.
  lemma {:induction false} ReceiveTakesHead<B>(q: seq<Envelope<B>>, t: int, u: int)
    requires Mailbox(q, t) != []
    ensures q[FirstOf(q, t)].body == Mailbox(q, t)[0]
    ensures Mailbox(Receive(q, t), u) == if u == t then Mailbox(q, t)[1..] else Mailbox(q, u)
  {
    if q[0].mtype == t {
      assert Receive(q, t) == q[1..];
    } else {
      assert q[1..][..FirstOf(q[1..], t)] == q[1..FirstOf(q, t)];
      assert Receive(q, t) == [q[0]] + Receive(q[1..], t);
      assert Receive(q, t)[1..] == Receive(q[1..], t);
      ReceiveTakesHead(q[1..], t, u);
    }
  }

  // Moving the oldest unsent message into the queue changes no mailbox of the whole.
  lemma MailboxHandOver<B>(q: seq<Envelope<B>>, pending: seq<Envelope<B>>, t: int)
    requires pending != []
    ensures Mailbox((q + [pending[0]]) + pending[1..], t) == Mailbox(q + pending, t)
  {
    assert (q + [pending[0]]) + pending[1..] == q + pending;
  }
}
