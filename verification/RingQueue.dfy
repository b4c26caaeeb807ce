// The ring buffer of Sockets/Task_2/Producer_Consumer/server.c.
module RingQueue {
  import opened Wrappers

  const MAX_QUEUE := 20

  // What enqueue does to the waiting connections; None when it refuses.
  function Enqueued<T>(q: seq<T>, x: T): Option<seq<T>> {
    if |q| >= MAX_QUEUE then None else Some(q + [x])
  }

  // What dequeue takes and what it leaves.
  function Dequeued<T>(q: seq<T>): (T, seq<T>)
    requires q != []
  {
    (q[0], q[1..])
  }

  // The stretch of n cells that starts at `front` and may wrap around.
  function Stretch(a: seq<int>, front: nat, n: nat): (r: seq<int>)
    requires |a| == MAX_QUEUE && n <= MAX_QUEUE
    ensures |r| == n
    ensures forall i :: 0 <= i < n ==> r[i] == a[(front + i) % MAX_QUEUE]
  {
    seq(n, i requires 0 <= i < n => a[(front + i) % MAX_QUEUE])
  }

  lemma StretchGrows(a: seq<int>, front: nat, n: nat, x: int)
    requires |a| == MAX_QUEUE && front < MAX_QUEUE && n < MAX_QUEUE
    ensures Stretch(a[(front + n) % MAX_QUEUE := x], front, n + 1) == Stretch(a, front, n) + [x]
  {
  }

  lemma StretchShrinks(a: seq<int>, front: nat, n: nat)
    requires |a| == MAX_QUEUE && front < MAX_QUEUE && 0 < n <= MAX_QUEUE
    ensures Stretch(a, front, n)[0] == a[front]
    ensures Stretch(a, (front + 1) % MAX_QUEUE, n - 1) == Stretch(a, front, n)[1..]
  {
    var after, rest := Stretch(a, (front + 1) % MAX_QUEUE, n - 1), Stretch(a, front, n)[1..];
    forall i | 0 <= i < |after| ensures after[i] == rest[i] {
      assert ((front + 1) % MAX_QUEUE + i) % MAX_QUEUE == (front + (i + 1)) % MAX_QUEUE;
    }
  }

  // The globals queue, front, back and count.
  class Ring {
    const queue: array<int>
    var front: nat
    var back: nat
    var count: nat

    ghost predicate Valid()
      reads this
    {
      queue.Length == MAX_QUEUE && front < MAX_QUEUE && count <= MAX_QUEUE &&
      back == (front + count) % MAX_QUEUE
    }

    ghost function Contents(): seq<int>
      requires Valid()
      reads this, queue
    {
      Stretch(queue[..], front, count)
    }

    constructor ()
      ensures Valid() && fresh(queue) && Contents() == []
    {
      queue := new int[MAX_QUEUE](_ => 0);
      front, back, count := 0, 0, 0;
    }

    // The body of enqueue between taking and releasing the mutex.
    method Enqueue(clientFd: int) returns (code: int)
      requires Valid()
      modifies this, queue
      ensures Valid()
      ensures code == 1 <==> |old(Contents())| == 20
      ensures code == 1 ==> Contents() == old(Contents())
      ensures code != 1 ==> code == 0 && Contents() == old(Contents()) + [clientFd]
      ensures code == 0 <==> Enqueued(old(Contents()), clientFd).Some?
    {
      if count >= MAX_QUEUE {
        return 1;
      }
      StretchGrows(queue[..], front, count, clientFd);
      queue[back] := clientFd;
      back := (back + 1) % MAX_QUEUE;
      count := count + 1;
      assert Contents() == old(Contents()) + [clientFd];
      return 0;
    }

    method Dequeue() returns (clientFd: int)
      requires Valid() && Contents() != []
      modifies this
      ensures Valid()
      ensures old(Contents()) == [clientFd] + Contents()
      ensures (clientFd, Contents()) == Dequeued(old(Contents()))
    {
      StretchShrinks(queue[..], front, count);
      clientFd := queue[front];
      front := (front + 1) % MAX_QUEUE;
      count := count - 1;
      assert Contents() == old(Contents())[1..];
    }
  }
}
