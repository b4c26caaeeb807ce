// What both subscriber directories mean: a sequence of records.
module Directory {
  import opened Wrappers

  datatype Record = Record(name: string, secondName: string, tel: string)

  // The records not called `name`, in order.
  function Without(rs: seq<Record>, name: string): (r: seq<Record>)
    ensures |r| <= |rs|
  {
    if rs == [] then []
    else (if rs[0].name == name then [] else [rs[0]]) + Without(rs[1..], name)
  }

  // The position of the first record called `name`, or the length if none is.
  function FirstMatch(rs: seq<Record>, name: string): (k: nat)
    ensures k <= |rs|
    ensures k < |rs| ==> rs[k].name == name
    ensures forall j :: 0 <= j < k ==> rs[j].name != name
  {
    if rs == [] || rs[0].name == name then 0 else 1 + FirstMatch(rs[1..], name)
  }

  lemma {:induction false} WithoutAppend(a: seq<Record>, b: seq<Record>, name: string)
    ensures Without(a + b, name) == Without(a, name) + Without(b, name)
  {
    if a == [] {
      assert a + b == b;
    } else {
      assert (a + b)[1..] == a[1..] + b;
      WithoutAppend(a[1..], b, name);
    }
  }

  // Nobody of that name is left and everybody else is left as often as before.
  lemma {:induction false} WithoutKeepsOthers(rs: seq<Record>, name: string, r: Record)
    ensures multiset(Without(rs, name))[r] == if r.name == name then 0 else multiset(rs)[r]
  {
    if rs != [] {
      WithoutKeepsOthers(rs[1..], name, r);
      assert rs == [rs[0]] + rs[1..];
      if rs[0].name != name {
        assert Without(rs, name) == [rs[0]] + Without(rs[1..], name);
      } else {
        assert Without(rs, name) == Without(rs[1..], name);
      }
    }
  }

  lemma {:induction false} WithoutNone(rs: seq<Record>, name: string)
    requires FirstMatch(rs, name) == |rs|
    ensures Without(rs, name) == rs
  {
    if rs != [] {
      assert rs[0].name != name;
      WithoutNone(rs[1..], name);
    }
  }

  // ----- operations

  datatype Operation = Insert(record: Record) | Delete(name: string) | Search(name: string)

  // One operation on a directory that holds at most `room` records.
  function Apply(rs: seq<Record>, op: Operation, room: nat): seq<Record> {
    match op
    case Insert(r) => if |rs| < room then rs + [r] else rs
    case Delete(name) => Without(rs, name)
    case Search(_) => rs
  }

  // The records after a run of operations on an empty directory.
  function ApplyAll(ops: seq<Operation>, room: nat): seq<Record> {
    if ops == [] then [] else Apply(ApplyAll(ops[..|ops| - 1], room), ops[|ops| - 1], room)
  }

  lemma RunNext(ops: seq<Operation>, k: nat, room: nat)
    requires k < |ops|
    ensures ApplyAll(ops[..k + 1], room) == Apply(ApplyAll(ops[..k], room), ops[k], room)
  {
    assert ops[..k + 1][..k] == ops[..k];
  }

  // x is where the first record of that name stands, or -1 if there is none.
  predicate Found(rs: seq<Record>, name: string, x: int) {
    if x == -1 then forall j :: 0 <= j < |rs| ==> rs[j].name != name
    else 0 <= x < |rs| && rs[x].name == name && forall j :: 0 <= j < x ==> rs[j].name != name
  }

  // A search is answered with where the name stands, nothing else is answered.
  predicate RightAnswer(rs: seq<Record>, op: Operation, answer: Option<int>) {
    if op.Search? then answer.Some? && Found(rs, op.name, answer.value) else answer == None
  }

  // Every search was answered over the records of its moment.
  predicate Answered(ops: seq<Operation>, answers: seq<Option<int>>, room: nat) {
    |answers| <= |ops| &&
    forall k :: 0 <= k < |answers| ==> RightAnswer(ApplyAll(ops[..k], room), ops[k], answers[k])
  }

  lemma AnsweredNext(ops: seq<Operation>, answers: seq<Option<int>>, room: nat, answer: Option<int>)
    requires Answered(ops, answers, room) && |answers| < |ops|
    requires RightAnswer(ApplyAll(ops[..|answers|], room), ops[|answers|], answer)
    ensures Answered(ops, answers + [answer], room)
  {
  }

  // Two right answers over the same records are the same.
  lemma SameAnswers(ops: seq<Operation>, one: seq<Option<int>>, other: seq<Option<int>>, room: nat, bigger: nat)
    requires Answered(ops, one, room) && Answered(ops, other, bigger) && |one| == |other| == |ops|
    requires forall n: nat :: n <= |ops| ==> ApplyAll(ops[..n], room) == ApplyAll(ops[..n], bigger)
    ensures one == other
  {
    forall k: nat | k < |ops| ensures one[k] == other[k] {
      assert ApplyAll(ops[..k], room) == ApplyAll(ops[..k], bigger);
      assert RightAnswer(ApplyAll(ops[..k], room), ops[k], one[k]);
      assert RightAnswer(ApplyAll(ops[..k], bigger), ops[k], other[k]);
    }
  }
}
