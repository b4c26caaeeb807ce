// Both subscriber directories driven by the same operations.
module DirectoryAgreement {
  import opened Directory
  import opened Wrappers
  import DirectoryList
  import DirectoryArray

  // The list refuses an insertion above 100 records, the array has 100 slots.
  const LIST_ROOM := 101
  const TABLE_ROOM := DirectoryArray.MAX_LEN

  // Every inserted record has full fields of at most nine characters.
  predicate Storable(op: Operation) {
    op.Insert? ==> DirectoryArray.Fits(op.record)
  }

  ghost predicate Table(table: array<Record>, rs: seq<Record>)
    reads table
  {
    table.Length == DirectoryArray.MAX_LEN && DirectoryArray.Valid(table[..]) &&
    DirectoryArray.Contents(table[..]) == rs
  }

  // One operation on the list; where a search found its name, counted from 0.
  method ListStep(list: DirectoryList.Abonent, op: Operation) returns (answer: Option<int>)
    requires list.Valid()
    modifies list, list.made
    ensures list.Valid() && list.Contents() == Apply(old(list.Contents()), op, LIST_ROOM)
    ensures RightAnswer(old(list.Contents()), op, answer)
    ensures old(list.made) <= list.made && fresh(list.made - old(list.made))
  {
    answer := None;
    match op
    case Insert(r) => var code := list.InsertAbonent(r);
    case Delete(name) => var code := list.DeleteAbonent(name);
    case Search(name) =>
      var index := list.Search(name);
      answer := Some(if index > list.size then -1 else index - 1);
  }

  // One operation on the array, and what then stands behind it.
  method TableStep(table: array<Record>, behind: Record, op: Operation, ghost rs: seq<Record>)
    returns (answer: Option<int>, behind': Record)
    requires Table(table, rs) && Storable(op)
    modifies table
    ensures Table(table, Apply(rs, op, TABLE_ROOM))
    ensures RightAnswer(rs, op, answer)
    ensures behind' == if op.Insert? && |rs| == TABLE_ROOM then op.record else behind
  {
    answer, behind' := None, behind;
    ghost var was := table[..];
    match op
    case Insert(r) =>
      if DirectoryArray.FreeIndex(was) < TABLE_ROOM {
        DirectoryArray.InsertExtends(was, r);
      }
      var code;
      code, behind' := DirectoryArray.InsertAbonent(table, behind, r);
    case Delete(name) =>
      DirectoryArray.DeleteShrinks(was, name);
      var code := DirectoryArray.DeleteAbonent(table, behind, name);
    case Search(name) =>
      var x := DirectoryArray.Search(table, behind, name);
      assert forall j :: 0 <= j < |rs| ==> rs[j] == table[j];
      answer := Some(x);
  }

  // Operation k of a run on both, each of them where the first k led.
  method StepBoth(ops: seq<Operation>, k: nat, list: DirectoryList.Abonent, table: array<Record>, behind: Record)
    returns (inList: Option<int>, inTable: Option<int>, behind': Record)
    requires k < |ops| && Storable(ops[k])
    requires list.Valid() && list.Contents() == ApplyAll(ops[..k], LIST_ROOM)
    requires Table(table, ApplyAll(ops[..k], TABLE_ROOM))
    modifies list, list.made, table
    ensures list.Valid() && list.Contents() == ApplyAll(ops[..k + 1], LIST_ROOM)
    ensures Table(table, ApplyAll(ops[..k + 1], TABLE_ROOM))
    ensures RightAnswer(ApplyAll(ops[..k], LIST_ROOM), ops[k], inList)
    ensures RightAnswer(ApplyAll(ops[..k], TABLE_ROOM), ops[k], inTable)
    ensures old(list.made) <= list.made && fresh(list.made - old(list.made))
  {
    RunNext(ops, k, LIST_ROOM);
    RunNext(ops, k, TABLE_ROOM);
    inList := ListStep(list, ops[k]);
    inTable, behind' := TableStep(table, behind, ops[k], ApplyAll(ops[..k], TABLE_ROOM));
  }

  // For every run of operations on empty directories the list is the directory
  // with room for 101 records and the array the one with room for 100; their
  // searches answer rightly over the records of the moment, and alike unless an
  // operation inserts into a full table.
  method RunBoth(ops: seq<Operation>, memory: Record)
    returns (list: DirectoryList.Abonent, table: array<Record>,
             inList: seq<Option<int>>, inTable: seq<Option<int>>)
    requires forall k :: 0 <= k < |ops| ==> Storable(ops[k])
    ensures list.Valid() && list.Contents() == ApplyAll(ops, LIST_ROOM)
    ensures Table(table, ApplyAll(ops, TABLE_ROOM))
    ensures |inList| == |ops| && Answered(ops, inList, LIST_ROOM)
    ensures |inTable| == |ops| && Answered(ops, inTable, TABLE_ROOM)
    ensures (forall k: nat :: !Overfills(ops, k)) ==> inList == inTable
  {
    list := new DirectoryList.Abonent();
    table := new Record[DirectoryArray.MAX_LEN](_ => DirectoryArray.BLANK);
    inList, inTable := [], [];
    assert !DirectoryArray.Complete(table[0]);
    DirectoryArray.FreeIndexIs(table[..], 0);
    var behind := memory;
    for k := 0 to |ops|
      invariant fresh(list) && fresh(list.made) && fresh(table)
      invariant list.Valid() && list.Contents() == ApplyAll(ops[..k], LIST_ROOM)
      invariant Table(table, ApplyAll(ops[..k], TABLE_ROOM))
      invariant |inList| == |inTable| == k && Answered(ops, inList, LIST_ROOM) && Answered(ops, inTable, TABLE_ROOM)
    {
      var x, y;
      x, y, behind := StepBoth(ops, k, list, table, behind);
      AnsweredNext(ops, inList, LIST_ROOM, x);
      AnsweredNext(ops, inTable, TABLE_ROOM, y);
      inList := inList + [x];
      inTable := inTable + [y];
    }
    assert ops[..|ops|] == ops;
    AnswersAgree(ops, inList, inTable);
  }

  // ----- when the two agree

  // Operation k inserts into a full table.
  predicate Overfills(ops: seq<Operation>, k: nat) {
    k < |ops| && ops[k].Insert? && |ApplyAll(ops[..k], TABLE_ROOM)| >= TABLE_ROOM
  }

  lemma {:induction false} RoomBound(ops: seq<Operation>, room: nat)
    ensures |ApplyAll(ops, room)| <= room
  {
    if ops != [] {
      RoomBound(ops[..|ops| - 1], room);
    }
  }

  lemma {:induction false} AgreeUpTo(ops: seq<Operation>, n: nat)
    requires n <= |ops| && forall k: nat :: k < n ==> !Overfills(ops, k)
    ensures ApplyAll(ops[..n], LIST_ROOM) == ApplyAll(ops[..n], TABLE_ROOM)
  {
    if n > 0 {
      AgreeUpTo(ops, n - 1);
      RunNext(ops, n - 1, LIST_ROOM);
      RunNext(ops, n - 1, TABLE_ROOM);
      assert !Overfills(ops, n - 1);
    }
  }

  lemma OverfillingDiffers(ops: seq<Operation>, k: nat)
    requires Overfills(ops, k) && ApplyAll(ops[..k], LIST_ROOM) == ApplyAll(ops[..k], TABLE_ROOM)
    ensures ApplyAll(ops[..k + 1], LIST_ROOM) != ApplyAll(ops[..k + 1], TABLE_ROOM)
  {
    RoomBound(ops[..k], TABLE_ROOM);
    RunNext(ops, k, LIST_ROOM);
    RunNext(ops, k, TABLE_ROOM);
  }

  // List and array hold the same records all through a run exactly when no
  // operation of the run inserts into a full table.
  lemma AgreeIff(ops: seq<Operation>)
    ensures (forall n: nat :: n <= |ops| ==> ApplyAll(ops[..n], LIST_ROOM) == ApplyAll(ops[..n], TABLE_ROOM)) <==>
            (forall k: nat :: !Overfills(ops, k))
  {
    if k: nat :| Overfills(ops, k) {
      if ApplyAll(ops[..k], LIST_ROOM) == ApplyAll(ops[..k], TABLE_ROOM) {
        OverfillingDiffers(ops, k);
      }
    } else {
      forall n: nat | n <= |ops| ensures ApplyAll(ops[..n], LIST_ROOM) == ApplyAll(ops[..n], TABLE_ROOM) {
        AgreeUpTo(ops, n);
      }
    }
  }

  lemma AnswersAgree(ops: seq<Operation>, inList: seq<Option<int>>, inTable: seq<Option<int>>)
    requires |inList| == |inTable| == |ops|
    requires Answered(ops, inList, LIST_ROOM) && Answered(ops, inTable, TABLE_ROOM)
    ensures (forall k: nat :: !Overfills(ops, k)) ==> inList == inTable
  {
    AgreeIff(ops);
    if forall k: nat :: !Overfills(ops, k) {
      SameAnswers(ops, inList, inTable, LIST_ROOM, TABLE_ROOM);
    }
  }
}
