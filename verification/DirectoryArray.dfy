// The array directory of Subscriber_directory/lib/lib.c: a prefix of complete
// records, compacted in place after a deletion.
module DirectoryArray {
  import opened CStrings
  import opened Directory

  const MAX_LEN := 100
  const BLANK := Record("", "", "")

  predicate Filled(s: string) {
    s != "" && s[0] != '\0'
  }

  predicate Complete(r: Record) {
    Filled(r.name) && Filled(r.secondName) && Filled(r.tel)
  }

  // ----- one record in memory

  const FIELD := 10

  predicate Plain(r: Record) {
    '\0' !in r.name && '\0' !in r.secondName && '\0' !in r.tel
  }

  // insert: each field copied by strncpy(.., 10).
  function Cell(r: Record): (c: seq<char>)
    ensures |c| == 3 * FIELD
  {
    Copied(r.name, FIELD) + Copied(r.secondName, FIELD) + Copied(r.tel, FIELD)
  }

  // The three strings that strcmp and printf find in a cell and behind it.
  function RecordIn(memory: seq<char>): Record
    requires |memory| >= 3 * FIELD
  {
    Record(CString(memory), CString(memory[FIELD..]), CString(memory[2 * FIELD..]))
  }

  // No more than `limit` characters in any field.
  predicate FieldsUpTo(r: Record, limit: nat) {
    |r.name| <= limit && |r.secondName| <= limit && |r.tel| <= limit
  }

  lemma CopiedFilled(src: string, behind: seq<char>)
    requires Filled(src)
    ensures var field := Copied(src, FIELD) + behind; field != [] && field[0] != '\0'
  {
  }

  // A complete record within the ten characters of the menu reads back unchanged
  // exactly when name and second name have at most nine and the telephone number
  // too, or a NUL stands behind the cell.
  lemma CellReadsBackIff(r: Record, behind: seq<char>)
    requires Complete(r) && Plain(r) && FieldsUpTo(r, 10)
    ensures RecordIn(Cell(r) + behind) == r <==>
            |r.name| <= 9 && |r.secondName| <= 9 && (|r.tel| <= 9 || behind == [] || behind[0] == '\0')
  {
    var cell := Cell(r) + behind;
    var tel := Copied(r.tel, FIELD) + behind;
    var second := Copied(r.secondName, FIELD) + tel;
    assert cell[2 * FIELD..] == tel;
    assert cell[FIELD..] == second;
    assert cell == Copied(r.name, FIELD) + second;
    CopiedReadsBackIff(r.name, FIELD, second);
    CopiedReadsBackIff(r.secondName, FIELD, tel);
    CopiedReadsBackIff(r.tel, FIELD, behind);
    CopiedFilled(r.secondName, tel);
    CopiedFilled(r.tel, behind);
  }

  // A record that reads back whatever stands behind its cell.
  predicate Fits(r: Record) {
    Complete(r) && Plain(r) && FieldsUpTo(r, 9)
  }

  lemma FitsReadsBack(r: Record, behind: seq<char>)
    requires Fits(r)
    ensures RecordIn(Cell(r) + behind) == r
  {
    CellReadsBackIff(r, behind);
  }

  lemma FitsIff(r: Record)
    requires Complete(r) && Plain(r) && FieldsUpTo(r, 10)
    ensures Fits(r) <==> forall behind: seq<char> :: RecordIn(Cell(r) + behind) == r
  {
    if Fits(r) {
      forall behind: seq<char> ensures RecordIn(Cell(r) + behind) == r {
        FitsReadsBack(r, behind);
      }
    } else {
      CellReadsBackIff(r, ['-']);
      assert RecordIn(Cell(r) + ['-']) != r;
    }
  }

  // ----- the free slot

  // Where find_free_index stops; at the length only if every record is complete.
  function FreeIndex(rs: seq<Record>): (k: nat)
    ensures k <= |rs| && (k < |rs| ==> !Complete(rs[k]))
    ensures forall j :: 0 <= j < k ==> Complete(rs[j])
  {
    if rs == [] || !Complete(rs[0]) then 0 else 1 + FreeIndex(rs[1..])
  }

  lemma FreeIndexIs(rs: seq<Record>, k: nat)
    requires k < |rs| && !Complete(rs[k]) && forall j :: 0 <= j < k ==> Complete(rs[j])
    ensures FreeIndex(rs) == k
  {
  }

  // The cells the search for the free slot reads from cell i on: it tests a record
  // before it tests the bound.
  function CellsRead(rs: seq<Record>, i: nat): set<nat>
    requires i <= |rs|
    decreases |rs| - i
  {
    {i} + if i < |rs| && Complete(rs[i]) then CellsRead(rs, i + 1) else {}
  }

  lemma {:induction false} CellsReadRange(rs: seq<Record>, i: nat, k: nat)
    requires i <= FreeIndex(rs)
    ensures k in CellsRead(rs, i) <==> i <= k <= FreeIndex(rs)
    decreases |rs| - i
  {
    if i < |rs| && Complete(rs[i]) {
      CellsReadRange(rs, i + 1, k);
    }
  }

  // The search stays inside the table exactly when a slot is free.
  lemma ReadsInsideIff(rs: seq<Record>)
    requires |rs| == MAX_LEN
    ensures (forall k :: k in CellsRead(rs, 0) ==> k < 100) <==> FreeIndex(rs) < 100
  {
    forall k: nat ensures k in CellsRead(rs, 0) <==> 0 <= k <= FreeIndex(rs) {
      CellsReadRange(rs, 0, k);
    }
    if FreeIndex(rs) == MAX_LEN {
      assert MAX_LEN in CellsRead(rs, 0);
    }
  }

  // What the loop finds in cell i; `behind` is whatever stands behind the table.
  function At(a: array<Record>, behind: Record, i: nat): Record
    reads a
  {
    if i < a.Length then a[i] else behind
  }

  function FieldsOf(r: Record): set<string> {
    {r.name, r.secondName, r.tel}
  }

  // On a full table the answer does not depend on what is read behind it.
  method FindFreeIndex(a: array<Record>, behind: Record) returns (index: nat, ghost cells: set<nat>)
    requires a.Length == MAX_LEN
    ensures index == FreeIndex(a[..]) <= MAX_LEN
    ensures forall j, s :: 0 <= j < index && s in FieldsOf(a[j]) ==> s != "" && s[0] != '\0'
    ensures index < 100 ==> exists s :: s in FieldsOf(a[index]) && (s == "" || s[0] == '\0')
    ensures cells == CellsRead(a[..], 0)
  {
    index := 0;
    cells := {0};
    while Complete(At(a, behind, index)) && index < MAX_LEN
      invariant index <= FreeIndex(a[..])
      invariant cells + CellsRead(a[..], index) == CellsRead(a[..], 0) && index in cells
      decreases MAX_LEN - index
    {
      index := index + 1;
      cells := cells + {index};
    }
    if index < MAX_LEN {
      FreeIndexIs(a[..], index);
      assert a[index].name in FieldsOf(a[index]) && a[index].secondName in FieldsOf(a[index]) &&
             a[index].tel in FieldsOf(a[index]);
    }
    forall j | 0 <= j < index ensures Complete(a[j]) {
      assert a[j] == a[..][j];
    }
  }

  // Without a free slot the record goes behind the table: the bound in the
  // program is one too high.
  method InsertAbonent(a: array<Record>, behind: Record, r: Record) returns (code: int, behind': Record)
    requires a.Length == MAX_LEN && Fits(r)
    modifies a
    ensures code == 0
    ensures var k := FreeIndex(old(a[..]));
            if k < MAX_LEN then a[..] == old(a[..])[k := r] && behind' == behind
            else a[..] == old(a[..]) && behind' == r
  {
    behind' := behind;
    var index, _ := FindFreeIndex(a, behind);
    if index > 100 {
      return 1, behind;
    }
    FitsReadsBack(r, []);
    assert Cell(r) + [] == Cell(r);
    var stored := RecordIn(Cell(r));
    if index < a.Length {
      a[index] := stored;
    } else {
      behind' := stored;
    }
    return 0, behind';
  }

  method Search(a: array<Record>, behind: Record, name: string) returns (idx: int)
    requires a.Length == MAX_LEN
    ensures var n := FreeIndex(a[..]);
            if idx == -1 then forall j :: 0 <= j < n ==> a[j].name != name
            else 0 <= idx < n && a[idx].name == name && forall j :: 0 <= j < idx ==> a[j].name != name
  {
    var index, _ := FindFreeIndex(a, behind);
    idx := -1;
    var i := 0;
    while i < index
      invariant i <= index && idx == -1
      invariant forall j :: 0 <= j < i ==> a[j].name != name
    {
      if a[i].name == name {
        idx := i;
        return;
      }
      i := i + 1;
    }
  }

  // ----- deletion

  function Blanks(n: nat): (r: seq<Record>)
    ensures |r| == n && forall i :: 0 <= i < n ==> r[i] == BLANK
  {
    seq(n, _ => BLANK)
  }

  // The records with every match blanked out.
  function Blanked(rs: seq<Record>, name: string): (r: seq<Record>)
    ensures |r| == |rs|
    ensures forall i :: 0 <= i < |rs| ==> r[i] == if rs[i].name == name then BLANK else rs[i]
  {
    seq(|rs|, i requires 0 <= i < |rs| => if rs[i].name == name then BLANK else rs[i])
  }

  function Survivors(rs: seq<Record>): (r: seq<Record>)
    ensures |r| <= |rs|
  {
    if rs == [] then [] else Survivors(rs[..|rs| - 1]) + if rs[|rs| - 1] == BLANK then [] else [rs[|rs| - 1]]
  }

  lemma SurvivorsNext(rs: seq<Record>, r: nat)
    requires r < |rs|
    ensures Survivors(rs[..r + 1]) == Survivors(rs[..r]) + if rs[r] == BLANK then [] else [rs[r]]
  {
    assert rs[..r + 1][..r] == rs[..r];
  }

  lemma {:induction false} SurvivorsComplete(rs: seq<Record>)
    requires forall i :: 0 <= i < |rs| ==> Complete(rs[i])
    ensures Survivors(rs) == rs
  {
    if rs != [] {
      SurvivorsComplete(rs[..|rs| - 1]);
      assert rs == rs[..|rs| - 1] + [rs[|rs| - 1]];
    }
  }

  lemma {:induction false} SurvivorsOfBlanked(rs: seq<Record>, name: string)
    requires forall i :: 0 <= i < |rs| ==> Complete(rs[i])
    ensures Survivors(Blanked(rs, name)) == Without(rs, name)
  {
    if rs != [] {
      var init := rs[..|rs| - 1];
      var last := rs[|rs| - 1];
      SurvivorsOfBlanked(init, name);
      assert Blanked(rs, name)[..|rs| - 1] == Blanked(init, name);
      assert rs == init + [last];
      WithoutAppend(init, [last], name);
      assert [last][1..] == [];
    }
  }

  predicate Empty(r: Record) {
    !Filled(r.name) && !Filled(r.secondName) && !Filled(r.tel)
  }

  // Complete records, then the first blank at delI, then blanks and complete records.
  predicate Holey(b: seq<Record>, delI: int) {
    0 <= delI < |b| && b[delI] == BLANK && (forall k :: 0 <= k < delI ==> Complete(b[k])) &&
    forall k :: 0 <= k < |b| ==> b[k] == BLANK || Complete(b[k])
  }

  lemma HoleyStart(b: seq<Record>, delI: int)
    requires Holey(b, delI)
    ensures Survivors(b[..delI + 1]) == b[..delI]
  {
    SurvivorsComplete(b[..delI]);
    SurvivorsNext(b, delI);
  }

  // Between two rounds: the survivors among the first r records of b stand in
  // front, blanks reach from l to r and the rest is as it was.
  ghost predicate Partway(a: seq<Record>, b: seq<Record>, l: int, r: int) {
    |a| == |b| && 0 <= l < r <= |b| &&
    |Survivors(b[..r])| == l && (forall k :: 0 <= k < l ==> a[k] == Survivors(b[..r])[k]) &&
    (forall k :: l <= k < r ==> a[k] == BLANK) && (forall k :: r <= k < |b| ==> a[k] == b[k])
  }

  lemma PartwayMoves(a: seq<Record>, b: seq<Record>, l: int, r: int)
    requires Partway(a, b, l, r) && r < |b| && b[r] != BLANK
    ensures Partway(a[l := a[r]][r := BLANK], b, l + 1, r + 1)
  {
    SurvivorsNext(b, r);
  }

  lemma PartwaySkips(a: seq<Record>, b: seq<Record>, l: int, r: int)
    requires Partway(a, b, l, r) && r < |b| && b[r] == BLANK
    ensures Partway(a, b, l, r + 1)
  {
    SurvivorsNext(b, r);
  }

  lemma PartwayReads(a: seq<Record>, b: seq<Record>, l: int, r: int, delI: int)
    requires Partway(a, b, l, r) && r < |b| && Holey(b, delI)
    ensures Empty(a[l]) && (Complete(a[r]) <==> b[r] != BLANK)
  {
  }

  lemma PartwayEnds(a: seq<Record>, b: seq<Record>, l: int)
    requires Partway(a, b, l, |b|)
    ensures |Survivors(b)| <= |b| && a == Survivors(b) + Blanks(|b| - |Survivors(b)|)
  {
    assert b[..|b|] == b;
  }

  // Lines 179-185: a record moves to a blank slot and leaves a blank.
  method MoveRecord(a: array<Record>, l: nat, r: nat, index: nat)
    requires l < r < index <= a.Length
    modifies a
    ensures a[..index] == old(a[..index])[l := old(a[r])][r := BLANK] && a[index..] == old(a[index..])
  {
    a[l] := a[r];
    a[r] := BLANK;
  }

  // delete_: r looks for records to move into the blanks that l walks over.
  // Both indices only grow, so the sum of their distances to index shrinks.
  method Compact(a: array<Record>, delI: int, index: int)
    requires 0 <= index <= a.Length && Holey(a[..index], delI)
    modifies a
    ensures var kept := Survivors(old(a[..index]));
            |kept| <= index && a[..index] == kept + Blanks(index - |kept|)
    ensures a[index..] == old(a[index..])
  {
    ghost var b := a[..index];
    var l, r := delI, delI + 1;
    HoleyStart(b, delI);
    while r < index
      invariant Partway(a[..index], b, l, r)
      invariant a[index..] == old(a[index..])
      decreases (index - l) + (index - r)
    {
      PartwayReads(a[..index], b, l, r, delI);
      assert a[l] == a[..index][l] && a[r] == a[..index][r];
      if Empty(a[l]) {
        if Complete(a[r]) {
          PartwayMoves(a[..index], b, l, r);
          MoveRecord(a, l, r, index);
          l := l + 1;
          r := r + 1;
        } else {
          PartwaySkips(a[..index], b, l, r);
          r := r + 1;
        }
      } else {
        l := l + 1;
      }
    }
    PartwayEnds(a[..index], b, l);
  }

  // The table when the loop has passed the first i records.
  function BlankedTo(rs: seq<Record>, name: string, i: nat): (r: seq<Record>)
    ensures |r| == |rs|
    ensures forall k :: 0 <= k < |rs| ==> r[k] == if k < i && rs[k].name == name then BLANK else rs[k]
  {
    seq(|rs|, k requires 0 <= k < |rs| => if k < i && rs[k].name == name then BLANK else rs[k])
  }

  lemma BlankedToNext(rs: seq<Record>, name: string, i: nat)
    requires i < |rs|
    ensures BlankedTo(rs, name, i)[i] == rs[i]
    ensures BlankedTo(rs, name, i + 1) ==
            if rs[i].name == name then BlankedTo(rs, name, i)[i := BLANK] else BlankedTo(rs, name, i)
  {
  }

  lemma BlankedToEnds(rs: seq<Record>, name: string, n: nat)
    requires n <= |rs|
    ensures BlankedTo(rs, name, n)[..n] == Blanked(rs[..n], name) && BlankedTo(rs, name, n)[n..] == rs[n..]
  {
  }

  // Lines 150-161: blank every match and remember the first one.
  method BlankMatches(a: array<Record>, index: nat, name: string) returns (delI: int, countDel: int)
    requires index <= a.Length
    modifies a
    ensures a[..index] == Blanked(old(a[..index]), name) && a[index..] == old(a[index..])
    ensures countDel == 0 ==> FirstMatch(old(a[..index]), name) == index
    ensures countDel != 0 ==> countDel > 0 && 0 <= delI < index && delI == FirstMatch(old(a[..index]), name)
  {
    ghost var all, rs := a[..], a[..index];
    delI, countDel := -1, 0;
    var i := 0;
    assert BlankedTo(all, name, 0) == all;
    while i < index
      invariant i <= index && a[..] == BlankedTo(all, name, i)
      invariant if countDel == 0 then delI == -1 && i <= FirstMatch(rs, name)
                else countDel > 0 && 0 <= delI < i && delI == FirstMatch(rs, name)
    {
      BlankedToNext(all, name, i);
      assert a[i] == a[..][i] == rs[i];
      if a[i].name == name {
        a[i] := BLANK;
        if delI == -1 {
          delI := i;
        }
        countDel := countDel + 1;
      }
      i := i + 1;
    }
    BlankedToEnds(all, name, index);
    assert a[..index] == a[..][..index] && a[index..] == a[..][index..];
    assert all[..index] == rs && all[index..] == old(a[index..]);
  }

  lemma BlankedUnmatched(rs: seq<Record>, name: string)
    requires FirstMatch(rs, name) == |rs|
    ensures Blanked(rs, name) == rs == Without(rs, name) + Blanks(0)
  {
    WithoutNone(rs, name);
  }

  lemma BlankedHoley(rs: seq<Record>, name: string)
    requires forall k :: 0 <= k < |rs| ==> Complete(rs[k])
    requires FirstMatch(rs, name) < |rs|
    ensures Holey(Blanked(rs, name), FirstMatch(rs, name))
  {
  }

  // Lines 150-166: the first `index` records lose their matches.
  method DeleteFrom(a: array<Record>, index: nat, name: string)
    requires index <= a.Length && forall k :: 0 <= k < index ==> Complete(a[k])
    modifies a
    ensures var kept := Without(old(a[..index]), name);
            a[..index] == kept + Blanks(index - |kept|)
    ensures a[index..] == old(a[index..])
  {
    ghost var rs := a[..index];
    var delI, countDel := BlankMatches(a, index, name);
    SurvivorsOfBlanked(rs, name);
    if countDel > 0 {
      BlankedHoley(rs, name);
      Compact(a, delI, index);
    } else {
      BlankedUnmatched(rs, name);
    }
  }

  // delete_abonent on any contents: the complete prefix loses its matches and
  // keeps its order, the freed slots are blank and the rest is untouched.
  method DeleteAbonent(a: array<Record>, behind: Record, name: string) returns (code: int)
    requires a.Length == MAX_LEN
    modifies a
    ensures code == if FreeIndex(old(a[..])) == 0 then -2 else 0
    ensures a[..] == AfterDelete(old(a[..]), name)
  {
    ghost var rs := a[..];
    var index, _ := FindFreeIndex(a, behind);
    assert a[..index] == rs[..index] && a[index..] == rs[index..];
    if index == 0 {
      assert AfterDelete(rs, name) == rs;
      return -2;
    }
    DeleteFrom(a, index, name);
    assert a[..] == a[..index] + a[index..];
    return 0;
  }

  // The array after a deletion.
  function AfterDelete(rs: seq<Record>, name: string): (r: seq<Record>)
    ensures |r| == |rs|
  {
    var n := FreeIndex(rs);
    var kept := Without(rs[..n], name);
    kept + Blanks(n - |kept|) + rs[n..]
  }

  // ----- the directory an array stands for

  // Complete records up to the first free slot, blanks behind it.
  ghost predicate Valid(rs: seq<Record>) {
    |rs| == MAX_LEN && forall k :: FreeIndex(rs) <= k < |rs| ==> rs[k] == BLANK
  }

  function Contents(rs: seq<Record>): seq<Record> {
    rs[..FreeIndex(rs)]
  }

  // Also when the record takes the last slot.
  lemma InsertExtends(rs: seq<Record>, r: Record)
    requires Valid(rs) && FreeIndex(rs) < MAX_LEN && Complete(r)
    ensures var rs' := rs[FreeIndex(rs) := r];
            Valid(rs') && Contents(rs') == Contents(rs) + [r]
  {
    var n, rs' := FreeIndex(rs), rs[FreeIndex(rs) := r];
    if n + 1 < MAX_LEN {
      FreeIndexIs(rs', n + 1);
    } else {
      assert forall j :: 0 <= j < |rs'| ==> Complete(rs'[j]);
    }
  }

  lemma {:induction false} WithoutComplete(rs: seq<Record>, name: string)
    requires forall i :: 0 <= i < |rs| ==> Complete(rs[i])
    ensures forall i :: 0 <= i < |Without(rs, name)| ==> Complete(Without(rs, name)[i])
  {
    if rs != [] {
      assert Complete(rs[0]);
      WithoutComplete(rs[1..], name);
    }
  }

  lemma DeletedFreeIndex(rs: seq<Record>, kept: seq<Record>, n: nat)
    requires |kept| <= n <= |rs| && forall i :: 0 <= i < |kept| ==> Complete(kept[i])
    requires forall k :: n <= k < |rs| ==> rs[k] == BLANK
    ensures FreeIndex(kept + Blanks(n - |kept|) + rs[n..]) == |kept|
  {
    var after := kept + Blanks(n - |kept|) + rs[n..];
    if |kept| < |rs| {
      assert after[|kept|] == BLANK;
      FreeIndexIs(after, |kept|);
    } else {
      assert after == kept;
    }
  }

  // After a deletion, from a full table too, the free index is the number of
  // survivors.
  lemma DeleteShrinks(rs: seq<Record>, name: string)
    requires Valid(rs)
    ensures var rs' := AfterDelete(rs, name);
            Valid(rs') && Contents(rs') == Without(Contents(rs), name) &&
            FreeIndex(rs') == |Without(Contents(rs), name)|
  {
    var n := FreeIndex(rs);
    var kept := Without(rs[..n], name);
    WithoutComplete(rs[..n], name);
    DeletedFreeIndex(rs, kept, n);
  }
}
