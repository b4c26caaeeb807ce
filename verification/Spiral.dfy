// The spiral ("snail") fill of Home_Work_2/src/main4.c.  The walker of the
// program knows nothing of layers: it turns right whenever the cell ahead is
// off the grid or already written.  Here the finished matrix is tied to a
// closed form that never mentions a walk.
module Spiral {

  predicate InGrid(n: nat, i: int, j: int) {
    0 <= i < n && 0 <= j < n
  }

  function Min(a: int, b: int): int {
    if a < b then a else b
  }

  // The number of complete rings outside the cell (i, j).
  function Layer(n: nat, i: int, j: int): int {
    Min(Min(i, j), Min(n - 1 - i, n - 1 - j))
  }

  // How many cells the first k rings hold: ring r has four sides of n - 2r - 1.
  // In closed form that is 4k(n - k), see BeforeClosedForm.
  function Before(n: nat, k: int): int
    decreases k
  {
    if k <= 0 then 0 else Before(n, k - 1) + 4 * (n - 2 * (k - 1) - 1)
  }

  // The closed-form clockwise spiral: ring k runs along its top row, down its
  // right column, back along its bottom row and up its left column.
  function Value(n: nat, i: int, j: int): int {
    var k := Layer(n, i, j);
    var side := n - 2 * k - 1;
    Before(n, k) + 1 +
    if i == k then j - k
    else if j == n - 1 - k then side + (i - k)
    else if i == n - 1 - k then 2 * side + (n - 1 - k - j)
    else 3 * side + (n - 1 - k - i)
  }

  // The side of its ring a cell lies on, numbered like the program's
  // directions: 1 right, 2 down, 3 left, 4 up.
  function Side(n: nat, i: int, j: int): int {
    var k := Layer(n, i, j);
    if i == k then 1
    else if j == n - 1 - k then 2
    else if i == n - 1 - k then 3
    else 4
  }

  function Check(direction: int): int {
    (direction % 4) + 1
  }

  function Ahead(i: int, j: int, direction: int): (int, int) {
    match direction
    case 1 => (i, j + 1)
    case 2 => (i + 1, j)
    case 3 => (i, j - 1)
    case _ => (i - 1, j)
  }

  // The walker's test, when exactly the cells numbered below this one are written.
  predicate Blocked(n: nat, i: int, j: int, direction: int) {
    var (a, b) := Ahead(i, j, direction);
    !InGrid(n, a, b) || Value(n, a, b) < Value(n, i, j)
  }

  function NextDirection(n: nat, i: int, j: int): int {
    if Blocked(n, i, j, Side(n, i, j)) then Check(Side(n, i, j)) else Side(n, i, j)
  }

  // ----- arithmetic of rings

  lemma SquareStep(m: int)
    ensures m * m == (m - 2) * (m - 2) + 4 * (m - 1)
  {
  }

  lemma SquareOfPositive(m: int)
    ensures m * m >= 0
    ensures m > 0 ==> m * m >= 1
  {
  }

  // What is left inside the first k rings is a square.
  lemma {:induction false} InnerSquare(n: nat, k: nat)
    ensures n * n == Before(n, k) + (n - 2 * k) * (n - 2 * k)
    decreases k
  {
    if k > 0 {
      InnerSquare(n, k - 1);
      SquareStep(n - 2 * (k - 1));
    }
  }

  lemma {:induction false} BeforeMonotone(n: nat, k: nat, m: nat)
    requires k <= m && 2 * m <= n + 1
    ensures Before(n, k) <= Before(n, m)
    decreases m - k
  {
    if k < m {
      BeforeMonotone(n, k + 1, m);
    }
  }

  lemma RingFits(n: nat, k: nat)
    requires 2 * k < n
    ensures Before(n, k) + 1 <= n * n
    ensures Before(n, k) + 4 * (n - 2 * k - 1) <= n * n
    ensures n == 2 * k + 1 ==> Before(n, k) + 1 == n * n
    ensures n == 2 * k + 2 ==> Before(n, k) + 4 == n * n
    ensures n > 2 * k + 2 ==> Before(n, k) + 4 * (n - 2 * k - 1) < n * n
  {
    var m := n - 2 * k;
    InnerSquare(n, k);
    SquareStep(m);
    SquareOfPositive(m);
    SquareOfPositive(m - 2);
    if m == 1 {
      assert (m - 2) * (m - 2) == 1;
    } else if m == 2 {
      assert (m - 2) * (m - 2) == 0;
    }
  }

  // Where a value can lie, ring by ring.
  lemma ValueInRing(n: nat, i: int, j: int)
    requires InGrid(n, i, j)
    ensures var k := Layer(n, i, j);
            0 <= k && 2 * k < n && Before(n, k) < Value(n, i, j) <= n * n &&
            (n - 2 * k > 1 ==> Value(n, i, j) <= Before(n, k + 1))
  {
    var k := Layer(n, i, j);
    RingFits(n, k);
  }

  // ----- the walk follows the closed form

  // Stepping over the edge of a ring leaves the grid or meets a smaller number.
  lemma OuterBlocked(n: nat, i: int, j: int, a: int, b: int)
    requires InGrid(n, i, j)
    requires InGrid(n, a, b) ==> Layer(n, a, b) == Layer(n, i, j) - 1
    ensures !InGrid(n, a, b) || Value(n, a, b) < Value(n, i, j)
  {
    ValueInRing(n, i, j);
    if InGrid(n, a, b) {
      ValueInRing(n, a, b);
    }
  }

  ghost predicate StepOk(n: nat, i: int, j: int) {
    var d := NextDirection(n, i, j);
    var (a, b) := Ahead(i, j, d);
    InGrid(n, a, b) && Value(n, a, b) == Value(n, i, j) + 1 && Side(n, a, b) == d
  }

  lemma WalkRight(n: nat, i: int, j: int)
    requires InGrid(n, i, j) && Side(n, i, j) == 1 && n > 2 * Layer(n, i, j) + 1
    ensures StepOk(n, i, j)
  {
    var k := Layer(n, i, j);
    if j < n - 1 - k {
      assert Layer(n, i, j + 1) == k;
      assert !Blocked(n, i, j, 1);
    } else {
      OuterBlocked(n, i, j, i, j + 1);
      assert Layer(n, i + 1, j) == k;
      assert NextDirection(n, i, j) == 2;
    }
  }

  lemma WalkDown(n: nat, i: int, j: int)
    requires InGrid(n, i, j) && Side(n, i, j) == 2
    ensures StepOk(n, i, j)
  {
    var k := Layer(n, i, j);
    if i < n - 1 - k {
      assert Layer(n, i + 1, j) == k;
      assert !Blocked(n, i, j, 2);
    } else {
      OuterBlocked(n, i, j, i + 1, j);
      assert Layer(n, i, j - 1) == k;
      assert NextDirection(n, i, j) == 3;
    }
  }

  lemma WalkLeft(n: nat, i: int, j: int)
    requires InGrid(n, i, j) && Side(n, i, j) == 3 && (j > Layer(n, i, j) || n > 2 * Layer(n, i, j) + 2)
    ensures StepOk(n, i, j)
  {
    var k := Layer(n, i, j);
    if j > k {
      assert Layer(n, i, j - 1) == k;
      assert !Blocked(n, i, j, 3);
    } else {
      OuterBlocked(n, i, j, i, j - 1);
      assert Layer(n, i - 1, j) == k;
      assert NextDirection(n, i, j) == 4;
    }
  }

  // The way up ends below the ring's first cell, where the next ring opens.
  lemma WalkUp(n: nat, i: int, j: int)
    requires InGrid(n, i, j) && Side(n, i, j) == 4
    ensures StepOk(n, i, j)
  {
    var k := Layer(n, i, j);
    assert j == k && k < i < n - 1 - k;
    assert Layer(n, i - 1, j) == k;
    if i == k + 1 {
      assert Layer(n, i, j + 1) == k + 1;
      assert Value(n, i - 1, j) == Before(n, k) + 1;
    }
  }

  // From every cell but the last, the walker's rule leads to the cell that the
  // closed form numbers next, facing along that cell's side.
  lemma WalkFollowsSpiral(n: nat, i: int, j: int)
    requires InGrid(n, i, j) && Value(n, i, j) < n * n
    ensures StepOk(n, i, j)
  {
    var k := Layer(n, i, j);
    RingFits(n, k);
    match Side(n, i, j)
    case 1 => WalkRight(n, i, j);
    case 2 => WalkDown(n, i, j);
    case 3 =>
      WalkLeft(n, i, j);
    case _ => WalkUp(n, i, j);
  }

  // The cell the walker stands on after s steps.
  ghost function Position(n: nat, s: nat): (r: (int, int))
    requires s < n * n
    ensures InGrid(n, r.0, r.1) && Value(n, r.0, r.1) == s + 1
    decreases s
  {
    if s == 0 then
      assert n > 0;
      (0, 0)
    else
      var (i, j) := Position(n, s - 1);
      WalkFollowsSpiral(n, i, j);
      Ahead(i, j, NextDirection(n, i, j))
  }

  // ----- what the closed form means

  lemma {:induction false} BeforeClosedForm(n: nat, k: nat)
    ensures Before(n, k) == 4 * (k * (n - k))
    decreases k
  {
    if k > 0 {
      BeforeClosedForm(n, k - 1);
      assert k * (n - k) == (k - 1) * (n - (k - 1)) + n - 2 * (k - 1) - 1;
    }
  }

  // A number in terms of the cell alone: 4k(n - k) numbers before its ring k, and
  // then its way along the four sides of the ring.
  lemma ValueClosedForm(n: nat, i: int, j: int)
    requires InGrid(n, i, j)
    ensures var k := Min(Min(i, j), Min(n - 1 - i, n - 1 - j));
            var side := n - 2 * k - 1;
            Value(n, i, j) == 4 * (k * (n - k)) + 1 +
              (if i == k then j - k
               else if j == n - 1 - k then side + (i - k)
               else if i == n - 1 - k then 2 * side + (n - 1 - k - j)
               else 3 * side + (n - 1 - k - i))
  {
    BeforeClosedForm(n, Layer(n, i, j));
  }

  // An inner ring holds greater numbers than an outer one.
  lemma InnerGreater(n: nat, i: int, j: int, a: int, b: int)
    requires InGrid(n, i, j) && InGrid(n, a, b) && Layer(n, i, j) < Layer(n, a, b)
    ensures Value(n, i, j) < Value(n, a, b)
  {
    ValueInRing(n, i, j);
    ValueInRing(n, a, b);
    BeforeMonotone(n, Layer(n, i, j) + 1, Layer(n, a, b));
  }

  lemma RingInjective(n: nat, i: int, j: int, a: int, b: int)
    requires InGrid(n, i, j) && InGrid(n, a, b) && Value(n, i, j) == Value(n, a, b)
    requires Layer(n, i, j) == Layer(n, a, b)
    ensures i == a && j == b
  {
  }

  lemma ValueInjective(n: nat, i: int, j: int, a: int, b: int)
    requires InGrid(n, i, j) && InGrid(n, a, b) && Value(n, i, j) == Value(n, a, b)
    ensures i == a && j == b
  {
    if Layer(n, i, j) == Layer(n, a, b) {
      RingInjective(n, i, j, a, b);
    } else if Layer(n, i, j) < Layer(n, a, b) {
      InnerGreater(n, i, j, a, b);
    } else {
      InnerGreater(n, a, b, i, j);
    }
  }

  // Every number from 1 to n*n stands in exactly one cell.
  lemma SpiralIsPermutation(n: nat, v: int)
    requires 1 <= v <= n * n
    ensures exists i, j :: InGrid(n, i, j) && Value(n, i, j) == v &&
              forall a, b :: InGrid(n, a, b) && Value(n, a, b) == v ==> a == i && b == j
  {
    var (i, j) := Position(n, v - 1);
    forall a, b | InGrid(n, a, b) && Value(n, a, b) == v
      ensures a == i && b == j
    {
      ValueInjective(n, i, j, a, b);
    }
  }

  // Consecutive numbers stand in cells that share an edge.
  lemma ConsecutiveAdjacent(n: nat, i: int, j: int, a: int, b: int)
    requires InGrid(n, i, j) && InGrid(n, a, b)
    requires Value(n, a, b) == Value(n, i, j) + 1
    ensures (a == i && (b == j + 1 || b == j - 1)) || (b == j && (a == i + 1 || a == i - 1))
  {
    ValueInRing(n, a, b);
    WalkFollowsSpiral(n, i, j);
    var (p, q) := Ahead(i, j, NextDirection(n, i, j));
    ValueInjective(n, a, b, p, q);
  }

  // The walk visits a new cell at every step, so no cell is written twice.
  lemma PositionsDistinct(n: nat, s: nat, t: nat)
    requires s < t < n * n
    ensures Position(n, s) != Position(n, t)
  {
    var p := Position(n, s);
    assert Value(n, p.0, p.1) == s + 1;
  }

  // ----- the program

  method InitialArray(n: nat, source: array2<int>, res: array2<int>, start: int)
    requires source.Length0 == source.Length1 == res.Length0 == res.Length1 == n
    requires source != res
    modifies source, res
    ensures forall i, j :: InGrid(n, i, j) ==> source[i, j] == start + i * n + j
    ensures forall i, j :: InGrid(n, i, j) ==> res[i, j] == -1
  {
    var num := start;
    for i := 0 to n
      invariant num == start + i * n
      invariant forall a, b :: 0 <= a < i && 0 <= b < n ==> source[a, b] == start + a * n + b
      invariant forall a, b :: 0 <= a < i && 0 <= b < n ==> res[a, b] == -1
    {
      for j := 0 to n
        invariant num == start + i * n + j
        invariant forall a, b :: 0 <= a < i && 0 <= b < n ==> source[a, b] == start + a * n + b
        invariant forall a, b :: 0 <= a < i && 0 <= b < n ==> res[a, b] == -1
        invariant forall b :: 0 <= b < j ==> source[i, b] == start + i * n + b && res[i, b] == -1
      {
        res[i, j] := -1;
        source[i, j] := num;
        num := num + 1;
      }
      assert (i + 1) * n == i * n + n;
    }
  }

  // Exactly the cells of the first s steps are written.
  ghost predicate FilledTo(n: nat, res: array2<int>, s: nat)
    requires res.Length0 == res.Length1 == n
    reads res
  {
    forall a, b :: InGrid(n, a, b) ==> res[a, b] == if Value(n, a, b) <= s then Value(n, a, b) else -1
  }

  // The test of lines 40-43 of the program, read off the matrix.
  predicate TurnTest(n: nat, res: array2<int>, i: int, j: int, direction: int)
    requires InGrid(n, i, j) && res.Length0 == res.Length1 == n
    reads res
  {
    ((i + 1 == n || res[i + 1, j] != -1) && direction == 2) ||
    ((j + 1 == n || res[i, j + 1] != -1) && direction == 1) ||
    ((i - 1 == -1 || res[i - 1, j] != -1) && direction == 4) ||
    ((j - 1 == -1 || res[i, j - 1] != -1) && direction == 3)
  }

  lemma TurnTestIsBlocked(n: nat, res: array2<int>, i: int, j: int, direction: int)
    requires InGrid(n, i, j) && res.Length0 == res.Length1 == n && 1 <= direction <= 4
    requires Value(n, i, j) > 0 && FilledTo(n, res, Value(n, i, j) - 1)
    ensures TurnTest(n, res, i, j, direction) <==> Blocked(n, i, j, direction)
  {
    var (a, b) := Ahead(i, j, direction);
    if InGrid(n, a, b) {
      ValuePositive(n, a, b);
      assert res[a, b] == if Value(n, a, b) <= Value(n, i, j) - 1 then Value(n, a, b) else -1;
    }
  }

  lemma ValuePositive(n: nat, i: int, j: int)
    requires InGrid(n, i, j)
    ensures Value(n, i, j) >= 1
  {
    ValueInRing(n, i, j);
    BeforeMonotone(n, 0, Layer(n, i, j));
  }

  // The walker is in the middle of its way: s cells are written and it stands
  // on the next one, facing along that cell's side.
  ghost predicate Walking(n: nat, res: array2<int>, s: nat, i: int, j: int, direction: int)
    requires res.Length0 == res.Length1 == n
    reads res
  {
    FilledTo(n, res, s) &&
    (s < n * n ==> (i, j) == Position(n, s) && direction == Side(n, i, j))
  }

  lemma WalkingStarts(n: nat, res: array2<int>)
    requires 1 <= n && res.Length0 == res.Length1 == n
    requires forall i, j :: InGrid(n, i, j) ==> res[i, j] == -1
    ensures Walking(n, res, 0, 0, 0, 1)
  {
    forall a, b | InGrid(n, a, b) ensures Value(n, a, b) > 0 {
      ValuePositive(n, a, b);
    }
  }

  lemma WalkingEnds(n: nat, res: array2<int>, i: int, j: int, direction: int)
    requires res.Length0 == res.Length1 == n && Walking(n, res, n * n, i, j, direction)
    ensures forall a, b :: InGrid(n, a, b) ==> res[a, b] == Value(n, a, b)
  {
    forall a, b | InGrid(n, a, b) ensures Value(n, a, b) <= n * n {
      ValueInRing(n, a, b);
    }
  }

  // One round of the loop keeps the walk: the next number goes on the walker's
  // cell and the walker moves on.
  lemma WalkingStep(n: nat, res: array2<int>, s: nat, i: int, j: int)
    requires res.Length0 == res.Length1 == n && s < n * n && (i, j) == Position(n, s)
    requires forall a, b :: InGrid(n, a, b) && (a, b) != (i, j) ==>
               res[a, b] == if Value(n, a, b) <= s then Value(n, a, b) else -1
    requires res[i, j] == s + 1
    ensures var d := NextDirection(n, i, j);
            var (p, q) := Ahead(i, j, d);
            Walking(n, res, s + 1, p, q, d)
  {
    forall a, b | InGrid(n, a, b)
      ensures res[a, b] == if Value(n, a, b) <= s + 1 then Value(n, a, b) else -1
    {
      if Value(n, a, b) == s + 1 {
        ValueInjective(n, i, j, a, b);
      }
    }
    if s + 1 < n * n {
      WalkFollowsSpiral(n, i, j);
    }
  }

  // Lines 40-51: turn right when the way ahead is closed.
  method Turn(n: nat, res: array2<int>, i: int, j: int, direction: int, flagI: bool)
    returns (d: int, f: bool)
    requires InGrid(n, i, j) && res.Length0 == res.Length1 == n
    requires direction == Side(n, i, j) && (TurnTest(n, res, i, j, direction) <==> Blocked(n, i, j, direction))
    requires flagI <==> direction == 2 || direction == 4
    ensures d == NextDirection(n, i, j) && (f <==> d == 2 || d == 4)
  {
    d, f := direction, flagI;
    if TurnTest(n, res, i, j, direction) {
      d := Check(d);
      f := !f;
    }
  }

  // Line 53: the next number goes on the walker's cell, which was unwritten.
  method Write(n: nat, res: array2<int>, ghost s: nat, i: int, j: int, ghost direction: int, number: int)
    requires res.Length0 == res.Length1 == n && s < n * n && number == s + 1
    requires Walking(n, res, s, i, j, direction)
    modifies res
    ensures old(res[i, j]) == -1
    ensures var d := NextDirection(n, i, j);
            var (p, q) := Ahead(i, j, d);
            Walking(n, res, s + 1, p, q, d)
  {
    res[i, j] := number;
    WalkingStep(n, res, s, i, j);
  }

  // Lines 61-71: one step in the current direction.
  method Move(i: int, j: int, direction: int, flagI: bool) returns (p: int, q: int)
    requires 1 <= direction <= 4 && (flagI <==> direction == 2 || direction == 4)
    ensures (p, q) == Ahead(i, j, direction)
  {
    p, q := i, j;
    if flagI {
      p := if direction == 2 then p + 1 else p - 1;
    } else {
      q := if direction == 1 then q + 1 else q - 1;
    }
  }

  // Lines 55-59: the source is read row by row, (l, k) being its s-th cell.
  ghost predicate SourceAt(n: nat, l: int, k: int, s: nat) {
    0 <= k < n && s == l * n + k
  }

  method NextSource(n: nat, l: int, k: int, ghost s: nat) returns (l2: int, k2: int)
    requires SourceAt(n, l, k, s)
    ensures SourceAt(n, l2, k2, s + 1)
  {
    if k == n - 1 {
      l2, k2 := l + 1, 0;
      assert l2 * n == l * n + n;
    } else {
      l2, k2 := l, k + 1;
    }
  }

  lemma SourceRow(n: nat, l: int, k: int, s: nat)
    requires SourceAt(n, l, k, s) && s < n * n
    ensures 0 <= l < n
  {
    ProductSign(l, n);
    ProductSign(l - n, n);
  }

  lemma ProductSign(a: int, b: nat)
    ensures a >= 0 ==> a * b >= 0
    ensures a < 0 ==> a * b + b <= 0
  {
    if a < 0 {
      assert (-1 - a) * b >= 0;
    }
  }

  // The source index stays inside its matrix, whose cells hold their numbers.
  lemma SourceCell(n: nat, source: array2<int>, l: int, k: int, s: nat)
    requires source.Length0 == source.Length1 == n && SourceAt(n, l, k, s) && s < n * n
    requires forall a, b :: InGrid(n, a, b) ==> source[a, b] == 1 + a * n + b
    ensures 0 <= l < n && source[l, k] == s + 1
  {
    SourceRow(n, l, k, s);
  }

  // The cells a walk of s steps has written, in the order it wrote them.
  ghost predicate Trail(n: nat, trail: seq<(int, int)>, s: nat) {
    |trail| == s <= n * n && forall t :: 0 <= t < s ==> trail[t] == Position(n, t)
  }

  lemma TrailStep(n: nat, trail: seq<(int, int)>, s: nat)
    requires Trail(n, trail, s) && s < n * n
    ensures Trail(n, trail + [Position(n, s)], s + 1)
  {
  }

  // Every number was written once, in order, and no cell twice.
  ghost predicate WrittenOnce(n: nat, trail: seq<(int, int)>) {
    |trail| == n * n &&
    (forall s :: 0 <= s < |trail| ==> InGrid(n, trail[s].0, trail[s].1) && Value(n, trail[s].0, trail[s].1) == s + 1) &&
    (forall s, t :: 0 <= s < t < |trail| ==> trail[s] != trail[t])
  }

  lemma TrailEnds(n: nat, trail: seq<(int, int)>)
    requires Trail(n, trail, n * n)
    ensures WrittenOnce(n, trail)
  {
    forall s, t | 0 <= s < t < |trail| ensures trail[s] != trail[t] {
      PositionsDistinct(n, s, t);
    }
  }

  lemma WalkerCell(n: nat, res: array2<int>, s: nat, i: int, j: int, direction: int)
    requires res.Length0 == res.Length1 == n && s < n * n && Walking(n, res, s, i, j, direction)
    ensures InGrid(n, i, j) && direction == Side(n, i, j) && 1 <= NextDirection(n, i, j) <= 4
    ensures TurnTest(n, res, i, j, direction) <==> Blocked(n, i, j, direction)
  {
    TurnTestIsBlocked(n, res, i, j, direction);
  }

  method SnailArray(n: nat, source: array2<int>, res: array2<int>) returns (ghost trail: seq<(int, int)>)
    requires 1 <= n && n * n <= 0x7FFF_FFFF
    requires source.Length0 == source.Length1 == res.Length0 == res.Length1 == n
    requires source != res
    modifies source, res
    ensures forall i, j :: InGrid(n, i, j) ==> res[i, j] == Value(n, i, j)
    ensures WrittenOnce(n, trail)
  {
    InitialArray(n, source, res, 1);
    WalkingStarts(n, res);
    var flagI := false;
    var direction := 1;
    var i, j, k, l, s := 0, 0, 0, 0, 0;
    trail := [];
    while s < n * n
      invariant 0 <= s <= n * n && SourceAt(n, l, k, s) && Trail(n, trail, s)
      invariant forall a, b :: InGrid(n, a, b) ==> source[a, b] == 1 + a * n + b
      invariant Walking(n, res, s, i, j, direction)
      invariant flagI <==> direction == 2 || direction == 4
    {
      SourceCell(n, source, l, k, s);
      ghost var from := direction;
      WalkerCell(n, res, s, i, j, direction);
      direction, flagI := Turn(n, res, i, j, direction, flagI);

      Write(n, res, s, i, j, from, source[l, k]);
      TrailStep(n, trail, s);
      trail := trail + [(i, j)];

      l, k := NextSource(n, l, k, s);
      i, j := Move(i, j, direction, flagI);
      s := s + 1;
    }
    WalkingEnds(n, res, i, j, direction);
    TrailEnds(n, trail);
  }
}
