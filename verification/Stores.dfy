// The stores of Threads/main.c: customers buy whole stocks, one supplier adds
// 200 at a time, and each store has its own mutex.  Loads and stores of the
// shared stock are separate steps.
module Stores {
  import opened Sums

  const DELIVERY := 200

  // A customer between stores, inside store j before and after its test, with
  // amount v taken off its desire but still on the shelf, about to unlock,
  // outside again before its check, or gone.
  datatype Phase =
    | Roaming | Testing(j: nat) | Buying(j: nat) | Clearing(j: nat, v: nat) | Leaving(j: nat) | Deciding | Gone

  // bought and last record the customer's purchases.
  datatype Customer = Customer(phase: Phase, desire: int, initial: int, bought: nat, last: nat)

  datatype Supplier = Away | Entered(j: nat) | Loaded(j: nat, v: nat) | Exiting(j: nat)

  datatype Owner = Free | ByCustomer(i: nat) | BySupplier

  datatype State = State(
    stock: seq<nat>,
    mutex: seq<Owner>,
    customers: seq<Customer>,
    supplier: Supplier,
    deliveries: nat)

  datatype Event =
    | Enter(i: nat, j: nat) | Test(i: nat) | Buy(i: nat) | Clear(i: nat) | Exit(i: nat) | Decide(i: nat)
    | Visit(j: nat) | Load | Stow | Depart

  // init_store and the customers' first wishes.
  predicate Start(s: State) {
    |s.mutex| == |s.stock| && (forall j :: 0 <= j < |s.mutex| ==> s.mutex[j] == Free) &&
    (forall i :: 0 <= i < |s.customers| ==>
       var c := s.customers[i]; c.phase == Roaming && c.desire == c.initial > 0 && c.bought == c.last == 0) &&
    s.supplier == Away && s.deliveries == 0
  }

  predicate Here(s: State, i: nat) {
    i < |s.customers|
  }

  predicate Enabled(s: State, e: Event) {
    match e
    case Enter(i, j) => Here(s, i) && s.customers[i].phase == Roaming && j < |s.mutex| && s.mutex[j] == Free
    case Test(i) => Here(s, i) && s.customers[i].phase.Testing? && s.customers[i].phase.j < |s.stock|
    case Buy(i) => Here(s, i) && s.customers[i].phase.Buying? && s.customers[i].phase.j < |s.stock|
    case Clear(i) => Here(s, i) && s.customers[i].phase.Clearing? && s.customers[i].phase.j < |s.stock|
    case Exit(i) => Here(s, i) && s.customers[i].phase.Leaving? && s.customers[i].phase.j < |s.mutex|
    case Decide(i) => Here(s, i) && s.customers[i].phase == Deciding
    case Visit(j) => s.supplier == Away && j < |s.mutex| && s.mutex[j] == Free
    case Load => s.supplier.Entered? && s.supplier.j < |s.stock|
    case Stow => s.supplier.Loaded? && s.supplier.j < |s.stock|
    case Depart => s.supplier.Exiting? && s.supplier.j < |s.mutex|
  }

  function Moved(s: State, i: nat, p: Phase): State
    requires Here(s, i)
  {
    s.(customers := s.customers[i := s.customers[i].(phase := p)])
  }

  function Next(s: State, e: Event): State
    requires Enabled(s, e)
  {
    match e
    case Enter(i, j) => Moved(s, i, Testing(j)).(mutex := s.mutex[j := ByCustomer(i)])
    case Test(i) =>
      var j := s.customers[i].phase.j;
      Moved(s, i, if s.stock[j] == 0 then Leaving(j) else Buying(j))
    case Buy(i) =>
      var c := s.customers[i];
      var v := s.stock[c.phase.j];
      s.(customers := s.customers[i := Customer(Clearing(c.phase.j, v), c.desire - v, c.initial, c.bought + v, v)])
    case Clear(i) =>
      var j := s.customers[i].phase.j;
      Moved(s, i, Leaving(j)).(stock := s.stock[j := 0])
    case Exit(i) => Moved(s, i, Deciding).(mutex := s.mutex[s.customers[i].phase.j := Free])
    case Decide(i) => Moved(s, i, if s.customers[i].desire <= 0 then Gone else Roaming)
    case Visit(j) => s.(supplier := Entered(j), mutex := s.mutex[j := BySupplier])
    case Load => s.(supplier := Loaded(s.supplier.j, s.stock[s.supplier.j]))
    case Stow =>
      s.(supplier := Exiting(s.supplier.j), stock := s.stock[s.supplier.j := s.supplier.v + DELIVERY],
         deliveries := s.deliveries + 1)
    case Depart => s.(supplier := Away, mutex := s.mutex[s.supplier.j := Free])
  }

  // A run; an event that cannot happen is skipped.
  function Run(s: State, es: seq<Event>): State
    decreases |es|
  {
    if es == [] then s
    else if Enabled(s, es[0]) then Run(Next(s, es[0]), es[1..])
    else Run(s, es[1..])
  }

  // ----- who is where

  // The store a customer or the supplier is inside of, or -1.
  function StoreOf(p: Phase): int {
    if p.Testing? || p.Buying? || p.Clearing? || p.Leaving? then p.j else -1
  }

  function SupplierAt(p: Supplier): int {
    if p == Away then -1 else p.j
  }

  // Whoever owns a store is inside.
  ghost predicate OwnersOk(s: State) {
    forall j :: 0 <= j < |s.mutex| ==>
      match s.mutex[j]
      case Free => true
      case ByCustomer(i) => i < |s.customers| && StoreOf(s.customers[i].phase) == j
      case BySupplier => SupplierAt(s.supplier) == j
  }

  // A store is owned by whoever is inside.
  ghost predicate StoresOk(s: State) {
    |s.mutex| == |s.stock| &&
    (forall i: nat :: i < |s.customers| ==>
       var j := StoreOf(s.customers[i].phase); j >= 0 ==> j < |s.stock| && s.mutex[j] == ByCustomer(i)) &&
    (SupplierAt(s.supplier) >= 0 ==>
       SupplierAt(s.supplier) < |s.stock| && s.mutex[SupplierAt(s.supplier)] == BySupplier)
  }

  // What a customer inside knows of the stock is still true.
  predicate ReadingOk(stock: seq<nat>, p: Phase) {
    (p.Buying? ==> p.j < |stock| && stock[p.j] > 0) && (p.Clearing? ==> p.j < |stock| && stock[p.j] == p.v) &&
    (p.Leaving? ==> p.j < |stock| && stock[p.j] == 0)
  }

  ghost predicate ReadsOk(s: State) {
    (forall i :: 0 <= i < |s.customers| ==> ReadingOk(s.stock, s.customers[i].phase)) &&
    (s.supplier.Loaded? ==> s.supplier.j < |s.stock| && s.stock[s.supplier.j] == s.supplier.v)
  }

  // A customer's books: desire is what is left of the first wish, and only the
  // last purchase can have overshot it.
  predicate BooksOk(c: Customer) {
    c.desire == c.initial - c.bought && c.initial > 0 &&
    (c.desire > 0 || c.desire + c.last > 0) &&
    (c.phase == Roaming || c.phase.Testing? || c.phase.Buying? ==> c.desire > 0) &&
    (c.phase == Gone ==> c.desire <= 0)
  }

  ghost predicate Good(s: State) {
    StoresOk(s) && OwnersOk(s) && ReadsOk(s) && forall i :: 0 <= i < |s.customers| ==> BooksOk(s.customers[i])
  }

  lemma StoresKept(s: State, e: Event)
    requires StoresOk(s) && Enabled(s, e)
    ensures StoresOk(Next(s, e))
  {
  }

  lemma OwnersKept(s: State, e: Event)
    requires StoresOk(s) && OwnersOk(s) && Enabled(s, e)
    ensures OwnersOk(Next(s, e))
  {
  }

  // The store whose stock an event writes, if any, belongs to the writer.
  lemma ReadsKept(s: State, e: Event)
    requires Good(s) && Enabled(s, e)
    ensures ReadsOk(Next(s, e))
  {
    var t := Next(s, e);
    forall i | 0 <= i < |t.customers| ensures ReadingOk(t.stock, t.customers[i].phase) {
      assert ReadingOk(s.stock, s.customers[i].phase);
    }
  }

  // ----- goods

  function Worth(v: nat): nat { v }

  function BoughtBy(c: Customer): nat { c.bought }

  // Goods already booked as bought that are still on the shelf.
  function OnShelf(c: Customer): nat {
    if c.phase.Clearing? then c.phase.v else 0
  }

  function Goods(s: State): int {
    Total<nat>(s.stock, Worth) + Total(s.customers, BoughtBy) - Total(s.customers, OnShelf)
  }

  lemma CustomerMoves(s: State, i: nat, c: Customer)
    requires i < |s.customers|
    ensures Total(s.customers[i := c], BoughtBy) + s.customers[i].bought == Total(s.customers, BoughtBy) + c.bought
    ensures Total(s.customers[i := c], OnShelf) + OnShelf(s.customers[i]) == Total(s.customers, OnShelf) + OnShelf(c)
  {
    TotalUpdate(s.customers, BoughtBy, i, c);
    TotalUpdate(s.customers, OnShelf, i, c);
  }

  lemma GoodsKept(s: State, e: Event)
    requires Good(s) && Enabled(s, e)
    ensures Goods(Next(s, e)) == Goods(s) + DELIVERY * (Next(s, e).deliveries - s.deliveries)
  {
    var t := Next(s, e);
    match e
    case Visit(_) =>
    case Load =>
    case Depart =>
    case Stow =>
      TotalUpdate<nat>(s.stock, Worth, s.supplier.j, s.supplier.v + DELIVERY);
    case Clear(i) =>
      CustomerMoves(s, i, t.customers[i]);
      TotalUpdate<nat>(s.stock, Worth, s.customers[i].phase.j, 0);
    case Enter(i, _) => CustomerMoves(s, i, t.customers[i]);
    case Test(i) => CustomerMoves(s, i, t.customers[i]);
    case Buy(i) => CustomerMoves(s, i, t.customers[i]);
    case Exit(i) => CustomerMoves(s, i, t.customers[i]);
    case Decide(i) => CustomerMoves(s, i, t.customers[i]);
  }

  lemma StepKeeps(s: State, e: Event)
    requires Good(s) && Enabled(s, e)
    ensures Good(Next(s, e))
  {
    StoresKept(s, e);
    OwnersKept(s, e);
    ReadsKept(s, e);
  }

  lemma {:induction false} RunKeeps(s: State, es: seq<Event>)
    requires Good(s)
    ensures Good(Run(s, es)) && Run(s, es).deliveries >= s.deliveries
    ensures Goods(Run(s, es)) == Goods(s) + DELIVERY * (Run(s, es).deliveries - s.deliveries)
    decreases |es|
  {
    if es != [] {
      if Enabled(s, es[0]) {
        StepKeeps(s, es[0]);
        GoodsKept(s, es[0]);
        RunKeeps(Next(s, es[0]), es[1..]);
      } else {
        RunKeeps(s, es[1..]);
      }
    }
  }

  lemma GoodStart(s: State)
    requires Start(s)
    ensures Good(s) && Goods(s) == Total<nat>(s.stock, Worth)
  {
    TotalZero(s.customers, BoughtBy);
    TotalZero(s.customers, OnShelf);
  }

  // ----- the results

  // Nothing is lost or sold twice: whenever no store is in the middle of a
  // purchase, stock and purchases add up to the first stock and the deliveries.
  lemma GoodsConserved(start: State, es: seq<Event>, s: State)
    requires Start(start) && s == Run(start, es)
    requires forall i :: 0 <= i < |s.customers| ==> !s.customers[i].phase.Clearing?
    ensures Total<nat>(s.stock, Worth) + Total(s.customers, BoughtBy) ==
            Total<nat>(start.stock, Worth) + DELIVERY * s.deliveries
  {
    GoodStart(start);
    RunKeeps(start, es);
    TotalZero(s.customers, OnShelf);
  }

  // A customer's remaining desire is its first desire less its purchases; it is
  // gone only when they cover it, overshooting by less than the last one.
  lemma CustomersSatisfied(start: State, es: seq<Event>, s: State, i: nat)
    requires Start(start) && s == Run(start, es) && i < |s.customers|
    ensures s.customers[i].desire == s.customers[i].initial - s.customers[i].bought
    ensures s.customers[i].phase == Gone ==>
              s.customers[i].initial <= s.customers[i].bought < s.customers[i].initial + s.customers[i].last
    ensures s.customers[i].phase == Roaming ==> s.customers[i].bought < s.customers[i].initial
  {
    GoodStart(start);
    RunKeeps(start, es);
    assert BooksOk(s.customers[i]);
  }

  // Nobody leaves goods behind, and a store is open exactly when nobody is inside.
  lemma StoresLeftEmpty(start: State, es: seq<Event>, s: State, j: nat)
    requires Start(start) && s == Run(start, es) && j < |s.stock|
    ensures |s.mutex| == |s.stock|
    ensures forall i :: 0 <= i < |s.customers| && s.customers[i].phase == Leaving(j) ==> s.stock[j] == 0
    ensures s.mutex[j] == Free <==>
            SupplierAt(s.supplier) != j && forall i :: 0 <= i < |s.customers| ==> StoreOf(s.customers[i].phase) != j
  {
    GoodStart(start);
    RunKeeps(start, es);
    forall i | 0 <= i < |s.customers| && s.customers[i].phase == Leaving(j) ensures s.stock[j] == 0 {
      assert ReadingOk(s.stock, s.customers[i].phase);
    }
  }

  // ----- one visit

  // An event of customer i's own thread.
  predicate Own(e: Event, i: nat) {
    (e.Enter? || e.Test? || e.Buy? || e.Clear? || e.Exit? || e.Decide?) && e.i == i
  }

  function OwnSteps(es: seq<Event>, i: nat): nat {
    if es == [] then 0 else (if Own(es[0], i) then 1 else 0) + OwnSteps(es[1..], i)
  }

  // A run every event of which happens.
  predicate AllHappen(s: State, es: seq<Event>)
    decreases |es|
  {
    es == [] || (Enabled(s, es[0]) && AllHappen(Next(s, es[0]), es[1..]))
  }

  // Customer i came into store j as c and found goods worth v; n steps later.
  predicate Visiting(s: State, i: nat, j: nat, c: Customer, v: nat, n: nat) {
    i < |s.customers| && j < |s.stock| &&
    var now := s.customers[i];
    var bought := Customer(now.phase, c.desire - v, c.initial, c.bought + v, v);
    if n == 0 then now == c.(phase := Testing(j)) && s.stock[j] == v
    else if v == 0 then n == 1 && now == c.(phase := Leaving(j)) && s.stock[j] == 0
    else if n == 1 then now == c.(phase := Buying(j)) && s.stock[j] == v
    else if n == 2 then now == bought && now.phase == Clearing(j, v) && s.stock[j] == v
    else n == 3 && now == bought && now.phase == Leaving(j) && s.stock[j] == 0
  }

  lemma VisitStep(s: State, e: Event, i: nat, j: nat, c: Customer, v: nat, n: nat)
    requires Good(s) && Enabled(s, e) && Visiting(s, i, j, c, v, n)
    requires Own(e, i) ==> n < if v == 0 then 1 else 3
    ensures Visiting(Next(s, e), i, j, c, v, n + if Own(e, i) then 1 else 0)
  {
  }

  lemma {:induction false} VisitRun(s: State, es: seq<Event>, i: nat, j: nat, c: Customer, v: nat, n: nat)
    requires Good(s) && AllHappen(s, es) && Visiting(s, i, j, c, v, n)
    requires n + OwnSteps(es, i) <= if v == 0 then 1 else 3
    ensures Visiting(Run(s, es), i, j, c, v, n + OwnSteps(es, i))
    decreases |es|
  {
    if es != [] {
      VisitStep(s, es[0], i, j, c, v, n);
      StepKeeps(s, es[0]);
      VisitRun(Next(s, es[0]), es[1..], i, j, c, v, n + if Own(es[0], i) then 1 else 0);
    }
  }

  // Whatever the other threads do meanwhile, a customer that finds goods worth v
  // is ready to leave after exactly three steps of its own, has bought exactly
  // them, and has left the shelf empty; a customer that finds none is ready after
  // one and has bought nothing.
  lemma VisitBuysAll(start: State, es: seq<Event>, s: State, i: nat, j: nat, more: seq<Event>, t: State)
    requires Start(start) && s == Run(start, es) && i < |s.customers| && s.customers[i].phase == Testing(j)
    requires AllHappen(s, more) && t == Run(s, more)
    ensures j < |s.stock|
    ensures var c, v := s.customers[i], s.stock[j];
            v > 0 && OwnSteps(more, i) == 3 ==>
              j < |t.stock| && t.stock[j] == 0 && i < |t.customers| &&
              t.customers[i] == Customer(Leaving(j), c.desire - v, c.initial, c.bought + v, v)
    ensures var c, v := s.customers[i], s.stock[j];
            v == 0 && OwnSteps(more, i) == 1 ==>
              j < |t.stock| && t.stock[j] == 0 && i < |t.customers| && t.customers[i] == c.(phase := Leaving(j))
  {
    GoodStart(start);
    RunKeeps(start, es);
    var c, v := s.customers[i], s.stock[j];
    if OwnSteps(more, i) == if v == 0 then 1 else 3 {
      VisitRun(s, more, i, j, c, v, 0);
    }
  }

  // A customer inside a store can always take its next step.
  lemma InsideNeverWaits(start: State, es: seq<Event>, s: State, i: nat)
    requires Start(start) && s == Run(start, es) && i < |s.customers|
    requires StoreOf(s.customers[i].phase) >= 0 || s.customers[i].phase == Deciding
    ensures exists e :: Own(e, i) && Enabled(s, e)
  {
    GoodStart(start);
    RunKeeps(start, es);
    match s.customers[i].phase
    case Testing(_) => assert Own(Test(i), i) && Enabled(s, Test(i));
    case Buying(_) => assert Own(Buy(i), i) && Enabled(s, Buy(i));
    case Clearing(_, _) => assert Own(Clear(i), i) && Enabled(s, Clear(i));
    case Leaving(_) => assert Own(Exit(i), i) && Enabled(s, Exit(i));
    case Deciding => assert Own(Decide(i), i) && Enabled(s, Decide(i));
  }

  // ----- everybody can be satisfied

  lemma {:induction false} RunAppend(s: State, a: seq<Event>, b: seq<Event>)
    ensures Run(s, a + b) == Run(Run(s, a), b)
    decreases |a|
  {
    if a == [] {
      assert a + b == b;
    } else {
      assert (a + b)[0] == a[0] && (a + b)[1..] == a[1..] + b;
      RunAppend(if Enabled(s, a[0]) then Next(s, a[0]) else s, a[1..], b);
    }
  }

  lemma RunOne(s: State, e: Event, rest: seq<Event>)
    requires Enabled(s, e)
    ensures Run(s, [e] + rest) == Run(Next(s, e), rest)
  {
    assert ([e] + rest)[1..] == rest;
  }

  // A delivery to an open store, undisturbed.
  lemma WholeDelivery(s: State, j: nat) returns (es: seq<Event>)
    requires s.supplier == Away && |s.mutex| == |s.stock| && j < |s.stock| && s.mutex[j] == Free
    ensures Run(s, es) == s.(stock := s.stock[j := s.stock[j] + 200], deliveries := s.deliveries + 1)
  {
    var a := Next(s, Visit(j));
    var b := Next(a, Load);
    var c := Next(b, Stow);
    var d := Next(c, Depart);
    es := [Visit(j)] + ([Load] + ([Stow] + ([Depart] + [])));
    RunOne(s, Visit(j), [Load] + ([Stow] + ([Depart] + [])));
    RunOne(a, Load, [Stow] + ([Depart] + []));
    RunOne(b, Stow, [Depart] + []);
    RunOne(c, Depart, []);
    assert d.mutex == s.mutex;
  }

  // A visit to an open store with goods, undisturbed: the customer buys them all
  // and goes home when its desire is met.
  lemma WholeVisit(s: State, i: nat, j: nat) returns (es: seq<Event>)
    requires i < |s.customers| && s.customers[i].phase == Roaming
    requires |s.mutex| == |s.stock| && j < |s.stock| && s.mutex[j] == Free && s.stock[j] > 0
    ensures var c, v := s.customers[i], s.stock[j];
            var home := if c.desire - v <= 0 then Gone else Roaming;
            Run(s, es) == s.(stock := s.stock[j := 0],
                             customers := s.customers[i := Customer(home, c.desire - v, c.initial, c.bought + v, v)])
  {
    var a := Next(s, Enter(i, j));
    var b := Next(a, Test(i));
    var c := Next(b, Buy(i));
    var d := Next(c, Clear(i));
    var e := Next(d, Exit(i));
    es := [Enter(i, j)] + ([Test(i)] + ([Buy(i)] + ([Clear(i)] + ([Exit(i)] + ([Decide(i)] + [])))));
    RunOne(s, Enter(i, j), [Test(i)] + ([Buy(i)] + ([Clear(i)] + ([Exit(i)] + ([Decide(i)] + [])))));
    RunOne(a, Test(i), [Buy(i)] + ([Clear(i)] + ([Exit(i)] + ([Decide(i)] + []))));
    RunOne(b, Buy(i), [Clear(i)] + ([Exit(i)] + ([Decide(i)] + [])));
    RunOne(c, Clear(i), [Exit(i)] + ([Decide(i)] + []));
    RunOne(d, Exit(i), [Decide(i)] + []);
    RunOne(e, Decide(i), []);
    assert e.mutex == s.mutex;
  }

  // Nobody is in store 0, which exists, and the supplier is away.
  predicate Open(s: State) {
    s.supplier == Away && |s.mutex| == |s.stock| > 0 && s.mutex[0] == Free
  }

  lemma {:induction false} SatisfyOne(s: State, i: nat) returns (es: seq<Event>)
    requires Open(s) && i < |s.customers| && s.customers[i].phase == Roaming && s.customers[i].desire > 0
    ensures var t := Run(s, es);
            Open(t) && |t.customers| == |s.customers| && t.customers[i].phase == Gone &&
            forall k :: 0 <= k < |s.customers| && k != i ==> t.customers[k] == s.customers[k]
    decreases s.customers[i].desire
  {
    var delivery := WholeDelivery(s, 0);
    var a := Run(s, delivery);
    var visit := WholeVisit(a, i, 0);
    var b := Run(a, visit);
    RunAppend(s, delivery, visit);
    es := delivery + visit;
    if b.customers[i].phase == Roaming {
      var more := SatisfyOne(b, i);
      RunAppend(s, es, more);
      es := es + more;
    }
  }

  lemma {:induction false} SatisfyFirst(s: State, n: nat) returns (es: seq<Event>)
    requires Open(s) && n <= |s.customers|
    requires forall i :: 0 <= i < |s.customers| ==> s.customers[i].phase == Roaming && s.customers[i].desire > 0
    ensures var t := Run(s, es);
            Open(t) && |t.customers| == |s.customers| &&
            (forall i :: 0 <= i < n ==> t.customers[i].phase == Gone) &&
            forall i :: n <= i < |s.customers| ==> t.customers[i] == s.customers[i]
    decreases n
  {
    es := [];
    if n > 0 {
      es := SatisfyFirst(s, n - 1);
      var more := SatisfyOne(Run(s, es), n - 1);
      RunAppend(s, es, more);
      es := es + more;
    }
  }

  // However much the customers want, a run exists in which all of them go home.
  lemma AllCanGoHome(start: State)
    requires Start(start) && |start.stock| > 0
    ensures exists es :: var t := Run(start, es);
              |t.customers| == |start.customers| &&
              forall i :: 0 <= i < |t.customers| ==> t.customers[i].phase == Gone
  {
    var es := SatisfyFirst(start, |start.customers|);
  }

  // No two threads are ever in one store.
  lemma OneInStore(start: State, es: seq<Event>, s: State, i: nat, k: nat, j: nat)
    requires Start(start) && s == Run(start, es) && i < |s.customers| && k < |s.customers|
    requires StoreOf(s.customers[i].phase) == j
    ensures StoreOf(s.customers[k].phase) == j ==> i == k
    ensures SupplierAt(s.supplier) != j
  {
    GoodStart(start);
    RunKeeps(start, es);
  }
}
