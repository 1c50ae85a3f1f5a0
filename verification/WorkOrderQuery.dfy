/**
  The query behind the healing agent's polling loop: the ten most urgent pending orders newer than
  the last checked id. Since that id then moves to the largest one returned, an order can be passed
  over for good; this says exactly when.
 */
module WorkOrderQuery {
  import opened HealingAgent

  /** A row of work_orders, as far as the query looks at it; a smaller priority is more urgent. */
  datatype Order = Order(id: int, priority: int)

  const MAX_PRIORITY := 3
  const LIMIT := 10

  /** ORDER BY priority ASC, id ASC */
  predicate Before(a: Order, b: Order) {
    a.priority < b.priority || (a.priority == b.priority && a.id < b.id)
  }

  function Eligible(pending: set<Order>, after: int): set<Order> {
    set o | o in pending && o.id > after && o.priority <= MAX_PRIORITY
  }

  ghost predicate DistinctIds(pending: set<Order>) {
    forall o, p :: o in pending && p in pending && o.id == p.id ==> o == p
  }

  predicate IsFirst(m: Order, orders: set<Order>) {
    m in orders && forall p :: p in orders && p != m ==> Before(m, p)
  }

  /** The first n of the orders, in the order of the query. */
  ghost function Taken(orders: set<Order>, n: nat): seq<Order> {
    if n == 0 || orders == {} then []
    else
      HasFirst(orders);
      var m :| IsFirst(m, orders);
      [m] + Taken(orders - {m}, n - 1)
  }

  lemma {:induction false} HasFirst(orders: set<Order>)
    requires orders != {}
    ensures exists m :: IsFirst(m, orders)
  {
    var o :| o in orders;
    var rest := orders - {o};
    assert forall p :: p in orders && p != o ==> p in rest;
    if rest == {} {
      assert IsFirst(o, orders);
    } else {
      HasFirst(rest);
      var m :| IsFirst(m, rest);
      if Before(o, m) {
        assert IsFirst(o, orders);
      } else {
        assert IsFirst(m, orders);
      }
    }
  }

  ghost function Query(pending: set<Order>, after: int): seq<Order> {
    Taken(Eligible(pending, after), LIMIT)
  }

  function Ids(orders: seq<Order>): (ids: seq<int>)
    ensures |ids| == |orders|
  {
    seq(|orders|, i requires 0 <= i < |orders| => orders[i].id)
  }

  /** The orders that come before o. */
  function Ahead(orders: set<Order>, o: Order): set<Order> {
    set p | p in orders && Before(p, o)
  }

  // --- What the query returns ---

  lemma {:induction false} TakenByRank(orders: set<Order>, n: nat, o: Order)
    ensures o in Taken(orders, n) <==> o in orders && |Ahead(orders, o)| < n
  {
    if n == 0 || orders == {} {
    } else {
      HasFirst(orders);
      var m :| IsFirst(m, orders) && Taken(orders, n) == [m] + Taken(orders - {m}, n - 1);
      TakenByRank(orders - {m}, n - 1, o);
      if o == m {
        assert Ahead(orders, m) == {};
      } else if o in orders {
        assert Ahead(orders, o) == Ahead(orders - {m}, o) + {m};
      }
    }
  }

  lemma {:induction false} TakenOnce(orders: set<Order>, n: nat)
    ensures |Taken(orders, n)| <= n
    ensures forall i, j :: 0 <= i < j < |Taken(orders, n)| ==> Before(Taken(orders, n)[i], Taken(orders, n)[j])
  {
    if n == 0 || orders == {} {
    } else {
      HasFirst(orders);
      var m :| IsFirst(m, orders) && Taken(orders, n) == [m] + Taken(orders - {m}, n - 1);
      var rest := Taken(orders - {m}, n - 1);
      TakenOnce(orders - {m}, n - 1);
      forall j | 0 <= j < |rest|
        ensures Before(m, rest[j])
      {
        TakenByRank(orders - {m}, n - 1, rest[j]);
      }
    }
  }

  /**
    The query returns at most ten orders, by priority and then by id, and an order exactly when it is
    pending, newer, of priority 3 or more urgent, and fewer than ten such orders come before it.
   */
  lemma QueryReturns(pending: set<Order>, after: int, o: Order)
    ensures |Query(pending, after)| <= 10
    ensures
      var answer := Query(pending, after);
      forall i, j :: 0 <= i < j < |answer| ==>
        answer[i].priority < answer[j].priority || (answer[i].priority == answer[j].priority && answer[i].id < answer[j].id)
    ensures
      var eligible := set p | p in pending && p.id > after && p.priority <= 3;
      var ahead := set p | p in eligible && (p.priority < o.priority || (p.priority == o.priority && p.id < o.id));
      && eligible == Eligible(pending, after) && ahead == Ahead(Eligible(pending, after), o)
      && (o in Query(pending, after) <==> o in eligible && |ahead| < 10)
  {
    TakenOnce(Eligible(pending, after), LIMIT);
    TakenByRank(Eligible(pending, after), LIMIT, o);
    assert (set p | p in pending && p.id > after && p.priority <= 3) == Eligible(pending, after);
    assert (set p | p in Eligible(pending, after) && (p.priority < o.priority || (p.priority == o.priority && p.id < o.id)))
        == Ahead(Eligible(pending, after), o);
  }

  /** Since ids are a primary key, the answer is one the polling loop is proved for. */
  lemma QueryFits(pending: set<Order>, after: int)
    requires DistinctIds(pending)
    ensures QueryAnswer(Ids(Query(pending, after)), after)
  {
    hide Query, Eligible;
    var answer := Query(pending, after);
    forall i | 0 <= i < |answer|
      ensures answer[i] in pending && answer[i].id > after
    {
      QueryReturns(pending, after, answer[i]);
      assert answer[i] in Eligible(pending, after);
      EligibleIs(pending, after, answer[i]);
    }
    forall i, j | 0 <= i < j < |answer|
      ensures answer[i].id != answer[j].id
    {
      QueryReturns(pending, after, answer[i]);
    }
  }

  lemma EligibleIs(pending: set<Order>, after: int, o: Order)
    ensures o in Eligible(pending, after) <==> o in pending && o.id > after && o.priority <= MAX_PRIORITY
  {}

  // --- Orders passed over ---

  lemma {:induction false} TakenPrefix(orders: set<Order>, n: nat, k: nat)
    requires k <= |Taken(orders, n)|
    ensures k <= n && Taken(orders, n)[..k] == Taken(orders, k)
  {
    TakenOnce(orders, n);
    if k == 0 || orders == {} {
    } else {
      HasFirst(orders);
      var m :| IsFirst(m, orders) && Taken(orders, n) == [m] + Taken(orders - {m}, n - 1);
      TakenPrefix(orders - {m}, n - 1, k - 1);
      assert Taken(orders, n)[..k] == [m] + Taken(orders - {m}, n - 1)[..k - 1];
    }
  }

  /** The orders of one query that a cycle hands over, all of them unless an exception ends it after the first k. */
  ghost function Handed(pending: set<Order>, after: int, k: nat): seq<Order>
    requires k <= |Query(pending, after)|
  {
    Query(pending, after)[..k]
  }

  lemma HandedByRank(pending: set<Order>, after: int, k: nat, o: Order)
    requires k <= |Query(pending, after)|
    ensures o in Handed(pending, after, k) <==>
      o in Eligible(pending, after) && |Ahead(Eligible(pending, after), o)| < k
  {
    hide Eligible, Ahead;
    TakenPrefix(Eligible(pending, after), LIMIT, k);
    TakenByRank(Eligible(pending, after), k, o);
  }

  /** The last checked id after such a cycle. */
  ghost function LastAfter(pending: set<Order>, after: int, k: nat): int
    requires k <= |Query(pending, after)|
  {
    MaxId(after, Ids(Handed(pending, after, k)))
  }

  /** That cycle as the polling loop sees it. */
  lemma CycleIs(pending: set<Order>, after: int, k: nat)
    requires DistinctIds(pending) && k <= |Query(pending, after)|
    ensures
      var c := Cycle(Ids(Query(pending, after)), k);
      CycleFits(c, after) && Started(c) == Ids(Handed(pending, after, k))
  {
    hide Query, QueryAnswer;
    QueryFits(pending, after);
  }

  /** Eligible, not handed over, and no longer newer than the last checked id. */
  ghost predicate Lost(pending: set<Order>, after: int, k: nat, o: Order)
    requires k <= |Query(pending, after)|
  {
    o in Eligible(pending, after) && o !in Handed(pending, after, k) && o.id <= LastAfter(pending, after, k)
  }

  /**
    A cycle that hands over k orders, ten in a full one or fewer when an exception ends it, loses an
    order if and only if k eligible ones are ahead of it in the queue and one of the first k has a
    larger id.
   */
  lemma LostExactly(pending: set<Order>, after: int, k: nat, o: Order)
    requires DistinctIds(pending) && k <= |Query(pending, after)| && o in Eligible(pending, after)
    ensures
      var eligible := Eligible(pending, after);
      Lost(pending, after, k, o) <==>
        |Ahead(eligible, o)| >= k && exists p :: p in eligible && |Ahead(eligible, p)| < k && p.id > o.id
  {
    hide Query, Eligible, Ahead, Handed;
    var eligible, handed := Eligible(pending, after), Handed(pending, after, k);
    HandedByRank(pending, after, k, o);
    EligibleIs(pending, after, o);
    if Lost(pending, after, k, o) {
      var i := WhereMax(pending, after, k);
      HandedByRank(pending, after, k, handed[i]);
      EligibleIs(pending, after, handed[i]);
      assert handed[i] in handed && handed[i].id != o.id;
    }
    forall p | p in eligible && |Ahead(eligible, p)| < k && p.id > o.id
      ensures LastAfter(pending, after, k) > o.id
    {
      HandedByRank(pending, after, k, p);
      HandedWithin(pending, after, k, p);
    }
  }

  lemma WhereMax(pending: set<Order>, after: int, k: nat) returns (i: nat)
    requires k <= |Query(pending, after)|
    ensures LastAfter(pending, after, k) > after ==>
      i < |Handed(pending, after, k)| && Handed(pending, after, k)[i].id == LastAfter(pending, after, k)
  {
    hide Query, Handed;
    i := 0;
    var handed := Handed(pending, after, k);
    if LastAfter(pending, after, k) > after {
      i :| 0 <= i < |handed| && Ids(handed)[i] == LastAfter(pending, after, k);
    }
  }

  lemma HandedWithin(pending: set<Order>, after: int, k: nat, p: Order)
    requires k <= |Query(pending, after)| && p in Handed(pending, after, k)
    ensures p.id <= LastAfter(pending, after, k)
  {
    hide Query, Handed;
    var handed := Handed(pending, after, k);
    var i :| 0 <= i < |handed| && handed[i] == p;
    assert Ids(handed)[i] == p.id;
  }

  /** An id not above the last checked one is handled in no run of later cycles and returned by no later query. */
  lemma PassedForever(start: int, id: int, cycles: seq<Cycle>, later: set<Order>)
    requires id <= start && RunFits(start, cycles)
    ensures
      var (ids, last) := HandledIds(start, cycles);
      id !in ids && forall p :: p in Query(later, last) ==> p.id != id
  {
    hide Query, Eligible, QueryAnswer;
    OnlyNewerHandled(start, cycles);
    HandledAtMostOnce(start, cycles);
    var last := HandledIds(start, cycles).1;
    forall p | p in Query(later, last)
      ensures p.id > last
    {
      QueryReturns(later, last, p);
      EligibleIs(later, last, p);
    }
  }

  /** Once lost, an order is never handled: not in any run of later cycles, however the table changes. */
  lemma LostForever(pending: set<Order>, after: int, k: nat, o: Order, cycles: seq<Cycle>, later: set<Order>)
    requires k <= |Query(pending, after)| && Lost(pending, after, k, o)
    requires RunFits(LastAfter(pending, after, k), cycles)
    ensures
      var (ids, last) := HandledIds(LastAfter(pending, after, k), cycles);
      o.id !in ids && forall p :: p in Query(later, last) ==> p.id != o.id
  {
    hide Query, Eligible, LastAfter, RunFits;
    PassedForever(LastAfter(pending, after, k), o.id, cycles, later);
  }

  /**
    Requeued in name only: with no session manager an order whose session fails is set back to
    pending, but no later cycle of the run handles it and no later query returns it.
   */
  lemma RequeuedNotRetried(pending: set<Order>, after: int, k: nat, o: Order, cycles: seq<Cycle>, later: set<Order>,
                           chain: int, threshold: int, attempts: nat -> Attempt)
    requires k <= |Query(pending, after)| && o in Handed(pending, after, k)
    requires RunFits(LastAfter(pending, after, k), cycles)
    requires 1 <= threshold && attempts(0).course == SessionFails
    ensures LastStatus(Handled(0, chain, false, threshold, attempts).effects) == Pending
    ensures
      var (ids, last) := HandledIds(LastAfter(pending, after, k), cycles);
      o.id !in ids && forall p :: p in Query(later, last) ==> p.id != o.id
  {
    hide Query, Eligible, LastAfter, RunFits, LastStatus;
    FailureRequeued(chain, threshold, attempts);
    HandedWithin(pending, after, k, o);
    PassedForever(LastAfter(pending, after, k), o.id, cycles, later);
  }

  lemma FailureRequeued(chain: int, threshold: int, attempts: nat -> Attempt)
    requires 1 <= threshold && attempts(0).course == SessionFails
    ensures LastStatus(Handled(0, chain, false, threshold, attempts).effects) == Pending
  {}

  /** An order that a cycle does not hand over is lost if and only if no later query can return it. */
  lemma LostIffNeverReturned(pending: set<Order>, after: int, k: nat, o: Order)
    requires k <= |Query(pending, after)| && o in Eligible(pending, after) && o !in Handed(pending, after, k)
    ensures Lost(pending, after, k, o) <==> forall later :: o !in Query(later, LastAfter(pending, after, k))
  {
    hide Query, Eligible, LastAfter, Handed;
    var last := LastAfter(pending, after, k);
    EligibleIs(pending, after, o);
    QueryReturns({o}, last, o);
    EligibleIs({o}, last, o);
    OnlyOne(o, last);
    forall later
      ensures o in Query(later, last) ==> o.id > last
    {
      QueryReturns(later, last, o);
      EligibleIs(later, last, o);
    }
  }

  lemma OnlyOne(o: Order, last: int)
    ensures Ahead(Eligible({o}, last), o) == {}
  {}

  // --- Orders lost ---

  /** How many orders a query returns. */
  lemma {:induction false} TakenAll(orders: set<Order>, n: nat)
    ensures |Taken(orders, n)| == if |orders| < n then |orders| else n
  {
    if n == 0 || orders == {} {
    } else {
      HasFirst(orders);
      var m :| IsFirst(m, orders) && Taken(orders, n) == [m] + Taken(orders - {m}, n - 1);
      TakenAll(orders - {m}, n - 1);
    }
  }

  /** Two pending orders, the older one less urgent, and an exception after the first: the older one is lost. */
  lemma InterruptedCycleLoses()
    ensures
      var pending := {Order(1, 2), Order(2, 1)};
      |Query(pending, 0)| == 2 && Lost(pending, 0, 1, Order(1, 2)) && !Lost(pending, 0, 2, Order(1, 2))
  {
    hide Lost, Ahead;
    var pending, o, p := {Order(1, 2), Order(2, 1)}, Order(1, 2), Order(2, 1);
    assert Eligible(pending, 0) == pending;
    TakenAll(pending, LIMIT);
    TwoAhead();
    LostExactly(pending, 0, 1, o);
    LostExactly(pending, 0, 2, o);
    assert p in Eligible(pending, 0) && |Ahead(pending, p)| < 1 && p.id > o.id;
  }

  lemma TwoAhead()
    ensures
      var pending := {Order(1, 2), Order(2, 1)};
      |Ahead(pending, Order(1, 2))| == 1 && |Ahead(pending, Order(2, 1))| == 0
  {
    assert Ahead({Order(1, 2), Order(2, 1)}, Order(1, 2)) == {Order(2, 1)};
    assert Ahead({Order(1, 2), Order(2, 1)}, Order(2, 1)) == {};
  }

  /** Eleven pending orders, the oldest of them the least urgent: the first cycle loses it. */
  lemma OldestOrderLost()
    ensures
      var pending := {Order(1, 3)} + Urgent(10);
      |Query(pending, 0)| == 10 && Lost(pending, 0, 10, Order(1, 3))
  {
    hide Urgent, Lost, Eligible, Ahead;
    var pending, o, last := {Order(1, 3)} + Urgent(10), Order(1, 3), Order(11, 1);
    UrgentCount(10);
    UrgentCount(9);
    UrgentQueue(pending);
    assert |pending| == 11;
    TakenAll(pending, LIMIT);
    LostExactly(pending, 0, LIMIT, o);
    assert last in Eligible(pending, 0) && |Ahead(Eligible(pending, 0), last)| < LIMIT && last.id > o.id;
  }

  lemma UrgentQueue(pending: set<Order>)
    requires pending == {Order(1, 3)} + Urgent(10)
    ensures Eligible(pending, 0) == pending
    ensures Ahead(pending, Order(1, 3)) == Urgent(10) && Ahead(pending, Order(11, 1)) == Urgent(9)
  {
    hide Urgent;
    UrgentCount(10);
    UrgentCount(9);
  }

  /** n orders of priority 1, with the ids from 2 on. */
  function Urgent(n: nat): set<Order> {
    if n == 0 then {} else Urgent(n - 1) + {Order(n + 1, 1)}
  }

  lemma {:induction false} UrgentCount(n: nat)
    ensures |Urgent(n)| == n
    ensures forall o :: o in Urgent(n) <==> o.priority == 1 && 2 <= o.id <= n + 1
  {
    if n > 0 {
      UrgentCount(n - 1);
    }
  }
}
