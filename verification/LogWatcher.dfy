/**
  The log watcher's brakes: duplicate suppression and the rate limit in front of work-order
  creation, with pruned memories, shown to decide as if nothing were ever pruned, and what they
  guarantee over whole runs.

  The clock never goes back: each reading is the one before plus a non-negative amount. The MD5 of
  component and message stands for itself: entries are told apart by their dedup key.
 */
module LogWatcher {

  const DEDUP_WINDOW := 300.0
  const RATE_LIMIT_MAX := 5
  const RATE_LIMIT_WINDOW := 60.0

  type Span = r: real | r >= 0.0 witness 0.0

  datatype WorkOrder = WorkOrder(key: string, detected: real, created: real)

  /**
    A log entry with the time passing before each of the three clock readings it causes, and
    whether the engine, if asked, creates a work order; or the clean-up between scans.
   */
  datatype Event =
    | Entry(isError: bool, key: string, toDetect: Span, toLimit: Span, toCreate: Span, creates: bool)
    | Cleanup(after: Span)

  datatype Watcher = Watcher(seen: map<string, real>, stamps: seq<real>, clock: real, orders: seq<WorkOrder>)

  const IDLE := Watcher(map[], [], 0.0, [])

  /** The time stamps still inside the rate window at now. */
  function Recent(stamps: seq<real>, now: real): seq<real> {
    if |stamps| == 0 then []
    else
      var r := Recent(stamps[..|stamps| - 1], now);
      if now - stamps[|stamps| - 1] < RATE_LIMIT_WINDOW then r + [stamps[|stamps| - 1]] else r
  }

  predicate Duplicate(seen: map<string, real>, key: string, now: real) {
    key in seen && now - seen[key] < DEDUP_WINDOW
  }

  function Unexpired(seen: map<string, real>, now: real): map<string, real> {
    map key | key in seen && now - seen[key] < DEDUP_WINDOW :: seen[key]
  }

  /** _handle_error and _handle_warning: an error is remembered when detected, a warning when it becomes an order. */
  function Handle(w: Watcher, e: Event): Watcher
    requires e.Entry?
  {
    var now1 := w.clock + e.toDetect;
    if Duplicate(w.seen, e.key, now1) then w.(clock := now1)
    else
      var seen1 := if e.isError then w.seen[e.key := now1] else w.seen;
      var now2 := now1 + e.toLimit;
      var stamps := Recent(w.stamps, now2);
      if |stamps| >= RATE_LIMIT_MAX || !e.creates then w.(seen := seen1, stamps := stamps, clock := now2)
      else
        var now3 := now2 + e.toCreate;
        Watcher(w.seen[e.key := now1], stamps + [now3], now3, w.orders + [WorkOrder(e.key, now1, now3)])
  }

  predicate Suppressed(w: Watcher, e: Event)
    requires e.Entry?
  {
    Duplicate(w.seen, e.key, w.clock + e.toDetect)
  }

  /** Not a duplicate, but five orders were created in the last minute. */
  predicate Throttled(w: Watcher, e: Event)
    requires e.Entry?
  {
    !Suppressed(w, e) && |Recent(w.stamps, w.clock + e.toDetect + e.toLimit)| >= RATE_LIMIT_MAX
  }

  function Step(w: Watcher, e: Event): Watcher {
    match e
    case Entry(_, _, _, _, _, _) => Handle(w, e)
    case Cleanup(after) =>
      var now := w.clock + after;
      w.(seen := Unexpired(w.seen, now), stamps := Recent(w.stamps, now), clock := now)
  }

  function Run(events: seq<Event>): Watcher {
    if |events| == 0 then IDLE else Step(Run(events[..|events| - 1]), events[|events| - 1])
  }

  // --- The same decisions without pruning ---

  function CreationTimes(orders: seq<WorkOrder>): (t: seq<real>)
    ensures |t| == |orders|
  {
    seq(|orders|, i requires 0 <= i < |orders| => orders[i].created)
  }

  /** A watcher that forgets nothing: full memory of keys, and all orders in place of the stamps. */
  datatype Memory = Memory(seen: map<string, real>, clock: real, orders: seq<WorkOrder>)

  function Remember(m: Memory, e: Event): Memory {
    match e
    case Cleanup(after) => m.(clock := m.clock + after)
    case Entry(isError, key, toDetect, toLimit, toCreate, creates) =>
      var now1 := m.clock + toDetect;
      if Duplicate(m.seen, key, now1) then m.(clock := now1)
      else
        var seen1 := if isError then m.seen[key := now1] else m.seen;
        var now2 := now1 + toLimit;
        if |Recent(CreationTimes(m.orders), now2)| >= RATE_LIMIT_MAX || !creates then Memory(seen1, now2, m.orders)
        else
          var now3 := now2 + toCreate;
          Memory(m.seen[key := now1], now3, m.orders + [WorkOrder(key, now1, now3)])
  }

  function RunMemory(events: seq<Event>): Memory {
    if |events| == 0 then Memory(map[], 0.0, [])
    else Remember(RunMemory(events[..|events| - 1]), events[|events| - 1])
  }

  /** What the pruned watcher still knows decides every question from its clock on as the full memory does. */
  ghost predicate Agrees(w: Watcher, m: Memory) {
    && w.clock == m.clock && w.orders == m.orders
    && SameDuplicates(w.seen, m.seen, w.clock)
    && SameRecent(w.stamps, CreationTimes(m.orders), w.clock)
  }

  ghost predicate SameDuplicates(a: map<string, real>, b: map<string, real>, from: real) {
    forall key, t :: t >= from ==> (Duplicate(a, key, t) <==> Duplicate(b, key, t))
  }

  ghost predicate SameRecent(a: seq<real>, b: seq<real>, from: real) {
    forall t :: t >= from ==> Recent(a, t) == Recent(b, t)
  }

  lemma PrunedDuplicates(a: map<string, real>, b: map<string, real>, from: real, now: real)
    requires SameDuplicates(a, b, from) && from <= now
    ensures SameDuplicates(Unexpired(a, now), b, now)
  {}

  lemma SameAt(a: map<string, real>, b: map<string, real>, from: real, key: string, now: real)
    requires SameDuplicates(a, b, from) && from <= now
    ensures Duplicate(a, key, now) <==> Duplicate(b, key, now)
  {}

  lemma LaterDuplicates(a: map<string, real>, b: map<string, real>, from: real, now: real)
    requires SameDuplicates(a, b, from) && from <= now
    ensures SameDuplicates(a, b, now)
  {}

  lemma SeenDuplicates(a: map<string, real>, b: map<string, real>, from: real, key: string, now: real, later: real)
    requires SameDuplicates(a, b, from) && from <= later
    ensures SameDuplicates(a[key := now], b[key := now], later)
  {
    var a', b' := a[key := now], b[key := now];
    forall k, t | t >= later
      ensures Duplicate(a', k, t) <==> Duplicate(b', k, t)
    {
      assert Duplicate(a, k, t) <==> Duplicate(b, k, t);
    }
  }

  lemma {:induction false} RecentTwice(stamps: seq<real>, now: real, later: real)
    requires now <= later
    ensures Recent(Recent(stamps, now), later) == Recent(stamps, later)
  {
    if |stamps| == 0 {
    } else {
      var init, last := stamps[..|stamps| - 1], stamps[|stamps| - 1];
      RecentTwice(init, now, later);
      var r := Recent(init, now);
      assert (r + [last])[..|r|] == r;
    }
  }

  lemma RecentExtends(a: seq<real>, b: seq<real>, from: real, x: real, from': real)
    requires SameRecent(a, b, from) && from <= from'
    ensures SameRecent(a + [x], b + [x], from')
  {}

  lemma PrunedRecent(a: seq<real>, b: seq<real>, from: real, now: real)
    requires SameRecent(a, b, from) && from <= now
    ensures SameRecent(Recent(a, now), b, now)
  {
    forall t | t >= now
      ensures Recent(Recent(a, now), t) == Recent(b, t)
    {
      RecentTwice(a, now, t);
    }
  }

  lemma LaterRecent(a: seq<real>, b: seq<real>, from: real, now: real)
    requires SameRecent(a, b, from) && from <= now
    ensures SameRecent(a, b, now)
  {}

  lemma RecentAt(a: seq<real>, b: seq<real>, from: real, now: real)
    requires SameRecent(a, b, from) && from <= now
    ensures Recent(a, now) == Recent(b, now)
  {}

  lemma CleanupAgrees(w: Watcher, m: Memory, e: Event)
    requires Agrees(w, m) && e.Cleanup?
    ensures Agrees(Step(w, e), Remember(m, e))
  {
    hide Recent, SameRecent, Duplicate, SameDuplicates, Unexpired;
    PrunedRecent(w.stamps, CreationTimes(m.orders), w.clock, w.clock + e.after);
    PrunedDuplicates(w.seen, m.seen, w.clock, w.clock + e.after);
  }

  lemma EntryAgrees(w: Watcher, m: Memory, e: Event)
    requires Agrees(w, m) && e.Entry?
    ensures Agrees(Step(w, e), Remember(m, e))
  {
    hide Recent, SameRecent, Duplicate, SameDuplicates, CreationTimes;
    var w', m', all := Step(w, e), Remember(m, e), CreationTimes(m.orders);
    var now1, now2 := w.clock + e.toDetect, w.clock + e.toDetect + e.toLimit;
    SameAt(w.seen, m.seen, w.clock, e.key, now1);
    LaterDuplicates(w.seen, m.seen, w.clock, w'.clock);
    if Duplicate(w.seen, e.key, now1) {
      LaterRecent(w.stamps, all, w.clock, now1);
    } else {
      RecentAt(w.stamps, all, w.clock, now2);
      SeenDuplicates(w.seen, m.seen, w.clock, e.key, now1, w'.clock);
      PrunedRecent(w.stamps, all, w.clock, now2);
      if |Recent(all, now2)| < RATE_LIMIT_MAX && e.creates {
        RecentExtends(Recent(w.stamps, now2), all, now2, w'.clock, w'.clock);
        OneMoreCreated(m.orders, m'.orders[|m.orders|]);
      }
    }
  }

  lemma OneMoreCreated(orders: seq<WorkOrder>, o: WorkOrder)
    ensures CreationTimes(orders + [o]) == CreationTimes(orders) + [o.created]
  {}

  /** Pruning changes no decision: in every run the same orders are created as with a full memory. */
  lemma {:induction false} PruningChangesNothing(events: seq<Event>)
    ensures Agrees(Run(events), RunMemory(events))
  {
    hide Step, Remember;
    if |events| == 0 {
    } else {
      PruningChangesNothing(events[..|events| - 1]);
      var w, m, e := Run(events[..|events| - 1]), RunMemory(events[..|events| - 1]), events[|events| - 1];
      if e.Cleanup? {
        CleanupAgrees(w, m, e);
      } else {
        EntryAgrees(w, m, e);
      }
    }
  }

  /**
    After any run, an entry that the engine accepts becomes a work order if and only if the full
    memory has not seen its key within the dedup window and fewer than five of all orders are recent.
   */
  lemma OrderCreatedExactly(events: seq<Event>, e: Event)
    requires e.Entry?
    ensures
      var w := Run(events);
      var now1, now2 := w.clock + e.toDetect, w.clock + e.toDetect + e.toLimit;
      Run(events + [e]).orders ==
        if && e.creates && !Duplicate(RunMemory(events).seen, e.key, now1)
           && |Recent(CreationTimes(w.orders), now2)| < RATE_LIMIT_MAX
        then w.orders + [WorkOrder(e.key, now1, now2 + e.toCreate)] else w.orders
  {
    hide Recent, SameRecent, Duplicate, SameDuplicates, CreationTimes, Handle, Remember, Run, RunMemory;
    var w, m := Run(events), RunMemory(events);
    RunNext(events, e);
    HandleDecides(w, e);
    PruningChangesNothing(events);
    SameAt(w.seen, m.seen, w.clock, e.key, w.clock + e.toDetect);
    RecentAt(w.stamps, CreationTimes(m.orders), w.clock, w.clock + e.toDetect + e.toLimit);
  }

  lemma RunNext(events: seq<Event>, e: Event)
    requires e.Entry?
    ensures Run(events + [e]) == Handle(Run(events), e)
  {
    hide Handle;
    assert (events + [e])[..|events|] == events;
  }

  /** The decision in terms of what the watcher has kept. */
  lemma HandleDecides(w: Watcher, e: Event)
    requires e.Entry?
    ensures
      Handle(w, e).orders ==
        if e.creates && !Suppressed(w, e) && !Throttled(w, e)
        then w.orders + [WorkOrder(e.key, w.clock + e.toDetect, w.clock + e.toDetect + e.toLimit + e.toCreate)] else w.orders
  {
    hide Recent, Duplicate;
  }

  // --- The rate limit ---

  ghost predicate Sorted(stamps: seq<real>, clock: real) {
    && (forall i, j :: 0 <= i <= j < |stamps| ==> stamps[i] <= stamps[j])
    && (forall i :: 0 <= i < |stamps| ==> stamps[i] <= clock)
  }

  /** Any six orders in a row take at least the rate window. */
  ghost predicate Limited(stamps: seq<real>) {
    forall i {:trigger stamps[i]} :: 0 <= i && i + RATE_LIMIT_MAX < |stamps| ==> stamps[i + RATE_LIMIT_MAX] - stamps[i] >= RATE_LIMIT_WINDOW
  }

  lemma {:induction false} RecentCounts(stamps: seq<real>, now: real, k: nat)
    requires k <= |stamps| && forall i :: |stamps| - k <= i < |stamps| ==> now - stamps[i] < RATE_LIMIT_WINDOW
    ensures |Recent(stamps, now)| >= k
  {
    if k == 0 {
    } else {
      RecentCounts(stamps[..|stamps| - 1], now, k - 1);
    }
  }

  lemma NewStampLimited(stamps: seq<real>, clock: real, now2: real, now3: real)
    requires Sorted(stamps, clock) && Limited(stamps) && clock <= now2 <= now3
    requires |Recent(stamps, now2)| < RATE_LIMIT_MAX
    ensures Sorted(stamps + [now3], now3) && Limited(stamps + [now3])
  {
    var n := |stamps|;
    if n >= RATE_LIMIT_MAX && now2 - stamps[n - RATE_LIMIT_MAX] < RATE_LIMIT_WINDOW {
      RecentCounts(stamps, now2, RATE_LIMIT_MAX);
      assert false;
    }
    var more := stamps + [now3];
    forall i | 0 <= i && i + RATE_LIMIT_MAX < |more|
      ensures more[i + RATE_LIMIT_MAX] - more[i] >= RATE_LIMIT_WINDOW
    {
      if i + RATE_LIMIT_MAX < n {
        assert stamps[i + RATE_LIMIT_MAX] - stamps[i] >= RATE_LIMIT_WINDOW;
      }
    }
  }

  // --- Suppression ---

  /** Orders with one key come from entries detected a dedup window apart, and the memory knows the latest. */
  ghost predicate Apart(orders: seq<WorkOrder>) {
    forall i, j :: 0 <= i < j < |orders| && orders[i].key == orders[j].key ==>
      orders[j].detected - orders[i].detected >= DEDUP_WINDOW
  }

  ghost predicate Known(seen: map<string, real>, orders: seq<WorkOrder>, clock: real) {
    && (forall i :: 0 <= i < |orders| ==> orders[i].key in seen && orders[i].detected <= seen[orders[i].key])
    && (forall key :: key in seen ==> seen[key] <= clock)
  }

  ghost predicate Inv(m: Memory) {
    && Sorted(CreationTimes(m.orders), m.clock) && Limited(CreationTimes(m.orders))
    && Apart(m.orders) && Known(m.seen, m.orders, m.clock)
  }

  lemma InvInit()
    ensures Inv(Memory(map[], 0.0, []))
  {
    hide Sorted, Limited, Apart, Known, CreationTimes;
    NoTimes();
    NoneKept();
  }

  lemma NoTimes()
    ensures CreationTimes([]) == []
  {}

  lemma NoneKept()
    ensures Sorted([], 0.0) && Limited([]) && Apart([]) && Known(map[], [], 0.0)
  {}

  lemma SortedLater(stamps: seq<real>, clock: real, later: real)
    requires Sorted(stamps, clock) && clock <= later
    ensures Sorted(stamps, later)
  {}

  lemma KnownUpdated(seen: map<string, real>, orders: seq<WorkOrder>, clock: real, key: string, now: real, later: real)
    requires Known(seen, orders, clock) && clock <= now <= later
    ensures Known(seen, orders, later)
    ensures Known(seen[key := now], orders, later)
  {}

  lemma ApartExtends(seen: map<string, real>, orders: seq<WorkOrder>, clock: real, o: WorkOrder)
    requires Apart(orders) && Known(seen, orders, clock) && !Duplicate(seen, o.key, o.detected)
    ensures Apart(orders + [o])
  {}

  lemma KnownExtends(seen: map<string, real>, orders: seq<WorkOrder>, clock: real, o: WorkOrder)
    requires Known(seen, orders, clock) && o.key in seen && o.detected <= seen[o.key]
    ensures Known(seen, orders + [o], clock)
  {}

  lemma RememberKeepsInv(m: Memory, e: Event)
    requires Inv(m)
    ensures Inv(Remember(m, e))
  {
    hide Recent, Sorted, Limited, Apart, Known, CreationTimes;
    var m', all := Remember(m, e), CreationTimes(m.orders);
    SortedLater(all, m.clock, m'.clock);
    if e.Cleanup? {
      KnownUpdated(m.seen, m.orders, m.clock, "", m'.clock, m'.clock);
    } else {
      var now1, now2 := m.clock + e.toDetect, m.clock + e.toDetect + e.toLimit;
      KnownUpdated(m.seen, m.orders, m.clock, e.key, now1, m'.clock);
      if !Duplicate(m.seen, e.key, now1) && |Recent(all, now2)| < RATE_LIMIT_MAX && e.creates {
        var o := WorkOrder(e.key, now1, m'.clock);
        NewStampLimited(all, m.clock, now2, m'.clock);
        OneMoreCreated(m.orders, o);
        ApartExtends(m.seen, m.orders, m.clock, o);
        KnownExtends(m'.seen, m.orders, m'.clock, o);
      }
    }
  }

  lemma {:induction false} RunMemoryInv(events: seq<Event>)
    ensures Inv(RunMemory(events))
  {
    hide Remember, Inv;
    if |events| == 0 {
      InvInit();
    } else {
      RunMemoryInv(events[..|events| - 1]);
      RememberKeepsInv(RunMemory(events[..|events| - 1]), events[|events| - 1]);
    }
  }

  lemma FarApart(stamps: seq<real>, clock: real, i: nat, j: nat)
    requires Sorted(stamps, clock) && Limited(stamps) && i + RATE_LIMIT_MAX <= j < |stamps|
    ensures stamps[j] - stamps[i] >= RATE_LIMIT_WINDOW
  {}

  /** In every run, a window of 60 seconds holds at most 5 created orders: two in it are fewer than 5 places apart. */
  lemma AtMostFiveAMinute(events: seq<Event>, start: real, i: nat, j: nat)
    requires i <= j < |Run(events).orders|
    requires start <= Run(events).orders[i].created && Run(events).orders[j].created < start + 60.0
    ensures j - i < 5
  {
    hide Run, RunMemory, SameDuplicates, SameRecent, Sorted, Limited, Apart, Known;
    PruningChangesNothing(events);
    RunMemoryInv(events);
    if j - i >= RATE_LIMIT_MAX {
      FarApart(CreationTimes(Run(events).orders), RunMemory(events).clock, i, j);
    }
  }

  /** In every run, two orders with the same dedup key come from entries detected at least 300 seconds apart. */
  lemma SameKeyApart(events: seq<Event>, i: nat, j: nat)
    requires i < j < |Run(events).orders| && Run(events).orders[i].key == Run(events).orders[j].key
    ensures Run(events).orders[j].detected - Run(events).orders[i].detected >= 300.0
  {
    PruningChangesNothing(events);
    RunMemoryInv(events);
  }

  /** The time stamps kept are the recent ones of all orders ever created. */
  lemma StampsAreFilter(events: seq<Event>, now: real)
    requires now >= Run(events).clock
    ensures Recent(Run(events).stamps, now) == Recent(CreationTimes(Run(events).orders), now)
  {
    PruningChangesNothing(events);
  }

  // --- The edges of the windows ---

  /** An entry is suppressed exactly when its key was remembered less than 300 seconds before it is detected. */
  lemma SuppressedExactly(w: Watcher, e: Event)
    requires e.Entry?
    ensures Suppressed(w, e) <==> e.key in w.seen && w.clock + e.toDetect - w.seen[e.key] < 300.0
  {}

  /** The stamps kept are those less than 60 seconds old. */
  lemma {:induction false} RecentExactly(stamps: seq<real>, now: real, x: real)
    ensures x in Recent(stamps, now) <==> x in stamps && now - x < 60.0
  {
    if |stamps| > 0 {
      RecentExactly(stamps[..|stamps| - 1], now, x);
    }
  }

  /**
    An error that is not suppressed is remembered at its detection whatever becomes of it, a warning
    only when it becomes an order; nothing else is remembered.
   */
  lemma RememberedExactly(w: Watcher, e: Event)
    requires e.Entry?
    ensures
      var w' := Handle(w, e);
      w'.seen == if !Suppressed(w, e) && (e.isError || w'.orders != w.orders) then w.seen[e.key := w.clock + e.toDetect] else w.seen
  {
    hide Recent, Duplicate;
    var w' := Handle(w, e);
    assert w'.orders != w.orders ==> |w'.orders| == |w.orders| + 1;
    HandleDecides(w, e);
  }

  /** A cleanup keeps the keys remembered less than 300 seconds ago and the stamps less than 60 seconds old, as they are. */
  lemma CleanupKeepsExactly(w: Watcher, after: Span, key: string, x: real)
    ensures
      var w' := Step(w, Cleanup(after));
      && w'.clock == w.clock + after && w'.orders == w.orders
      && (key in w'.seen <==> key in w.seen && w'.clock - w.seen[key] < 300.0)
      && (key in w'.seen ==> w'.seen[key] == w.seen[key])
      && (x in w'.stamps <==> x in w.stamps && w'.clock - x < 60.0)
  {
    RecentExactly(w.stamps, w.clock + after, x);
  }

  /** Detected 299 seconds after the first, a second entry of one key is suppressed; 300 seconds after, it becomes an order. */
  lemma DedupEdge(key: string, isError: bool)
    ensures
      var first := Entry(isError, key, 0.0, 0.0, 0.0, true);
      var early, late := Entry(isError, key, 299.0, 0.0, 0.0, true), Entry(isError, key, 300.0, 0.0, 0.0, true);
      && Run([] + [first]).orders == [WorkOrder(key, 0.0, 0.0)]
      && Run([] + [first] + [early]).orders == [WorkOrder(key, 0.0, 0.0)]
      && Run([] + [first] + [late]).orders == [WorkOrder(key, 0.0, 0.0), WorkOrder(key, 300.0, 300.0)]
  {
    hide Run, Handle;
    var first := Entry(isError, key, 0.0, 0.0, 0.0, true);
    var early, late := Entry(isError, key, 299.0, 0.0, 0.0, true), Entry(isError, key, 300.0, 0.0, 0.0, true);
    RunNext([], first);
    RunNext([] + [first], early);
    RunNext([] + [first], late);
    OneOrder(key, isError);
  }

  lemma OneOrder(key: string, isError: bool)
    ensures
      var w := Watcher(map[key := 0.0], [0.0], 0.0, [WorkOrder(key, 0.0, 0.0)]);
      && Run([]) == IDLE && Handle(IDLE, Entry(isError, key, 0.0, 0.0, 0.0, true)) == w
      && Handle(w, Entry(isError, key, 299.0, 0.0, 0.0, true)).orders == w.orders
      && Handle(w, Entry(isError, key, 300.0, 0.0, 0.0, true)).orders == w.orders + [WorkOrder(key, 300.0, 300.0)]
  {
    assert Recent([], 0.0) == [];
    assert [0.0][..0] == [] && Recent([0.0], 300.0) == [];
  }

  /** An entry is limited exactly when it is not suppressed and five orders are under 60 seconds old. */
  lemma ThrottledExactly(w: Watcher, e: Event)
    requires e.Entry?
    ensures Throttled(w, e) <==> !Suppressed(w, e) && |Recent(w.stamps, w.clock + e.toDetect + e.toLimit)| >= 5
  {}

  /** With five orders created at one time, an entry 59 seconds later is limited and one 60 seconds later is not. */
  lemma RateEdge(w: Watcher, at: real, e: Event)
    requires w.stamps == [at, at, at, at, at] && w.clock == at
    requires e.Entry? && e.creates && e.toLimit == 0.0 && !Suppressed(w, e)
    ensures e.toDetect == 59.0 ==> Handle(w, e).orders == w.orders
    ensures e.toDetect == 60.0 ==> |Handle(w, e).orders| == |w.orders| + 1
  {
    hide Duplicate, Recent;
    FiveStamps(at);
  }

  /** A fifth order at one time is still created. */
  lemma FifthCreated(w: Watcher, e: Event)
    requires |w.stamps| == 4 && e.Entry? && e.creates && !Suppressed(w, e)
    ensures |Handle(w, e).orders| == |w.orders| + 1
  {
    hide Duplicate, Recent;
    RecentWithin(w.stamps, w.clock + e.toDetect + e.toLimit);
  }

  lemma FiveStamps(at: real)
    ensures |Recent([at, at, at, at, at], at + 59.0)| == 5 && Recent([at, at, at, at, at], at + 60.0) == []
  {
    var s := [at, at, at, at, at];
    RecentCounts(s, at + 59.0, 5);
    RecentWithin(s, at + 59.0);
    if Recent(s, at + 60.0) != [] {
      RecentExactly(s, at + 60.0, Recent(s, at + 60.0)[0]);
    }
  }

  lemma {:induction false} RecentWithin(stamps: seq<real>, now: real)
    ensures |Recent(stamps, now)| <= |stamps|
  {
    if |stamps| > 0 {
      RecentWithin(stamps[..|stamps| - 1], now);
    }
  }

  // --- The watcher, changed in place ---

  class LogWatcherDaemon {
    var seenErrors: map<string, real>
    var rateLimitTimestamps: seq<real>
    var clock: real
    var orders: seq<WorkOrder>
    var dedupSuppressed: nat
    var rateLimited: nat

    ghost function State(): Watcher
      reads this
    {
      Watcher(seenErrors, rateLimitTimestamps, clock, orders)
    }

    constructor ()
      ensures State() == IDLE && dedupSuppressed == 0 && rateLimited == 0
    {
      seenErrors, rateLimitTimestamps, clock, orders := map[], [], 0.0, [];
      dedupSuppressed, rateLimited := 0, 0;
    }

    method Now(passed: Span) returns (now: real)
      modifies this`clock
      ensures now == clock == old(clock) + passed
    {
      clock := clock + passed;
      now := clock;
    }

    /** Remembers the entry unless it is a duplicate. */
    method IsDuplicate(key: string, passed: Span) returns (duplicate: bool)
      modifies this`clock, this`seenErrors
      ensures clock == old(clock) + passed
      ensures duplicate <==> Duplicate(old(seenErrors), key, clock)
      ensures seenErrors == if duplicate then old(seenErrors) else old(seenErrors)[key := clock]
    {
      var now := Now(passed);
      if key in seenErrors {
        if now - seenErrors[key] < DEDUP_WINDOW {
          return true;
        }
      }
      seenErrors := seenErrors[key := now];
      return false;
    }

    method IsRateLimited(passed: Span) returns (limited: bool)
      modifies this`clock, this`rateLimitTimestamps
      ensures clock == old(clock) + passed
      ensures rateLimitTimestamps == Recent(old(rateLimitTimestamps), clock)
      ensures limited <==> |rateLimitTimestamps| >= RATE_LIMIT_MAX
    {
      var now := Now(passed);
      rateLimitTimestamps := Recent(rateLimitTimestamps, now);
      return |rateLimitTimestamps| >= RATE_LIMIT_MAX;
    }

    method HandleError(e: Event)
      requires e.Entry? && e.isError
      modifies this
      ensures State() == Handle(old(State()), e)
      ensures dedupSuppressed == old(dedupSuppressed) + if Suppressed(old(State()), e) then 1 else 0
      ensures rateLimited == old(rateLimited) + if Throttled(old(State()), e) then 1 else 0
    {
      hide Recent;
      var duplicate := IsDuplicate(e.key, e.toDetect);
      if duplicate {
        dedupSuppressed := dedupSuppressed + 1;
        return;
      }
      ghost var now1 := clock;
      var limited := IsRateLimited(e.toLimit);
      if limited {
        rateLimited := rateLimited + 1;
        return;
      }
      if e.creates {
        var now := Now(e.toCreate);
        rateLimitTimestamps := rateLimitTimestamps + [now];
        orders := orders + [WorkOrder(e.key, seenErrors[e.key], now)];
      }
    }

    method HandleWarning(e: Event)
      requires e.Entry? && !e.isError
      modifies this
      ensures State() == Handle(old(State()), e)
      ensures dedupSuppressed == old(dedupSuppressed) + if Suppressed(old(State()), e) then 1 else 0
      ensures rateLimited == old(rateLimited) + if Throttled(old(State()), e) then 1 else 0
    {
      hide Recent;
      var now := Now(e.toDetect);
      if e.key in seenErrors {
        if now - seenErrors[e.key] < DEDUP_WINDOW {
          dedupSuppressed := dedupSuppressed + 1;
          return;
        }
      }
      var limited := IsRateLimited(e.toLimit);
      if limited {
        rateLimited := rateLimited + 1;
        return;
      }
      if e.creates {
        var created := Now(e.toCreate);
        rateLimitTimestamps := rateLimitTimestamps + [created];
        seenErrors := seenErrors[e.key := now];
        orders := orders + [WorkOrder(e.key, now, created)];
      }
    }

    method CleanupSeenErrors(passed: Span)
      modifies this
      ensures State() == Step(old(State()), Cleanup(passed))
      ensures dedupSuppressed == old(dedupSuppressed) && rateLimited == old(rateLimited)
    {
      var now := Now(passed);
      seenErrors := Unexpired(seenErrors, now);
      rateLimitTimestamps := Recent(rateLimitTimestamps, now);
    }
  }
}
