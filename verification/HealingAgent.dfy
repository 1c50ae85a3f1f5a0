/**
  The healing agent's control of itself: nesting depth, chained work orders, the retry that calls
  the work-order handler again, and the polling loop. Conversations with the model are left out;
  what they return is a parameter.
 */
module HealingAgent {

  const MAX_AGENT_DEPTH := 2
  const MAX_CHAIN_LENGTH := 10
  const MAX_CHAIN_DEPTH := 2

  // --- The depth tracker ---

  datatype Tracker = Tracker(depth: int, chain: int, stack: seq<string>)

  class AgentDepthTracker {
    var currentDepth: int
    var chainCount: int
    var sessionStack: seq<string>

    ghost function State(): Tracker
      reads this
    {
      Tracker(currentDepth, chainCount, sessionStack)
    }

    constructor ()
      ensures State() == Tracker(0, 0, [])
    {
      currentDepth, chainCount, sessionStack := 0, 0, [];
    }

    predicate CanSpawn()
      reads this
    {
      currentDepth + 1 <= MAX_AGENT_DEPTH
    }

    predicate CanChain()
      reads this
    {
      chainCount < MAX_CHAIN_LENGTH && currentDepth < MAX_CHAIN_DEPTH
    }

    method Enter(sessionId: string) returns (entered: bool)
      modifies this
      ensures entered <==> old(CanSpawn())
      ensures State() == if entered then Tracker(old(currentDepth) + 1, old(chainCount), old(sessionStack) + [sessionId])
                         else old(State())
    {
      if !CanSpawn() {
        return false;
      }
      currentDepth := currentDepth + 1;
      sessionStack := sessionStack + [sessionId];
      return true;
    }

    method MarkChainStep() returns (marked: bool)
      modifies this
      ensures marked <==> old(chainCount) < MAX_CHAIN_LENGTH
      ensures State() == old(State()).(chain := if marked then old(chainCount) + 1 else old(chainCount))
    {
      if chainCount >= MAX_CHAIN_LENGTH {
        return false;
      }
      chainCount := chainCount + 1;
      return true;
    }

    /** Leaves the level only for the session on top of the stack. */
    method Exit(sessionId: string)
      modifies this
      ensures State() ==
        if |old(sessionStack)| > 0 && old(sessionStack)[|old(sessionStack)| - 1] == sessionId
        then Tracker(if old(currentDepth) >= 1 then old(currentDepth) - 1 else 0, old(chainCount),
                     old(sessionStack)[..|old(sessionStack)| - 1])
        else old(State())
    {
      if |sessionStack| > 0 && sessionStack[|sessionStack| - 1] == sessionId {
        sessionStack := sessionStack[..|sessionStack| - 1];
        currentDepth := if currentDepth - 1 > 0 then currentDepth - 1 else 0;
      }
    }

    method ResetChainCount()
      modifies this
      ensures State() == old(State()).(chain := 0)
    {
      chainCount := 0;
    }
  }

  // --- Handling one work order ---

  /** How far an attempt at a work order gets once it has entered its level. */
  datatype Course = NotAnError | NoPrompt | PromptRaises | SessionFails | SessionRaises | SessionSucceeds

  /** An attempt, and whether the flush that it is forced to make at the chain limit would raise an exception. */
  datatype Attempt = Attempt(course: Course, flushRaises: bool)

  datatype OrderStatus = Pending | InProgress | Completed | Failed

  /** What the handler writes to the work order and starts. */
  datatype Effect = SetStatus(status: OrderStatus) | Escalated | SessionRun

  /** How the handler comes back, by a return or by an exception, what it did, and the chain count it leaves. */
  datatype Outcome = Outcome(fixed: bool, raised: bool, effects: seq<Effect>, chain: int)

  function Marked(chain: int): int {
    if chain < MAX_CHAIN_LENGTH then chain + 1 else chain
  }

  /** After its step is counted, an attempt may not chain and has to flush: always at the deepest level. */
  predicate Forced(depth: int, chain: int) {
    Marked(chain) >= MAX_CHAIN_LENGTH || depth + 1 >= MAX_CHAIN_DEPTH
  }

  predicate Raises(depth: int, chain: int, hasManager: bool, a: Attempt) {
    Forced(depth, chain) && hasManager && a.flushRaises
  }

  /** The chain count once a level is entered: one more, or back to zero after a forced flush. */
  function Here(depth: int, chain: int): int {
    if Forced(depth, chain) then 0 else Marked(chain)
  }

  /**
    What handling an order at a depth comes to, attempts being how the attempt at each depth would go.
    Each nested call makes a session of its own, so its recovery count is always one.
   */
  function Handled(depth: int, chain: int, hasManager: bool, threshold: int, attempts: nat -> Attempt): Outcome
    requires depth >= 0
    decreases MAX_AGENT_DEPTH - depth, 1
  {
    if depth + 1 > MAX_AGENT_DEPTH then Outcome(false, false, [SetStatus(Failed)], chain)
    else if Raises(depth, chain, hasManager, attempts(depth)) then Outcome(false, true, [], Marked(chain))
    else Treated(depth, Here(depth, chain), hasManager, threshold, attempts)
  }

  /** The same from inside the level, where every exception ends in the order being pending again. */
  function Treated(depth: int, chain: int, hasManager: bool, threshold: int, attempts: nat -> Attempt): Outcome
    requires 0 <= depth < MAX_AGENT_DEPTH
    decreases MAX_AGENT_DEPTH - depth, 0
  {
    var course := attempts(depth).course;
    if course == NotAnError then Outcome(true, false, [SetStatus(Completed)], chain)
    else if course == NoPrompt then Outcome(false, false, [SetStatus(InProgress), SetStatus(Failed)], chain)
    else if course == PromptRaises then Outcome(false, false, [SetStatus(InProgress), SetStatus(Pending)], chain)
    else if 1 > threshold then Outcome(false, false, [SetStatus(InProgress), Escalated], chain)
    else
      var started := [SetStatus(InProgress), SessionRun];
      if course == SessionSucceeds then Outcome(true, false, started + [SetStatus(Completed)], chain)
      else if course == SessionRaises || !hasManager then Outcome(false, false, started + [SetStatus(Pending)], chain)
      else
        var r := Handled(depth + 1, chain, hasManager, threshold, attempts);
        if r.raised then Outcome(false, false, started + r.effects + [SetStatus(Pending)], r.chain)
        else Outcome(r.fixed, false, started + r.effects, r.chain)
  }

  class HealingAgent {
    const tracker: AgentDepthTracker
    const hasManager: bool
    const threshold: int
    var effects: seq<Effect>

    constructor (hasManager: bool, threshold: int)
      ensures fresh(tracker) && tracker.State() == Tracker(0, 0, []) && effects == []
      ensures this.hasManager == hasManager && this.threshold == threshold
    {
      tracker := new AgentDepthTracker();
      this.hasManager, this.threshold := hasManager, threshold;
      effects := [];
    }

    ghost predicate DepthMatchesStack()
      reads this, tracker
    {
      0 <= tracker.currentDepth == |tracker.sessionStack|
    }

    method Record(e: Effect)
      modifies this`effects
      ensures effects == old(effects) + [e]
    {
      effects := effects + [e];
    }

    /**
      The retry calls the handler itself; the depth, not the recovery count, bounds it. sessionIds
      may repeat: two attempts within one second get the same one.
     */
    method HandleWorkOrder(sessionIds: nat -> string, attempts: nat -> Attempt) returns (fixed: bool, raised: bool)
      requires DepthMatchesStack()
      modifies this`effects, tracker
      decreases MAX_AGENT_DEPTH - tracker.currentDepth
      ensures
        var o := Handled(old(tracker.currentDepth), old(tracker.chainCount), hasManager, threshold, attempts);
        && fixed == o.fixed && raised == o.raised && effects == old(effects) + o.effects
        && tracker.State() == old(tracker.State()).(chain := o.chain)
    {
      hide Handled, Treated, Here, Raises, Marked;
      ghost var stack := tracker.sessionStack;
      HandledIs(tracker.currentDepth, tracker.chainCount, hasManager, threshold, attempts);
      var sessionId, attempt := sessionIds(tracker.currentDepth), attempts(tracker.currentDepth);
      var entered, stopped := EnterLevel(sessionId, attempt);
      if !entered {
        Record(SetStatus(Failed));
        return false, false;
      }
      assert (stack + [sessionId])[..|stack|] == stack;
      if stopped {
        tracker.Exit(sessionId);
        assert effects == old(effects) + [];
        return false, true;
      }
      fixed := Attempted(sessionIds, attempts);
      raised := false;
      tracker.Exit(sessionId);
    }

    /** Entering a level, counting a chain step, and the forced flush with the reset it brings unless it raises. */
    method EnterLevel(sessionId: string, attempt: Attempt) returns (entered: bool, raised: bool)
      requires DepthMatchesStack()
      modifies tracker
      ensures
        var depth, chain := old(tracker.currentDepth), old(tracker.chainCount);
        && (entered <==> depth < MAX_AGENT_DEPTH)
        && (raised <==> entered && Raises(depth, chain, hasManager, attempt))
        && tracker.State() ==
             if entered then Tracker(depth + 1, if raised then Marked(chain) else Here(depth, chain), old(tracker.sessionStack) + [sessionId])
             else old(tracker.State())
    {
      raised := false;
      entered := tracker.Enter(sessionId);
      if !entered {
        return;
      }
      var _ := tracker.MarkChainStep();
      if !tracker.CanChain() {
        if hasManager && attempt.flushRaises {
          raised := true;
          return;
        }
        tracker.ResetChainCount();
      }
    }

    /** The part between entering and leaving the level. */
    method Attempted(sessionIds: nat -> string, attempts: nat -> Attempt) returns (fixed: bool)
      requires DepthMatchesStack() && 1 <= tracker.currentDepth <= MAX_AGENT_DEPTH
      modifies this`effects, tracker
      decreases MAX_AGENT_DEPTH - tracker.currentDepth + 1, 0
      ensures
        var o := Treated(old(tracker.currentDepth) - 1, old(tracker.chainCount), hasManager, threshold, attempts);
        && fixed == o.fixed && !o.raised && effects == old(effects) + o.effects
        && tracker.State() == old(tracker.State()).(chain := o.chain)
    {
      hide Handled;
      var course, recoveryAttempts := attempts(tracker.currentDepth - 1).course, 0;
      if course == NotAnError {
        Record(SetStatus(Completed));
        return true;
      }
      Record(SetStatus(InProgress));
      if course == PromptRaises {
        Record(SetStatus(Pending));
        return false;
      }
      if course == NoPrompt {
        Record(SetStatus(Failed));
        return false;
      }
      recoveryAttempts := recoveryAttempts + 1;
      if recoveryAttempts > threshold {
        Record(Escalated);
        return false;
      }
      Record(SessionRun);
      if course == SessionRaises {
        Record(SetStatus(Pending));
        return false;
      }
      if course == SessionSucceeds {
        Record(SetStatus(Completed));
        return true;
      }
      if hasManager && recoveryAttempts <= threshold {
        var raised;
        fixed, raised := HandleWorkOrder(sessionIds, attempts);
        if raised {
          Record(SetStatus(Pending));
          fixed := false;
        }
      } else {
        Record(SetStatus(Pending));
        fixed := false;
      }
    }
  }

  // --- What handling comes to ---

  function SessionRuns(effects: seq<Effect>): nat {
    if |effects| == 0 then 0 else (if effects[0] == SessionRun then 1 else 0) + SessionRuns(effects[1..])
  }

  lemma {:induction false} SessionRunsJoin(x: seq<Effect>, y: seq<Effect>)
    ensures SessionRuns(x + y) == SessionRuns(x) + SessionRuns(y)
  {
    if |x| == 0 {
      assert x + y == y;
    } else {
      assert (x + y)[1..] == x[1..] + y;
      SessionRunsJoin(x[1..], y);
    }
  }

  lemma FewRuns(e: Effect, f: Effect)
    ensures SessionRuns([e]) == if e == SessionRun then 1 else 0
    ensures SessionRuns([e, f]) == SessionRuns([e]) + SessionRuns([f])
  {
    assert [e] + [f] == [e, f];
    SessionRunsJoin([e], [f]);
  }

  /** Handling an order runs at most one session a level, two from the root. */
  lemma {:induction false} AtMostTwoSessions(depth: int, chain: int, hasManager: bool, threshold: int, attempts: nat -> Attempt)
    requires 0 <= depth <= MAX_AGENT_DEPTH
    ensures SessionRuns(Handled(depth, chain, hasManager, threshold, attempts).effects) <= MAX_AGENT_DEPTH - depth
    decreases MAX_AGENT_DEPTH - depth
  {
    hide SessionRuns, Raises, Here, Marked;
    SessionRunsNone();
    forall e, f
      ensures SessionRuns([e]) == if e == SessionRun then 1 else 0
      ensures SessionRuns([e, f]) == SessionRuns([e]) + SessionRuns([f])
    {
      FewRuns(e, f);
    }
    if depth < MAX_AGENT_DEPTH {
      var inner := Handled(depth + 1, Here(depth, chain), hasManager, threshold, attempts);
      var started := [SetStatus(InProgress), SessionRun];
      AtMostTwoSessions(depth + 1, Here(depth, chain), hasManager, threshold, attempts);
      SessionRunsJoin(started, inner.effects);
      SessionRunsJoin(started + inner.effects, [SetStatus(Pending)]);
      SessionRunsJoin(started, [SetStatus(Completed)]);
      SessionRunsJoin(started, [SetStatus(Pending)]);
    }
  }

  lemma SessionRunsNone()
    ensures SessionRuns([]) == 0
  {}

  /** An attempt gets as far as the check of the recovery count. */
  predicate ReachesThreshold(c: Course) {
    c.SessionFails? || c.SessionRaises? || c.SessionSucceeds?
  }

  /** Escalation happens exactly when the threshold is below one: a retry never carries a count over. */
  lemma {:induction false} EscalatesExactly(depth: int, chain: int, hasManager: bool, threshold: int, attempts: nat -> Attempt)
    requires 0 <= depth < MAX_AGENT_DEPTH
    ensures Escalated in Handled(depth, chain, hasManager, threshold, attempts).effects
      <==> threshold < 1 && ReachesThreshold(attempts(depth).course) && !Raises(depth, chain, hasManager, attempts(depth))
    decreases MAX_AGENT_DEPTH - depth
  {
    hide Raises, Here, Marked, Handled;
    HandledIs(depth, chain, hasManager, threshold, attempts);
    HandledIs(depth + 1, Here(depth, chain), hasManager, threshold, attempts);
    if depth + 1 < MAX_AGENT_DEPTH {
      EscalatesExactly(depth + 1, Here(depth, chain), hasManager, threshold, attempts);
    }
  }

  /** The status an order is left with; one never written to stays pending. */
  function LastStatus(effects: seq<Effect>): OrderStatus {
    if |effects| == 0 then Pending
    else if effects[|effects| - 1].SetStatus? then effects[|effects| - 1].status
    else LastStatus(effects[..|effects| - 1])
  }

  predicate Succeeds(c: Course, threshold: int) {
    c == NotAnError || (c == SessionSucceeds && 1 <= threshold)
  }

  /** The attempt fails in a way that is retried. */
  predicate Retried(c: Course, hasManager: bool, threshold: int) {
    c == SessionFails && hasManager && 1 <= threshold
  }

  /** The retry at the second level gets past its flush, which is always forced there. */
  predicate RetryRuns(hasManager: bool, attempts: nat -> Attempt) {
    hasManager && !attempts(1).flushRaises
  }

  /**
    An order is reported fixed if and only if it ends completed, which is when the first attempt
    gets past its flush and succeeds, or fails in a session that is retried and succeeds then.
   */
  lemma FixedExactly(chain: int, hasManager: bool, threshold: int, attempts: nat -> Attempt)
    ensures
      var o, first, second := Handled(0, chain, hasManager, threshold, attempts), attempts(0), attempts(1);
      && (o.fixed <==> LastStatus(o.effects) == Completed)
      && (o.fixed <==>
            && !Raises(0, chain, hasManager, first)
            && (Succeeds(first.course, threshold)
                || (Retried(first.course, hasManager, threshold) && RetryRuns(hasManager, attempts) && Succeeds(second.course, threshold))))
  {
    hide LastStatus, Marked;
    FixedIsCompleted(0, chain, hasManager, threshold, attempts);
    var inner := Handled(1, Here(0, chain), hasManager, threshold, attempts);
    assert inner.fixed <==> !Raises(1, Here(0, chain), hasManager, attempts(1)) && Succeeds(attempts(1).course, threshold);
  }

  lemma {:induction false} FixedIsCompleted(depth: int, chain: int, hasManager: bool, threshold: int, attempts: nat -> Attempt)
    requires 0 <= depth <= MAX_AGENT_DEPTH
    ensures
      var o := Handled(depth, chain, hasManager, threshold, attempts);
      && (|o.effects| > 0 ==> o.effects[0].SetStatus?)
      && (o.raised <==> o.effects == [])
      && (o.fixed <==> LastStatus(o.effects) == Completed)
    decreases MAX_AGENT_DEPTH - depth
  {
    hide Raises, Here, Marked, LastStatus, Handled;
    StatusesWritten(Failed);
    HandledIs(depth, chain, hasManager, threshold, attempts);
    if depth < MAX_AGENT_DEPTH {
      var inner := Handled(depth + 1, Here(depth, chain), hasManager, threshold, attempts);
      FixedIsCompleted(depth + 1, Here(depth, chain), hasManager, threshold, attempts);
      StatusesWritten(Completed);
      StatusesWritten(Pending);
      var started := [SetStatus(InProgress), SessionRun];
      if inner.raised {
        assert started + inner.effects + [SetStatus(Pending)] == started + [SetStatus(Pending)];
      } else {
        LastOfJoined(started, inner.effects);
      }
    }
  }

  lemma HandledIs(depth: int, chain: int, hasManager: bool, threshold: int, attempts: nat -> Attempt)
    requires 0 <= depth
    ensures Handled(depth, chain, hasManager, threshold, attempts) ==
      if depth >= MAX_AGENT_DEPTH then Outcome(false, false, [SetStatus(Failed)], chain)
      else if Raises(depth, chain, hasManager, attempts(depth)) then Outcome(false, true, [], Marked(chain))
      else Treated(depth, Here(depth, chain), hasManager, threshold, attempts)
  {
    hide Treated;
  }

  /** The writes that end an attempt's effects decide the status. */
  lemma StatusesWritten(s: OrderStatus)
    ensures LastStatus([]) == Pending && LastStatus([SetStatus(s)]) == s
    ensures LastStatus([SetStatus(InProgress), SetStatus(s)]) == s
    ensures LastStatus([SetStatus(InProgress), Escalated]) == InProgress
    ensures LastStatus([SetStatus(InProgress), SessionRun] + [SetStatus(s)]) == s
    ensures LastStatus([SetStatus(InProgress), SessionRun] + [] + [SetStatus(s)]) == s
  {
    assert [SetStatus(InProgress), Escalated][..1] == [SetStatus(InProgress)];
  }

  lemma {:induction false} LastOfJoined(x: seq<Effect>, y: seq<Effect>)
    requires |y| > 0 ==> y[0].SetStatus?
    ensures |y| > 0 ==> LastStatus(x + y) == LastStatus(y)
  {
    if |y| > 0 {
      assert (x + y)[..|x + y| - 1] == x + y[..|y| - 1];
      if !y[|y| - 1].SetStatus? {
        LastOfJoined(x, y[..|y| - 1]);
      }
    }
  }

  /**
    Two failing sessions leave an order failed, not requeued: the third entry is refused. Without a
    session manager, or with a flush that raises at the retry, it is pending after one session.
   */
  lemma TwoFailuresEndAsFailed(chain: int, threshold: int, attempts: nat -> Attempt)
    requires 1 <= threshold && attempts(0).course == SessionFails && attempts(1).course == SessionFails
    ensures
      var with, without := Handled(0, chain, true, threshold, attempts), Handled(0, chain, false, threshold, attempts);
      && (!Raises(0, chain, true, attempts(0)) ==>
            && !with.fixed && !with.raised
            && LastStatus(with.effects) == (if attempts(1).flushRaises then Pending else Failed)
            && SessionRuns(with.effects) == if attempts(1).flushRaises then 1 else 2)
      && !without.fixed && LastStatus(without.effects) == Pending && SessionRuns(without.effects) == 1
  {
    var started := [SetStatus(InProgress), SessionRun];
    var inner := Handled(1, Here(0, chain), true, threshold, attempts);
    if attempts(1).flushRaises {
      assert inner.effects == [];
    } else {
      assert inner.effects == started + [SetStatus(Failed)];
    }
    SessionRunsJoin(started, inner.effects);
    SessionRunsJoin(started + inner.effects, [SetStatus(Pending)]);
    SessionRunsJoin(started, [SetStatus(Failed)]);
    SessionRunsJoin(started, [SetStatus(Pending)]);
    FewRuns(SetStatus(InProgress), SessionRun);
    FewRuns(SetStatus(Failed), SetStatus(Pending));
  }

  /** The status after an attempt whose outcome no retry can change; an escalated order stays in progress. */
  function StatusOf(c: Course, threshold: int): OrderStatus {
    match c
    case NotAnError => Completed
    case NoPrompt => Failed
    case PromptRaises => Pending
    case SessionSucceeds => if threshold < 1 then InProgress else Completed
    case SessionRaises => if threshold < 1 then InProgress else Pending
    case SessionFails => if threshold < 1 then InProgress else Pending
  }

  /**
    The status an order is left with: that of the first attempt, unless its session fails and is
    retried; then that of the second, a second failure counting as failed. An order whose first flush
    raises is not touched, and one whose second does is pending.
   */
  lemma StatusExactly(chain: int, hasManager: bool, threshold: int, attempts: nat -> Attempt)
    ensures
      LastStatus(Handled(0, chain, hasManager, threshold, attempts).effects) ==
        if Raises(0, chain, hasManager, attempts(0)) then Pending
        else if !Retried(attempts(0).course, hasManager, threshold) then StatusOf(attempts(0).course, threshold)
        else if attempts(1).flushRaises then Pending
        else if attempts(1).course == SessionFails then Failed
        else StatusOf(attempts(1).course, threshold)
  {
    hide Raises, Here, Marked, LastStatus, Handled;
    var here := Here(0, chain);
    HandledIs(0, chain, hasManager, threshold, attempts);
    HandledIs(1, here, hasManager, threshold, attempts);
    SecondFlush(here, hasManager, attempts(1));
    HandledIs(2, Here(1, here), hasManager, threshold, attempts);
    AllStatuses();
    var started, inner := [SetStatus(InProgress), SessionRun], Handled(1, here, hasManager, threshold, attempts);
    if inner.raised {
      assert started + inner.effects + [SetStatus(Pending)] == started + [SetStatus(Pending)];
    } else {
      LastOfJoined(started, inner.effects);
      LastOfJoined(started, [SetStatus(Failed)]);
    }
  }

  lemma SecondFlush(chain: int, hasManager: bool, a: Attempt)
    ensures Raises(1, chain, hasManager, a) <==> hasManager && a.flushRaises
  {}

  lemma AllStatuses()
    ensures forall s :: LastStatus([SetStatus(s)]) == s
    ensures forall s :: LastStatus([SetStatus(InProgress), SetStatus(s)]) == s
    ensures forall s :: LastStatus([SetStatus(InProgress), SessionRun] + [SetStatus(s)]) == s
    ensures LastStatus([]) == Pending && LastStatus([SetStatus(InProgress), Escalated]) == InProgress
  {
    StatusesWritten(Pending);
    forall s
      ensures LastStatus([SetStatus(s)]) == s && LastStatus([SetStatus(InProgress), SetStatus(s)]) == s
      ensures LastStatus([SetStatus(InProgress), SessionRun] + [SetStatus(s)]) == s
    {
      StatusesWritten(s);
    }
  }

  /** An exception leaves the handler for the polling loop exactly when the flush forced at the root raises. */
  lemma RaisedExactly(chain: int, hasManager: bool, threshold: int, attempts: nat -> Attempt)
    ensures Handled(0, chain, hasManager, threshold, attempts).raised <==> Raises(0, chain, hasManager, attempts(0))
  {
    FixedIsCompleted(0, chain, hasManager, threshold, attempts);
  }

  /**
    The chain count stays within 10 between orders, and within 9 unless a flush raises that was
    forced by the tenth step: then the reset is skipped.
   */
  lemma ChainStaysBelowTen(chain: int, hasManager: bool, threshold: int, attempts: nat -> Attempt)
    requires 0 <= chain <= 10
    ensures
      var o, first := Handled(0, chain, hasManager, threshold, attempts), attempts(0);
      && 0 <= o.chain <= 10
      && (o.chain == 10 <==>
            || (chain >= 9 && Raises(0, chain, hasManager, first))
            || (chain == 8 && Retried(first.course, hasManager, threshold) && !RetryRuns(hasManager, attempts)))
  {
    var inner := Handled(1, Here(0, chain), hasManager, threshold, attempts);
    assert inner.chain ==
      if Raises(1, Here(0, chain), hasManager, attempts(1)) then Marked(Here(0, chain)) else Treated(1, 0, hasManager, threshold, attempts).chain;
    assert Handled(2, 0, hasManager, threshold, attempts).chain == 0;
    assert Treated(1, 0, hasManager, threshold, attempts).chain == 0;
  }

  // --- Polling ---

  /** The ids a query returns: newer than asked, all different (they are a primary key), in any order. */
  ghost predicate QueryAnswer(ids: seq<int>, after: int) {
    && (forall i :: 0 <= i < |ids| ==> ids[i] > after)
    && (forall i, j :: 0 <= i < j < |ids| ==> ids[i] != ids[j])
  }

  function MaxId(after: int, ids: seq<int>): (m: int)
    ensures m >= after && forall i :: 0 <= i < |ids| ==> m >= ids[i]
    ensures m == after || m in ids
  {
    if |ids| == 0 then after
    else
      var m := MaxId(after, ids[..|ids| - 1]);
      if ids[|ids| - 1] > m then ids[|ids| - 1] else m
  }

  /** One poll cycle; taken is how many orders are handled before an exception ends the cycle. */
  datatype Cycle = Cycle(ids: seq<int>, taken: nat)

  ghost predicate CycleFits(c: Cycle, after: int) {
    QueryAnswer(c.ids, after) && c.taken <= |c.ids|
  }

  function Started(c: Cycle): seq<int>
    requires c.taken <= |c.ids|
  {
    c.ids[..c.taken]
  }

  class Poller {
    var lastCheckedId: int
    var processing: bool
    /** The ids handed to the handler, in order. */
    var handled: seq<int>

    constructor (lastCheckedId: int)
      ensures this.lastCheckedId == lastCheckedId && !processing && handled == []
    {
      this.lastCheckedId := lastCheckedId;
      processing, handled := false, [];
    }

    ghost predicate Valid()
      reads this
    {
      !processing && NoRepeats(handled) && Within(handled, lastCheckedId)
    }

    /** The body of the polling loop, up to the order at which an exception ends it. */
    method PollOnce(c: Cycle)
      requires Valid() && c.taken <= |c.ids| && CycleFits(c, lastCheckedId)
      modifies this
      ensures Valid()
      ensures handled == old(handled) + Started(c)
      ensures lastCheckedId == MaxId(old(lastCheckedId), Started(c))
    {
      hide NoRepeats, Within, MaxId, CycleFits;
      MaxNone(lastCheckedId, c.ids);
      var i := 0;
      while i < c.taken
        invariant 0 <= i <= c.taken && !processing
        invariant handled == old(handled) + c.ids[..i]
        invariant lastCheckedId == MaxId(old(lastCheckedId), c.ids[..i])
      {
        MaxNext(old(lastCheckedId), c.ids, i);
        var id := c.ids[i];
        if processing {
          break;
        }
        if id > lastCheckedId {
          lastCheckedId := id;
        }
        processing := true;
        handled := handled + [id];
        processing := false;
        i := i + 1;
      }
      JoinNoRepeats(old(handled), old(lastCheckedId), c);
    }
  }

  lemma MaxNone(after: int, ids: seq<int>)
    ensures MaxId(after, ids[..0]) == after
  {}

  lemma MaxNext(after: int, ids: seq<int>, i: nat)
    requires i < |ids|
    ensures
      var m := MaxId(after, ids[..i]);
      MaxId(after, ids[..i + 1]) == (if ids[i] > m then ids[i] else m) && ids[..i + 1] == ids[..i] + [ids[i]]
  {
    assert ids[..i + 1][..i] == ids[..i];
  }

  ghost predicate NoRepeats(ids: seq<int>) {
    forall i, j :: 0 <= i < j < |ids| ==> ids[i] != ids[j]
  }

  ghost predicate Within(ids: seq<int>, max: int) {
    forall i :: 0 <= i < |ids| ==> ids[i] <= max
  }

  /** What a cycle starts repeats nothing handled before. */
  lemma JoinNoRepeats(before: seq<int>, last: int, c: Cycle)
    requires NoRepeats(before) && Within(before, last) && c.taken <= |c.ids| && CycleFits(c, last)
    ensures NoRepeats(before + Started(c)) && Within(before + Started(c), MaxId(last, Started(c)))
  {}

  /** The ids handled over a run of cycles, and the last checked id after it. */
  function HandledIds(after: int, cycles: seq<Cycle>): (seq<int>, int)
    requires forall i :: 0 <= i < |cycles| ==> cycles[i].taken <= |cycles[i].ids|
  {
    if |cycles| == 0 then ([], after)
    else
      var (ids, last) := HandledIds(after, cycles[..|cycles| - 1]);
      var now := Started(cycles[|cycles| - 1]);
      (ids + now, MaxId(last, now))
  }

  ghost predicate RunFits(after: int, cycles: seq<Cycle>) {
    && (forall i :: 0 <= i < |cycles| ==> cycles[i].taken <= |cycles[i].ids|)
    && (forall i :: 0 <= i < |cycles| ==> CycleFits(cycles[i], HandledIds(after, cycles[..i]).1))
  }

  /** Over any run, whatever the queries return, no order is handled twice and the last checked id only grows. */
  lemma {:induction false} HandledAtMostOnce(after: int, cycles: seq<Cycle>)
    requires RunFits(after, cycles)
    ensures
      var (ids, last) := HandledIds(after, cycles);
      last >= after && NoRepeats(ids) && Within(ids, last)
  {
    hide NoRepeats, Within;
    if |cycles| == 0 {
      assert NoRepeats([]) && Within([], after) by { NothingRepeats(after); }
    } else {
      var prev, c := cycles[..|cycles| - 1], cycles[|cycles| - 1];
      PrefixFits(after, cycles);
      HandledAtMostOnce(after, prev);
      var (ids, last) := HandledIds(after, prev);
      JoinNoRepeats(ids, last, c);
    }
  }

  lemma NothingRepeats(max: int)
    ensures NoRepeats([]) && Within([], max)
  {}

  lemma PrefixFits(after: int, cycles: seq<Cycle>)
    requires |cycles| > 0 && RunFits(after, cycles)
    ensures RunFits(after, cycles[..|cycles| - 1])
    ensures CycleFits(cycles[|cycles| - 1], HandledIds(after, cycles[..|cycles| - 1]).1)
  {
    var prev := cycles[..|cycles| - 1];
    assert forall i :: 0 <= i < |prev| ==> prev[i] == cycles[i] && prev[..i] == cycles[..i];
  }

  /** Whatever a run handles is newer than the id it started from. */
  lemma {:induction false} OnlyNewerHandled(after: int, cycles: seq<Cycle>)
    requires RunFits(after, cycles)
    ensures forall id :: id in HandledIds(after, cycles).0 ==> id > after
  {
    if |cycles| == 0 {
    } else {
      var prev, c := cycles[..|cycles| - 1], cycles[|cycles| - 1];
      PrefixFits(after, cycles);
      OnlyNewerHandled(after, prev);
      HandledAtMostOnce(after, prev);
      forall id | id in Started(c)
        ensures id > after
      {
        assert id in c.ids;
      }
    }
  }
}
