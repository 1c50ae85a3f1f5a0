/**
  The restart log of the process wrapper: what one policy check on a crashed script does to its
  entry, which backoff states can be reached, and how much time restarts must take.

  Waiting counts as running: the recorded run length is the time since the last restart, so the
  "ran over 10 seconds" reset also fires for a script that spent those seconds waiting.
 */
module Backoff {
  import opened Wrappers

  /** An entry of _RESTART_LOG. */
  datatype Entry = Entry(count: nat, lastStart: real, lastRestart: real, lastRunDuration: real)

  const FRESH := Entry(0, 0.0, 0.0, 999.0)

  function Pow2(n: nat): (p: real)
    ensures p >= 1.0
  {
    if n == 0 then 1.0 else 2.0 * Pow2(n - 1)
  }

  /** 0.5 * 2^count, capped at 30 seconds. */
  function Delay(count: nat): (d: real)
    ensures 0.5 <= d <= 30.0
  {
    var d := 0.5 * Pow2(count);
    if d <= 30.0 then d else 30.0
  }

  lemma DelayValues(c: nat)
    ensures Delay(0) == 0.5 && Delay(1) == 1.0 && Delay(2) == 2.0 && Delay(3) == 4.0 && Delay(4) == 8.0
    ensures c >= 5 ==> Delay(c) >= 16.0
  {
    assert Pow2(2) == 4.0 && Pow2(4) == 16.0;
    if c >= 5 {
      PowGrows(5, c);
      assert Pow2(5) == 32.0;
    }
  }

  lemma {:induction false} PowGrows(m: nat, n: nat)
    requires m <= n
    ensures Pow2(m) <= Pow2(n)
    decreases n
  {
    if m == n {
    } else {
      PowGrows(m, n - 1);
    }
  }

  /** Records the run length that a clock reading implies; a reading that implies none leaves the old one. */
  function Observe(e: Entry, now: real): Entry {
    if now - e.lastStart > 0.0 then e.(lastRunDuration := now - e.lastStart) else e
  }

  function ResetIfStable(e: Entry): Entry {
    if e.lastRunDuration > 10.0 then e.(count := 0) else e
  }

  datatype Attempt = Attempt(entry: Entry, granted: Option<real>)

  /** _restart_backoff at clock reading now: wait, or count one more restart. */
  function TryRestart(e: Entry, now: real): Attempt {
    var e' := ResetIfStable(e);
    var delay := Delay(e'.count);
    if now - e'.lastRestart < delay then Attempt(e', None)
    else Attempt(Entry(e'.count + 1, now, now, 0.0), Some(delay))
  }

  /** One check of a crashed script: its two clock readings in the order they are taken. */
  function Check(e: Entry, now1: real, now2: real): Attempt {
    TryRestart(Observe(e, now1), now2)
  }

  // --- Which entries can be reached ---

  predicate WithinFive(e: Entry) {
    e.lastStart == e.lastRestart && e.count <= 5
  }

  /** With readings under 6 seconds apart, the count stays within 5 and the delay is one of the first five. */
  lemma CheckStaysWithinFive(e: Entry, now1: real, now2: real)
    requires WithinFive(e) && now1 <= now2 < now1 + 6.0
    ensures WithinFive(Check(e, now1, now2).entry)
    ensures Check(e, now1, now2).granted.Some? ==> Check(e, now1, now2).granted.value in {0.5, 1.0, 2.0, 4.0, 8.0}
  {
    DelayValues(5);
  }

  lemma LongDelayValues(c: nat)
    ensures Delay(c) > 8.0 <==> c >= 5
    ensures Delay(c) == 30.0 <==> c >= 6
  {
    DelayValues(c);
    assert Pow2(3) == 8.0 && Pow2(5) == 32.0 && Pow2(6) == 64.0;
    if c >= 6 {
      PowGrows(6, c);
    }
  }

  /** The first reading shows no run over 10 seconds, so the count is kept. */
  predicate Calm(e: Entry, now1: real) {
    Observe(e, now1).lastRunDuration <= 10.0
  }

  /**
    When the documented delays beyond 8 seconds are granted: from a count of 5 on, if the first
    reading shows no run over 10 seconds while the second is the whole delay after the last restart.
   */
  lemma LongDelayExactly(e: Entry, now1: real, now2: real)
    requires now1 <= now2
    ensures
      var granted := Check(e, now1, now2).granted;
      && (granted.Some? && granted.value > 8.0 <==> e.count >= 5 && Calm(e, now1) && now2 - e.lastRestart >= Delay(e.count))
      && (granted == Some(30.0) <==> e.count >= 6 && Calm(e, now1) && now2 - e.lastRestart >= 30.0)
  {
    LongDelayValues(e.count);
    LongDelayValues(0);
  }

  /** Such a delay takes readings at least 6 seconds apart if the script's last start is not in the future. */
  lemma LongDelayNeedsGap(e: Entry, now1: real, now2: real)
    requires e.lastStart == e.lastRestart < now1 <= now2
    requires Check(e, now1, now2).granted.Some? && Check(e, now1, now2).granted.value > 8.0
    ensures now2 - now1 >= Delay(e.count) - 10.0 >= 6.0
  {
    LongDelayExactly(e, now1, now2);
    DelayValues(e.count);
  }

  ghost predicate StaysWithinFive(e: Entry, now1: real, gap: real) {
    WithinFive(e) ==> WithinFive(Check(e, now1, now1 + gap).entry)
  }

  /** A gap between the two readings keeps every count within 5 if and only if it is below 6 seconds. */
  lemma GapExactly(gap: real)
    requires gap >= 0.0
    ensures (forall e, now1 :: StaysWithinFive(e, now1, gap)) <==> gap < 6.0
  {
    if gap < 6.0 {
      forall e, now1
        ensures StaysWithinFive(e, now1, gap)
      {
        if WithinFive(e) {
          CheckStaysWithinFive(e, now1, now1 + gap);
        }
      }
    } else {
      LongDelayExactly(Entry(5, 100.0, 100.0, 0.0), 110.0, 110.0 + gap);
      assert !StaysWithinFive(Entry(5, 100.0, 100.0, 0.0), 110.0, gap);
    }
  }

  /** A script whose last restart is over 10 seconds ago is restarted at once, with the smallest delay. */
  lemma LateCheckRestarts(e: Entry, now1: real, now2: real)
    requires e.lastStart == e.lastRestart && now1 <= now2 && now1 - e.lastRestart > 10.0
    ensures Check(e, now1, now2) == Attempt(Entry(1, now2, now2, 0.0), Some(0.5))
  {}

  /** A script never restarted before is restarted as soon as the clock is past half a second. */
  lemma FirstCheckExactly(now: real)
    requires now >= 0.0
    ensures Check(FRESH, now, now).granted == if now >= 0.5 then Some(0.5) else None
    ensures Check(FRESH, now, now).entry ==
      if now >= 0.5 then Entry(1, now, now, 0.0) else if now > 0.0 then Entry(0, 0.0, 0.0, now) else Entry(0, 0.0, 0.0, 999.0)
  {
    DelayValues(0);
  }

  /** Delays double from half a second up to 16 and stay at 30. */
  lemma DelaysExactly(c: nat)
    ensures Delay(0) == 0.5 && Delay(1) == 1.0 && Delay(2) == 2.0 && Delay(3) == 4.0 && Delay(4) == 8.0 && Delay(5) == 16.0
    ensures c >= 6 ==> Delay(c) == 30.0
  {
    DelayValues(0);
    assert Pow2(5) == 32.0;
    LongDelayValues(c);
  }

  // --- The time restarts take ---

  /** An entry between a restart and the next one granted. */
  predicate Waiting(e: Entry) {
    e.lastStart == e.lastRestart && e.count >= 1 && e.lastRunDuration <= 10.0
  }

  /**
    Two ways to charge for restarts, in quarter seconds each: 17 is the best rate in the long run,
    16 the better one for two restarts.
   */
  datatype Rate = Seventeen | Sixteen {
    function PerRestart(): int {
      if Seventeen? then 17 else 16
    }

    function Debt(): int {
      if Seventeen? then 23 else 20
    }

    /** What an entry with this count owes, in quarter seconds, for restarts faster than the rate. */
    function Potential(count: nat): (p: int)
      ensures -Debt() <= p <= 0
    {
      if count <= 1 then 0
      else if count == 2 then (if Seventeen? then -13 else -12)
      else if count == 3 then (if Seventeen? then -22 else -20)
      else if count == 4 then (if Seventeen? then -23 else -20)
      else (if Seventeen? then -8 else -4)
    }
  }

  lemma CheckPays(e: Entry, now1: real, now2: real, r: Rate)
    requires Waiting(e) && now1 <= now2
    ensures
      var a := Check(e, now1, now2);
      && Waiting(a.entry)
      && (a.granted.None? ==> a.entry.count == e.count && a.entry.lastRestart == e.lastRestart)
      && (a.granted.Some? ==>
            && a.entry.lastRestart == now2
            && 4.0 * (now2 - e.lastRestart) >= (r.PerRestart() + r.Potential(a.entry.count) - r.Potential(e.count)) as real)
  {
    DelayValues(e.count);
  }

  /** Restart times any two of which, k apart in number, are at least k times the rate less the debt apart. */
  ghost predicate Spread(times: seq<real>, r: Rate) {
    forall i, j :: 0 <= i <= j < |times| ==>
      4.0 * (times[j] - times[i]) >= (r.PerRestart() * (j - i) - r.Debt()) as real
  }

  /** The same measured to the latest restart, with the potential of the present count in place of the debt. */
  ghost predicate Paid(times: seq<real>, count: nat, r: Rate) {
    forall i :: 0 <= i < |times| ==>
      4.0 * (times[|times| - 1] - times[i]) >= (r.PerRestart() * (|times| - 1 - i) + r.Potential(count)) as real
  }

  /** times are the restarts granted to a script since its entry was created, e the entry they left. */
  ghost predicate Accounts(times: seq<real>, e: Entry) {
    && (|times| > 0 ==> Waiting(e) && times[|times| - 1] == e.lastRestart)
    && forall r: Rate :: Spread(times, r) && Paid(times, e.count, r)
  }

  lemma CheckKeepsAccounts(times: seq<real>, e: Entry, now1: real, now2: real)
    requires Accounts(times, e) && now1 <= now2
    ensures
      var a := Check(e, now1, now2);
      Accounts(if a.granted.Some? then times + [now2] else times, a.entry)
  {
    var a := Check(e, now1, now2);
    if |times| > 0 {
      CheckPays(e, now1, now2, Seventeen);
    }
    forall r: Rate
      ensures a.granted.Some? ==> Paid(times + [now2], a.entry.count, r) && Spread(times + [now2], r)
      ensures a.granted.None? ==> Paid(times, a.entry.count, r)
    {
      if |times| > 0 {
        CheckPays(e, now1, now2, r);
      }
      if a.granted.Some? {
        PaidExtends(times, e.count, now2, a.entry.count, r);
        SpreadExtends(times, now2, a.entry.count, r);
      }
    }
  }

  lemma PaidExtends(times: seq<real>, count: nat, now: real, count': nat, r: Rate)
    requires Paid(times, count, r)
    requires |times| > 0 ==>
      4.0 * (now - times[|times| - 1]) >= (r.PerRestart() + r.Potential(count') - r.Potential(count)) as real
    ensures Paid(times + [now], count', r)
  {}

  lemma SpreadExtends(times: seq<real>, now: real, count: nat, r: Rate)
    requires Spread(times, r) && Paid(times + [now], count, r)
    ensures Spread(times + [now], r)
  {}

  /** k further restarts take at least 4k - 5 seconds, and at least (17k - 23)/4. */
  lemma SpanBound(times: seq<real>, e: Entry, i: nat, k: nat)
    requires Accounts(times, e) && i + k < |times|
    ensures times[i + k] - times[i] >= (4 * k - 5) as real
    ensures times[i + k] - times[i] >= (17 * k - 23) as real / 4.0
  {
    assert Spread(times, Sixteen) && Spread(times, Seventeen);
    assert 4.0 * (times[i + k] - times[i]) >= (16 * k - 20) as real;
    assert 4.0 * (times[i + k] - times[i]) >= (17 * k - 23) as real;
  }

  // --- Sharpness ---

  /** The entry that checks at these times leave of a fresh one, both readings of each taken at once. */
  function EntryAfter(times: seq<real>): Entry {
    if |times| == 0 then FRESH
    else
      var now := times[|times| - 1];
      Check(EntryAfter(times[..|times| - 1]), now, now).entry
  }

  /** Each of these checks grants a restart. */
  predicate AllGranted(times: seq<real>) {
    |times| == 0
    || (var now := times[|times| - 1];
        AllGranted(times[..|times| - 1]) && Check(EntryAfter(times[..|times| - 1]), now, now).granted.Some?)
  }

  lemma GrantedNext(times: seq<real>, now: real)
    requires AllGranted(times) && Check(EntryAfter(times), now, now).granted.Some?
    ensures AllGranted(times + [now]) && EntryAfter(times + [now]) == Check(EntryAfter(times), now, now).entry
  {
    assert (times + [now])[..|times|] == times;
  }

  /** An entry just restarted after its count was reset. */
  function JustReset(t: real): Entry {
    Entry(1, t, t, 0.0)
  }

  lemma RampSteps(t: real)
    ensures Check(JustReset(t), t + 1.0, t + 1.0) == Attempt(Entry(2, t + 1.0, t + 1.0, 0.0), Some(1.0))
    ensures Check(Entry(2, t + 1.0, t + 1.0, 0.0), t + 3.0, t + 3.0) == Attempt(Entry(3, t + 3.0, t + 3.0, 0.0), Some(2.0))
    ensures Check(Entry(3, t + 3.0, t + 3.0, 0.0), t + 7.0, t + 7.0) == Attempt(Entry(4, t + 7.0, t + 7.0, 0.0), Some(4.0))
  {
    DelayValues(4);
  }

  /** Restarts 1, 2 and 4 seconds apart, each the moment its delay is over. */
  lemma RampGranted(times: seq<real>, t: real)
    requires AllGranted(times) && EntryAfter(times) == JustReset(t)
    ensures
      var more := times + [t + 1.0] + [t + 3.0] + [t + 7.0];
      AllGranted(more) && EntryAfter(more) == Entry(4, t + 7.0, t + 7.0, 0.0)
  {
    hide AllGranted, EntryAfter, Check;
    RampSteps(t);
    GrantedNext(times, t + 1.0);
    GrantedNext(times + [t + 1.0], t + 3.0);
    GrantedNext(times + [t + 1.0] + [t + 3.0], t + 7.0);
  }

  lemma FirstGranted()
    ensures AllGranted([100.0]) && EntryAfter([100.0]) == JustReset(100.0)
  {
    assert [100.0][..0] == [];
  }

  /** Both bounds are met exactly: two further restarts within 3 seconds, three within 7. */
  lemma BoundsAreSharp()
    ensures AllGranted([100.0, 101.0, 103.0, 107.0])
    ensures 103.0 - 100.0 == (4 * 2 - 5) as real && 107.0 - 100.0 == (17 * 3 - 23) as real / 4.0
  {
    hide AllGranted, EntryAfter;
    FirstGranted();
    RampGranted([100.0], 100.0);
    assert [100.0] + [101.0] + [103.0] + [107.0] == [100.0, 101.0, 103.0, 107.0];
  }

  /** Five restarts as fast as the delays allow, then two slow checks: 16 and 30 seconds are granted. */
  lemma LongDelaysReached()
    ensures
      var times := [100.0, 101.0, 103.0, 107.0, 115.0];
      var slow := Check(EntryAfter(times), 125.0, 131.0);
      && AllGranted(times)
      && slow.granted == Some(16.0) && Check(slow.entry, 141.0, 161.0).granted == Some(30.0)
  {
    hide AllGranted, EntryAfter, Check;
    FirstGranted();
    RampGranted([100.0], 100.0);
    FifthGranted();
    GrantedNext([100.0] + [101.0] + [103.0] + [107.0], 115.0);
    assert [100.0] + [101.0] + [103.0] + [107.0] + [115.0] == [100.0, 101.0, 103.0, 107.0, 115.0];
    SlowChecks();
  }

  lemma FifthGranted()
    ensures Check(Entry(4, 107.0, 107.0, 0.0), 115.0, 115.0) == Attempt(Entry(5, 115.0, 115.0, 0.0), Some(8.0))
  {
    DelayValues(4);
  }

  lemma SlowChecks()
    ensures Check(Entry(5, 115.0, 115.0, 0.0), 125.0, 131.0) == Attempt(Entry(6, 131.0, 131.0, 0.0), Some(16.0))
    ensures Check(Entry(6, 131.0, 131.0, 0.0), 141.0, 161.0).granted == Some(30.0)
  {
    assert Pow2(5) == 32.0 && Pow2(6) == 64.0;
  }

  /** When n cycles are over that take 17 seconds and d each. */
  function CycleEnd(n: nat, d: real): real {
    if n == 0 then 100.0 else CycleEnd(n - 1, d) + 17.0 + d
  }

  /** n cycles, each a ramp of three restarts and a fourth after a wait of 10 seconds and d, which resets the count. */
  function Cycles(n: nat, d: real): seq<real> {
    if n == 0 then [100.0]
    else
      var t := CycleEnd(n - 1, d);
      Cycles(n - 1, d) + [t + 1.0] + [t + 3.0] + [t + 7.0] + [CycleEnd(n, d)]
  }

  lemma {:induction false} CyclesGranted(n: nat, d: real)
    requires d > 0.0
    ensures AllGranted(Cycles(n, d)) && EntryAfter(Cycles(n, d)) == JustReset(CycleEnd(n, d))
  {
    hide AllGranted, EntryAfter, Check;
    if n == 0 {
      FirstGranted();
    } else {
      var t := CycleEnd(n - 1, d);
      CyclesGranted(n - 1, d);
      RampGranted(Cycles(n - 1, d), t);
      LateCheckRestarts(Entry(4, t + 7.0, t + 7.0, 0.0), CycleEnd(n, d), CycleEnd(n, d));
      GrantedNext(Cycles(n - 1, d) + [t + 1.0] + [t + 3.0] + [t + 7.0], CycleEnd(n, d));
    }
  }

  lemma {:induction false} CyclesSpan(n: nat, d: real)
    ensures |Cycles(n, d)| == 4 * n + 1 && Cycles(n, d)[0] == 100.0 && Cycles(n, d)[4 * n] == CycleEnd(n, d)
    ensures CycleEnd(n, d) == 100.0 + n as real * (17.0 + d)
  {
    if n > 0 {
      CyclesSpan(n - 1, d);
    }
  }

  /**
    The long-run rate is sharp: for any n and any time to spare, 4n further restarts can be granted
    in less than 17n seconds and that time.
   */
  lemma RateIsSharp(n: nat, spare: real) returns (times: seq<real>)
    requires spare > 0.0
    ensures |times| == 4 * n + 1 && AllGranted(times)
    ensures times[4 * n] - times[0] < (17 * n) as real + spare
  {
    hide AllGranted, Cycles, CycleEnd;
    var d := spare / (n + 1) as real;
    CyclesGranted(n, d);
    CyclesSpan(n, d);
    times := Cycles(n, d);
    assert n as real * d < spare;
  }

  // --- The log, changed in place ---

  class RestartLog {
    var entries: map<string, Entry>

    constructor ()
      ensures entries == map[]
    {
      entries := map[];
    }

    /** setdefault and the recording of the run length, then the backoff decision. */
    method CheckCrashed(sid: string, now1: real, now2: real) returns (granted: Option<real>)
      modifies this
      ensures
        var a := Check(EntryOf(old(entries), sid), now1, now2);
        entries == old(entries)[sid := a.entry] && granted == a.granted
    {
      var log := EntryOf(entries, sid);
      var runDuration := now1 - log.lastStart;
      if runDuration > 0.0 {
        log := log.(lastRunDuration := runDuration);
      }
      entries := entries[sid := log];
      granted := RestartBackoff(sid, now2);
    }

    method RestartBackoff(sid: string, now: real) returns (granted: Option<real>)
      modifies this
      ensures
        var a := TryRestart(EntryOf(old(entries), sid), now);
        granted == a.granted && entries == if sid in old(entries) || granted.Some? then old(entries)[sid := a.entry] else old(entries)
    {
      var log := EntryOf(entries, sid);
      if log.lastRunDuration > 10.0 {
        log := log.(count := 0);
      }
      if sid in entries {
        entries := entries[sid := log];
      }
      var delay := Delay(log.count);
      var elapsed := now - log.lastRestart;
      if elapsed < delay {
        return None;
      }
      log := Entry(log.count + 1, now, now, 0.0);
      entries := entries[sid := log];
      return Some(delay);
    }

    method Forget(sid: string)
      modifies this
      ensures entries == old(entries) - {sid}
    {
      entries := entries - {sid};
    }
  }

  /** _RESTART_LOG.get(sid, ...) */
  function EntryOf(entries: map<string, Entry>, sid: string): Entry {
    if sid in entries then entries[sid] else FRESH
  }
}
