/**
  Backoff over whole supervisor runs: how often the monitor can restart one script, which log
  entries and delays occur, and when a crashed script is sure to be restarted.
 */
module RestartTiming {
  import opened Wrappers
  import opened Backoff
  import opened Supervisor

  /** The backoff check that visiting sid makes, if it makes one. */
  function VisitCheck(reg: Registry, s: State, sid: Sid, look: Look): Option<Attempt>
    requires sid in s.running
  {
    if sid !in reg || CheckHealth(s, s.running[sid], look).1.status != Crashed || !(reg[sid] == OnFailure || reg[sid] == Always) then None
    else
      var now1 := s.clock + look.sinceLast;
      Some(Check(EntryOf(s.log, sid), now1, now1 + look.between))
  }

  /** Whether visiting sid finds a clean exit and so deletes its log entry. */
  predicate VisitForgets(reg: Registry, s: State, sid: Sid, look: Look)
    requires sid in s.running
  {
    var p := CheckHealth(s, s.running[sid], look).1;
    sid in reg && p.status == Stopped && p.exitCode == Some(0)
  }

  /** What one visit does to the log, the clock and the process count. */
  lemma VisitEffect(reg: Registry, s: State, v: Sid, look: Look)
    requires v in s.running
    ensures
      var s', c := Visit(reg, s, v, look), VisitCheck(reg, s, v, look);
      && (forall sid :: sid != v ==> EntryOf(s'.log, sid) == EntryOf(s.log, sid))
      && (VisitForgets(reg, s, v, look) ==> EntryOf(s'.log, v) == FRESH)
      && (c.Some? ==> s'.log == s.log[v := c.value.entry] && s'.clock == s.clock + look.sinceLast + look.between)
      && (c.None? && !VisitForgets(reg, s, v, look) ==> s'.log == s.log)
      && (s'.next != s.next <==> c.Some? && c.value.granted.Some? && look.launches)
      && (s'.next != s.next ==> v in s'.running && s'.running[v] == Proc(Running, None, Some(s.next)))
  {
    hide Check;
  }

  // --- Restart times ---

  /** times, extended by the restart that a visit grants sid, or emptied by its clean exit. */
  function VisitTimes(reg: Registry, s: State, v: (Sid, Look), sid: Sid, times: seq<real>): seq<real> {
    if v.0 != sid || sid !in s.running then times
    else if VisitForgets(reg, s, sid, v.1) then []
    else
      var c := VisitCheck(reg, s, sid, v.1);
      if c.Some? && c.value.granted.Some? then times + [s.clock + v.1.sinceLast + v.1.between] else times
  }

  function VisitAllTimes(reg: Registry, s: State, visits: seq<(Sid, Look)>, sid: Sid, times: seq<real>): seq<real>
    decreases |visits|
  {
    if |visits| == 0 then times
    else
      var v := visits[0];
      var s' := if v.0 in s.running then Visit(reg, s, v.0, v.1) else s;
      VisitAllTimes(reg, s', visits[1..], sid, VisitTimes(reg, s, v, sid, times))
  }

  /** The times at which the monitor restarted sid since its last clean exit. */
  function RunTimes(reg: Registry, events: seq<Event>, sid: Sid): seq<real> {
    if |events| == 0 then []
    else
      var prev, e := events[..|events| - 1], events[|events| - 1];
      var times := RunTimes(reg, prev, sid);
      if e.Tick? then VisitAllTimes(reg, Run(reg, INITIAL, prev), e.visits, sid, times) else times
  }

  lemma VisitKeepsAccounts(reg: Registry, s: State, v: (Sid, Look), sid: Sid, times: seq<real>)
    requires Accounts(times, EntryOf(s.log, sid)) && v.0 in s.running
    ensures Accounts(VisitTimes(reg, s, v, sid, times), EntryOf(Visit(reg, s, v.0, v.1).log, sid))
  {
    hide Visit, Check, VisitForgets;
    VisitEffect(reg, s, v.0, v.1);
    if v.0 == sid {
      var now1 := s.clock + v.1.sinceLast;
      CheckKeepsAccounts(times, EntryOf(s.log, sid), now1, now1 + v.1.between);
    }
  }

  lemma {:induction false} VisitAllKeepsAccounts(reg: Registry, s: State, visits: seq<(Sid, Look)>, sid: Sid, times: seq<real>)
    requires Accounts(times, EntryOf(s.log, sid))
    ensures Accounts(VisitAllTimes(reg, s, visits, sid, times), EntryOf(VisitAll(reg, s, visits).log, sid))
    decreases |visits|
  {
    hide Visit, Accounts;
    if |visits| == 0 {
    } else {
      var v := visits[0];
      if v.0 in s.running {
        VisitKeepsAccounts(reg, s, v, sid, times);
        VisitAllKeepsAccounts(reg, Visit(reg, s, v.0, v.1), visits[1..], sid, VisitTimes(reg, s, v, sid, times));
      } else {
        VisitAllKeepsAccounts(reg, s, visits[1..], sid, times);
      }
    }
  }

  lemma {:induction false} RunKeepsAccounts(reg: Registry, events: seq<Event>, sid: Sid)
    ensures Accounts(RunTimes(reg, events, sid), EntryOf(Run(reg, INITIAL, events).log, sid))
  {
    hide VisitAll;
    if |events| == 0 {
    } else {
      var prev, e := events[..|events| - 1], events[|events| - 1];
      RunKeepsAccounts(reg, prev, sid);
      if e.Tick? {
        VisitAllKeepsAccounts(reg, Run(reg, INITIAL, prev), e.visits, sid, RunTimes(reg, prev, sid));
      }
    }
  }

  /** In any run, k further monitor restarts of a script with no clean exit between take at least 4k - 5 and (17k - 23)/4 seconds. */
  lemma RestartRate(reg: Registry, events: seq<Event>, sid: Sid, i: nat, k: nat)
    requires i + k < |RunTimes(reg, events, sid)|
    ensures
      var times := RunTimes(reg, events, sid);
      times[i + k] - times[i] >= (4 * k - 5) as real && times[i + k] - times[i] >= (17 * k - 23) as real / 4.0
  {
    RunKeepsAccounts(reg, events, sid);
    SpanBound(RunTimes(reg, events, sid), EntryOf(Run(reg, INITIAL, events).log, sid), i, k);
  }

  // --- Entries and delays ---

  /** The clock readings of every check in the tick lie under six seconds apart. */
  predicate Prompt(e: Event) {
    e.Tick? ==> forall i :: 0 <= i < |e.visits| ==> e.visits[i].1.between < 6.0
  }

  ghost predicate LogOk(s: State) {
    forall sid :: WithinFive(EntryOf(s.log, sid))
  }

  lemma VisitKeepsLogOk(reg: Registry, s: State, v: Sid, look: Look)
    requires LogOk(s) && v in s.running && look.between < 6.0
    ensures LogOk(Visit(reg, s, v, look))
    ensures
      var c := VisitCheck(reg, s, v, look);
      c.Some? && c.value.granted.Some? ==> c.value.granted.value in {0.5, 1.0, 2.0, 4.0, 8.0}
  {
    hide Visit, Check, VisitForgets;
    var s', now1 := Visit(reg, s, v, look), s.clock + look.sinceLast;
    VisitEffect(reg, s, v, look);
    assert WithinFive(EntryOf(s.log, v));
    CheckStaysWithinFive(EntryOf(s.log, v), now1, now1 + look.between);
    forall sid
      ensures WithinFive(EntryOf(s'.log, sid))
    {
      assert WithinFive(EntryOf(s.log, sid));
    }
  }

  lemma {:induction false} VisitAllKeepsLogOk(reg: Registry, s: State, visits: seq<(Sid, Look)>)
    requires LogOk(s) && Prompt(Tick(visits))
    ensures LogOk(VisitAll(reg, s, visits))
    decreases |visits|
  {
    hide Visit, LogOk;
    if |visits| == 0 {
    } else {
      var v := visits[0];
      assert Prompt(Tick(visits[1..])) && Tick(visits).visits[0].1.between < 6.0;
      if v.0 in s.running {
        VisitKeepsLogOk(reg, s, v.0, v.1);
      }
      VisitAllKeepsLogOk(reg, if v.0 in s.running then Visit(reg, s, v.0, v.1) else s, visits[1..]);
    }
  }

  /** In every run with prompt readings, each entry has equal time stamps and a count within 5. */
  lemma {:induction false} RunKeepsLogOk(reg: Registry, events: seq<Event>)
    requires forall i :: 0 <= i < |events| ==> Prompt(events[i])
    ensures LogOk(Run(reg, INITIAL, events))
  {
    hide VisitAll, Prompt;
    if |events| == 0 {
    } else {
      var prev, e := events[..|events| - 1], events[|events| - 1];
      RunKeepsLogOk(reg, prev);
      if e.Tick? {
        VisitAllKeepsLogOk(reg, Run(reg, INITIAL, prev), e.visits);
      }
    }
  }

  // --- The way back up ---

  /** sid has been started again if its launch worked; if not it is crashed and waits for the next try. */
  ghost predicate Retried(s: State, sid: Sid, launches: bool) {
    && sid in s.running
    && if launches then
         var p := s.running[sid];
         p.status == Running && p.handle.Some? && p.handle.value in s.live && s.live[p.handle.value] == sid
       else s.running[sid].status == Crashed
  }

  /** A look at a script that is gone, over 10 seconds after its last restart, retries it. */
  lemma VisitRetries(reg: Registry, s: State, sid: Sid, look: Look)
    requires Inv(reg, s) && LogOk(s) && look.between < 6.0
    requires sid in s.running && Gone(s, sid, look) && (reg[sid] == OnFailure || reg[sid] == Always)
    requires s.clock + look.sinceLast - EntryOf(s.log, sid).lastRestart > 10.0
    ensures Retried(Visit(reg, s, sid, look), sid, look.launches)
    ensures VisitCheck(reg, s, sid, look) == Some(Attempt(EntryOf(Visit(reg, s, sid, look).log, sid), Some(0.5)))
  {
    hide Check;
    var now1 := s.clock + look.sinceLast;
    assert WithinFive(EntryOf(s.log, sid));
    LateCheckRestarts(EntryOf(s.log, sid), now1, now1 + look.between);
  }

  /** The process of sid, if its record holds one, is in t what it is in s. */
  ghost predicate SameProcess(s: State, t: State, sid: Sid)
    requires sid in s.running
  {
    s.running[sid].handle.Some? ==>
      var h := s.running[sid].handle.value;
      (h in t.live <==> h in s.live) && (h in s.live ==> t.live[h] == s.live[h])
  }

  lemma HealthFrame(reg: Registry, s: State, v: Sid, look: Look, sid: Sid)
    requires Inv(reg, s) && v in s.running && sid in s.running && v != sid
    ensures
      var s1 := CheckHealth(s, s.running[v], look).0;
      s1.(live := s.live) == s && SameProcess(s, s1, sid)
  {}

  lemma PolicyFrame(policy: Policy, s: State, v: Sid, p: Proc, look: Look, sid: Sid)
    requires v != sid
    ensures
      var s2 := ApplyRestartPolicy(policy, s, v, p, look).0;
      && s2.running == s.running && s2.clock >= s.clock && EntryOf(s2.log, sid) == EntryOf(s.log, sid)
      && (s2.live == s.live || s2.live == s.live[s.next := v])
  {
    hide Check;
  }

  /** A visit to another script leaves everything about sid as it is, but for the time that passes. */
  lemma VisitFrame(reg: Registry, s: State, v: Sid, look: Look, sid: Sid)
    requires Inv(reg, s) && v in s.running && sid in s.running && v != sid
    ensures
      var s' := Visit(reg, s, v, look);
      && sid in s'.running && s'.running[sid] == s.running[sid] && SameProcess(s, s', sid)
      && EntryOf(s'.log, sid) == EntryOf(s.log, sid) && s'.clock >= s.clock
  {
    hide CheckHealth, ApplyRestartPolicy, EntryOf;
    InvRegisters(reg, s, v);
    HealthFrame(reg, s, v, look, sid);
    var (s1, p1) := CheckHealth(s, s.running[v], look);
    PolicyFrame(reg[v], s1, v, p1, look, sid);
  }

  lemma {:induction false} OthersKeepRetried(reg: Registry, s: State, visits: seq<(Sid, Look)>, sid: Sid, launches: bool)
    requires Inv(reg, s) && Retried(s, sid, launches)
    requires forall i :: 0 <= i < |visits| ==> visits[i].0 != sid
    ensures Retried(VisitAll(reg, s, visits), sid, launches)
    decreases |visits|
  {
    hide Visit, Inv;
    if |visits| == 0 {
    } else {
      var v := visits[0];
      if v.0 in s.running {
        VisitFrame(reg, s, v.0, v.1, sid);
        VisitKeepsInv(reg, s, v.0, v.1);
      }
      OthersKeepRetried(reg, if v.0 in s.running then Visit(reg, s, v.0, v.1) else s, visits[1..], sid, launches);
    }
  }

  /** The clock reading with which look k of a tick starts. */
  function Reading(reg: Registry, s: State, visits: seq<(Sid, Look)>, k: nat): real
    requires k < |visits|
  {
    VisitAll(reg, s, visits[..k]).clock + visits[k].1.sinceLast
  }

  lemma {:induction false} TickRetries(reg: Registry, s: State, visits: seq<(Sid, Look)>, k: nat)
    requires Inv(reg, s) && LogOk(s) && Prompt(Tick(visits)) && k < |visits|
    requires forall i :: 0 <= i < |visits| && i != k ==> visits[i].0 != visits[k].0
    requires visits[k].0 in s.running && Gone(s, visits[k].0, visits[k].1) && (reg[visits[k].0] == OnFailure || reg[visits[k].0] == Always)
    requires Reading(reg, s, visits, k) - EntryOf(s.log, visits[k].0).lastRestart > 10.0
    ensures Retried(VisitAll(reg, s, visits), visits[k].0, visits[k].1.launches)
    decreases |visits|
  {
    hide Visit, Inv, LogOk, Retried, EntryOf, VisitCheck;
    var v, sid := visits[0], visits[k].0;
    InvRegisters(reg, s, sid);
    if k == 0 {
      assert visits[..0] == [];
      VisitRetries(reg, s, sid, v.1);
      VisitKeepsInv(reg, s, sid, v.1);
      OthersKeepRetried(reg, Visit(reg, s, sid, v.1), visits[1..], sid, v.1.launches);
    } else {
      assert visits[1..][k - 1] == visits[k];
      assert visits[..k][0] == visits[0] && visits[..k][1..] == visits[1..][..k - 1];
      if v.0 in s.running {
        VisitFrame(reg, s, v.0, v.1, sid);
        VisitKeepsInv(reg, s, v.0, v.1);
        VisitKeepsLogOk(reg, s, v.0, v.1);
      }
      TickRetries(reg, if v.0 in s.running then Visit(reg, s, v.0, v.1) else s, visits[1..], k - 1);
    }
  }

  /**
    After any run with prompt readings, a monitor tick that looks at a script over 10 seconds after
    its last restart, finds it gone and restarts under its policy, ends with the script running
    again if its launch works. In particular this is so for the first such tick.
   */
  lemma CrashedScriptComesBack(reg: Registry, events: seq<Event>, visits: seq<(Sid, Look)>, k: nat)
    requires (forall i :: 0 <= i < |events| ==> Prompt(events[i])) && Prompt(Tick(visits)) && k < |visits|
    requires forall i :: 0 <= i < |visits| && i != k ==> visits[i].0 != visits[k].0
    requires
      var s, sid := Run(reg, INITIAL, events), visits[k].0;
      && sid in s.running && Gone(s, sid, visits[k].1) && sid in reg && (reg[sid] == OnFailure || reg[sid] == Always)
      && Reading(reg, s, visits, k) - EntryOf(s.log, sid).lastRestart > 10.0
    ensures Retried(Run(reg, INITIAL, events + [Tick(visits)]), visits[k].0, visits[k].1.launches)
  {
    hide VisitAll, Retried, Gone;
    var s, more := Run(reg, INITIAL, events), events + [Tick(visits)];
    RunKeepsLogOk(reg, events);
    RunKeepsInv(reg, events);
    TickRetries(reg, s, visits, k);
    assert more[..|more| - 1] == events;
    assert Run(reg, INITIAL, more) == VisitAll(reg, s, visits);
  }

  /** A script started, gone, and looked at for the first time over 10 seconds on the clock, runs again. */
  lemma FirstLateTick(sid: Sid, policy: Policy, passed: Span)
    requires (policy == OnFailure || policy == Always) && passed > 10.0
    ensures
      var reg, look := map[sid := policy], Look(false, 1, passed, 0.0, true);
      Retried(Run(reg, INITIAL, [Start(sid, true), Exit(0)] + [Tick([(sid, look)])]), sid, true)
  {
    hide EntryOf, Check;
    var reg, look := map[sid := policy], Look(false, 1, passed, 0.0, true);
    var events, visits := [Start(sid, true), Exit(0)], [(sid, look)];
    FirstCrash(reg, sid);
    assert visits[..0] == [];
    CrashedScriptComesBack(reg, events, visits, 0);
  }

  lemma FirstCrash(reg: Registry, sid: Sid)
    requires sid in reg
    ensures
      Run(reg, INITIAL, [Start(sid, true), Exit(0)])
        == State(map[sid := Proc(Running, None, Some(0))], map[], map[], 1, 0.0)
    ensures EntryOf(map[], sid) == FRESH
  {
    var events := [Start(sid, true), Exit(0)];
    assert events[..1] == [Start(sid, true)] && events[..1][..0] == [];
    assert Run(reg, INITIAL, events[..1]) == State(map[sid := Proc(Running, None, Some(0))], map[], map[0 := sid], 1, 0.0);
    assert map[0 := sid] - {0} == map[];
  }

  // --- Sharpness ---

  /** A start, and then, for each time, the process exits and is looked at just then, both readings at once. */
  function RunFor(sid: Sid, times: seq<real>): seq<Event>
    requires Ascending(times)
  {
    if |times| == 0 then [Start(sid, true)]
    else
      var prev := times[..|times| - 1];
      RunFor(sid, prev) + [Exit(|prev|)] + [Tick([(sid, LookAfter(times))])]
  }

  predicate Ascending(times: seq<real>) {
    (|times| > 0 ==> times[0] >= 0.0) && forall i :: 0 < i < |times| ==> times[i - 1] <= times[i]
  }

  function LookAfter(times: seq<real>): Look
    requires |times| > 0 && Ascending(times)
  {
    var before := if |times| == 1 then 0.0 else times[|times| - 2];
    Look(false, 1, times[|times| - 1] - before, 0.0, true)
  }

  /** The supervisor after that: the last process launched is alive, and its script's entry is what the checks left. */
  function AfterRestarts(sid: Sid, times: seq<real>): State {
    var n := |times|;
    State(map[sid := Proc(Running, None, Some(n))], if n == 0 then map[] else map[sid := EntryAfter(times)],
          map[n := sid], n + 1, if n == 0 then 0.0 else times[n - 1])
  }

  /** Checks that each grant a restart are the restarts of a whole run of the supervisor. */
  lemma {:induction false} RunMakesRestarts(sid: Sid, times: seq<real>)
    requires Ascending(times) && AllGranted(times)
    ensures RunTimes(map[sid := Always], RunFor(sid, times), sid) == times
    ensures Run(map[sid := Always], INITIAL, RunFor(sid, times)) == AfterRestarts(sid, times)
  {
    hide Check, EntryAfter, AllGranted, Run, RunTimes, Step, VisitAllTimes, AfterRestarts, LookAfter;
    var reg := map[sid := Always];
    if |times| == 0 {
      OneStart(sid);
    } else {
      var prev, look := times[..|times| - 1], LookAfter(times);
      LastGranted(times);
      RunMakesRestarts(sid, prev);
      var events := RunFor(sid, prev);
      RunNext(reg, events, Exit(|prev|), sid);
      RunNext(reg, events + [Exit(|prev|)], Tick([(sid, look)]), sid);
      OneMore(sid, times);
    }
  }

  lemma OneMore(sid: Sid, times: seq<real>)
    requires |times| > 0 && Ascending(times) && AllGranted(times)
    ensures
      var reg, prev, look := map[sid := Always], times[..|times| - 1], LookAfter(times);
      var exited := Step(reg, AfterRestarts(sid, prev), Exit(|prev|));
      && Step(reg, exited, Tick([(sid, look)])) == AfterRestarts(sid, times)
      && VisitAllTimes(reg, exited, [(sid, look)], sid, prev) == times
  {
    hide Check, EntryAfter, AllGranted, Step, VisitAllTimes, EntryOf;
    var reg, prev, look := map[sid := Always], times[..|times| - 1], LookAfter(times);
    var s, n := AfterRestarts(sid, prev), |prev|;
    LastGranted(times);
    ExitStep(reg, s, n);
    assert map[n := sid] - {n} == map[];
    LogHolds(sid, prev);
    AllRestarted(sid, s.(live := map[]), look, prev);
    assert times == prev + [times[n]];
  }

  lemma ExitStep(reg: Registry, s: State, h: nat)
    ensures Step(reg, s, Exit(h)) == s.(live := s.live - {h})
  {}

  lemma OneStart(sid: Sid)
    ensures RunTimes(map[sid := Always], [Start(sid, true)], sid) == []
    ensures Run(map[sid := Always], INITIAL, [Start(sid, true)]) == AfterRestarts(sid, [])
  {
    var events := [Start(sid, true)];
    assert events[..0] == [];
  }

  lemma LogHolds(sid: Sid, times: seq<real>)
    ensures EntryOf(if |times| == 0 then map[] else map[sid := EntryAfter(times)], sid) == EntryAfter(times)
  {}

  lemma AllRestarted(sid: Sid, s: State, look: Look, times: seq<real>)
    requires s.running == map[sid := Proc(Running, None, Some(|times|))] && s.live == map[] && s.next == |times| + 1
    requires s.log.Keys <= {sid} && look.launches && !look.markerSeen && look.between == 0.0
    requires
      var now := s.clock + look.sinceLast;
      Check(EntryOf(s.log, sid), now, now).granted.Some?
    ensures
      var reg, now := map[sid := Always], s.clock + look.sinceLast;
      && Step(reg, s, Tick([(sid, look)])) ==
           State(map[sid := Proc(Running, None, Some(|times| + 1))], map[sid := Check(EntryOf(s.log, sid), now, now).entry],
                 map[|times| + 1 := sid], |times| + 2, now)
      && VisitAllTimes(reg, s, [(sid, look)], sid, times) == times + [now]
  {
    hide Check, EntryOf, Visit, VisitAllTimes, Step;
    var now := s.clock + look.sinceLast;
    VisitOne(sid, s, look);
    RestartOne(sid, s, look, times);
    var entry := Check(EntryOf(s.log, sid), now, now).entry;
    assert s.log[sid := entry] == map[sid := entry];
  }

  lemma LastGranted(times: seq<real>)
    requires |times| > 0 && AllGranted(times)
    ensures
      var prev, now := times[..|times| - 1], times[|times| - 1];
      && AllGranted(prev) && Check(EntryAfter(prev), now, now).granted.Some?
      && EntryAfter(times) == Check(EntryAfter(prev), now, now).entry
  {
    hide Check;
  }

  lemma RunNext(reg: Registry, events: seq<Event>, e: Event, sid: Sid)
    ensures Run(reg, INITIAL, events + [e]) == Step(reg, Run(reg, INITIAL, events), e)
    ensures RunTimes(reg, events + [e], sid) ==
      if e.Tick? then VisitAllTimes(reg, Run(reg, INITIAL, events), e.visits, sid, RunTimes(reg, events, sid))
      else RunTimes(reg, events, sid)
  {
    hide Step, VisitAllTimes;
    assert (events + [e])[..|events|] == events;
  }

  lemma PolicyGrants(s: State, sid: Sid, p: Proc, look: Look)
    requires p.status == Crashed && look.launches && look.between == 0.0
    requires
      var now := s.clock + look.sinceLast;
      Check(EntryOf(s.log, sid), now, now).granted.Some?
    ensures
      var now := s.clock + look.sinceLast;
      ApplyRestartPolicy(Always, s, sid, p, look) ==
        (State(s.running, s.log[sid := Check(EntryOf(s.log, sid), now, now).entry], s.live[s.next := sid], s.next + 1, now),
         Proc(Running, None, Some(s.next)))
  {
    hide Check, EntryOf;
  }

  /** One look at a script that is gone, its check being granted. */
  lemma VisitOne(sid: Sid, s: State, look: Look)
    requires s.running.Keys == {sid} && s.running[sid].status == Running && Gone(s, sid, look) && look.launches && look.between == 0.0
    requires
      var now := s.clock + look.sinceLast;
      Check(EntryOf(s.log, sid), now, now).granted.Some?
    ensures
      var reg, now := map[sid := Always], s.clock + look.sinceLast;
      Visit(reg, s, sid, look) ==
        State(map[sid := Proc(Running, None, Some(s.next))], s.log[sid := Check(EntryOf(s.log, sid), now, now).entry],
              s.live[s.next := sid], s.next + 1, now)
  {
    hide Check, EntryOf, ApplyRestartPolicy;
    PolicyGrants(s, sid, Proc(Crashed, Some(look.exitCode), None), look);
    assert s.running[sid := Proc(Running, None, Some(s.next))] == map[sid := Proc(Running, None, Some(s.next))];
  }

  /** The same as a tick over this one script, and what it adds to the restart times. */
  lemma RestartOne(sid: Sid, s: State, look: Look, times: seq<real>)
    requires s.running.Keys == {sid} && s.running[sid].status == Running && Gone(s, sid, look) && look.launches && look.between == 0.0
    requires
      var now := s.clock + look.sinceLast;
      Check(EntryOf(s.log, sid), now, now).granted.Some?
    ensures Step(map[sid := Always], s, Tick([(sid, look)])) == Visit(map[sid := Always], s, sid, look)
    ensures VisitAllTimes(map[sid := Always], s, [(sid, look)], sid, times) == times + [s.clock + look.sinceLast]
  {
    hide Visit, VisitTimes;
    var visits, reg := [(sid, look)], map[sid := Always];
    assert visits[0] == (sid, look) && visits[1..] == [];
    TickOfOne(reg, s, visits);
    TimesOfOne(reg, s, visits, sid, times);
    TimesGrow(sid, s, look, times);
  }

  lemma TickOfOne(reg: Registry, s: State, visits: seq<(Sid, Look)>)
    requires |visits| == 1 && visits[0].0 in s.running
    ensures Step(reg, s, Tick(visits)) == Visit(reg, s, visits[0].0, visits[0].1)
  {
    hide Visit;
    assert visits[1..] == [] && VisitAll(reg, Visit(reg, s, visits[0].0, visits[0].1), []) == Visit(reg, s, visits[0].0, visits[0].1);
  }

  lemma TimesOfOne(reg: Registry, s: State, visits: seq<(Sid, Look)>, sid: Sid, times: seq<real>)
    requires |visits| == 1
    ensures VisitAllTimes(reg, s, visits, sid, times) == VisitTimes(reg, s, visits[0], sid, times)
  {
    hide Visit, VisitTimes;
  }

  lemma TimesGrow(sid: Sid, s: State, look: Look, times: seq<real>)
    requires sid in s.running && s.running[sid].status == Running && Gone(s, sid, look) && look.between == 0.0
    requires
      var now := s.clock + look.sinceLast;
      Check(EntryOf(s.log, sid), now, now).granted.Some?
    ensures VisitTimes(map[sid := Always], s, (sid, look), sid, times) == times + [s.clock + look.sinceLast]
  {
    hide Check, EntryOf;
  }

  /** The long-run rate is sharp for whole runs: some run makes 4n further restarts in under 17n seconds and any time more. */
  lemma RunRateIsSharp(sid: Sid, n: nat, spare: real) returns (events: seq<Event>)
    requires spare > 0.0
    ensures
      var times := RunTimes(map[sid := Always], events, sid);
      |times| == 4 * n + 1 && times[4 * n] - times[0] < (17 * n) as real + spare
  {
    hide AllGranted, Cycles, CycleEnd, RunFor, RunTimes, Ascending, Run;
    var d := spare / (n + 1) as real;
    CyclesGranted(n, d);
    CyclesSpan(n, d);
    CyclesAscend(n, d);
    RunMakesRestarts(sid, Cycles(n, d));
    events := RunFor(sid, Cycles(n, d));
    assert n as real * d < spare;
  }

  lemma {:induction false} CyclesAscend(n: nat, d: real)
    requires d > 0.0
    ensures Ascending(Cycles(n, d))
  {
    if n > 0 {
      CyclesAscend(n - 1, d);
      CyclesSpan(n - 1, d);
    }
  }
}
