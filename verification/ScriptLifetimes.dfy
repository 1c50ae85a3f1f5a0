/**
  How long scripts stay up or down over whole runs of the supervisor: what a stop command is worth,
  what a clean shutdown ends, and what a launched process is safe from.
 */
module ScriptLifetimes {
  import opened Wrappers
  import opened Backoff
  import opened Supervisor
  import opened RestartTiming

  ghost predicate NoProcess(s: State, sid: Sid) {
    forall h :: h in s.live ==> s.live[h] != sid
  }

  // --- What a stop command is worth ---

  /** Down, or crashed under a policy that restarts nothing. */
  ghost predicate Settled(reg: Registry, s: State, sid: Sid) {
    Down(s, sid) || (s.running[sid].status == Crashed && !(sid in reg && (reg[sid] == OnFailure || reg[sid] == Always)))
  }

  lemma SettledHasNoProcess(reg: Registry, s: State, sid: Sid)
    requires Inv(reg, s) && Settled(reg, s, sid)
    ensures NoProcess(s, sid)
  {}

  lemma VisitKeepsSettled(reg: Registry, s: State, v: Sid, look: Look, sid: Sid)
    requires Inv(reg, s) && v in s.running && Settled(reg, s, sid)
    ensures Settled(reg, Visit(reg, s, v, look), sid)
  {
    hide Visit, Inv;
    InvRegisters(reg, s, v);
    if Down(s, sid) {
      VisitKeepsDown(reg, s, v, look, sid);
    } else if v == sid {
      GoneWithoutRestart(reg, s, sid, look);
    } else {
      VisitFrame(reg, s, v, look, sid);
    }
  }

  lemma {:induction false} VisitAllKeepsSettled(reg: Registry, s: State, visits: seq<(Sid, Look)>, sid: Sid)
    requires Inv(reg, s) && Settled(reg, s, sid)
    ensures Settled(reg, VisitAll(reg, s, visits), sid)
    decreases |visits|
  {
    hide Visit, Inv, Settled;
    if |visits| == 0 {
    } else {
      var v := visits[0];
      if v.0 in s.running {
        VisitKeepsSettled(reg, s, v.0, v.1, sid);
        VisitKeepsInv(reg, s, v.0, v.1);
      }
      VisitAllKeepsSettled(reg, if v.0 in s.running then Visit(reg, s, v.0, v.1) else s, visits[1..], sid);
    }
  }

  lemma CommandKeepsSettled(reg: Registry, s: State, e: Event, sid: Sid)
    requires Inv(reg, s) && Settled(reg, s, sid) && !e.Tick? && !Revives(e, sid)
    ensures Settled(reg, Step(reg, s, e), sid)
  {}

  lemma {:induction false} RunKeepsSettled(reg: Registry, s: State, events: seq<Event>, sid: Sid)
    requires Inv(reg, s) && Settled(reg, s, sid)
    requires forall i :: 0 <= i < |events| ==> !Revives(events[i], sid)
    ensures Settled(reg, Run(reg, s, events), sid)
  {
    hide Step, Inv, Settled;
    if |events| == 0 {
    } else {
      var prev, e := events[..|events| - 1], events[|events| - 1];
      RunKeepsSettled(reg, s, prev, sid);
      RunFromKeepsInv(reg, s, prev);
      if e.Tick? {
        VisitAllKeepsSettled(reg, Run(reg, s, prev), e.visits, sid);
        TickIs(reg, Run(reg, s, prev), e.visits);
      } else {
        CommandKeepsSettled(reg, Run(reg, s, prev), e, sid);
      }
    }
  }

  lemma TickIs(reg: Registry, s: State, visits: seq<(Sid, Look)>)
    ensures Step(reg, s, Tick(visits)) == VisitAll(reg, s, visits)
  {}

  /** A run of these events from s, none of which revives sid, ends with no process of sid. */
  ghost predicate StaysOff(reg: Registry, s: State, events: seq<Event>, sid: Sid) {
    (forall i :: 0 <= i < |events| ==> !Revives(events[i], sid)) ==> NoProcess(Run(reg, s, events), sid)
  }

  /** A crashed script under a policy that restarts is running after a look late enough, whatever its entry. */
  lemma LateLookRestarts(reg: Registry, s: State, sid: Sid) returns (look: Look)
    requires Inv(reg, s) && sid in s.running && s.running[sid].status == Crashed && (reg[sid] == OnFailure || reg[sid] == Always)
    ensures !NoProcess(Visit(reg, s, sid, look), sid)
  {
    hide Check;
    var e := EntryOf(s.log, sid);
    var late := (if e.lastStart > e.lastRestart then e.lastStart else e.lastRestart) + 11.0;
    look := Look(false, 0, if late > s.clock then late - s.clock else 0.0, 0.0, true);
    LateCheckGrants(e, s.clock + look.sinceLast);
    var s' := Visit(reg, s, sid, look);
    assert s.next in s'.live && s'.live[s.next] == sid;
  }

  lemma LateCheckGrants(e: Entry, now: real)
    requires now - e.lastStart > 10.0 && now - e.lastRestart > 10.0
    ensures Check(e, now, now).granted == Some(0.5)
  {
    DelayValues(0);
  }

  /**
    A stop command keeps a script off, whatever then happens short of a command to run it again, if
    and only if the script is not crashed under a policy that restarts it: the command is refused
    for a crashed script, and a later tick can start it.
   */
  lemma StopHoldsExactly(reg: Registry, s: State, sid: Sid, exitCode: int)
    requires Inv(reg, s) && sid in reg
    ensures (forall events :: StaysOff(reg, Step(reg, s, Stop(sid, exitCode)), events, sid))
      <==> !(sid in s.running && s.running[sid].status == Crashed && (reg[sid] == OnFailure || reg[sid] == Always))
  {
    hide Inv, NoProcess, Visit;
    var stopped := Step(reg, s, Stop(sid, exitCode));
    StepKeepsInv(reg, s, Stop(sid, exitCode));
    StopExactly(reg, s, sid, exitCode);
    if sid in s.running && s.running[sid].status == Crashed && (reg[sid] == OnFailure || reg[sid] == Always) {
      var look := LateLookRestarts(reg, s, sid);
      var visits := [(sid, look)];
      TickOfOne(reg, s, visits);
      RunOfOne(reg, s, Tick(visits));
      assert !StaysOff(reg, stopped, [Tick(visits)], sid);
    } else {
      forall events
        ensures StaysOff(reg, stopped, events, sid)
      {
        if forall i :: 0 <= i < |events| ==> !Revives(events[i], sid) {
          RunKeepsSettled(reg, stopped, events, sid);
          RunFromKeepsInv(reg, stopped, events);
          SettledHasNoProcess(reg, Run(reg, stopped, events), sid);
        }
      }
    }
  }

  lemma RunOfOne(reg: Registry, s: State, e: Event)
    ensures Run(reg, s, [e]) == Step(reg, s, e)
  {
    hide Step;
    assert [e][..0] == [];
  }

  /** Started, exited, found crashed too soon for a restart, stopped in vain, looked at again: the script runs. */
  lemma RefusedStop(sid: Sid)
    ensures
      var reg := map[sid := Always];
      var early, late := Look(false, 1, 0.25, 0.0, true), Look(false, 1, 20.0, 0.0, true);
      var crash := [Start(sid, true), Exit(0)] + [Tick([(sid, early)])];
      var s := Run(reg, INITIAL, crash);
      && sid in s.running && s.running[sid].status == Crashed
      && Run(reg, INITIAL, crash + [Stop(sid, 0)]) == s
      && !NoProcess(Run(reg, INITIAL, crash + [Stop(sid, 0)] + [Tick([(sid, late)])]), sid)
  {
    hide Run, Step, Visit, Check;
    var reg := map[sid := Always];
    var early, late := Look(false, 1, 0.25, 0.0, true), Look(false, 1, 20.0, 0.0, true);
    var events := [Start(sid, true), Exit(0)];
    var crash := events + [Tick([(sid, early)])];
    FirstCrash(reg, sid);
    RunNext(reg, events, Tick([(sid, early)]), sid);
    RunNext(reg, crash, Stop(sid, 0), sid);
    RunNext(reg, crash + [Stop(sid, 0)], Tick([(sid, late)]), sid);
    var s := Run(reg, INITIAL, events);
    TickOfOne(reg, s, [(sid, early)]);
    TooEarly(reg, s, sid, early);
    var crashed := Run(reg, INITIAL, crash);
    StopRefused(reg, crashed, sid);
    TickOfOne(reg, crashed, [(sid, late)]);
    LateEnough(reg, crashed, sid, late);
  }

  lemma TooEarly(reg: Registry, s: State, sid: Sid, look: Look)
    requires reg == map[sid := Always] && s == State(map[sid := Proc(Running, None, Some(0))], map[], map[], 1, 0.0)
    requires look == Look(false, 1, 0.25, 0.0, true)
    ensures Visit(reg, s, sid, look) ==
      State(map[sid := Proc(Crashed, Some(1), None)], map[sid := Entry(0, 0.0, 0.0, 0.25)], map[], 1, 0.25)
  {
    DelayValues(0);
  }

  lemma StopRefused(reg: Registry, s: State, sid: Sid)
    requires sid in s.running && s.running[sid].status == Crashed
    ensures Step(reg, s, Stop(sid, 0)) == s
  {}

  lemma LateEnough(reg: Registry, s: State, sid: Sid, look: Look)
    requires reg == map[sid := Always] && look == Look(false, 1, 20.0, 0.0, true)
    requires s == State(map[sid := Proc(Crashed, Some(1), None)], map[sid := Entry(0, 0.0, 0.0, 0.25)], map[], 1, 0.25)
    ensures !NoProcess(Visit(reg, s, sid, look), sid)
  {
    hide Check;
    LateCheckGrants(Entry(0, 0.0, 0.0, 0.25), 20.25);
    var s' := Visit(reg, s, sid, look);
    assert 1 in s'.live && s'.live[1] == sid;
  }

  // --- What a clean shutdown ends ---

  lemma {:induction false} TickEndsClean(reg: Registry, s: State, visits: seq<(Sid, Look)>, k: nat)
    requires Inv(reg, s) && k < |visits|
    requires forall i :: 0 <= i < |visits| && i != k ==> visits[i].0 != visits[k].0
    requires visits[k].0 in s.running && s.running[visits[k].0].status == Running && visits[k].1.markerSeen
    ensures
      var s', sid := VisitAll(reg, s, visits), visits[k].0;
      Down(s', sid) && EntryOf(s'.log, sid) == FRESH
    decreases |visits|
  {
    hide Visit, Inv, EntryOf, VisitForgets, VisitCheck;
    var v, sid := visits[0], visits[k].0;
    if k == 0 {
      CleanShutdownPutsDown(reg, s, sid, v.1);
      NoEntry(Visit(reg, s, sid, v.1).log, sid);
      VisitAllKeepsDown(reg, Visit(reg, s, sid, v.1), visits[1..], sid);
      OthersKeepEntry(reg, Visit(reg, s, sid, v.1), visits[1..], sid);
    } else {
      assert visits[1..][k - 1] == visits[k];
      if v.0 in s.running {
        VisitFrame(reg, s, v.0, v.1, sid);
        VisitKeepsInv(reg, s, v.0, v.1);
      }
      TickEndsClean(reg, if v.0 in s.running then Visit(reg, s, v.0, v.1) else s, visits[1..], k - 1);
    }
  }

  lemma NoEntry(log: map<Sid, Entry>, sid: Sid)
    requires sid !in log
    ensures EntryOf(log, sid) == FRESH
  {}

  lemma {:induction false} OthersKeepEntry(reg: Registry, s: State, visits: seq<(Sid, Look)>, sid: Sid)
    requires forall i :: 0 <= i < |visits| ==> visits[i].0 != sid
    ensures EntryOf(VisitAll(reg, s, visits).log, sid) == EntryOf(s.log, sid)
    decreases |visits|
  {
    hide Visit, EntryOf, VisitForgets, VisitCheck;
    if |visits| == 0 {
    } else {
      var v := visits[0];
      if v.0 in s.running {
        VisitEffect(reg, s, v.0, v.1);
      }
      OthersKeepEntry(reg, if v.0 in s.running then Visit(reg, s, v.0, v.1) else s, visits[1..], sid);
    }
  }

  /**
    A clean shutdown seen by a tick is final under every policy: the backoff entry is forgotten, and
    after any events that do not revive the script it is down, without a process.
   */
  lemma CleanShutdownIsFinal(reg: Registry, s: State, visits: seq<(Sid, Look)>, k: nat, events: seq<Event>)
    requires Inv(reg, s) && k < |visits|
    requires forall i :: 0 <= i < |visits| && i != k ==> visits[i].0 != visits[k].0
    requires visits[k].0 in s.running && s.running[visits[k].0].status == Running && visits[k].1.markerSeen
    requires forall i :: 0 <= i < |events| ==> !Revives(events[i], visits[k].0)
    ensures EntryOf(Step(reg, s, Tick(visits)).log, visits[k].0) == FRESH
    ensures
      var s' := Run(reg, Step(reg, s, Tick(visits)), events);
      Down(s', visits[k].0) && NoProcess(s', visits[k].0)
  {
    hide Inv, VisitAll, Down, EntryOf;
    TickEndsClean(reg, s, visits, k);
    TickIs(reg, s, visits);
    StepKeepsInv(reg, s, Tick(visits));
    RunKeepsDown(reg, Step(reg, s, Tick(visits)), events, visits[k].0);
  }

  // --- What a launched process is safe from ---

  /** sid runs, as the live process h. */
  ghost predicate Up(s: State, sid: Sid, h: nat) {
    && sid in s.running && s.running[sid].status == Running && s.running[sid].handle == Some(h)
    && h in s.live && s.live[h] == sid
  }

  /** The events that may end process h of sid: a stop, a reload, its own exit, and its announcement of a shutdown. */
  predicate Disturbs(e: Event, sid: Sid, h: nat) {
    match e
    case Start(_, _) => false
    case Stop(x, _) => x == sid
    case Reload(x, _, _, debounced) => x == sid && !debounced
    case Exit(k) => k == h
    case Tick(visits) => exists i :: 0 <= i < |visits| && visits[i].0 == sid && visits[i].1.markerSeen
  }

  lemma {:induction false} VisitAllKeepsUp(reg: Registry, s: State, visits: seq<(Sid, Look)>, sid: Sid, h: nat)
    requires Inv(reg, s) && Up(s, sid, h) && !Disturbs(Tick(visits), sid, h)
    ensures Up(VisitAll(reg, s, visits), sid, h)
    decreases |visits|
  {
    hide Visit, Inv;
    if |visits| == 0 {
    } else {
      var v := visits[0];
      if v.0 == sid {
        LiveScriptUntouched(reg, s, sid, v.1);
      } else if v.0 in s.running {
        VisitFrame(reg, s, v.0, v.1, sid);
        VisitKeepsInv(reg, s, v.0, v.1);
      }
      assert forall i :: 0 <= i < |visits| - 1 ==> visits[1..][i] == visits[i + 1];
      VisitAllKeepsUp(reg, if v.0 in s.running then Visit(reg, s, v.0, v.1) else s, visits[1..], sid, h);
    }
  }

  lemma CommandKeepsUp(reg: Registry, s: State, e: Event, sid: Sid, h: nat)
    requires Inv(reg, s) && Up(s, sid, h) && !e.Tick? && !Disturbs(e, sid, h)
    ensures Up(Step(reg, s, e), sid, h)
  {}

  lemma {:induction false} RunKeepsUp(reg: Registry, s: State, events: seq<Event>, sid: Sid, h: nat)
    requires Inv(reg, s) && Up(s, sid, h)
    requires forall i :: 0 <= i < |events| ==> !Disturbs(events[i], sid, h)
    ensures Up(Run(reg, s, events), sid, h)
  {
    hide Step, Inv, Up, Disturbs;
    if |events| == 0 {
    } else {
      var prev, e := events[..|events| - 1], events[|events| - 1];
      RunKeepsUp(reg, s, prev, sid, h);
      RunFromKeepsInv(reg, s, prev);
      if e.Tick? {
        VisitAllKeepsUp(reg, Run(reg, s, prev), e.visits, sid, h);
        TickIs(reg, Run(reg, s, prev), e.visits);
      } else {
        CommandKeepsUp(reg, Run(reg, s, prev), e, sid, h);
      }
    }
  }

  /** The event launches a process of sid in state s. */
  predicate Launches(s: State, e: Event, sid: Sid) {
    || (e.Start? && e.sid == sid && e.launches && !(sid in s.running && s.running[sid].status == Running))
    || (e.Reload? && e.sid == sid && e.launches && !e.debounced)
  }

  /**
    What a start or a reload launches stays up, as the one process of its script, over every run
    until it is stopped, reloaded, exits or announces its shutdown: no tick and no command about
    another script touches it.
   */
  lemma LaunchedStaysUp(reg: Registry, s: State, e: Event, sid: Sid, events: seq<Event>)
    requires Inv(reg, s) && sid in reg && Launches(s, e, sid)
    requires forall i :: 0 <= i < |events| ==> !Disturbs(events[i], sid, s.next)
    ensures
      var s' := Run(reg, Step(reg, s, e), events);
      Up(s', sid, s.next) && forall h :: h in s'.live && s'.live[h] == sid ==> h == s.next
  {
    hide Step, Disturbs, Run;
    if e.Start? {
      StartExactly(reg, s, sid, true);
    } else {
      ReloadReplaces(reg, s, sid, e.exitCode, true);
    }
    var s1 := Step(reg, s, e);
    assert Up(s1, sid, s.next);
    StepKeepsInv(reg, s, e);
    RunKeepsUp(reg, s1, events, sid, s.next);
    RunFromKeepsInv(reg, s1, events);
  }
}
