/**
  The script supervisor: admin commands, hot reloads, process exits and monitor ticks over the
  dictionary of running scripts, the restart log and the operating system's live processes.

  Clocks only move forward: every reading is the previous one plus a non-negative amount. A killed
  process is gone, and the operating system never hands out a live process's handle again.
 */
module Supervisor {
  import opened Wrappers
  import opened Backoff

  type Sid = string

  datatype Policy = Never | OnFailure | Always | OtherPolicy

  /** STATUS_STARTING is declared by the source but never assigned. */
  datatype Status = Running | Crashed | Stopped

  /** The fields of a process record that decide anything. */
  datatype Proc = Proc(status: Status, exitCode: Option<int>, handle: Option<nat>)

  type Span = r: real | r >= 0.0 witness 0.0

  /** What the monitor's look at a script finds: marker seen, exit code if it exited, time passed, launch outcome. */
  datatype Look = Look(markerSeen: bool, exitCode: int, sinceLast: Span, between: Span, launches: bool)

  datatype State = State(
    running: map<Sid, Proc>,
    log: map<Sid, Entry>,
    live: map<nat, Sid>,
    next: nat,
    clock: real)

  type Registry = map<Sid, Policy>

  const INITIAL := State(map[], map[], map[], 0, 0.0)

  // --- Single operations ---

  /** start_script: the new record, and the process if the launch works. */
  function StartScript(s: State, sid: Sid, launches: bool): (State, Proc) {
    if launches then (s.(live := s.live[s.next := sid], next := s.next + 1), Proc(Running, None, Some(s.next)))
    else (s, Proc(Crashed, Some(-1), None))
  }

  /** stop_script: only a running process is terminated; its exit code is whatever it returns. */
  function StopScript(s: State, p: Proc, exitCode: int): (State, Proc) {
    if p.handle.None? || p.status != Running then (s, p)
    else (s.(live := s.live - {p.handle.value}), Proc(Stopped, Some(exitCode), None))
  }

  function CheckHealth(s: State, p: Proc, look: Look): (State, Proc) {
    if p.status != Running then (s, p)
    else if look.markerSeen then
      (if p.handle.Some? then s.(live := s.live - {p.handle.value}) else s, Proc(Stopped, Some(0), None))
    else if p.handle.None? then (s, p.(status := Stopped))
    else if p.handle.value !in s.live then (s, Proc(Crashed, Some(look.exitCode), None))
    else (s, p)
  }

  function ApplyRestartPolicy(policy: Policy, s: State, sid: Sid, p: Proc, look: Look): (State, Proc) {
    if p.status == Stopped && p.exitCode == Some(0) then (s.(log := s.log - {sid}), p)
    else if p.status != Crashed then (s, p)
    else if policy != OnFailure && policy != Always then (s, p.(status := Stopped))
    else
      hide Check;
      var now1 := s.clock + look.sinceLast;
      var now2 := now1 + look.between;
      var a := Check(EntryOf(s.log, sid), now1, now2);
      var s' := s.(log := s.log[sid := a.entry], clock := now2);
      if a.granted.None? then (s', p) else StartScript(s', sid, look.launches)
  }

  /** Whether the monitor drops a script from its dictionary. */
  predicate Drops(policy: Policy, p: Proc) {
    p.status == Stopped && (policy == Never || policy == OnFailure || p.exitCode == Some(0))
  }

  function Record(reg: Registry, s: State, sid: Sid, p: Proc): State
    requires sid in reg
  {
    s.(running := if Drops(reg[sid], p) then s.running - {sid} else s.running[sid := p])
  }

  /** One round of the monitor's loop. */
  function Visit(reg: Registry, s: State, sid: Sid, look: Look): State
    requires sid in s.running
  {
    if sid !in reg then s.(running := s.running - {sid})
    else
      var (s1, p1) := CheckHealth(s, s.running[sid], look);
      var (s2, p2) := ApplyRestartPolicy(reg[sid], s1, sid, p1, look);
      Record(reg, s2, sid, p2)
  }

  // --- Events ---

  /** A tick names the scripts in the dictionary's order, each with what its visit finds. */
  datatype Event =
    | Start(sid: Sid, launches: bool)
    | Stop(sid: Sid, exitCode: int)
    | Reload(sid: Sid, exitCode: int, launches: bool, debounced: bool)
    | Exit(handle: nat)
    | Tick(visits: seq<(Sid, Look)>)

  /** The monitor's loop. A name that is not in the dictionary is passed over; the loop itself meets none. */
  function VisitAll(reg: Registry, s: State, visits: seq<(Sid, Look)>): State
    decreases |visits|
  {
    if |visits| == 0 then s
    else
      var v := visits[0];
      VisitAll(reg, if v.0 in s.running then Visit(reg, s, v.0, v.1) else s, visits[1..])
  }

  function Step(reg: Registry, s: State, e: Event): State {
    match e
    case Start(sid, launches) =>
      if sid !in reg || (sid in s.running && s.running[sid].status == Running) then s
      else
        var (s', p) := StartScript(s, sid, launches);
        s'.(running := s.running[sid := p])
    case Stop(sid, exitCode) =>
      if sid !in reg || sid !in s.running || s.running[sid].status != Running then s
      else
        var (s', p) := StopScript(s, s.running[sid], exitCode);
        s'.(running := s.running[sid := p])
    case Reload(sid, exitCode, launches, debounced) =>
      if debounced || sid !in reg then s
      else
        var s1 := if sid in s.running then StopScript(s, s.running[sid], exitCode).0 else s;
        var (s2, p) := StartScript(s1, sid, launches);
        s2.(running := s.running[sid := p])
    case Exit(handle) => s.(live := s.live - {handle})
    case Tick(visits) => VisitAll(reg, s, visits)
  }

  function Run(reg: Registry, s: State, events: seq<Event>): State {
    if |events| == 0 then s else Step(reg, Run(reg, s, events[..|events| - 1]), events[|events| - 1])
  }

  // --- At most one live process a script ---

  ghost predicate ProcOk(s: State, sid: Sid, p: Proc) {
    && (p.status == Running <==> p.handle.Some?)
    && (p.handle.Some? ==> p.handle.value < s.next && (p.handle.value in s.live ==> s.live[p.handle.value] == sid))
  }

  /** Every live process is the one its script's record holds, and the record says it runs. */
  ghost predicate Inv(reg: Registry, s: State) {
    && s.running.Keys <= reg.Keys
    && (forall sid :: sid in s.running ==> ProcOk(s, sid, s.running[sid]))
    && (forall h :: h in s.live ==>
          h < s.next && s.live[h] in s.running && s.running[s.live[h]].handle == Some(h))
  }

  lemma HealthKeepsInv(reg: Registry, s: State, sid: Sid, look: Look)
    requires Inv(reg, s) && sid in s.running
    ensures
      var (s1, p1) := CheckHealth(s, s.running[sid], look);
      Inv(reg, s1.(running := s.running[sid := p1])) && s1.running == s.running
  {}

  lemma PolicyKeepsInv(reg: Registry, s: State, sid: Sid, p: Proc, look: Look)
    requires sid in reg && Inv(reg, s.(running := s.running[sid := p]))
    ensures
      var (s2, p2) := ApplyRestartPolicy(reg[sid], s, sid, p, look);
      Inv(reg, s2.(running := s.running[sid := p2])) && s2.running == s.running
  {
    hide Check;
    var before := s.running[sid := p];
    var (s2, p2) := ApplyRestartPolicy(reg[sid], s, sid, p, look);
    var after := s.running[sid := p2];
    assert after.Keys == before.Keys;
    forall v | v in after
      ensures ProcOk(s2.(running := after), v, after[v])
    {
      assert ProcOk(s.(running := before), v, before[v]);
    }
    forall h | h in s2.live
      ensures h < s2.next && s2.live[h] in after && after[s2.live[h]].handle == Some(h)
    {
      assert h in s.live ==> before[s.live[h]].handle == Some(h);
    }
  }

  lemma RecordKeepsInv(reg: Registry, s: State, sid: Sid, p: Proc)
    requires sid in reg && Inv(reg, s.(running := s.running[sid := p]))
    ensures Inv(reg, Record(reg, s, sid, p))
  {
    var before := s.running[sid := p];
    if Drops(reg[sid], p) {
      var after := s.running - {sid};
      forall v | v in after
        ensures ProcOk(s.(running := after), v, after[v])
      {
        assert ProcOk(s.(running := before), v, before[v]);
      }
      assert ProcOk(s.(running := before), sid, before[sid]);
      forall h | h in s.live
        ensures h < s.next && s.live[h] in after && after[s.live[h]].handle == Some(h)
      {
        assert before[s.live[h]].handle == Some(h);
      }
      assert after.Keys <= before.Keys;
    }
  }

  lemma VisitKeepsInv(reg: Registry, s: State, sid: Sid, look: Look)
    requires Inv(reg, s) && sid in s.running
    ensures Inv(reg, Visit(reg, s, sid, look))
  {
    hide CheckHealth, ApplyRestartPolicy, Record, Inv;
    assert sid in reg by { InvRegisters(reg, s, sid); }
    var (s1, p1) := CheckHealth(s, s.running[sid], look);
    HealthKeepsInv(reg, s, sid, look);
    var (s2, p2) := ApplyRestartPolicy(reg[sid], s1, sid, p1, look);
    PolicyKeepsInv(reg, s1, sid, p1, look);
    RecordKeepsInv(reg, s2, sid, p2);
  }

  lemma InvRegisters(reg: Registry, s: State, sid: Sid)
    requires Inv(reg, s) && sid in s.running
    ensures sid in reg
  {}

  lemma {:induction false} VisitAllKeepsInv(reg: Registry, s: State, visits: seq<(Sid, Look)>)
    requires Inv(reg, s)
    ensures Inv(reg, VisitAll(reg, s, visits))
    decreases |visits|
  {
    hide Visit, Inv;
    if |visits| == 0 {
    } else {
      var v := visits[0];
      if v.0 in s.running {
        VisitKeepsInv(reg, s, v.0, v.1);
      }
      VisitAllKeepsInv(reg, if v.0 in s.running then Visit(reg, s, v.0, v.1) else s, visits[1..]);
    }
  }

  lemma LaunchKeepsInv(reg: Registry, s: State, sid: Sid, launches: bool)
    requires Inv(reg, s) && sid in reg && (sid in s.running ==> s.running[sid].status != Running)
    ensures
      var (s', p) := StartScript(s, sid, launches);
      Inv(reg, s'.(running := s.running[sid := p]))
  {}

  lemma TerminateKeepsInv(reg: Registry, s: State, sid: Sid, exitCode: int)
    requires Inv(reg, s) && sid in s.running
    ensures
      var (s', p) := StopScript(s, s.running[sid], exitCode);
      Inv(reg, s'.(running := s.running[sid := p])) && p.status != Running
  {}

  lemma StepKeepsInv(reg: Registry, s: State, e: Event)
    requires Inv(reg, s)
    ensures Inv(reg, Step(reg, s, e))
  {
    match e
    case Start(sid, launches) =>
      if sid in reg && (sid in s.running ==> s.running[sid].status != Running) {
        LaunchKeepsInv(reg, s, sid, launches);
      }
    case Stop(sid, exitCode) =>
      if sid in s.running {
        TerminateKeepsInv(reg, s, sid, exitCode);
      }
    case Reload(sid, exitCode, launches, _) =>
      if sid in reg {
        ReloadKeepsInv(reg, s, sid, exitCode, launches);
      }
    case Exit(_) =>
    case Tick(visits) =>
      VisitAllKeepsInv(reg, s, visits);
  }

  lemma ReloadKeepsInv(reg: Registry, s: State, sid: Sid, exitCode: int, launches: bool)
    requires Inv(reg, s) && sid in reg
    ensures Inv(reg, Step(reg, s, Reload(sid, exitCode, launches, false)))
  {
    hide Inv, StartScript;
    if sid in s.running {
      TerminateKeepsInv(reg, s, sid, exitCode);
      var (s1, p1) := StopScript(s, s.running[sid], exitCode);
      var mid := s1.(running := s.running[sid := p1]);
      LaunchKeepsInv(reg, mid, sid, launches);
      assert mid.running[sid := StartScript(mid, sid, launches).1] == s.running[sid := StartScript(mid, sid, launches).1];
      SameLaunch(s1, mid, sid, launches);
    } else {
      LaunchKeepsInv(reg, s, sid, launches);
    }
  }

  lemma SameLaunch(s: State, t: State, sid: Sid, launches: bool)
    requires s.live == t.live && s.next == t.next && s.log == t.log && s.clock == t.clock
    ensures StartScript(s, sid, launches).1 == StartScript(t, sid, launches).1
    ensures StartScript(s, sid, launches).0.(running := map[]) == StartScript(t, sid, launches).0.(running := map[])
  {}

  lemma {:induction false} RunKeepsInv(reg: Registry, events: seq<Event>)
    ensures Inv(reg, Run(reg, INITIAL, events))
  {
    hide Step;
    if |events| == 0 {
    } else {
      RunKeepsInv(reg, events[..|events| - 1]);
      StepKeepsInv(reg, Run(reg, INITIAL, events[..|events| - 1]), events[|events| - 1]);
    }
  }

  /** After any run, a live process is the one in its script's record, so no script owns two. */
  lemma AtMostOneProcess(reg: Registry, events: seq<Event>, h1: nat, h2: nat)
    ensures
      var s := Run(reg, INITIAL, events);
      h1 in s.live && h2 in s.live && s.live[h1] == s.live[h2] ==>
        h1 == h2 && s.live[h1] in s.running && s.running[s.live[h1]] == Proc(Running, s.running[s.live[h1]].exitCode, Some(h1))
  {
    RunKeepsInv(reg, events);
  }

  // --- What is down stays down ---

  ghost predicate Down(s: State, sid: Sid) {
    sid !in s.running || s.running[sid].status == Stopped
  }

  /** A command to run sid again: the two that an operator or a file change can cause. */
  predicate Revives(e: Event, sid: Sid) {
    (e.Start? || e.Reload?) && e.sid == sid
  }

  lemma VisitKeepsDown(reg: Registry, s: State, v: Sid, look: Look, sid: Sid)
    requires v in s.running && Down(s, sid)
    ensures Down(Visit(reg, s, v, look), sid)
  {}

  lemma {:induction false} VisitAllKeepsDown(reg: Registry, s: State, visits: seq<(Sid, Look)>, sid: Sid)
    requires Down(s, sid)
    ensures Down(VisitAll(reg, s, visits), sid)
    decreases |visits|
  {
    hide Visit;
    if |visits| == 0 {
    } else {
      var v := visits[0];
      if v.0 in s.running {
        VisitKeepsDown(reg, s, v.0, v.1, sid);
      }
      VisitAllKeepsDown(reg, if v.0 in s.running then Visit(reg, s, v.0, v.1) else s, visits[1..], sid);
    }
  }

  /** No tick, exit or command about another script starts one that is down. */
  lemma {:induction false} RunKeepsDown(reg: Registry, s: State, events: seq<Event>, sid: Sid)
    requires Inv(reg, s) && Down(s, sid)
    requires forall i :: 0 <= i < |events| ==> !Revives(events[i], sid)
    ensures Down(Run(reg, s, events), sid)
    ensures forall h :: h in Run(reg, s, events).live ==> Run(reg, s, events).live[h] != sid
  {
    if |events| == 0 {
    } else {
      var prev, e := events[..|events| - 1], events[|events| - 1];
      RunKeepsDown(reg, s, prev, sid);
      RunFromKeepsInv(reg, s, events);
      if e.Tick? {
        VisitAllKeepsDown(reg, Run(reg, s, prev), e.visits, sid);
      }
    }
  }

  lemma {:induction false} RunFromKeepsInv(reg: Registry, s: State, events: seq<Event>)
    requires Inv(reg, s)
    ensures Inv(reg, Run(reg, s, events))
  {
    hide Step;
    if |events| == 0 {
    } else {
      RunFromKeepsInv(reg, s, events[..|events| - 1]);
      StepKeepsInv(reg, Run(reg, s, events[..|events| - 1]), events[|events| - 1]);
    }
  }

  /** A stop command puts a script down exactly when it is not waiting, crashed, for its next restart. */
  lemma StopExactly(reg: Registry, s: State, sid: Sid, exitCode: int)
    requires Inv(reg, s) && sid in reg
    ensures Down(Step(reg, s, Stop(sid, exitCode)), sid) <==> !(sid in s.running && s.running[sid].status == Crashed)
  {}

  /** A clean shutdown seen by the monitor puts a script down and forgets its backoff, whatever its policy. */
  lemma CleanShutdownPutsDown(reg: Registry, s: State, sid: Sid, look: Look)
    requires Inv(reg, s) && sid in s.running && s.running[sid].status == Running && look.markerSeen
    ensures
      var s' := Visit(reg, s, sid, look);
      sid !in s'.running && sid !in s'.log && forall h :: h in s'.live ==> s'.live[h] != sid
  {}

  // --- What one visit or command comes to ---

  /** The monitor has to do with a script that is gone: known to have crashed, or found exited with no marker seen. */
  predicate Gone(s: State, sid: Sid, look: Look)
    requires sid in s.running
  {
    var p := s.running[sid];
    || p.status == Crashed
    || (p.status == Running && !look.markerSeen && p.handle.Some? && p.handle.value !in s.live)
  }

  /** The exit code on record for a script that is gone. */
  function GoneCode(s: State, sid: Sid, look: Look): Option<int>
    requires sid in s.running
  {
    if s.running[sid].status == Crashed then s.running[sid].exitCode else Some(look.exitCode)
  }

  /** The monitor changes nothing about a script whose process lives and has not announced its end. */
  lemma LiveScriptUntouched(reg: Registry, s: State, sid: Sid, look: Look)
    requires Inv(reg, s) && sid in s.running && !look.markerSeen
    requires s.running[sid].status == Running && s.running[sid].handle.Some? && s.running[sid].handle.value in s.live
    ensures Visit(reg, s, sid, look) == s
  {
    assert s.running[sid := s.running[sid]] == s.running;
  }

  /**
    A script that is gone and whose policy does not restart stays down; its record goes, too, under
    the policy "never", or when its exit code happens to be zero. No backoff entry changes.
   */
  lemma GoneWithoutRestart(reg: Registry, s: State, sid: Sid, look: Look)
    requires Inv(reg, s) && sid in s.running && Gone(s, sid, look)
    requires reg[sid] == Never || reg[sid] == OtherPolicy
    ensures
      var s' := Visit(reg, s, sid, look);
      && (sid !in s'.running <==> reg[sid] == Never || GoneCode(s, sid, look) == Some(0))
      && (sid in s'.running ==> s'.running[sid] == Proc(Stopped, GoneCode(s, sid, look), None))
      && s'.log == s.log && s'.live == s.live
  {}

  /** A start command leaves a registered script running unless it has to be launched and that fails. */
  lemma StartExactly(reg: Registry, s: State, sid: Sid, launches: bool)
    requires sid in reg
    ensures
      var s', was := Step(reg, s, Start(sid, launches)), sid in s.running && s.running[sid].status == Running;
      && sid in s'.running
      && (s'.running[sid].status == Running <==> was || launches)
      && (was ==> s' == s)
      && (!was && launches ==> s.next in s'.live && s'.live[s.next] == sid && s'.running[sid].handle == Some(s.next))
  {}

  /** A reload that launches replaces the script's process by a new one; one that does not leaves it crashed. */
  lemma ReloadReplaces(reg: Registry, s: State, sid: Sid, exitCode: int, launches: bool)
    requires Inv(reg, s) && sid in reg
    ensures
      var s' := Step(reg, s, Reload(sid, exitCode, launches, false));
      && s'.running == s.running[sid := if launches then Proc(Running, None, Some(s.next)) else Proc(Crashed, Some(-1), None)]
      && (forall h :: h in s'.live && s'.live[h] == sid <==> launches && h == s.next)
      && (forall h :: h in s.live && s.live[h] != sid ==> h in s'.live && s'.live[h] == s.live[h])
  {}

  /**
    A record that is already stopped: the monitor drops it under "never" and "on-failure" and after
    exit code zero, which also clears the backoff entry, and keeps it as it is otherwise.
   */
  lemma StoppedRecord(reg: Registry, s: State, sid: Sid, look: Look)
    requires Inv(reg, s) && sid in s.running && s.running[sid].status == Stopped
    ensures
      var s', clean := Visit(reg, s, sid, look), s.running[sid].exitCode == Some(0);
      && s' == s.(running := s'.running, log := s'.log)
      && s'.running == (if reg[sid] == Never || reg[sid] == OnFailure || clean then s.running - {sid} else s.running)
      && s'.log == if clean then s.log - {sid} else s.log
  {
    assert s.running[sid := s.running[sid]] == s.running;
  }

  /** A script that is gone and not yet granted its restart waits, crashed, with the exit code found. */
  lemma GoneWaits(reg: Registry, s: State, sid: Sid, look: Look)
    requires Inv(reg, s) && sid in s.running && Gone(s, sid, look)
    requires reg[sid] == OnFailure || reg[sid] == Always
    requires
      var now1 := s.clock + look.sinceLast;
      Check(EntryOf(s.log, sid), now1, now1 + look.between).granted.None?
    ensures
      var s' := Visit(reg, s, sid, look);
      && s'.running == s.running[sid := Proc(Crashed, GoneCode(s, sid, look), None)]
      && s'.live == s.live && s'.next == s.next
  {
    hide Check;
  }

  /** A stop command ends the process of a running script, records its exit code, and touches nothing else. */
  lemma StopTakesDown(reg: Registry, s: State, sid: Sid, exitCode: int)
    requires Inv(reg, s) && sid in s.running && s.running[sid].status == Running
    ensures
      var s' := Step(reg, s, Stop(sid, exitCode));
      && s'.running == s.running[sid := Proc(Stopped, Some(exitCode), None)]
      && (forall h :: h in s'.live <==> h in s.live && s.live[h] != sid)
      && s'.log == s.log && s'.next == s.next && s'.clock == s.clock
  {}

  /** Commands about a script that is not registered, and reloads within the debounce time, do nothing. */
  lemma CommandRefused(reg: Registry, s: State, sid: Sid, exitCode: int, launches: bool, debounced: bool)
    ensures sid !in reg ==> Step(reg, s, Start(sid, launches)) == s && Step(reg, s, Stop(sid, exitCode)) == s
    ensures sid !in reg || debounced ==> Step(reg, s, Reload(sid, exitCode, launches, debounced)) == s
    ensures sid !in reg && sid in s.running ==>
      Visit(reg, s, sid, Look(false, exitCode, 0.0, 0.0, launches)) == s.(running := s.running - {sid})
  {}
}
