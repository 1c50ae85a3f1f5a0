/**
  The supervisor as the main loop runs it: dictionaries changed in place, one method per source
  function, each tied to the step of the state machine it performs.
 */
module Engine {
  import opened Wrappers
  import Backoff
  import S = Supervisor

  class Engine {
    const registry: S.Registry
    const restartLog: Backoff.RestartLog
    var running: map<S.Sid, S.Proc>
    /** The operating system's side: live processes by handle, the next handle, the clock. */
    var live: map<nat, S.Sid>
    var next: nat
    var clock: real

    ghost function State(): S.State
      reads this, restartLog
    {
      S.State(running, restartLog.entries, live, next, clock)
    }

    constructor (registry: S.Registry)
      ensures this.registry == registry && fresh(restartLog) && State() == S.INITIAL
    {
      this.registry := registry;
      restartLog := new Backoff.RestartLog();
      running, live, next, clock := map[], map[], 0, 0.0;
    }

    method StartScript(sid: S.Sid, launches: bool) returns (p: S.Proc)
      modifies this
      ensures (State(), p) == S.StartScript(old(State()), sid, launches)
    {
      if launches {
        live := live[next := sid];
        p := S.Proc(S.Running, None, Some(next));
        next := next + 1;
      } else {
        p := S.Proc(S.Crashed, Some(-1), None);
      }
    }

    method StopScript(p: S.Proc, exitCode: int) returns (p': S.Proc)
      modifies this
      ensures (State(), p') == S.StopScript(old(State()), p, exitCode)
    {
      if p.handle.None? || p.status != S.Running {
        return p;
      }
      live := live - {p.handle.value};
      return S.Proc(S.Stopped, Some(exitCode), None);
    }

    method CheckHealth(p: S.Proc, look: S.Look) returns (p': S.Proc)
      modifies this
      ensures (State(), p') == S.CheckHealth(old(State()), p, look)
    {
      if p.status != S.Running {
        return p;
      }
      if look.markerSeen {
        if p.handle.Some? {
          live := live - {p.handle.value};
        }
        return S.Proc(S.Stopped, Some(0), None);
      }
      if p.handle.None? {
        return p.(status := S.Stopped);
      }
      if p.handle.value !in live {
        return S.Proc(S.Crashed, Some(look.exitCode), None);
      }
      return p;
    }

    method ApplyRestartPolicy(sid: S.Sid, p: S.Proc, look: S.Look) returns (p': S.Proc)
      requires sid in registry
      modifies this, restartLog
      ensures (State(), p') == S.ApplyRestartPolicy(registry[sid], old(State()), sid, p, look)
    {
      hide Backoff.Check;
      var policy := registry[sid];
      if p.status == S.Stopped && p.exitCode == Some(0) {
        restartLog.Forget(sid);
        return p;
      }
      if p.status != S.Crashed {
        return p;
      }
      if policy == S.OnFailure || policy == S.Always {
        var now1 := clock + look.sinceLast;
        var now2 := now1 + look.between;
        clock := now2;
        var backoff := restartLog.CheckCrashed(sid, now1, now2);
        if backoff.None? {
          return p;
        }
        p' := StartScript(sid, look.launches);
      } else {
        p' := p.(status := S.Stopped);
      }
    }

    /** One turn of the loop: the script's new record, or none if it leaves the dictionary. */
    method Examine(sid: S.Sid, look: S.Look, ghost at: S.State) returns (kept: Option<S.Proc>)
      requires sid in running && sid in at.running && at.running[sid] == running[sid]
      requires at == State().(running := at.running)
      modifies this, restartLog
      ensures running == old(running)
      ensures
        var at' := S.Visit(registry, at, sid, look);
        && at' == State().(running := at'.running)
        && at'.running == if kept.Some? then at.running[sid := kept.value] else at.running - {sid}
    {
      hide S.Visit, S.CheckHealth, S.ApplyRestartPolicy;
      VisitParts(registry, at, State(), sid, look);
      if sid !in registry {
        return None;
      }
      HealthFrame(State(), State(), running[sid], look);
      var p := CheckHealth(running[sid], look);
      PolicyFrame(registry[sid], State(), State(), sid, p, look);
      p := ApplyRestartPolicy(sid, p, look);
      return if S.Drops(registry[sid], p) then None else Some(p);
    }

    /** The loop over the dictionary in its order, collecting the records that stay. */
    method MonitorScripts(visits: seq<(S.Sid, S.Look)>)
      requires Covers(visits, running)
      modifies this, restartLog
      ensures State() == S.Step(registry, old(State()), S.Tick(visits))
    {
      hide S.Visit, Merged, Covers;
      var newRunning: map<S.Sid, S.Proc> := map[];
      ghost var at := State();
      assert visits[0..] == visits;
      MergedStart(running, visits);
      for i := 0 to |visits|
        invariant running == old(running)
        invariant at == State().(running := at.running)
        invariant S.VisitAll(registry, at, visits[i..]) == S.Step(registry, old(State()), S.Tick(visits))
        invariant Merged(at.running, running, newRunning, visits, i)
      {
        var (sid, look) := (visits[i].0, visits[i].1);
        assert visits[i..][0] == visits[i] && visits[i..][1..] == visits[i + 1..];
        MergedHere(at.running, running, newRunning, visits, i);
        var kept := Examine(sid, look, at);
        MergedNext(at.running, running, newRunning, visits, i, kept);
        at := S.Visit(registry, at, sid, look);
        if kept.Some? {
          newRunning := newRunning[sid := kept.value];
        }
      }
      MergedEnd(at.running, running, newRunning, visits);
      running := newRunning;
    }

    method HandleStart(sid: S.Sid, launches: bool)
      modifies this
      ensures State() == S.Step(registry, old(State()), S.Start(sid, launches))
    {
      if sid !in registry {
        return;
      }
      if sid in running && running[sid].status == S.Running {
        return;
      }
      var p := StartScript(sid, launches);
      running := running[sid := p];
    }

    method HandleStop(sid: S.Sid, exitCode: int)
      modifies this
      ensures State() == S.Step(registry, old(State()), S.Stop(sid, exitCode))
    {
      if sid !in registry {
        return;
      }
      if sid !in running || running[sid].status != S.Running {
        return;
      }
      var p := StopScript(running[sid], exitCode);
      running := running[sid := p];
    }

    method ReloadScript(sid: S.Sid, exitCode: int, launches: bool, debounced: bool)
      modifies this
      ensures State() == S.Step(registry, old(State()), S.Reload(sid, exitCode, launches, debounced))
    {
      if debounced || sid !in registry {
        return;
      }
      if sid in running && running[sid].status == S.Running {
        var p := StopScript(running[sid], exitCode);
        running := running[sid := p];
      }
      var p := StartScript(sid, launches);
      running := running[sid := p];
    }
  }

  /** The scripts named by the first i visits. */
  function Names(visits: seq<(S.Sid, S.Look)>, i: nat): set<S.Sid>
    requires i <= |visits|
  {
    if i == 0 then {} else Names(visits, i - 1) + {visits[i - 1].0}
  }

  /** The visits name every script of the dictionary once. */
  ghost predicate Covers(visits: seq<(S.Sid, S.Look)>, running: map<S.Sid, S.Proc>) {
    && (forall i :: 0 <= i < |visits| ==> visits[i].0 in running && visits[i].0 !in Names(visits, i))
    && Names(visits, |visits|) == running.Keys
  }

  /** After i visits the state machine's dictionary is the new records plus the old ones not yet visited. */
  ghost predicate Merged(now: map<S.Sid, S.Proc>, was: map<S.Sid, S.Proc>, collected: map<S.Sid, S.Proc>,
                         visits: seq<(S.Sid, S.Look)>, i: nat)
    requires i <= |visits|
  {
    && Covers(visits, was)
    && collected.Keys <= Names(visits, i)
    && now == (was - Names(visits, i)) + collected
  }

  lemma MergedStart(was: map<S.Sid, S.Proc>, visits: seq<(S.Sid, S.Look)>)
    requires Covers(visits, was)
    ensures Merged(was, was, map[], visits, 0)
  {}

  lemma MergedHere(now: map<S.Sid, S.Proc>, was: map<S.Sid, S.Proc>, collected: map<S.Sid, S.Proc>,
                   visits: seq<(S.Sid, S.Look)>, i: nat)
    requires i < |visits| && Merged(now, was, collected, visits, i)
    ensures visits[i].0 in was && visits[i].0 in now && now[visits[i].0] == was[visits[i].0]
  {}

  lemma MergedNext(now: map<S.Sid, S.Proc>, was: map<S.Sid, S.Proc>, collected: map<S.Sid, S.Proc>,
                   visits: seq<(S.Sid, S.Look)>, i: nat, kept: Option<S.Proc>)
    requires i < |visits| && Merged(now, was, collected, visits, i)
    ensures
      var sid := visits[i].0;
      Merged(if kept.Some? then now[sid := kept.value] else now - {sid}, was,
        if kept.Some? then collected[sid := kept.value] else collected, visits, i + 1)
  {}

  lemma MergedEnd(now: map<S.Sid, S.Proc>, was: map<S.Sid, S.Proc>, collected: map<S.Sid, S.Proc>,
                  visits: seq<(S.Sid, S.Look)>)
    requires Merged(now, was, collected, visits, |visits|)
    ensures now == collected
  {}

  /** The operations of a visit do not look at the dictionary: they do the same under any. */
  lemma HealthFrame(s: S.State, t: S.State, p: S.Proc, look: S.Look)
    requires s == t.(running := s.running)
    ensures
      var (s', p') := S.CheckHealth(s, p, look);
      var (t', q') := S.CheckHealth(t, p, look);
      p' == q' && s' == t'.(running := s.running) && t'.running == t.running
  {}

  lemma PolicyFrame(policy: S.Policy, s: S.State, t: S.State, sid: S.Sid, p: S.Proc, look: S.Look)
    requires s == t.(running := s.running)
    ensures
      var (s', p') := S.ApplyRestartPolicy(policy, s, sid, p, look);
      var (t', q') := S.ApplyRestartPolicy(policy, t, sid, p, look);
      p' == q' && s' == t'.(running := s.running) && t'.running == t.running
  {
    hide Backoff.Check;
  }

  lemma VisitParts(reg: S.Registry, s: S.State, t: S.State, sid: S.Sid, look: S.Look)
    requires sid in s.running && sid in t.running && s.running[sid] == t.running[sid]
    requires s == t.(running := s.running)
    ensures
      if sid !in reg then S.Visit(reg, s, sid, look) == s.(running := s.running - {sid})
      else
        var (t1, p1) := S.CheckHealth(t, t.running[sid], look);
        var (t2, p2) := S.ApplyRestartPolicy(reg[sid], t1, sid, p1, look);
        S.Visit(reg, s, sid, look) == t2.(running := if S.Drops(reg[sid], p2) then s.running - {sid} else s.running[sid := p2])
  {
    hide S.CheckHealth, S.ApplyRestartPolicy;
    HealthFrame(s, t, t.running[sid], look);
    var (s1, p1) := S.CheckHealth(s, s.running[sid], look);
    var (t1, q1) := S.CheckHealth(t, t.running[sid], look);
    if sid in reg {
      PolicyFrame(reg[sid], s1, t1, sid, p1, look);
    }
  }
}
