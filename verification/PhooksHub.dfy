/**
  The Phooks hub: two dictionaries changed by register, unregister and the removal of stale
  clients, shown to say exactly what the history of messages says, and the delivery of events.
 */
module PhooksHub {
  import opened Wrappers

  type Sid = string

  type Address = string

  type Name = string

  const STALE_CLIENT_TIMEOUT := 120.0

  /** What changes the hub, with the clock reading taken then. */
  datatype Message =
    | Register(sid: Sid, listenEvents: seq<Name>, addr: Address, time: real)
    | Unregister(sid: Sid)
    | Cleanup(now: real)

  datatype Client = Client(addr: Address, lastSeen: real)

  datatype Hub = Hub(subscriptions: map<Name, set<Sid>>, registry: map<Sid, Client>)

  function Subscribers(subscriptions: map<Name, set<Sid>>, event: Name): set<Sid> {
    if event in subscriptions then subscriptions[event] else {}
  }

  function Subscribe(subscriptions: map<Name, set<Sid>>, sid: Sid, events: seq<Name>): map<Name, set<Sid>> {
    if |events| == 0 then subscriptions
    else
      var s := Subscribe(subscriptions, sid, events[..|events| - 1]);
      s[events[|events| - 1] := Subscribers(s, events[|events| - 1]) + {sid}]
  }

  function Discard(subscriptions: map<Name, set<Sid>>, gone: set<Sid>): map<Name, set<Sid>> {
    map event | event in subscriptions :: subscriptions[event] - gone
  }

  predicate Stale(c: Client, now: real) {
    now - c.lastSeen > STALE_CLIENT_TIMEOUT
  }

  function StaleClients(registry: map<Sid, Client>, now: real): set<Sid> {
    set sid | sid in registry && Stale(registry[sid], now)
  }

  function Handle(hub: Hub, m: Message): Hub {
    match m
    case Register(sid, events, addr, time) =>
      Hub(Subscribe(hub.subscriptions, sid, events), hub.registry[sid := Client(addr, time)])
    case Unregister(sid) => Hub(Discard(hub.subscriptions, {sid}), hub.registry - {sid})
    case Cleanup(now) =>
      var stale := StaleClients(hub.registry, now);
      Hub(Discard(hub.subscriptions, stale), hub.registry - stale)
  }

  function Run(history: seq<Message>): Hub {
    if |history| == 0 then Hub(map[], map[]) else Handle(Run(history[..|history| - 1]), history[|history| - 1])
  }

  // --- What the history says ---

  /** The client record of sid: its latest registration, unless it has left or gone stale since. */
  function Record(history: seq<Message>, sid: Sid): Option<Client> {
    if |history| == 0 then None
    else
      var before := Record(history[..|history| - 1], sid);
      match history[|history| - 1]
      case Register(s, _, addr, time) => if s == sid then Some(Client(addr, time)) else before
      case Unregister(s) => if s == sid then None else before
      case Cleanup(now) => if before.Some? && Stale(before.value, now) then None else before
  }

  /** Message j takes sid out: it unregisters it, or it is a cleanup that finds it stale. */
  predicate Removes(history: seq<Message>, j: nat, sid: Sid)
    requires j < |history|
  {
    match history[j]
    case Register(_, _, _, _) => false
    case Unregister(s) => s == sid
    case Cleanup(now) =>
      var c := Record(history[..j], sid);
      c.Some? && Stale(c.value, now)
  }

  predicate Asks(m: Message, event: Name, sid: Sid) {
    m.Register? && m.sid == sid && event in m.listenEvents
  }

  /** Some registration of sid listed the event and nothing has taken sid out since. */
  ghost predicate Subscribed(history: seq<Message>, event: Name, sid: Sid) {
    exists i :: 0 <= i < |history| && Asks(history[i], event, sid) && StaysFrom(history, i, sid)
  }

  ghost predicate StaysFrom(history: seq<Message>, i: nat, sid: Sid) {
    forall j :: i < j < |history| ==> !Removes(history, j, sid)
  }

  lemma SubscribedStep(history: seq<Message>, event: Name, sid: Sid)
    requires |history| > 0
    ensures
      var prev, last := history[..|history| - 1], |history| - 1;
      Subscribed(history, event, sid) <==>
        (Asks(history[last], event, sid) || (Subscribed(prev, event, sid) && !Removes(history, last, sid)))
  {
    var prev, last := history[..|history| - 1], |history| - 1;
    forall j | 0 <= j < last
      ensures Removes(history, j, sid) == Removes(prev, j, sid)
    {
      assert prev[..j] == history[..j];
    }
    if Asks(history[last], event, sid) {
      assert StaysFrom(history, last, sid);
    } else if Subscribed(prev, event, sid) && !Removes(history, last, sid) {
      var i :| 0 <= i < |prev| && Asks(prev[i], event, sid) && StaysFrom(prev, i, sid);
      assert StaysFrom(history, i, sid) && history[i] == prev[i];
    }
    if Subscribed(history, event, sid) && !Asks(history[last], event, sid) {
      var i :| 0 <= i < |history| && Asks(history[i], event, sid) && StaysFrom(history, i, sid);
      assert StaysFrom(prev, i, sid) && prev[i] == history[i];
    }
  }

  lemma {:induction false} SubscribeEffect(subscriptions: map<Name, set<Sid>>, sid: Sid, events: seq<Name>, event: Name, other: Sid)
    ensures other in Subscribers(Subscribe(subscriptions, sid, events), event)
      <==> other in Subscribers(subscriptions, event) || (other == sid && event in events)
  {
    if |events| == 0 {
    } else {
      var init := events[..|events| - 1];
      SubscribeEffect(subscriptions, sid, init, event, other);
      SubscribeEffect(subscriptions, sid, init, events[|events| - 1], other);
      assert event in events <==> event in init || event == events[|events| - 1];
    }
  }

  lemma DiscardEffect(subscriptions: map<Name, set<Sid>>, gone: set<Sid>, event: Name)
    ensures Subscribers(Discard(subscriptions, gone), event) == Subscribers(subscriptions, event) - gone
  {}

  lemma DiscardNone(subscriptions: map<Name, set<Sid>>)
    ensures Discard(subscriptions, {}) == subscriptions
  {
    forall event | event in subscriptions
      ensures subscriptions[event] - {} == subscriptions[event]
    {
    }
  }

  lemma DiscardMore(subscriptions: map<Name, set<Sid>>, a: set<Sid>, b: set<Sid>)
    ensures Discard(Discard(subscriptions, a), b) == Discard(subscriptions, a + b)
  {
    forall event | event in subscriptions
      ensures (subscriptions[event] - a) - b == subscriptions[event] - (a + b)
    {
    }
  }

  /** After any history the dictionaries hold exactly what the history says, and all subscribers are registered. */
  lemma {:induction false} HubRefinesHistory(history: seq<Message>, event: Name, sid: Sid)
    ensures
      var hub := Run(history);
      && (sid in hub.registry <==> Record(history, sid).Some?)
      && (sid in hub.registry ==> hub.registry[sid] == Record(history, sid).value)
      && (sid in Subscribers(hub.subscriptions, event) <==> Subscribed(history, event, sid))
      && (sid in Subscribers(hub.subscriptions, event) ==> sid in hub.registry)
  {
    hide Subscribed, Subscribe, Discard;
    if |history| == 0 {
      NothingSubscribed(event, sid);
    } else {
      var prev, m := history[..|history| - 1], history[|history| - 1];
      var hub := Run(prev);
      HubRefinesHistory(prev, event, sid);
      SubscribedStep(history, event, sid);
      match m
      case Register(s, events, _, _) =>
        SubscribeEffect(hub.subscriptions, s, events, event, sid);
      case Unregister(s) =>
        DiscardEffect(hub.subscriptions, {s}, event);
      case Cleanup(now) =>
        DiscardEffect(hub.subscriptions, StaleClients(hub.registry, now), event);
    }
  }

  lemma NothingSubscribed(event: Name, sid: Sid)
    ensures !Subscribed([], event, sid)
  {}

  lemma StaleIs(registry: map<Sid, Client>, now: real, sid: Sid)
    ensures sid in StaleClients(registry, now) <==> sid in registry && Stale(registry[sid], now)
  {}

  lemma StaleWithin(registry: map<Sid, Client>, now: real)
    ensures StaleClients(registry, now) <= registry.Keys
  {}

  /** One turn of the cleanup, left being the clients still to be looked at. */
  lemma CleanupTurn(clients: map<Sid, Client>, subs: map<Name, set<Sid>>, now: real, left: set<Sid>, sid: Sid)
    requires sid in left && left <= clients.Keys
    ensures
      var all := StaleClients(clients, now);
      var stale := all - left;
      && sid in Without(clients, stale) && Without(clients, stale)[sid] == clients[sid]
      && Without(clients, stale) - {sid} == Without(clients, stale + {sid})
      && Discard(Discard(subs, stale), {sid}) == Discard(subs, stale + {sid})
      && all - (left - {sid}) == if Stale(clients[sid], now) then stale + {sid} else stale
  {
    hide Discard, StaleClients, Stale, Without;
    var all := StaleClients(clients, now);
    RemoveMore(clients, all - left, sid);
    StaleIs(clients, now, sid);
    NoneMissing(all, left, sid);
    DiscardMore(subs, all - left, {sid});
  }

  lemma RemoveMore(registry: map<Sid, Client>, gone: set<Sid>, sid: Sid)
    ensures Without(registry, gone) - {sid} == Without(registry, gone + {sid})
    ensures sid in registry && sid !in gone ==> sid in Without(registry, gone) && Without(registry, gone)[sid] == registry[sid]
  {}

  function Without(registry: map<Sid, Client>, gone: set<Sid>): map<Sid, Client> {
    registry - gone
  }

  lemma WithoutIs(registry: map<Sid, Client>, gone: set<Sid>)
    ensures Without(registry, gone) == registry - gone && Without(registry, {}) == registry
  {}

  lemma NoneMissing(all: set<Sid>, left: set<Sid>, sid: Sid)
    requires sid in left
    ensures all - (left - {sid}) == (all - left) + if sid in all then {sid} else {}
  {}

  /** A cleanup keeps a client exactly if it was seen within the last 120 seconds, that is, registered then. */
  lemma CleanupKeepsExactly(history: seq<Message>, now: real, sid: Sid)
    ensures
      var before, after := Run(history), Run(history + [Cleanup(now)]);
      sid in after.registry <==> sid in before.registry && now - before.registry[sid].lastSeen <= 120.0
  {
    hide Discard;
    var more := history + [Cleanup(now)];
    assert more[..|more| - 1] == history;
  }

  /** A registration is recorded with its address and time, and subscribes to each event it lists. */
  lemma RegistrationRecorded(history: seq<Message>, sid: Sid, listed: seq<Name>, addr: Address, time: real, event: Name)
    ensures
      var hub := Run(history + [Register(sid, listed, addr, time)]);
      && sid in hub.registry && hub.registry[sid] == Client(addr, time)
      && (event in listed ==> sid in Subscribers(hub.subscriptions, event))
  {
    hide Subscribe, Subscribers;
    var more := history + [Register(sid, listed, addr, time)];
    assert more[..|more| - 1] == history;
    SubscribeEffect(Run(history).subscriptions, sid, listed, event, sid);
  }

  // --- Delivery ---

  /** Client sid is sent the event at addr. */
  predicate Delivered(hub: Hub, event: Name, sender: Sid, sid: Sid, addr: Address) {
    && sid in Subscribers(hub.subscriptions, event)
    && sid != sender
    && sid in hub.registry
    && hub.registry[sid].addr == addr
  }

  /** An emitted event goes to exactly the subscribers of the history other than the sender, at their latest address. */
  lemma DeliveryFollowsHistory(history: seq<Message>, event: Name, sender: Sid, sid: Sid, addr: Address)
    ensures Delivered(Run(history), event, sender, sid, addr)
      <==> Subscribed(history, event, sid) && sid != sender && Record(history, sid).Some? && Record(history, sid).value.addr == addr
    ensures Subscribed(history, event, sid) ==> Record(history, sid).Some?
  {
    hide Subscribed, Run, Record;
    HubRefinesHistory(history, event, sid);
  }

  // --- The hub, changed in place ---

  class PhooksHub {
    var subscriptions: map<Name, set<Sid>>
    var scriptRegistry: map<Sid, Client>

    ghost function State(): Hub
      reads this
    {
      Hub(subscriptions, scriptRegistry)
    }

    constructor ()
      ensures State() == Run([])
    {
      subscriptions, scriptRegistry := map[], map[];
    }

    method HandleRegister(sid: Sid, listenEvents: seq<Name>, addr: Address, time: real)
      modifies this
      ensures State() == Handle(old(State()), Register(sid, listenEvents, addr, time))
    {
      scriptRegistry := scriptRegistry[sid := Client(addr, time)];
      for i := 0 to |listenEvents|
        invariant subscriptions == Subscribe(old(subscriptions), sid, listenEvents[..i])
        invariant scriptRegistry == old(scriptRegistry)[sid := Client(addr, time)]
      {
        assert listenEvents[..i + 1][..i] == listenEvents[..i];
        var event := listenEvents[i];
        if event !in subscriptions {
          subscriptions := subscriptions[event := {}];
        }
        subscriptions := subscriptions[event := subscriptions[event] + {sid}];
      }
      assert listenEvents[..|listenEvents|] == listenEvents;
    }

    /** for subs in self.subscriptions.values(): subs.discard(sid) */
    method DiscardEverywhere(sid: Sid)
      modifies this`subscriptions
      ensures subscriptions == Discard(old(subscriptions), {sid})
    {
      var left := subscriptions.Keys;
      while left != {}
        invariant left <= subscriptions.Keys == old(subscriptions).Keys
        invariant forall event :: event in subscriptions ==>
          subscriptions[event] == if event in left then old(subscriptions)[event] else old(subscriptions)[event] - {sid}
        decreases |left|
      {
        var event :| event in left;
        subscriptions := subscriptions[event := subscriptions[event] - {sid}];
        left := left - {event};
      }
    }

    method HandleUnregister(sid: Sid)
      modifies this
      ensures State() == Handle(old(State()), Unregister(sid))
    {
      if sid in scriptRegistry {
        scriptRegistry := scriptRegistry - {sid};
      }
      DiscardEverywhere(sid);
    }

    method CleanupStaleClients(now: real) returns (stale: set<Sid>)
      modifies this
      ensures State() == Handle(old(State()), Cleanup(now))
      ensures stale == StaleClients(old(scriptRegistry), now)
    {
      hide Discard, StaleClients, Stale, Without;
      ghost var clients, subs, all := scriptRegistry, subscriptions, StaleClients(scriptRegistry, now);
      stale := {};
      DiscardNone(subscriptions);
      StaleWithin(scriptRegistry, now);
      WithoutIs(scriptRegistry, {});
      var left := scriptRegistry.Keys;
      while left != {}
        invariant left <= clients.Keys
        invariant stale == all - left
        invariant scriptRegistry == Without(clients, stale) && subscriptions == Discard(subs, stale)
        decreases |left|
      {
        var sid :| sid in left;
        CleanupTurn(clients, subs, now, left, sid);
        if Stale(scriptRegistry[sid], now) {
          stale := stale + {sid};
          scriptRegistry := scriptRegistry - {sid};
          DiscardEverywhere(sid);
        }
        left := left - {sid};
      }
      assert all - {} == all;
      WithoutIs(clients, all);
    }

    /** The sends of one event, in whatever order the set of recipients is gone through. */
    method Emit(event: Name, sender: Sid) returns (sent: seq<(Sid, Address)>)
      ensures forall i, j :: 0 <= i < j < |sent| ==> sent[i].0 != sent[j].0
      ensures forall sid, addr :: (sid, addr) in sent <==> Delivered(State(), event, sender, sid, addr)
    {
      var recipients := Subscribers(subscriptions, event);
      var left := recipients;
      sent := [];
      while left != {}
        invariant left <= recipients
        invariant forall i, j :: 0 <= i < j < |sent| ==> sent[i].0 != sent[j].0
        invariant forall i :: 0 <= i < |sent| ==> sent[i].0 !in left
        invariant forall sid, addr :: (sid, addr) in sent <==> sid !in left && Delivered(State(), event, sender, sid, addr)
        decreases |left|
      {
        var sid :| sid in left;
        if sid != sender && sid in scriptRegistry {
          sent := sent + [(sid, scriptRegistry[sid].addr)];
        }
        left := left - {sid};
      }
    }
  }
}
