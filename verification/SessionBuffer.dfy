/**
  The session manager's memory buffer: a bounded queue of messages linked by a hash chain, flushed
  to a table, saved in checkpoints and restored from them.

  What is hashed is the plain concatenation of the previous hash and four texts of the message, as
  in the source. The hash itself is a parameter. What is said of the chain holds for every hash
  function; where a broken chain must be noticed, the hash is assumed to give different texts
  different hashes, none of them empty.
 */
module SessionBuffer {
  import opened Wrappers

  datatype FlushReason = Timer | ConnectionDrop | BugDetected | Shutdown | Manual | AtCheckpoint | AgentSpawned

  datatype CheckpointKind = LastGood | BugCheckpoint | Recovery | Startup

  /** A message: its texts as they are hashed, tool calls as JSON and the time stamp as printed; tool results are not. */
  datatype Body = Body(role: string, content: string, toolCalls: string, timestamp: string, toolResults: string)

  type HashFunction = string -> string

  /** The part of a message that goes into its hash. */
  function Hashed(b: Body): string {
    b.role + b.content + b.toolCalls + b.timestamp
  }

  /** The hash of a message that follows one with hash prev. */
  function Link(h: HashFunction, prev: string, b: Body): string {
    h(prev + Hashed(b))
  }

  datatype Entry = Entry(id: string, body: Body, stateHash: string, flushReason: Option<FlushReason>)

  datatype Checkpoint = Checkpoint(kind: CheckpointKind, snapshot: seq<Entry>, stateHash: string)

  datatype Session = Session(
    buffer: seq<Entry>,
    lastHash: string,
    messageCount: nat,
    table: map<string, Entry>,
    checkpoints: seq<Checkpoint>)

  const EMPTY := Session([], "", 0, map[], [])

  datatype SessionError = InvalidRole

  predicate ValidRole(role: string) {
    role == "system" || role == "user" || role == "assistant" || role == "tool"
  }

  // --- Operations ---

  /** deque(maxlen).append */
  function Push(buffer: seq<Entry>, e: Entry, maxlen: nat): (b: seq<Entry>)
    ensures |buffer| <= maxlen ==> |b| <= maxlen
  {
    if |buffer| < maxlen then buffer + [e] else (buffer + [e])[|buffer| + 1 - maxlen..]
  }

  function Append(h: HashFunction, maxlen: nat, s: Session, id: string, body: Body): Session {
    var e := Entry(id, body, Link(h, s.lastHash, body), None);
    s.(buffer := Push(s.buffer, e, maxlen), lastHash := e.stateHash, messageCount := s.messageCount + 1)
  }

  function Mark(e: Entry, reason: FlushReason): Entry {
    if e.flushReason.None? then e.(flushReason := Some(reason)) else e
  }

  function MarkAll(buffer: seq<Entry>, reason: FlushReason): (b: seq<Entry>)
    ensures |b| == |buffer|
  {
    seq(|buffer|, i requires 0 <= i < |buffer| => Mark(buffer[i], reason))
  }

  /** INSERT OR REPLACE of every unflushed entry, keyed by message id. */
  function InsertAll(table: map<string, Entry>, buffer: seq<Entry>, reason: FlushReason): map<string, Entry> {
    if |buffer| == 0 then table
    else
      var e := buffer[|buffer| - 1];
      var t := InsertAll(table, buffer[..|buffer| - 1], reason);
      if e.flushReason.None? then t[e.id := Mark(e, reason)] else t
  }

  predicate AnyUnflushed(buffer: seq<Entry>) {
    exists i :: 0 <= i < |buffer| && buffer[i].flushReason.None?
  }

  function SaveCheckpoint(s: Session, kind: CheckpointKind): Session {
    s.(checkpoints := s.checkpoints + [Checkpoint(kind, s.buffer, s.lastHash)])
  }

  /** A flush whose commit succeeds. */
  function Flush(s: Session, reason: FlushReason): Session {
    if !AnyUnflushed(s.buffer) && reason != Shutdown then s
    else
      var s' := s.(buffer := MarkAll(s.buffer, reason), table := InsertAll(s.table, s.buffer, reason));
      if reason == BugDetected then SaveCheckpoint(s', BugCheckpoint) else s'
  }

  /** The longest prefix whose hashes chain from prev. */
  function ChainPrefix(h: HashFunction, prev: string, entries: seq<Entry>): (p: seq<Entry>)
    ensures |p| <= |entries| && p == entries[..|p|]
    decreases |entries|
  {
    if |entries| > 0 && Link(h, prev, entries[0].body) == entries[0].stateHash then
      [entries[0]] + ChainPrefix(h, entries[0].stateHash, entries[1..])
    else []
  }

  function HashAfter(prev: string, entries: seq<Entry>): string {
    if |entries| == 0 then prev else entries[|entries| - 1].stateHash
  }

  function LastOf(entries: seq<Entry>, maxlen: nat): seq<Entry> {
    if |entries| <= maxlen then entries else entries[|entries| - maxlen..]
  }

  /** Restoring from checkpoint number choice; with no such checkpoint nothing changes. */
  function Restore(h: HashFunction, maxlen: nat, s: Session, choice: nat): Session {
    if choice >= |s.checkpoints| then s
    else
      var p := ChainPrefix(h, "", s.checkpoints[choice].snapshot);
      SaveCheckpoint(s.(buffer := LastOf(p, maxlen), lastHash := HashAfter("", p), messageCount := |p|), Recovery)
  }

  function Verify(h: HashFunction, buffer: seq<Entry>): (bool, nat) {
    var n := |ChainPrefix(h, "", buffer)|;
    (n == |buffer|, n)
  }

  // --- The chain ---

  /** The entries' hashes chain from first and end in last. */
  ghost predicate Chained(h: HashFunction, first: string, entries: seq<Entry>, last: string) {
    && (forall i :: 0 <= i < |entries| ==> entries[i].stateHash == Link(h, HashAfter(first, entries[..i]), entries[i].body))
    && last == HashAfter(first, entries)
  }

  /** Nothing is missing at the front: the buffer chains from the empty hash to the current one. */
  ghost predicate Whole(h: HashFunction, s: Session) {
    Chained(h, "", s.buffer, s.lastHash)
  }

  lemma {:induction false} PrefixOfChain(h: HashFunction, prev: string, entries: seq<Entry>)
    ensures (exists last :: Chained(h, prev, entries, last)) <==> ChainPrefix(h, prev, entries) == entries
    decreases |entries|
  {
    if |entries| == 0 {
      assert Chained(h, prev, entries, prev);
    } else {
      var e, rest := entries[0], entries[1..];
      PrefixOfChain(h, e.stateHash, rest);
      forall last | Chained(h, prev, entries, last)
        ensures Chained(h, e.stateHash, rest, last) && Link(h, prev, e.body) == e.stateHash
      {
        ChainTail(h, prev, entries, last);
      }
      forall last | Chained(h, e.stateHash, rest, last) && Link(h, prev, e.body) == e.stateHash
        ensures Chained(h, prev, entries, last)
      {
        ChainCons(h, prev, entries, last);
      }
    }
  }

  lemma ChainTail(h: HashFunction, prev: string, entries: seq<Entry>, last: string)
    requires |entries| > 0 && Chained(h, prev, entries, last)
    ensures Link(h, prev, entries[0].body) == entries[0].stateHash
    ensures Chained(h, entries[0].stateHash, entries[1..], last)
  {}

  lemma ChainCons(h: HashFunction, prev: string, entries: seq<Entry>, last: string)
    requires |entries| > 0 && Link(h, prev, entries[0].body) == entries[0].stateHash
    requires Chained(h, entries[0].stateHash, entries[1..], last)
    ensures Chained(h, prev, entries, last)
  {
    hide Link;
    var rest := entries[1..];
    forall i | 0 <= i < |entries|
      ensures entries[i].stateHash == Link(h, HashAfter(prev, entries[..i]), entries[i].body)
    {
      if i == 0 {
        assert entries[..0] == [];
      } else {
        assert rest[i - 1].stateHash == Link(h, HashAfter(entries[0].stateHash, rest[..i - 1]), rest[i - 1].body);
      }
    }
  }

  lemma ChainSnoc(h: HashFunction, first: string, entries: seq<Entry>, last: string, e: Entry)
    requires Chained(h, first, entries, last) && e.stateHash == Link(h, last, e.body)
    ensures Chained(h, first, entries + [e], e.stateHash)
  {
    var more := entries + [e];
    forall i | 0 <= i < |more|
      ensures more[i].stateHash == Link(h, HashAfter(first, more[..i]), more[i].body)
    {
      assert more[..i] == entries[..i];
    }
  }

  lemma MarkedHashes(first: string, entries: seq<Entry>, reason: FlushReason, i: nat)
    requires i <= |entries|
    ensures HashAfter(first, MarkAll(entries, reason)[..i]) == HashAfter(first, entries[..i])
    ensures i < |entries| ==> MarkAll(entries, reason)[i] == Mark(entries[i], reason)
  {}

  lemma ChainMarked(h: HashFunction, first: string, entries: seq<Entry>, last: string, reason: FlushReason)
    requires Chained(h, first, entries, last)
    ensures Chained(h, first, MarkAll(entries, reason), last)
  {
    hide Link, HashAfter, MarkAll;
    var marked := MarkAll(entries, reason);
    forall i | 0 <= i < |marked|
      ensures marked[i].stateHash == Link(h, HashAfter(first, marked[..i]), marked[i].body)
    {
      MarkedHashes(first, entries, reason, i);
    }
    MarkedHashes(first, entries, reason, |entries|);
    assert marked[..|entries|] == marked && entries[..|entries|] == entries;
  }

  lemma {:induction false} PrefixChains(h: HashFunction, prev: string, entries: seq<Entry>)
    ensures
      var p := ChainPrefix(h, prev, entries);
      Chained(h, prev, p, HashAfter(prev, p))
    decreases |entries|
  {
    var p := ChainPrefix(h, prev, entries);
    if |p| == 0 {
    } else {
      PrefixChains(h, entries[0].stateHash, entries[1..]);
      assert p[1..] == ChainPrefix(h, entries[0].stateHash, entries[1..]);
      assert HashAfter(prev, p) == HashAfter(p[0].stateHash, p[1..]);
      ChainCons(h, prev, p, HashAfter(prev, p));
    }
  }

  /** Restoring keeps the longest prefix of the snapshot that chains: it chains, and one entry more does not. */
  lemma {:induction false} PrefixIsLongest(h: HashFunction, prev: string, entries: seq<Entry>, n: nat)
    requires n <= |entries|
    ensures (exists last :: Chained(h, prev, entries[..n], last)) <==> n <= |ChainPrefix(h, prev, entries)|
    decreases |entries|
  {
    PrefixOfChain(h, prev, entries[..n]);
    PrefixOfPrefix(h, prev, entries, n);
  }

  lemma {:induction false} PrefixOfPrefix(h: HashFunction, prev: string, entries: seq<Entry>, n: nat)
    requires n <= |entries|
    ensures ChainPrefix(h, prev, entries[..n]) == entries[..n] <==> n <= |ChainPrefix(h, prev, entries)|
    decreases |entries|
  {
    if n == 0 {
    } else {
      assert entries[..n][1..] == entries[1..][..n - 1];
      PrefixOfPrefix(h, entries[0].stateHash, entries[1..], n - 1);
      assert entries[..n] == [entries[0]] + entries[1..][..n - 1];
    }
  }

  // --- Whole runs ---

  datatype Event =
    | Message(id: string, body: Body)
    | Flushing(reason: FlushReason)
    | Saving(kind: CheckpointKind)
    | Restoring(choice: nat)

  function Step(h: HashFunction, maxlen: nat, s: Session, e: Event): Session {
    match e
    case Message(id, body) => Append(h, maxlen, s, id, body)
    case Flushing(reason) => Flush(s, reason)
    case Saving(kind) => SaveCheckpoint(s, kind)
    case Restoring(choice) => Restore(h, maxlen, s, choice)
  }

  function Run(h: HashFunction, maxlen: nat, events: seq<Event>): Session {
    if |events| == 0 then EMPTY
    else Step(h, maxlen, Run(h, maxlen, events[..|events| - 1]), events[|events| - 1])
  }

  /** Whether a full buffer has pushed out its oldest message since the start or the last restore. */
  function Evicted(h: HashFunction, maxlen: nat, events: seq<Event>): bool {
    if |events| == 0 then false
    else
      var prev, e := events[..|events| - 1], events[|events| - 1];
      var s := Run(h, maxlen, prev);
      if e.Message? && |s.buffer| >= maxlen then true
      else if e.Restoring? && e.choice < |s.checkpoints| then false
      else Evicted(h, maxlen, prev)
  }

  ghost predicate Injective(h: HashFunction) {
    forall x, y :: h(x) == h(y) ==> x == y
  }

  ghost predicate NeverEmpty(h: HashFunction) {
    forall x :: h(x) != ""
  }

  ghost predicate Bounded(maxlen: nat, s: Session) {
    |s.buffer| <= maxlen && forall i :: 0 <= i < |s.checkpoints| ==> |s.checkpoints[i].snapshot| <= maxlen
  }

  lemma {:induction false} RunBounded(h: HashFunction, maxlen: nat, events: seq<Event>)
    ensures Bounded(maxlen, Run(h, maxlen, events))
  {
    if |events| == 0 {
    } else {
      RunBounded(h, maxlen, events[..|events| - 1]);
    }
  }

  /** Until something is evicted, every run keeps the buffer a chain from the empty hash to the current one. */
  lemma {:induction false} RunKeepsWhole(h: HashFunction, maxlen: nat, events: seq<Event>)
    requires !Evicted(h, maxlen, events)
    ensures Whole(h, Run(h, maxlen, events))
  {
    if |events| == 0 {
    } else {
      hide Chained, Link, MarkAll, InsertAll, ChainPrefix;
      var prev, e := events[..|events| - 1], events[|events| - 1];
      var s := Run(h, maxlen, prev);
      RunBounded(h, maxlen, prev);
      match e
      case Message(id, body) =>
        RunKeepsWhole(h, maxlen, prev);
        ChainSnoc(h, "", s.buffer, s.lastHash, Entry(id, body, Link(h, s.lastHash, body), None));
      case Flushing(reason) =>
        RunKeepsWhole(h, maxlen, prev);
        ChainMarked(h, "", s.buffer, s.lastHash, reason);
      case Saving(_) =>
        RunKeepsWhole(h, maxlen, prev);
      case Restoring(choice) =>
        if choice < |s.checkpoints| {
          PrefixChains(h, "", s.checkpoints[choice].snapshot);
        } else {
          RunKeepsWhole(h, maxlen, prev);
        }
    }
  }

  /** After an eviction the buffer chains from some hash that is not empty. */
  ghost predicate Truncated(h: HashFunction, s: Session) {
    |s.buffer| > 0 && exists first :: first != "" && Chained(h, first, s.buffer, s.lastHash)
  }

  lemma PushKeepsTruncated(h: HashFunction, maxlen: nat, s: Session, first: string, id: string, body: Body)
    requires NeverEmpty(h) && 1 <= maxlen && |s.buffer| <= maxlen && Chained(h, first, s.buffer, s.lastHash)
    requires first != "" || |s.buffer| == maxlen
    ensures Truncated(h, Append(h, maxlen, s, id, body))
  {
    var e := Entry(id, body, Link(h, s.lastHash, body), None);
    var more := s.buffer + [e];
    ChainSnoc(h, first, s.buffer, s.lastHash, e);
    if |s.buffer| < maxlen {
      assert Append(h, maxlen, s, id, body).buffer == more;
    } else {
      ChainTail(h, first, more, e.stateHash);
      assert more[0].stateHash != "";
      assert Append(h, maxlen, s, id, body).buffer == more[1..];
    }
  }

  lemma {:induction false} RunTruncates(h: HashFunction, maxlen: nat, events: seq<Event>)
    requires NeverEmpty(h) && 1 <= maxlen && Evicted(h, maxlen, events)
    ensures Truncated(h, Run(h, maxlen, events))
  {
    hide Chained, Link, MarkAll, InsertAll, Append, ChainPrefix, LastOf;
    var prev, e := events[..|events| - 1], events[|events| - 1];
    var s := Run(h, maxlen, prev);
    RunBounded(h, maxlen, prev);
    if Evicted(h, maxlen, prev) {
      RunTruncates(h, maxlen, prev);
      var first :| first != "" && Chained(h, first, s.buffer, s.lastHash);
      if e.Message? {
        PushKeepsTruncated(h, maxlen, s, first, e.id, e.body);
      } else if e.Flushing? {
        ChainMarked(h, first, s.buffer, s.lastHash, e.reason);
        assert Run(h, maxlen, events).buffer == s.buffer || Run(h, maxlen, events).buffer == MarkAll(s.buffer, e.reason);
      }
    } else {
      RunKeepsWhole(h, maxlen, prev);
      PushKeepsTruncated(h, maxlen, s, "", e.id, e.body);
    }
  }

  lemma FirstLink(h: HashFunction, first: string, entries: seq<Entry>, last: string)
    requires |entries| > 0 && Chained(h, first, entries, last)
    ensures entries[0].stateHash == Link(h, first, entries[0].body)
  {
    assert entries[..0] == [];
  }

  /** A chain from any other start has no prefix that chains from the empty hash. */
  lemma TruncatedHasNoPrefix(h: HashFunction, s: Session)
    requires Injective(h) && Truncated(h, s)
    ensures ChainPrefix(h, "", s.buffer) == []
  {
    hide Hashed, Chained, HashAfter;
    var e := s.buffer[0];
    var first :| first != "" && Chained(h, first, s.buffer, s.lastHash);
    FirstLink(h, first, s.buffer, s.lastHash);
    assert |first + Hashed(e.body)| != |"" + Hashed(e.body)|;
  }

  /** The integrity check passes, over all messages, exactly while nothing has been evicted. */
  lemma VerifyExactly(h: HashFunction, maxlen: nat, events: seq<Event>)
    ensures
      var s := Run(h, maxlen, events);
      && (!Evicted(h, maxlen, events) ==> Verify(h, s.buffer) == (true, |s.buffer|))
      && (Injective(h) && NeverEmpty(h) && 1 <= maxlen && Evicted(h, maxlen, events) ==> Verify(h, s.buffer) == (false, 0))
  {
    var s := Run(h, maxlen, events);
    if !Evicted(h, maxlen, events) {
      RunKeepsWhole(h, maxlen, events);
      PrefixOfChain(h, "", s.buffer);
    } else if Injective(h) && NeverEmpty(h) && 1 <= maxlen {
      RunTruncates(h, maxlen, events);
      TruncatedHasNoPrefix(h, s);
    }
  }

  /** Saving and restoring gives the same messages back while nothing has been evicted, and none at all afterwards. */
  lemma SaveThenRestore(h: HashFunction, maxlen: nat, events: seq<Event>, kind: CheckpointKind)
    ensures
      var s := Run(h, maxlen, events);
      var back := Restore(h, maxlen, SaveCheckpoint(s, kind), |s.checkpoints|);
      && (!Evicted(h, maxlen, events) ==> back.buffer == s.buffer && back.lastHash == s.lastHash)
      && (Injective(h) && NeverEmpty(h) && 1 <= maxlen && Evicted(h, maxlen, events) ==> back.buffer == [] != s.buffer)
  {
    var s := Run(h, maxlen, events);
    RunBounded(h, maxlen, events);
    if !Evicted(h, maxlen, events) {
      RunKeepsWhole(h, maxlen, events);
      PrefixOfChain(h, "", s.buffer);
    } else if Injective(h) && NeverEmpty(h) && 1 <= maxlen {
      RunTruncates(h, maxlen, events);
      TruncatedHasNoPrefix(h, s);
    }
  }

  /** Every entry of the chained prefix fits the hash before it. */
  lemma PrefixLinks(h: HashFunction, entries: seq<Entry>, i: nat)
    requires i < |ChainPrefix(h, "", entries)|
    ensures entries[i].stateHash == Link(h, HashAfter("", entries[..i]), entries[i].body)
  {
    var p := ChainPrefix(h, "", entries);
    PrefixChains(h, "", entries);
    assert p[..i] == entries[..i] && p[i] == entries[i];
  }

  lemma LongestPrefix(h: HashFunction, entries: seq<Entry>, n: nat)
    requires n <= |entries| && Chained(h, "", entries[..n], HashAfter("", entries[..n]))
    ensures n <= |ChainPrefix(h, "", entries)|
  {
    PrefixIsLongest(h, "", entries, n);
  }

  /**
    Putting another entry with the same recorded hash in place of one in a chained snapshot cuts
    the restore off just before it, unless both are hashed from the same text: then nothing is
    noticed. Message id, tool results and flush mark are never hashed, and text may move between
    the parts that are.
   */
  lemma TamperingNoticedIff(h: HashFunction, entries: seq<Entry>, last: string, i: nat, e: Entry)
    requires Injective(h) && Chained(h, "", entries, last)
    requires i < |entries| && e.stateHash == entries[i].stateHash
    ensures ChainPrefix(h, "", entries[i := e])
         == if Hashed(e.body) == Hashed(entries[i].body) then entries[i := e] else entries[..i]
  {
    hide Link, Hashed, ChainPrefix, Injective, HashAfter, Chained;
    var forged := entries[i := e];
    assert forged[..i] == entries[..i];
    if Hashed(e.body) == Hashed(entries[i].body) {
      SameHashesChain(h, entries, last, forged);
      PrefixOfChain(h, "", forged);
    } else {
      ChainStart(h, entries, last, i);
      LongestPrefix(h, forged, i);
      DifferentTextBreaks(h, entries, last, i, e.body);
      BreaksAt(h, forged, i);
    }
  }

  lemma DifferentTextBreaks(h: HashFunction, entries: seq<Entry>, last: string, i: nat, body: Body)
    requires Injective(h) && Chained(h, "", entries, last)
    requires i < |entries| && Hashed(body) != Hashed(entries[i].body)
    ensures entries[i].stateHash != Link(h, HashAfter("", entries[..i]), body)
  {
    hide Hashed, HashAfter;
    var before, x, y := HashAfter("", entries[..i]), Hashed(body), Hashed(entries[i].body);
    assert (before + x)[|before|..] == x && (before + y)[|before|..] == y;
  }

  lemma BreaksAt(h: HashFunction, entries: seq<Entry>, i: nat)
    requires i < |entries| && entries[i].stateHash != Link(h, HashAfter("", entries[..i]), entries[i].body)
    ensures |ChainPrefix(h, "", entries)| <= i
  {
    hide Link, HashAfter, ChainPrefix;
    if i < |ChainPrefix(h, "", entries)| {
      PrefixLinks(h, entries, i);
    }
  }

  lemma ChainStart(h: HashFunction, entries: seq<Entry>, last: string, n: nat)
    requires Chained(h, "", entries, last) && n <= |entries|
    ensures Chained(h, "", entries[..n], HashAfter("", entries[..n]))
  {
    assert forall j {:trigger entries[j]} :: 0 <= j < n ==> entries[..n][..j] == entries[..j] && entries[..n][j] == entries[j];
  }

  lemma SameHashesChain(h: HashFunction, entries: seq<Entry>, last: string, forged: seq<Entry>)
    requires Chained(h, "", entries, last) && |forged| == |entries|
    requires forall j :: 0 <= j < |entries| ==>
      forged[j].stateHash == entries[j].stateHash && Hashed(forged[j].body) == Hashed(entries[j].body)
    ensures Chained(h, "", forged, last)
  {
    forall j | 0 <= j < |forged|
      ensures forged[j].stateHash == Link(h, HashAfter("", forged[..j]), forged[j].body)
    {
      assert entries[j].stateHash == Link(h, HashAfter("", entries[..j]), entries[j].body);
      assert j > 0 ==> forged[..j][j - 1] == forged[j - 1] && entries[..j][j - 1] == entries[j - 1];
    }
  }

  // --- The assumptions on the hash can be met ---

  /** A stand-in for the digest. */
  function Marked(text: string): string {
    "#" + text
  }

  lemma HashesExist()
    ensures Injective(Marked) && NeverEmpty(Marked)
  {
    forall x, y | Marked(x) == Marked(y)
      ensures x == y
    {
      assert Marked(x)[1..] == x && Marked(y)[1..] == y;
    }
  }

  /** A buffer of one, after two messages: the first is gone, and the check of the second fails. */
  lemma EvictedRunFails(first: Body, second: Body)
    ensures
      var events := [Message("1", first), Message("2", second)];
      Evicted(Marked, 1, events) && Verify(Marked, Run(Marked, 1, events).buffer) == (false, 0)
  {
    var events := [Message("1", first), Message("2", second)];
    assert events[..1] == [Message("1", first)] && events[..1][..0] == [];
    assert Run(Marked, 1, events[..1]) == Append(Marked, 1, EMPTY, "1", first);
    assert Evicted(Marked, 1, events);
    HashesExist();
    VerifyExactly(Marked, 1, events);
  }

  /** Role and content run together: another role, with the rest of it moved into the content, has the same hash. */
  lemma MovedTextUnnoticed(h: HashFunction, prev: string)
    ensures
      var a, b := Body("user", "s agree", "[]", "1.0", "[]"), Body("users", " agree", "[]", "1.0", "[1]");
      a != b && Link(h, prev, a) == Link(h, prev, b)
  {
    assert "user" + "s agree" == "users" + " agree";
  }

  // --- What the hash covers ---

  lemma MiddleMatters(p: string, x: string, y: string, s: string)
    requires x != y
    ensures p + x + s != p + y + s
  {
    if |x| == |y| {
      var i :| 0 <= i < |x| && x[i] != y[i];
      assert (p + x + s)[|p| + i] == x[i] && (p + y + s)[|p| + i] == y[i];
    } else {
      assert |p + x + s| != |p + y + s|;
    }
  }

  /** The two messages differ in exactly one of role, content, tool calls and time stamp, and perhaps in tool results. */
  predicate OnePartChanged(a: Body, b: Body) {
    || (a.role != b.role && a == b.(role := a.role, toolResults := a.toolResults))
    || (a.content != b.content && a == b.(content := a.content, toolResults := a.toolResults))
    || (a.toolCalls != b.toolCalls && a == b.(toolCalls := a.toolCalls, toolResults := a.toolResults))
    || (a.timestamp != b.timestamp && a == b.(timestamp := a.timestamp, toolResults := a.toolResults))
  }

  lemma PartChangesText(a: Body, b: Body)
    requires OnePartChanged(a, b)
    ensures Hashed(a) != Hashed(b)
  {
    if a.role != b.role {
      var rest := a.content + a.toolCalls + a.timestamp;
      MiddleMatters("", a.role, b.role, rest);
      assert Hashed(a) == "" + a.role + rest && Hashed(b) == "" + b.role + rest;
    } else if a.content != b.content {
      var rest := a.toolCalls + a.timestamp;
      MiddleMatters(a.role, a.content, b.content, rest);
      assert Hashed(a) == a.role + a.content + rest && Hashed(b) == a.role + b.content + rest;
    } else if a.toolCalls != b.toolCalls {
      MiddleMatters(a.role + a.content, a.toolCalls, b.toolCalls, a.timestamp);
    } else {
      var front := a.role + a.content + a.toolCalls;
      MiddleMatters(front, a.timestamp, b.timestamp, "");
      assert Hashed(a) == front + a.timestamp + "" && Hashed(b) == front + b.timestamp + "";
    }
  }

  /** Changing any one hashed part of a message changes its hash; changing its tool results never does. */
  lemma EachPartHashed(h: HashFunction, prev: string, a: Body, b: Body)
    ensures Injective(h) && OnePartChanged(a, b) ==> Link(h, prev, a) != Link(h, prev, b)
    ensures a == b.(toolResults := a.toolResults) ==> Link(h, prev, a) == Link(h, prev, b)
  {
    if Injective(h) && OnePartChanged(a, b) {
      hide Hashed, OnePartChanged;
      PartChangesText(a, b);
      var x, y := Hashed(a), Hashed(b);
      assert (prev + x)[|prev|..] == x && (prev + y)[|prev|..] == y;
    }
  }

  /** So a chained snapshot in which one part of one message was changed is cut off at that message. */
  lemma AlteredPartCutsOff(h: HashFunction, entries: seq<Entry>, last: string, i: nat, body: Body)
    requires Injective(h) && Chained(h, "", entries, last) && i < |entries| && OnePartChanged(body, entries[i].body)
    ensures ChainPrefix(h, "", entries[i := entries[i].(body := body)]) == entries[..i]
  {
    hide Hashed, Chained, ChainPrefix, Injective, OnePartChanged;
    PartChangesText(body, entries[i].body);
    TamperingNoticedIff(h, entries, last, i, entries[i].(body := body));
  }

  /** And so is one in which the recorded hash of a message was changed. */
  lemma AlteredHashCutsOff(h: HashFunction, entries: seq<Entry>, last: string, i: nat, stateHash: string)
    requires Chained(h, "", entries, last) && i < |entries| && stateHash != entries[i].stateHash
    ensures ChainPrefix(h, "", entries[i := entries[i].(stateHash := stateHash)]) == entries[..i]
  {
    hide Link, ChainPrefix, HashAfter;
    var forged := entries[i := entries[i].(stateHash := stateHash)];
    assert forged[..i] == entries[..i];
    ChainStart(h, entries, last, i);
    LongestPrefix(h, forged, i);
    BreaksAt(h, forged, i);
  }

  /** In full: previous hash, role, content, tool calls, time stamp. */
  lemma LinkInFull(h: HashFunction, prev: string, role: string, content: string, calls: string, time: string, results: string)
    ensures Link(h, prev, Body(role, content, calls, time, results)) == h(prev + role + content + calls + time)
  {
    assert prev + (role + content + calls + time) == prev + role + content + calls + time;
  }

  // --- What the other operations record ---

  /** A flush marks what it writes with its reason and leaves earlier marks; a bug flush that finds something also saves it. */
  lemma FlushRecords(s: Session, reason: FlushReason)
    ensures
      var s' := Flush(s, reason);
      && |s'.buffer| == |s.buffer| && s'.lastHash == s.lastHash && s'.messageCount == s.messageCount
      && (forall i :: 0 <= i < |s.buffer| ==>
            && s'.buffer[i].id == s.buffer[i].id && s'.buffer[i].body == s.buffer[i].body
            && s'.buffer[i].stateHash == s.buffer[i].stateHash
            && s'.buffer[i].flushReason == if s.buffer[i].flushReason.Some? then s.buffer[i].flushReason else Some(reason))
      && s'.checkpoints == s.checkpoints +
           if reason == BugDetected && (exists i :: 0 <= i < |s.buffer| && s.buffer[i].flushReason.None?)
           then [Checkpoint(BugCheckpoint, s'.buffer, s.lastHash)] else []
  {
    if !AnyUnflushed(s.buffer) {
      assert forall i :: 0 <= i < |s.buffer| ==> s.buffer[i].flushReason.Some?;
      assert MarkAll(s.buffer, reason) == s.buffer;
    }
    assert s.checkpoints + [] == s.checkpoints;
  }

  /** A restore counts the messages it verified, saves what it restored as a recovery checkpoint, and touches no row. */
  lemma RestoreRecords(h: HashFunction, maxlen: nat, s: Session, choice: nat)
    ensures
      var s' := Restore(h, maxlen, s, choice);
      && s'.table == s.table
      && (choice >= |s.checkpoints| ==> s' == s)
      && (choice < |s.checkpoints| ==>
            && s'.messageCount == |ChainPrefix(h, "", s.checkpoints[choice].snapshot)|
            && s'.checkpoints == s.checkpoints + [Checkpoint(Recovery, s'.buffer, s'.lastHash)]
            && (|s.checkpoints[choice].snapshot| <= maxlen ==> s'.messageCount == |s'.buffer|))
  {
    hide ChainPrefix;
  }

  /** An appended message goes last, hashed onto the hash before it; the oldest goes only from a full buffer. */
  lemma AppendRecords(h: HashFunction, maxlen: nat, s: Session, id: string, body: Body)
    requires 1 <= maxlen && |s.buffer| <= maxlen
    ensures
      var s' := Append(h, maxlen, s, id, body);
      && s'.lastHash == Link(h, s.lastHash, body) && s'.messageCount == s.messageCount + 1
      && |s'.buffer| >= 1 && s'.buffer[|s'.buffer| - 1] == Entry(id, body, s'.lastHash, None)
      && s'.buffer[..|s'.buffer| - 1] == (if |s.buffer| < maxlen then s.buffer else s.buffer[1..])
      && s'.table == s.table && s'.checkpoints == s.checkpoints
  {
    hide Link;
  }

  /** The four roles that are accepted. */
  lemma RolesExactly(role: string)
    ensures ValidRole(role) <==> role in {"system", "user", "assistant", "tool"}
  {}
}
