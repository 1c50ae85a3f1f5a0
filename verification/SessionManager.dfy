/**
  The session manager itself: methods that change the buffer, the hash and the tables in place,
  each tied to the step of the session it performs. Sockets, timers and failed commits are left out.
 */
module SessionManager {
  import opened Wrappers
  import opened SessionBuffer

  class SessionManager {
    const hash: HashFunction
    const maxlen: nat
    var buffer: seq<Entry>
    var lastHash: string
    var messageCount: nat
    var table: map<string, Entry>
    var checkpoints: seq<Checkpoint>

    ghost function State(): Session
      reads this
    {
      Session(buffer, lastHash, messageCount, table, checkpoints)
    }

    constructor (hash: HashFunction, maxlen: nat)
      ensures this.hash == hash && this.maxlen == maxlen && State() == EMPTY
    {
      this.hash, this.maxlen := hash, maxlen;
      buffer, lastHash, messageCount, table, checkpoints := [], "", 0, map[], [];
    }

    method PushEntry(e: Entry)
      modifies this`buffer
      ensures buffer == Push(old(buffer), e, maxlen)
    {
      buffer := buffer + [e];
      if |buffer| > maxlen {
        buffer := buffer[|buffer| - maxlen..];
      }
    }

    /** The id, random in the source, and the time stamp in the body are parameters. */
    method AppendMessage(id: string, body: Body) returns (r: Result<string, SessionError>)
      modifies this
      ensures r == if ValidRole(body.role) then Ok(id) else Err(InvalidRole)
      ensures State() == if r.Ok? then Append(hash, maxlen, old(State()), id, body) else old(State())
    {
      if !(body.role == "system" || body.role == "user" || body.role == "assistant" || body.role == "tool") {
        return Err(InvalidRole);
      }
      var entry := Entry(id, body, Link(hash, lastHash, body), None);
      PushEntry(entry);
      lastHash := entry.stateHash;
      messageCount := messageCount + 1;
      return Ok(id);
    }

    method CreateCheckpoint(kind: CheckpointKind)
      modifies this`checkpoints
      ensures State() == SaveCheckpoint(old(State()), kind)
    {
      checkpoints := checkpoints + [Checkpoint(kind, buffer, lastHash)];
    }

    method FlushBuffer(reason: FlushReason)
      modifies this
      ensures State() == Flush(old(State()), reason)
    {
      if !AnyUnflushed(buffer) && reason != Shutdown {
        return;
      }
      hide InsertAll, MarkAll, AnyUnflushed;
      var marked: seq<Entry> := [];
      FlushNone(table, buffer, reason);
      for i := 0 to |buffer|
        invariant buffer == old(buffer) && lastHash == old(lastHash) && messageCount == old(messageCount)
        invariant checkpoints == old(checkpoints)
        invariant marked == MarkAll(buffer, reason)[..i]
        invariant table == InsertAll(old(table), buffer[..i], reason)
      {
        var entry := buffer[i];
        FlushOne(old(table), buffer, reason, i);
        if entry.flushReason.None? {
          entry := entry.(flushReason := Some(reason));
          table := table[entry.id := entry];
        }
        marked := marked + [entry];
      }
      FlushDone(old(table), buffer, reason);
      buffer := marked;
      if reason == BugDetected {
        CreateCheckpoint(BugCheckpoint);
      }
    }

    /** choice is the row that the query finds; a number past the end stands for no row. */
    method RestoreFromCheckpoint(choice: nat)
      modifies this
      ensures State() == Restore(hash, maxlen, old(State()), choice)
    {
      if choice >= |checkpoints| {
        return;
      }
      hide ChainPrefix, LastOf, HashAfter;
      var entries := checkpoints[choice].snapshot;
      buffer, lastHash, messageCount := [], "", 0;
      var i := 0;
      RestoreNone(hash, entries, maxlen);
      while i < |entries|
        invariant 0 <= i <= |entries|
        invariant table == old(table) && checkpoints == old(checkpoints)
        invariant ChainPrefix(hash, "", entries) == entries[..i] + ChainPrefix(hash, lastHash, entries[i..])
        invariant buffer == LastOf(entries[..i], maxlen) && messageCount == i
        invariant lastHash == HashAfter("", entries[..i])
      {
        var entry := entries[i];
        RestoreOne(hash, lastHash, entries, i);
        PushLast(entries, maxlen, i);
        var computed := Link(hash, lastHash, entry.body);
        if computed != entry.stateHash {
          break;
        }
        PushEntry(entry);
        lastHash := computed;
        messageCount := messageCount + 1;
        i := i + 1;
      }
      RestoreDone(hash, lastHash, entries, i);
      assert ChainPrefix(hash, "", entries) == entries[..i];
      CreateCheckpoint(Recovery);
    }

    method VerifyStateIntegrity() returns (valid: bool, verified: nat)
      ensures (valid, verified) == Verify(hash, buffer)
    {
      if |buffer| == 0 {
        return true, 0;
      }
      var prevHash := "";
      verified := 0;
      assert buffer[0..] == buffer;
      while verified < |buffer|
        invariant 0 <= verified <= |buffer|
        invariant |ChainPrefix(hash, "", buffer)| == verified + |ChainPrefix(hash, prevHash, buffer[verified..])|
      {
        var entry := buffer[verified];
        assert buffer[verified..][1..] == buffer[verified + 1..];
        if Link(hash, prevHash, entry.body) != entry.stateHash {
          return false, verified;
        }
        prevHash := entry.stateHash;
        verified := verified + 1;
      }
      return true, verified;
    }
  }

  // --- The loops, one turn at a time ---

  lemma FlushNone(table: map<string, Entry>, b: seq<Entry>, reason: FlushReason)
    ensures InsertAll(table, b[..0], reason) == table && MarkAll(b, reason)[..0] == []
  {}

  lemma FlushOne(table: map<string, Entry>, b: seq<Entry>, reason: FlushReason, i: nat)
    requires i < |b|
    ensures MarkAll(b, reason)[..i + 1] == MarkAll(b, reason)[..i] + [Mark(b[i], reason)]
    ensures
      var t := InsertAll(table, b[..i], reason);
      InsertAll(table, b[..i + 1], reason) == if b[i].flushReason.None? then t[b[i].id := Mark(b[i], reason)] else t
  {
    assert b[..i + 1][..i] == b[..i];
  }

  lemma FlushDone(table: map<string, Entry>, b: seq<Entry>, reason: FlushReason)
    ensures InsertAll(table, b[..|b|], reason) == InsertAll(table, b, reason)
    ensures MarkAll(b, reason)[..|b|] == MarkAll(b, reason)
  {
    assert b[..|b|] == b;
  }

  lemma RestoreNone(h: HashFunction, entries: seq<Entry>, maxlen: nat)
    ensures ChainPrefix(h, "", entries) == entries[..0] + ChainPrefix(h, "", entries[0..])
    ensures LastOf(entries[..0], maxlen) == [] && HashAfter("", entries[..0]) == ""
  {}

  lemma RestoreOne(h: HashFunction, prev: string, entries: seq<Entry>, i: nat)
    requires i < |entries|
    ensures
      var e := entries[i];
      if Link(h, prev, e.body) == e.stateHash then
        entries[..i] + ChainPrefix(h, prev, entries[i..]) == entries[..i + 1] + ChainPrefix(h, e.stateHash, entries[i + 1..])
      else ChainPrefix(h, prev, entries[i..]) == []
    ensures HashAfter("", entries[..i + 1]) == entries[i].stateHash
  {
    assert entries[i..][1..] == entries[i + 1..];
  }

  lemma PushLast(entries: seq<Entry>, maxlen: nat, i: nat)
    requires i < |entries|
    ensures Push(LastOf(entries[..i], maxlen), entries[i], maxlen) == LastOf(entries[..i + 1], maxlen)
  {
    assert entries[..i + 1] == entries[..i] + [entries[i]];
  }

  lemma RestoreDone(h: HashFunction, prev: string, entries: seq<Entry>, i: nat)
    requires i <= |entries|
    ensures i == |entries| ==> ChainPrefix(h, prev, entries[i..]) == []
    ensures entries[..i] + [] == entries[..i]
  {}
}
