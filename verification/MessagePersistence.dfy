/**
  Which messages reach the database: over runs without a restore, all of them if and only if the
  buffer never has to hold more new messages than it can between two flushes.
 */
module MessagePersistence {
  import opened Wrappers
  import opened SessionBuffer

  // --- What a run has appended and flushed ---

  /** All messages appended so far, as they went into the buffer. */
  function History(h: HashFunction, maxlen: nat, events: seq<Event>): seq<Entry> {
    if |events| == 0 then []
    else
      var prev, e := events[..|events| - 1], events[|events| - 1];
      var hist := History(h, maxlen, prev);
      if e.Message? then hist + [Entry(e.id, e.body, Link(h, Run(h, maxlen, prev).lastHash, e.body), None)] else hist
  }

  /** How many of them came before the last flush. */
  function FlushedUpTo(h: HashFunction, maxlen: nat, events: seq<Event>): nat {
    if |events| == 0 then 0
    else if events[|events| - 1].Flushing? then |History(h, maxlen, events)|
    else FlushedUpTo(h, maxlen, events[..|events| - 1])
  }

  /** Whether at some flush more messages were new than the buffer holds. */
  function Overrun(h: HashFunction, maxlen: nat, events: seq<Event>): bool {
    if |events| == 0 then false
    else
      var prev := events[..|events| - 1];
      || Overrun(h, maxlen, prev)
      || (events[|events| - 1].Flushing? && |History(h, maxlen, prev)| - FlushedUpTo(h, maxlen, prev) > maxlen)
  }

  ghost predicate NoRestore(events: seq<Event>) {
    forall i :: 0 <= i < |events| ==> !events[i].Restoring?
  }

  /** Message ids are random and taken to be all different. */
  ghost predicate DistinctIds(entries: seq<Entry>) {
    forall i, j :: 0 <= i < j < |entries| ==> entries[i].id != entries[j].id
  }

  function Unmarked(e: Entry): Entry {
    e.(flushReason := None)
  }

  /** Entry e of the history has its row, with its own content. */
  predicate Saved(table: map<string, Entry>, e: Entry) {
    e.id in table && Unmarked(table[e.id]) == e
  }

  // --- One flush ---

  /** The row a flush writes for a message id, if it writes one. */
  function RowFor(b: seq<Entry>, id: string, reason: FlushReason): Option<Entry> {
    if |b| == 0 then None
    else
      var e := b[|b| - 1];
      if e.id == id && e.flushReason.None? then Some(Mark(e, reason)) else RowFor(b[..|b| - 1], id, reason)
  }

  lemma {:induction false} InsertAllRow(table: map<string, Entry>, b: seq<Entry>, reason: FlushReason, id: string)
    ensures
      var t, row := InsertAll(table, b, reason), RowFor(b, id, reason);
      && (id in t <==> row.Some? || id in table)
      && (id in t ==> t[id] == if row.Some? then row.value else table[id])
  {
    if |b| == 0 {
    } else {
      InsertAllRow(table, b[..|b| - 1], reason, id);
    }
  }

  lemma {:induction false} RowForEntry(b: seq<Entry>, reason: FlushReason, i: nat)
    requires DistinctIds(b) && i < |b| && b[i].flushReason.None?
    ensures RowFor(b, b[i].id, reason) == Some(Mark(b[i], reason))
  {
    if i == |b| - 1 {
    } else {
      var init := b[..|b| - 1];
      assert DistinctIds(init) && init[i] == b[i];
      RowForEntry(init, reason, i);
      assert b[|b| - 1].id != b[i].id;
    }
  }

  lemma {:induction false} NoRowFor(b: seq<Entry>, id: string, reason: FlushReason)
    requires forall i :: 0 <= i < |b| && b[i].flushReason.None? ==> b[i].id != id
    ensures RowFor(b, id, reason).None?
  {
    if |b| == 0 {
    } else {
      NoRowFor(b[..|b| - 1], id, reason);
    }
  }

  lemma {:induction false} RowFromEntry(b: seq<Entry>, id: string, reason: FlushReason) returns (i: nat)
    requires RowFor(b, id, reason).Some?
    ensures i < |b| && b[i].flushReason.None? && b[i].id == id
  {
    var e := b[|b| - 1];
    if e.id == id && e.flushReason.None? {
      i := |b| - 1;
    } else {
      i := RowFromEntry(b[..|b| - 1], id, reason);
    }
  }

  // --- The invariant ---

  /** The buffer is the end of the history, and an entry of it is marked exactly when a flush has passed it. */
  ghost predicate BufferIsTail(maxlen: nat, buffer: seq<Entry>, hist: seq<Entry>, flushed: nat) {
    && |buffer| == (if |hist| < maxlen then |hist| else maxlen)
    && flushed <= |hist|
    && forall i {:trigger buffer[i]} :: 0 <= i < |buffer| ==>
         && Unmarked(buffer[i]) == hist[|hist| - |buffer| + i]
         && (buffer[i].flushReason.None? <==> |hist| - |buffer| + i >= flushed)
  }

  /** Rows belong to flushed messages, and some flushed message has none exactly after an overrun. */
  ghost predicate TableOk(table: map<string, Entry>, hist: seq<Entry>, flushed: nat, overrun: bool)
    requires flushed <= |hist|
  {
    && (forall id :: id in table ==> exists k :: 0 <= k < flushed && hist[k].id == id && Saved(table, hist[k]))
    && (!overrun <==> forall k :: 0 <= k < flushed ==> Saved(table, hist[k]))
  }

  ghost predicate Inv(maxlen: nat, s: Session, hist: seq<Entry>, flushed: nat, overrun: bool) {
    && DistinctIds(hist)
    && (forall k :: 0 <= k < |hist| ==> hist[k].flushReason.None?)
    && BufferIsTail(maxlen, s.buffer, hist, flushed)
    && TableOk(s.table, hist, flushed, overrun)
  }

  lemma PushKeepsTail(maxlen: nat, buffer: seq<Entry>, hist: seq<Entry>, flushed: nat, e: Entry)
    requires BufferIsTail(maxlen, buffer, hist, flushed) && e.flushReason.None?
    ensures BufferIsTail(maxlen, Push(buffer, e, maxlen), hist + [e], flushed)
  {
    hide BufferIsTail;
    TailFits(maxlen, buffer, hist, flushed);
    if |buffer| < maxlen {
      TailAppended(maxlen, buffer, hist, flushed, e);
    } else {
      TailShifted(maxlen, buffer, hist, flushed, e);
    }
  }

  lemma TailAppended(maxlen: nat, buffer: seq<Entry>, hist: seq<Entry>, flushed: nat, e: Entry)
    requires BufferIsTail(maxlen, buffer, hist, flushed) && e.flushReason.None? && |buffer| < maxlen
    ensures BufferIsTail(maxlen, buffer + [e], hist + [e], flushed)
  {
    var buffer', hist' := buffer + [e], hist + [e];
    forall i | 0 <= i < |buffer'|
      ensures Unmarked(buffer'[i]) == hist'[i]
      ensures buffer'[i].flushReason.None? <==> i >= flushed
    {
      if i < |buffer| {
        assert buffer'[i] == buffer[i] && Unmarked(buffer[i]) == hist[|hist| - |buffer| + i];
      } else {
        assert buffer'[i] == e;
      }
    }
    assert |hist'| - |buffer'| == 0;
  }

  lemma TailShifted(maxlen: nat, buffer: seq<Entry>, hist: seq<Entry>, flushed: nat, e: Entry)
    requires BufferIsTail(maxlen, buffer, hist, flushed) && e.flushReason.None? && |buffer| == maxlen
    ensures BufferIsTail(maxlen, (buffer + [e])[1..], hist + [e], flushed)
  {
    var shifted, hist', d := (buffer + [e])[1..], hist + [e], |hist| - |buffer|;
    forall i | 0 <= i < |shifted|
      ensures Unmarked(shifted[i]) == hist'[d + 1 + i]
      ensures shifted[i].flushReason.None? <==> d + 1 + i >= flushed
    {
      if i < |buffer| - 1 {
        assert shifted[i] == buffer[i + 1] && Unmarked(buffer[i + 1]) == hist[d + (i + 1)];
      } else {
        assert shifted[i] == e;
      }
    }
  }

  lemma NewMessageKeepsTable(table: map<string, Entry>, hist: seq<Entry>, flushed: nat, overrun: bool, e: Entry)
    requires flushed <= |hist| && TableOk(table, hist, flushed, overrun)
    ensures TableOk(table, hist + [e], flushed, overrun)
  {
    var hist' := hist + [e];
    assert forall k :: 0 <= k < flushed ==> hist'[k] == hist[k];
  }

  lemma MarkKeepsTail(maxlen: nat, buffer: seq<Entry>, hist: seq<Entry>, flushed: nat, reason: FlushReason)
    requires BufferIsTail(maxlen, buffer, hist, flushed)
    ensures BufferIsTail(maxlen, MarkAll(buffer, reason), hist, |hist|)
  {}

  lemma TailIdsDistinct(maxlen: nat, buffer: seq<Entry>, hist: seq<Entry>, flushed: nat)
    requires DistinctIds(hist) && BufferIsTail(maxlen, buffer, hist, flushed)
    ensures DistinctIds(buffer)
  {}

  /** After a flush a message of the history is saved if it was before, or if it is new and still in the buffer. */
  lemma SavedAfterFlush(maxlen: nat, s: Session, hist: seq<Entry>, flushed: nat, overrun: bool, reason: FlushReason, k: nat)
    requires Inv(maxlen, s, hist, flushed, overrun) && k < |hist|
    ensures
      var t := InsertAll(s.table, s.buffer, reason);
      Saved(t, hist[k]) <==> Saved(s.table, hist[k]) || (k >= flushed && k >= |hist| - |s.buffer|)
  {
    hide TableOk, InsertAll;
    var d, id := |hist| - |s.buffer|, hist[k].id;
    InsertAllRow(s.table, s.buffer, reason, id);
    if k >= flushed && k >= d {
      assert Unmarked(s.buffer[k - d]) == hist[d + (k - d)];
      TailIdsDistinct(maxlen, s.buffer, hist, flushed);
      RowForEntry(s.buffer, reason, k - d);
    } else {
      forall i | 0 <= i < |s.buffer| && s.buffer[i].flushReason.None?
        ensures s.buffer[i].id != id
      {
        assert Unmarked(s.buffer[i]) == hist[d + i] && d + i != k;
      }
      NoRowFor(s.buffer, id, reason);
    }
  }

  lemma UnflushedIsUnsaved(maxlen: nat, s: Session, hist: seq<Entry>, flushed: nat, overrun: bool, k: nat)
    requires Inv(maxlen, s, hist, flushed, overrun) && flushed <= k < |hist|
    ensures hist[k].id !in s.table
  {}

  /** Rows after a flush still belong to messages of the history. */
  lemma RowsAfterFlush(maxlen: nat, s: Session, hist: seq<Entry>, flushed: nat, overrun: bool, reason: FlushReason, id: string)
    returns (k: nat)
    requires Inv(maxlen, s, hist, flushed, overrun) && id in InsertAll(s.table, s.buffer, reason)
    ensures k < |hist| && hist[k].id == id && Saved(InsertAll(s.table, s.buffer, reason), hist[k])
  {
    hide InsertAll;
    var d := |hist| - |s.buffer|;
    InsertAllRow(s.table, s.buffer, reason, id);
    if RowFor(s.buffer, id, reason).Some? {
      var i := RowFromEntry(s.buffer, id, reason);
      assert Unmarked(s.buffer[i]) == hist[d + i];
      k := d + i;
    } else {
      k :| 0 <= k < flushed && hist[k].id == id && Saved(s.table, hist[k]);
    }
    SavedAfterFlush(maxlen, s, hist, flushed, overrun, reason, k);
  }

  lemma FlushKeepsTable(maxlen: nat, s: Session, hist: seq<Entry>, flushed: nat, overrun: bool, reason: FlushReason)
    requires Inv(maxlen, s, hist, flushed, overrun)
    ensures TableOk(InsertAll(s.table, s.buffer, reason), hist, |hist|, overrun || |hist| - flushed > maxlen)
  {
    hide InsertAll, Saved;
    var t, d := InsertAll(s.table, s.buffer, reason), |hist| - |s.buffer|;
    forall k | 0 <= k < |hist|
      ensures Saved(t, hist[k]) <==> Saved(s.table, hist[k]) || (k >= flushed && k >= d)
    {
      SavedAfterFlush(maxlen, s, hist, flushed, overrun, reason, k);
    }
    forall id | id in t
      ensures exists k :: 0 <= k < |hist| && hist[k].id == id && Saved(t, hist[k])
    {
      var k := RowsAfterFlush(maxlen, s, hist, flushed, overrun, reason, id);
    }
    if |hist| - flushed > maxlen {
      UnflushedIsUnsaved(maxlen, s, hist, flushed, overrun, flushed);
      NotSaved(s.table, hist[flushed]);
      assert !Saved(t, hist[flushed]);
    } else if overrun {
      var k :| 0 <= k < flushed && !Saved(s.table, hist[k]);
      assert !Saved(t, hist[k]);
    }
  }

  lemma NotSaved(table: map<string, Entry>, e: Entry)
    requires e.id !in table
    ensures !Saved(table, e)
  {}

  lemma NothingToFlush(buffer: seq<Entry>, table: map<string, Entry>, reason: FlushReason)
    requires !AnyUnflushed(buffer)
    ensures MarkAll(buffer, reason) == buffer && InsertAll(table, buffer, reason) == table
  {}

  lemma {:induction false} NoneInserted(table: map<string, Entry>, buffer: seq<Entry>, reason: FlushReason)
    requires !AnyUnflushed(buffer)
    ensures InsertAll(table, buffer, reason) == table
  {
    if |buffer| == 0 {
    } else {
      var init := buffer[..|buffer| - 1];
      assert forall i :: 0 <= i < |init| ==> init[i] == buffer[i];
      NoneInserted(table, init, reason);
    }
  }

  lemma MessageKeepsInv(h: HashFunction, maxlen: nat, s: Session, hist: seq<Entry>, flushed: nat, overrun: bool, id: string, body: Body)
    requires Inv(maxlen, s, hist, flushed, overrun)
    requires DistinctIds(hist + [Entry(id, body, Link(h, s.lastHash, body), None)])
    ensures
      var m := Entry(id, body, Link(h, s.lastHash, body), None);
      Inv(maxlen, Append(h, maxlen, s, id, body), hist + [m], flushed, overrun)
  {
    hide BufferIsTail, TableOk, DistinctIds;
    var m := Entry(id, body, Link(h, s.lastHash, body), None);
    TailFits(maxlen, s.buffer, hist, flushed);
    PushKeepsTail(maxlen, s.buffer, hist, flushed, m);
    NewMessageKeepsTable(s.table, hist, flushed, overrun, m);
  }

  lemma TailFits(maxlen: nat, buffer: seq<Entry>, hist: seq<Entry>, flushed: nat)
    requires BufferIsTail(maxlen, buffer, hist, flushed)
    ensures flushed <= |hist| && |buffer| <= maxlen
  {}

  lemma FlushKeepsInv(maxlen: nat, s: Session, hist: seq<Entry>, flushed: nat, overrun: bool, reason: FlushReason)
    requires Inv(maxlen, s, hist, flushed, overrun)
    ensures Inv(maxlen, Flush(s, reason), hist, |hist|, overrun || |hist| - flushed > maxlen)
  {
    hide BufferIsTail, TableOk, DistinctIds, InsertAll, MarkAll;
    MarkKeepsTail(maxlen, s.buffer, hist, flushed, reason);
    FlushKeepsTable(maxlen, s, hist, flushed, overrun, reason);
    if !AnyUnflushed(s.buffer) {
      NothingToFlush(s.buffer, s.table, reason);
    }
  }

  lemma {:induction false} RunInv(h: HashFunction, maxlen: nat, events: seq<Event>)
    requires NoRestore(events) && DistinctIds(History(h, maxlen, events))
    ensures Inv(maxlen, Run(h, maxlen, events), History(h, maxlen, events),
      FlushedUpTo(h, maxlen, events), Overrun(h, maxlen, events))
  {
    hide Inv, Append, Flush;
    if |events| == 0 {
      NothingYet(maxlen);
    } else {
      var prev, e := events[..|events| - 1], events[|events| - 1];
      var s, hist := Run(h, maxlen, prev), History(h, maxlen, prev);
      var flushed, overrun := FlushedUpTo(h, maxlen, prev), Overrun(h, maxlen, prev);
      DistinctInit(hist, History(h, maxlen, events));
      RunInv(h, maxlen, prev);
      if e.Message? {
        MessageKeepsInv(h, maxlen, s, hist, flushed, overrun, e.id, e.body);
      } else if e.Flushing? {
        FlushKeepsInv(maxlen, s, hist, flushed, overrun, e.reason);
      } else {
        SavingKeepsInv(maxlen, s, hist, flushed, overrun, e.kind);
      }
    }
  }

  lemma NothingYet(maxlen: nat)
    ensures Inv(maxlen, EMPTY, [], 0, false)
  {}

  lemma SavingKeepsInv(maxlen: nat, s: Session, hist: seq<Entry>, flushed: nat, overrun: bool, kind: CheckpointKind)
    requires Inv(maxlen, s, hist, flushed, overrun)
    ensures Inv(maxlen, SaveCheckpoint(s, kind), hist, flushed, overrun)
  {}

  lemma DistinctInit(hist: seq<Entry>, more: seq<Entry>)
    requires hist <= more && DistinctIds(more)
    ensures DistinctIds(hist)
  {}

  /**
    After a run without restores that ends in a flush, every message ever appended has its row,
    with its own content, if and only if no flush came too late; and no row belongs to anything else.
   */
  lemma AllSavedIffNoOverrun(h: HashFunction, maxlen: nat, events: seq<Event>)
    requires NoRestore(events) && DistinctIds(History(h, maxlen, events))
    requires |events| > 0 && events[|events| - 1].Flushing?
    ensures
      var table, hist := Run(h, maxlen, events).table, History(h, maxlen, events);
      && (!Overrun(h, maxlen, events) <==> forall k :: 0 <= k < |hist| ==> Saved(table, hist[k]))
      && (forall id :: id in table ==> exists k :: 0 <= k < |hist| && hist[k].id == id && Saved(table, hist[k]))
  {
    RunInv(h, maxlen, events);
  }

  /** A second flush changes no row, whatever its reason. */
  lemma FlushTwice(s: Session, r1: FlushReason, r2: FlushReason)
    ensures Flush(Flush(s, r1), r2).table == Flush(s, r1).table
  {
    var s' := Flush(s, r1);
    assert !AnyUnflushed(s'.buffer);
    NoneInserted(s'.table, s'.buffer, r2);
  }

  /** A row is as it was before a flush or carries the reason of this one. */
  lemma RowsRecordReason(s: Session, reason: FlushReason, id: string)
    requires id in Flush(s, reason).table
    ensures
      var row := Flush(s, reason).table[id];
      (id in s.table && row == s.table[id]) || (row.id == id && row.flushReason == Some(reason))
  {
    InsertAllRow(s.table, s.buffer, reason, id);
    if RowFor(s.buffer, id, reason).Some? {
      RowReason(s.buffer, id, reason);
    }
  }

  lemma {:induction false} RowReason(b: seq<Entry>, id: string, reason: FlushReason)
    requires RowFor(b, id, reason).Some?
    ensures RowFor(b, id, reason).value.id == id && RowFor(b, id, reason).value.flushReason == Some(reason)
  {
    if |b| > 0 && RowFor(b[..|b| - 1], id, reason).Some? {
      RowReason(b[..|b| - 1], id, reason);
    }
  }

  /** Without restores the message count is the number of messages ever appended. */
  lemma {:induction false} CountsMessages(h: HashFunction, maxlen: nat, events: seq<Event>)
    requires NoRestore(events)
    ensures Run(h, maxlen, events).messageCount == |History(h, maxlen, events)|
  {
    if |events| == 0 {
    } else {
      var prev := events[..|events| - 1];
      assert NoRestore(prev);
      CountsMessages(h, maxlen, prev);
      CountUnlessMessage(h, maxlen, Run(h, maxlen, prev), events[|events| - 1]);
    }
  }

  lemma CountUnlessMessage(h: HashFunction, maxlen: nat, s: Session, e: Event)
    requires !e.Restoring?
    ensures Step(h, maxlen, s, e).messageCount == s.messageCount + if e.Message? then 1 else 0
  {}
}
