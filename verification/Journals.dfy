/** The bounded journals of chain events and of disconnected blocks. Each keeps, as a ghost field,
    the unbounded log it stands for. */
module Journals {
  import opened Types
  import opened Codec

  datatype ChainEvent =
    | BlockConnected(height: nat, hash: Hash, txCount: nat)
    | BlockDisconnected(height: nat, hash: Hash)
    | ChainReorg(depth: nat, oldTip: Hash, newTip: Hash)
    | OrphanAdded(hash: Hash, poolSize: nat)
    | OrphanEvicted(hash: Hash)

  // ---- bounded logs ----

  /** How many items of a log of this length a journal of this capacity has dropped. */
  function Dropped(length: nat, capacity: nat): nat {
    if length <= capacity then 0 else length - capacity
  }

  datatype CursorError = CursorError(cursorSeq: nat, oldestAvailable: nat)

  /** What a consumer that has seen the first `cursor` events gets from a log: all later events, or an
      error if one of them was dropped. */
  function Collected(log: seq<ChainEvent>, capacity: nat, cursor: nat): Result<seq<ChainEvent>, CursorError> {
    if cursor < Dropped(|log|, capacity) then Err(CursorError(cursor, Dropped(|log|, capacity) + 1))
    else Ok(if cursor <= |log| then log[cursor..] else [])
  }

  /** A collect fails exactly if an event after the cursor is no longer among the last `capacity` ones. */
  lemma CollectFailsExactly(log: seq<ChainEvent>, capacity: nat, cursor: nat)
    ensures Collected(log, capacity, cursor).Err? <==> cursor < |log| - capacity
    ensures cursor <= |log| && Collected(log, capacity, cursor).Ok? ==>
      Collected(log, capacity, cursor).value == log[cursor..]
  {
  }

  function Advanced(log: seq<ChainEvent>, cursor: nat): nat {
    if cursor <= |log| then |log| else cursor
  }

  /** A consumer whose collects all succeed sees every event once and in order. */
  lemma CollectsConcatenate(log: seq<ChainEvent>, more: seq<ChainEvent>, capacity: nat, cursor: nat)
    requires cursor <= |log|
    requires Collected(log, capacity, cursor).Ok?
    requires Collected(log + more, capacity, Advanced(log, cursor)).Ok?
    ensures Collected(log, capacity, cursor).value + Collected(log + more, capacity, Advanced(log, cursor)).value
      == (log + more)[cursor..]
  {
    assert (log + more)[cursor..] == log[cursor..] + more;
    assert (log + more)[|log|..] == more;
  }

  // ---- the event journal ----

  datatype EventEntry = EventEntry(seqNo: nat, event: ChainEvent)

  class ChainEventJournal {
    var nextSeq: nat
    var entries: seq<EventEntry>
    const capacity: nat
    var walletHighWater: nat
    ghost var log: seq<ChainEvent>

    /** The entries are the last events of the log, numbered by their position in it from one. */
    ghost predicate Valid()
      reads this
    {
      && capacity > 0
      && nextSeq == |log| + 1
      && |entries| == |log| - Dropped(|log|, capacity)
      && (forall i | 0 <= i < |entries| ::
            var position := Dropped(|log|, capacity) + i;
            entries[i] == EventEntry(position + 1, log[position]))
      && walletHighWater <= |log|
    }

    /** The journal holds the last events of the log, as many as fit, numbered by their position from one. */
    lemma HoldsNewest(i: nat)
      requires Valid()
      ensures |entries| == if |log| < capacity then |log| else capacity
      ensures i < |entries| ==>
        entries[i].seqNo == |log| - |entries| + i + 1 && entries[i].event == log[entries[i].seqNo - 1]
    {
    }

    constructor (capacity: nat)
      ensures Valid() && log == [] && this.capacity == if capacity == 0 then 1 else capacity
      ensures walletHighWater == 0
    {
      this.capacity := if capacity == 0 then 1 else capacity;
      nextSeq, entries, walletHighWater, log := 1, [], 0, [];
    }

    method Push(event: ChainEvent) returns (seqNo: nat)
      requires Valid()
      modifies this`nextSeq, this`entries, this`log
      ensures Valid() && log == old(log) + [event] && seqNo == |log|
    {
      seqNo := nextSeq;
      nextSeq := nextSeq + 1;
      if |entries| >= capacity {
        entries := entries[1..];
      }
      entries := entries + [EventEntry(seqNo, event)];
      log := log + [event];
    }

    /** The events of the entries numbered above a cursor, which must not lie before a dropped one. */
    method EventsAfter(cursor: nat) returns (events: seq<ChainEvent>)
      requires Valid() && cursor >= Dropped(|log|, capacity)
      ensures events == if cursor <= |log| then log[cursor..] else []
    {
      events := [];
      for i := 0 to |entries|
        invariant var position := Dropped(|log|, capacity) + i;
          events == if cursor <= position then log[cursor..position] else []
      {
        if entries[i].seqNo > cursor {
          events := events + [entries[i].event];
        }
      }
    }

    /** The oldest retained sequence number, if a consumer at this cursor has missed an event. */
    method LagAt(cursor: nat) returns (oldest: Option<nat>)
      requires Valid()
      ensures oldest == if cursor < Dropped(|log|, capacity) then Some(Dropped(|log|, capacity) + 1) else None
    {
      if |entries| > 0 && cursor + 1 < entries[0].seqNo {
        return Some(entries[0].seqNo);
      }
      oldest := None;
    }

    method CollectEvents(cursor: nat) returns (r: Result<seq<ChainEvent>, CursorError>, advanced: nat)
      requires Valid()
      ensures r == Collected(log, capacity, cursor)
      ensures advanced == if r.Ok? then Advanced(log, cursor) else cursor
    {
      var lag := LagAt(cursor);
      if lag.Some? {
        return Err(CursorError(cursor, lag.value)), cursor;
      }
      var events := EventsAfter(cursor);
      advanced := if |entries| > 0 && entries[|entries| - 1].seqNo > cursor then entries[|entries| - 1].seqNo else cursor;
      r := Ok(events);
    }

    method TakeEvents() returns (r: Result<seq<ChainEvent>, CursorError>)
      requires Valid()
      modifies this`walletHighWater
      ensures Valid()
      ensures r == Collected(log, capacity, old(walletHighWater))
      ensures walletHighWater == if r.Ok? then |log| else old(walletHighWater)
    {
      var lag := LagAt(walletHighWater);
      if lag.Some? {
        return Err(CursorError(walletHighWater, lag.value));
      }
      var events := EventsAfter(walletHighWater);
      if |entries| > 0 {
        walletHighWater := entries[|entries| - 1].seqNo;
      }
      r := Ok(events);
    }
  }

  // ---- the journal of disconnected blocks ----

  datatype BlockEntry = BlockEntry(eventSeq: nat, block: Block)

  datatype RecoveryError = RecoveryError(cursorSeq: nat, oldestAvailable: nat)

  ghost predicate Increasing(entries: seq<BlockEntry>) {
    forall i, j | 0 <= i < j < |entries| :: entries[i].eventSeq < entries[j].eventSeq
  }

  function BlocksAfter(entries: seq<BlockEntry>, since: nat): seq<Block> {
    if entries == [] then []
    else (if entries[0].eventSeq > since then [entries[0].block] else []) + BlocksAfter(entries[1..], since)
  }

  lemma BlocksAfterStep(entries: seq<BlockEntry>, i: nat, since: nat)
    requires i < |entries|
    ensures BlocksAfter(entries[i..], since) ==
      if entries[i].eventSeq > since then [entries[i].block] + BlocksAfter(entries[i + 1..], since)
      else BlocksAfter(entries[i + 1..], since)
  {
    assert entries[i..][1..] == entries[i + 1..];
  }

  lemma BlocksAfterNothing(since: nat)
    ensures BlocksAfter([], since) == []
  {
  }

  /** Recorded in order, the blocks after a cursor are those of the entries from some position on. */
  lemma {:induction false} BlocksAfterAre(entries: seq<BlockEntry>, since: nat, n: nat)
    requires Increasing(entries) && n <= |entries|
    requires forall i | 0 <= i < n :: entries[i].eventSeq <= since
    requires n < |entries| ==> entries[n].eventSeq > since
    ensures |BlocksAfter(entries, since)| == |entries| - n
    ensures forall i | 0 <= i < |entries| - n :: BlocksAfter(entries, since)[i] == entries[n + i].block
    decreases |entries|
  {
    if entries != [] {
      BlocksAfterAre(entries[1..], since, if n > 0 then n - 1 else 0);
    }
  }

  function Recovered(log: seq<BlockEntry>, capacity: nat, since: nat): Result<seq<Block>, RecoveryError> {
    var retained := log[Dropped(|log|, capacity)..];
    if retained != [] && since + 1 < retained[0].eventSeq then Err(RecoveryError(since, retained[0].eventSeq))
    else Ok(BlocksAfter(retained, since))
  }

  lemma {:induction false} BlocksAfterConcat(a: seq<BlockEntry>, b: seq<BlockEntry>, since: nat)
    ensures BlocksAfter(a + b, since) == BlocksAfter(a, since) + BlocksAfter(b, since)
  {
    if a == [] {
      assert a + b == b;
    } else {
      assert (a + b)[1..] == a[1..] + b;
      BlocksAfterConcat(a[1..], b, since);
    }
  }

  lemma {:induction false} NoBlocksAfter(entries: seq<BlockEntry>, since: nat)
    requires forall i | 0 <= i < |entries| :: entries[i].eventSeq <= since
    ensures BlocksAfter(entries, since) == []
  {
    if entries != [] {
      NoBlocksAfter(entries[1..], since);
    }
  }

  /** A successful recovery is complete: it returns every block ever recorded after the cursor. */
  lemma RecoveryIsComplete(log: seq<BlockEntry>, capacity: nat, since: nat)
    requires capacity > 0 && Increasing(log)
    requires Recovered(log, capacity, since).Ok?
    ensures Recovered(log, capacity, since).value == BlocksAfter(log, since)
  {
    var d := Dropped(|log|, capacity);
    assert log == log[..d] + log[d..];
    BlocksAfterConcat(log[..d], log[d..], since);
    NoBlocksAfter(log[..d], since);
  }

  /** A failed recovery need not have lost anything: a cursor well before the only block ever
      recorded is refused although that block is retained. */
  lemma RefusedThoughComplete(block: Block)
    ensures var log := [BlockEntry(5, block)];
      Recovered(log, 256, 2) == Err(RecoveryError(2, 5)) && BlocksAfter(log[Dropped(1, 256)..], 2) == BlocksAfter(log, 2)
  {
  }

  /** Dropping the first d entries loses none after the cursor exactly if the last dropped one is not
      after it. */
  lemma DroppedNothingIff(log: seq<BlockEntry>, d: nat, since: nat)
    requires Increasing(log) && d <= |log|
    ensures BlocksAfter(log[d..], since) == BlocksAfter(log, since) <==> d == 0 || log[d - 1].eventSeq <= since
  {
    assert log == log[..d] + log[d..];
    BlocksAfterConcat(log[..d], log[d..], since);
    if d == 0 || log[d - 1].eventSeq <= since {
      NoBlocksAfter(log[..d], since);
    } else {
      hide Increasing;
      var last := [log[d - 1]];
      assert log[..d] == log[..d - 1] + last;
      BlocksAfterConcat(log[..d - 1], last, since);
      assert |BlocksAfter(last, since)| == 1;
    }
  }

  /** Recovery is refused while the answer is retained exactly when the oldest retained event lies
      beyond the cursor's successor and the newest dropped one, if any, not beyond the cursor. */
  lemma RefusalExact(log: seq<BlockEntry>, capacity: nat, since: nat)
    requires capacity > 0 && Increasing(log)
    ensures var d := Dropped(|log|, capacity);
      (Recovered(log, capacity, since).Err? && BlocksAfter(log[d..], since) == BlocksAfter(log, since)) <==>
        (d < |log| && since + 1 < log[d].eventSeq && (d > 0 ==> log[d - 1].eventSeq <= since))
  {
    hide BlocksAfter, Increasing;
    DroppedNothingIff(log, Dropped(|log|, capacity), since);
  }

  /** The disconnect events of an event log with their sequence numbers, in order: position for
      position the recorded blocks. */
  ghost predicate RecordsDisconnects(log: seq<ChainEvent>, recorded: seq<BlockEntry>) {
    && Increasing(recorded)
    && (forall i | 0 <= i < |recorded| :: IsDisconnectOf(log, recorded[i]))
    && (forall p | 0 <= p < |log| && log[p].BlockDisconnected? :: HasRecord(recorded, p + 1))
  }

  ghost predicate IsDisconnectOf(log: seq<ChainEvent>, entry: BlockEntry) {
    && 0 < entry.eventSeq <= |log|
    && log[entry.eventSeq - 1].BlockDisconnected?
    && log[entry.eventSeq - 1].hash == BlockHash(entry.block)
  }

  ghost predicate HasRecord(recorded: seq<BlockEntry>, eventSeq: nat) {
    exists i | 0 <= i < |recorded| :: recorded[i].eventSeq == eventSeq
  }

  lemma {:induction false} IncreasingSpread(recorded: seq<BlockEntry>, i: nat, j: nat)
    requires Increasing(recorded) && i <= j < |recorded|
    ensures recorded[j].eventSeq - recorded[i].eventSeq >= j - i
  {
    if i < j {
      IncreasingSpread(recorded, i, j - 1);
    }
  }

  lemma RetainedIndex(log: seq<ChainEvent>, recorded: seq<BlockEntry>, capacity: nat, p: nat, i: nat)
    requires RecordsDisconnects(log, recorded)
    requires Dropped(|log|, capacity) <= p < |log|
    requires i < |recorded| && recorded[i].eventSeq == p + 1
    ensures Dropped(|recorded|, capacity) <= i
  {
    hide BlockHash;
    IncreasingSpread(recorded, i, |recorded| - 1);
    assert IsDisconnectOf(log, recorded[|recorded| - 1]);
  }

  /** With equal capacities every disconnect event still in the event journal has its block. */
  lemma RetainedDisconnectsHaveBlocks(log: seq<ChainEvent>, recorded: seq<BlockEntry>, capacity: nat, p: nat)
      returns (i: nat)
    requires RecordsDisconnects(log, recorded)
    requires Dropped(|log|, capacity) <= p < |log| && log[p].BlockDisconnected?
    ensures Dropped(|recorded|, capacity) <= i < |recorded|
    ensures recorded[i].eventSeq == p + 1 && BlockHash(recorded[i].block) == log[p].hash
  {
    hide BlockHash;
    assert HasRecord(recorded, p + 1);
    i :| 0 <= i < |recorded| && recorded[i].eventSeq == p + 1;
    assert IsDisconnectOf(log, recorded[i]);
    RetainedIndex(log, recorded, capacity, p, i);
  }

  class DisconnectedBlockJournal {
    var entries: seq<BlockEntry>
    const capacity: nat
    ghost var log: seq<BlockEntry>

    ghost predicate Valid()
      reads this
    {
      capacity > 0 && entries == log[Dropped(|log|, capacity)..]
    }

    constructor (capacity: nat)
      ensures Valid() && log == [] && this.capacity == if capacity == 0 then 1 else capacity
    {
      this.capacity := if capacity == 0 then 1 else capacity;
      entries, log := [], [];
    }

    method Record(eventSeq: nat, block: Block)
      requires Valid()
      modifies this
      ensures Valid() && log == old(log) + [BlockEntry(eventSeq, block)]
    {
      if |entries| >= capacity {
        entries := entries[1..];
      }
      entries := entries + [BlockEntry(eventSeq, block)];
      log := log + [BlockEntry(eventSeq, block)];
    }

    method BlocksSince(since: nat) returns (r: Result<seq<Block>, RecoveryError>)
      requires Valid()
      ensures r == Recovered(log, capacity, since)
      ensures Increasing(log) && r.Ok? ==> r.value == BlocksAfter(log, since)
    {
      hide Increasing, BlocksAfter;
      if Increasing(log) && Recovered(log, capacity, since).Ok? {
        RecoveryIsComplete(log, capacity, since);
      }
      if |entries| > 0 && since + 1 < entries[0].eventSeq {
        return Err(RecoveryError(since, entries[0].eventSeq));
      }
      var blocks: seq<Block> := [];
      assert entries[0..] == entries;
      for i := 0 to |entries|
        invariant blocks + BlocksAfter(entries[i..], since) == BlocksAfter(entries, since)
      {
        BlocksAfterStep(entries, i, since);
        if entries[i].eventSeq > since {
          assert blocks + ([entries[i].block] + BlocksAfter(entries[i + 1..], since)) ==
            blocks + [entries[i].block] + BlocksAfter(entries[i + 1..], since);
          blocks := blocks + [entries[i].block];
        }
      }
      assert entries[|entries|..] == [];
      BlocksAfterNothing(since);
      assert blocks + [] == blocks;
      r := Ok(blocks);
    }
  }
}
