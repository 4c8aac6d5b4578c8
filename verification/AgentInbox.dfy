/** The inbox object: its fields, its methods, and the store it writes to. Each method is one
    stretch of protocol steps, and leaves the state those steps lead to. */
module AgentInboxObject {
  import opened Conversation
  import opened Options
  import opened Inbox
  import opened InboxRecovery
  import opened InboxProtocol
  import opened InboxTheorems

  /** What `close` returns: the unread messages, or the failure of a slice that starts before the
      first pending message. */
  datatype CloseResult = Unread(texts: seq<string>) | OutOfRange

  datatype DeliverResult = Accepted | Finished | Full | NotRecorded

  // ---- checkpointDelivered as protocol steps ----

  ghost function Acknowledgements(m: Memory, n: nat): seq<Event>
    requires n <= |m.pending| == |m.ids|
  {
    seq(n, i requires 0 <= i < n => Delivered(m.pending[i], m.ids[i]))
  }

  /** In the middle of a checkpoint: the rows are written and `n` messages acknowledged. */
  ghost function Midway(s: State, messages: seq<Message>, ids: seq<nat>, n: nat): State
    requires Enabled(s, Write(messages, ids)) && n <= |ids| && |s.memory.value.ids| == |s.memory.value.pending|
  {
    var w := Apply(s, Write(messages, ids));
    w.(events := w.events + Acknowledgements(s.memory.value, n),
       memory := Some(w.memory.value.(mode := Writing(|ids|, n))))
  }

  /** The whole checkpoint when the store accepts its first `writes` writes and no more: the
      transcript rows are one write, every acknowledgement another. */
  ghost function AfterCheckpoint(s: State, messages: seq<Message>, ids: seq<nat>, writes: nat): State
    requires Enabled(s, Write(messages, ids)) && |s.memory.value.ids| == |s.memory.value.pending|
  {
    if writes == 0 then Apply(s, WriteFails)
    else if writes <= |ids| then Apply(Midway(s, messages, ids, writes - 1), AcknowledgeFails)
    else Apply(Midway(s, messages, ids, |ids|), Checkpointed)
  }

  lemma MidwayStep(s: State, messages: seq<Message>, ids: seq<nat>, n: nat)
    requires Enabled(s, Write(messages, ids)) && n < |ids| && |s.memory.value.ids| == |s.memory.value.pending|
    ensures Enabled(Midway(s, messages, ids, n), Step.Acknowledge)
    ensures Apply(Midway(s, messages, ids, n), Step.Acknowledge) == Midway(s, messages, ids, n + 1)
  {
    var m := s.memory.value;
    assert Acknowledgements(m, n + 1) == Acknowledgements(m, n) + [Delivered(m.pending[n], m.ids[n])];
    assert s.events + Acknowledgements(m, n) + [Delivered(m.pending[n], m.ids[n])]
        == s.events + Acknowledgements(m, n + 1);
  }

  lemma MidwayStart(s: State, messages: seq<Message>, ids: seq<nat>)
    requires Enabled(s, Write(messages, ids)) && |s.memory.value.ids| == |s.memory.value.pending|
    ensures Midway(s, messages, ids, 0) == Apply(s, Write(messages, ids))
  {
    assert s.events + Acknowledgements(s.memory.value, 0) == s.events;
  }

  lemma {:induction false} MidwayIsReached(run: Run, messages: seq<Message>, ids: seq<nat>, n: nat) returns (run': Run)
    requires Valid(run) && Enabled(run.s, Write(messages, ids)) && n <= |ids|
    requires |run.s.memory.value.ids| == |run.s.memory.value.pending|
    ensures Valid(run') && run'.s == Midway(run.s, messages, ids, n)
  {
    if n == 0 {
      MidwayStart(run.s, messages, ids);
      run' := Do(run, Write(messages, ids));
    } else {
      var before := MidwayIsReached(run, messages, ids, n - 1);
      MidwayStep(run.s, messages, ids, n - 1);
      run' := Do(before, Step.Acknowledge);
    }
  }

  /** However many writes succeed, a checkpoint is a stretch of a protocol history. */
  lemma CheckpointIsAHistory(run: Run, messages: seq<Message>, ids: seq<nat>, writes: nat) returns (run': Run)
    requires Valid(run) && Enabled(run.s, Write(messages, ids))
    requires |run.s.memory.value.ids| == |run.s.memory.value.pending|
    ensures Valid(run') && run'.s == AfterCheckpoint(run.s, messages, ids, writes)
  {
    if writes == 0 {
      run' := Do(run, WriteFails);
    } else if writes <= |ids| {
      var mid := MidwayIsReached(run, messages, ids, writes - 1);
      run' := Do(mid, AcknowledgeFails);
    } else {
      var mid := MidwayIsReached(run, messages, ids, |ids|);
      run' := Do(mid, Checkpointed);
    }
  }

  class AgentInbox {
    const capacity: nat
    var queue: seq<string>
    var closed: bool
    var pending: seq<string>
    var pendingIds: seq<Option<AcceptanceId>>
    var arrived: nat            // generation of the channel replaced on every acceptance

    // The store behind the sink.
    var events: seq<Event>
    var rows: seq<Row>
    var clock: nat

    // What the protocol remembers besides.
    ghost var origins: seq<Option<nat>>
    ghost var slots: seq<nat>
    ghost var mode: Mode
    ghost var exact: bool

    ghost function Value(): State
      reads this
    {
      State(events, Transcript(rows, origins), clock, capacity,
            Some(Memory(queue, pending, pendingIds, slots, mode)), exact)
    }

    ghost predicate Consistent()
      reads this
    {
      |pending| == |pendingIds| == |slots| && |rows| == |origins| && (closed <==> IsClosed(mode)) && !mode.Writing?
    }

    constructor (capacity: nat)
      ensures Initial(Value()) && Consistent() && !closed && Value().capacity == capacity && Value().clock == 0
    {
      this.capacity := capacity;
      queue, closed, pending, pendingIds, arrived := [], false, [], [], 0;
      events, rows, clock := [], [], 0;
      origins, slots, mode, exact := [], [], Running, true;
    }

    /** The record, and then the message in the queue and among the pending ones. */
    method Enqueue(text: string, id: AcceptanceId)
      requires Consistent() && !closed && Enabled(Value(), Accept(text, id))
      modifies this
      ensures Consistent() && Value() == Apply(old(Value()), Accept(text, id)) && arrived == old(arrived) + 1
    {
      ghost var slot := QueuedCount(events);
      events := events + [Queued(text, Some(id), clock)];
      queue := queue + [text];
      pending := pending + [text];
      pendingIds := pendingIds + [Some(id)];
      slots := slots + [slot];
      arrived := arrived + 1;
    }

    /** Accept one message. The record comes first; the id is the one just drawn. */
    method Deliver(text: string, id: AcceptanceId, storeAccepts: bool) returns (r: DeliverResult)
      requires Consistent()
      requires !closed && |queue| < capacity ==> Enabled(Value(), Accept(text, id))
      modifies this
      ensures Consistent()
      ensures r == if old(closed) then Finished else if |old(queue)| >= capacity then Full
                   else if storeAccepts then Accepted else NotRecorded
      ensures r.Accepted? ==> Value() == Apply(old(Value()), Accept(text, id)) && arrived == old(arrived) + 1
      ensures !r.Accepted? ==> Value() == old(Value()) && arrived == old(arrived) && closed == old(closed)
    {
      if closed {
        return Finished;
      }
      if |queue| >= capacity {
        return Full;
      }
      if !storeAccepts {
        return NotRecorded;
      }
      Enqueue(text, id);
      r := Accepted;
    }

    /** One transaction: a user row for each delivered message. */
    method PersistMessages(ghost messages: seq<Message>, ids: seq<nat>)
      requires Consistent() && mode.Running? && Enabled(Value(), Write(messages, ids))
      modifies this
      ensures Value() == Midway(old(Value()), messages, ids, 0)
      ensures |rows| == |origins| && closed == old(closed)
    {
      MidwayStart(Value(), messages, ids);
      var count := |ids|;
      var delivered, now := pending[..count], clock;
      rows := rows + seq(count, i requires 0 <= i < count => Row(ids[i], User, delivered[i], now));
      ghost var written := slots[..count];
      origins := origins + seq(count, i requires 0 <= i < count => Some(written[i]));
      exact := exact && count <= |pending| - |queue|;
      mode := Writing(count, 0);
      assert Value().transcript == old(Apply(Value(), Write(messages, ids))).transcript;
    }

    /** One acknowledgement in the event log. */
    method EmitDelivered(index: nat)
      requires Enabled(Value(), Step.Acknowledge) && mode.acked == index
      modifies this
      ensures Value() == Apply(old(Value()), Step.Acknowledge) && |rows| == old(|rows|) && closed == old(closed)
    {
      events := events + [Delivered(pending[index], pendingIds[index])];
      mode := Writing(mode.count, index + 1);
    }

    method DropDelivered(count: nat)
      requires Enabled(Value(), Checkpointed) && mode.count == count
      modifies this
      ensures Value() == Apply(old(Value()), Checkpointed) && |rows| == old(|rows|) && closed == old(closed)
    {
      pending := pending[count..];
      pendingIds := pendingIds[count..];
      slots := slots[count..];
      mode := Running;
    }

    /** Acknowledge the written messages one by one while the store accepts `writes` events. */
    method AcknowledgeAll(ghost start: State, ghost messages: seq<Message>, ids: seq<nat>, writes: nat)
      returns (ok: bool)
      requires Enabled(start, Write(messages, ids)) && |start.memory.value.ids| == |start.memory.value.pending|
      requires Value() == Midway(start, messages, ids, 0) && |rows| == |origins| && !closed
      modifies this
      ensures ok == (writes >= |ids|) && |rows| == |origins| && !closed
      ensures Value() == if ok then Midway(start, messages, ids, |ids|)
                         else Apply(Midway(start, messages, ids, writes), AcknowledgeFails)
    {
      for index := 0 to |ids|
        invariant Value() == Midway(start, messages, ids, index) && index <= writes
        invariant |rows| == |origins| && !closed
      {
        if index >= writes {
          mode := Aborted(|ids|, index);
          return false;
        }
        MidwayStep(start, messages, ids, index);
        EmitDelivered(index);
      }
      ok := true;
    }

    /** The rows, and one acknowledgement each while the store accepts `acknowledged` more events. */
    method RecordDelivered(count: nat, ghost messages: seq<Message>, ids: seq<nat>, acknowledged: nat)
      returns (ok: bool)
      requires Consistent() && mode.Running? && Enabled(Value(), Write(messages, ids)) && count == |ids|
      modifies this
      ensures Consistent() && ok == (acknowledged >= |ids|)
      ensures Value() == AfterCheckpoint(old(Value()), messages, ids, acknowledged + 1)
    {
      ghost var start := Value();
      PersistMessages(messages, ids);
      ok := AcknowledgeAll(start, messages, ids, acknowledged);
      if ok {
        DropDelivered(count);
      }
    }

    /** Record what a round just took: rows first, then one acknowledgement each. */
    method CheckpointDelivered(messages: seq<Message>, ids: seq<nat>, writes: nat) returns (ok: bool)
      requires Consistent() && mode.Running?
      requires DeliveredCount(messages, pending, |pending|) > 0 ==> Enabled(Value(), Write(messages, ids))
      modifies this
      ensures Consistent()
      ensures DeliveredCount(messages, old(pending), |old(pending)|) == 0 ==> ok && Value() == old(Value())
      ensures DeliveredCount(messages, old(pending), |old(pending)|) > 0 ==>
                && ok == (writes > |ids|)
                && Value() == AfterCheckpoint(old(Value()), messages, ids, writes)
    {
      var count := DeliveredInboxCount(messages, pending);
      if count == 0 {
        return true;
      }
      if writes == 0 {
        mode := Aborted(0, 0);
        return false;
      }
      ok := RecordDelivered(count, messages, ids, writes - 1);
    }

    /** A round takes the whole queue. */
    method Drain() returns (taken: seq<string>)
      requires Consistent() && mode.Running?
      modifies this
      ensures Consistent() && Value() == Apply(old(Value()), Take)
      ensures taken == old(queue) && queue == []
      ensures pending == old(pending) && pendingIds == old(pendingIds) && events == old(events) && rows == old(rows)
    {
      taken := queue;
      queue := [];
    }

    /** Refuse later messages, and return the accepted ones no round has taken. A queue longer
        than the pending messages makes the slice fail, with the inbox closed already. */
    method Close() returns (r: CloseResult)
      requires Consistent()
      modifies this
      ensures Consistent() && closed
      ensures !old(closed) ==> Value() == Apply(old(Value()), Step.Close)
      ensures old(closed) ==> Value() == old(Value())
      ensures r.OutOfRange? <==> Taken(old(Value()).memory.value) < 0
      ensures r.Unread? ==> r.texts == old(pending)[Taken(old(Value()).memory.value)..]
    {
      mode := if closed then mode else if |pending| < |queue| then Broken else Ending(|pending| - |queue|);
      closed := true;
      var count := |queue|;
      if count == 0 {
        return Unread([]);
      }
      if count > |pending| {
        return OutOfRange;
      }
      r := Unread(pending[|pending| - count..]);
    }

    /** The ids of those messages, in the same order. */
    method UnreadAcceptanceIds() returns (ids: seq<Option<AcceptanceId>>)
      requires Consistent()
      ensures ids == if |queue| > |pendingIds| then [] else pendingIds[Taken(Value().memory.value)..]
    {
      var unread := |queue|;
      if unread > |pendingIds| {
        return [];
      }
      ids := pendingIds[|pendingIds| - unread..];
    }
  }
}
