/** Every step of the inbox keeps its invariant. */
module InboxSteps {
  import opened Conversation
  import opened Options
  import opened Inbox
  import opened InboxRecovery
  import opened InboxProtocol
  import opened InboxRanks

  // ---- every step keeps the invariant ----

  /** An acknowledgement finds the acceptance that carries its id, if it is still open. */
  lemma AcknowledgeById(events: seq<Event>, clock: nat, entries: seq<Entry>, k: nat)
    requires EntryInv(events, clock, entries) && k < |entries|
    ensures InboxRecovery.Acknowledge(entries, entries[k].text, entries[k].id)
         == if entries[k].acked then None else Some(entries[k := entries[k].(acked := true)])
  {
    var r := MatchingAcceptance(entries, entries[k].text, entries[k].id, 0);
    if r.Some? {
      assert Acknowledges(entries[r.value], entries[k].text, entries[k].id);
      assert r.value == k;
    } else {
      assert !Acknowledges(entries[k], entries[k].text, entries[k].id);
    }
  }

  lemma QueuedCountAppend(events: seq<Event>, event: Event)
    ensures QueuedCount(events + [event]) == QueuedCount(events) + if event.Queued? then 1 else 0
  {
    assert (events + [event])[..|events|] == events;
  }

  lemma WrittenIsAccepted(t: Transcript, clock: nat, entries: seq<Entry>, k: nat)
    requires RowInv(t, clock, entries) && Written(t, k)
    ensures k < |entries|
  {
    var r :| 0 <= r < |t.origins| && t.origins[r] == Some(k);
  }

  // -- the counts --

  /** Counts look at texts only. */
  lemma {:induction false} CountTextSame(entries: seq<Entry>, entries': seq<Entry>, n: nat, text: string)
    requires n <= |entries| && n <= |entries'| && forall i | 0 <= i < n :: entries[i].text == entries'[i].text
    ensures CountText(entries, n, text) == CountText(entries', n, text)
  {
    if n > 0 { CountTextSame(entries, entries', n - 1, text); }
  }

  lemma {:induction false} CountRowsPrefix(t: Transcript, rows: seq<Row>, origins: seq<Option<nat>>, n: nat,
                                           text: string)
    requires n <= |t.rows| == |t.origins| && |rows| == |origins|
    ensures CountRows(Append(t, rows, origins), n, text) == CountRows(t, n, text)
  {
    if n > 0 { CountRowsPrefix(t, rows, origins, n - 1, text); }
  }

  /** The memory's ranks only depend on the rows of each text and the texts accepted. */
  lemma SameRanks(t: Transcript, t': Transcript, entries: seq<Entry>, entries': seq<Entry>, m: Memory, i: nat)
    requires |t.rows| == |t.origins| && |t'.rows| == |t'.origins| && i < |m.slots| == |m.pending|
    requires Below(m.slots, |entries|)
    requires |entries| <= |entries'| && forall j | 0 <= j < |entries| :: entries[j].text == entries'[j].text
    requires CountRows(t', |t'.rows|, m.pending[i]) == CountRows(t, |t.rows|, m.pending[i])
    requires SlotRanked(t, entries, m, i)
    ensures SlotRanked(t', entries', m, i)
  {
    CountTextSame(entries, entries', m.slots[i], m.pending[i]);
  }

  lemma SameRowRank(t: Transcript, entries: seq<Entry>, entries': seq<Entry>, r: nat)
    requires r < |t.rows| == |t.origins| && RowRanked(t, entries, r)
    requires |entries| <= |entries'| && forall j | 0 <= j < |entries| :: entries[j].text == entries'[j].text
    ensures RowRanked(t, entries', r)
  {
    if t.origins[r].Some? { CountTextSame(entries, entries', t.origins[r].value, t.rows[r].content); }
  }

  // -- rows that are no deliveries --

  lemma OtherRowKeepsRows(events: seq<Event>, t: Transcript, clock: nat, entries: seq<Entry>, row: Row)
    requires EntryInv(events, clock, entries) && RowInv(t, clock, entries)
    requires Fresh(t.rows, row.id) && row.at == clock
    requires row.role == User ==> forall e | e in events && e.Queued? :: e.text != row.content
    ensures RowInv(Append(t, [row], [None]), clock, entries)
    ensures forall k: nat :: Written(Append(t, [row], [None]), k) == Written(t, k)
  {
    var t' := Append(t, [row], [None]);
    forall k | 0 <= k < |entries| ensures !LooksDelivered(row, entries[k]) {
      assert Queued(entries[k].text, entries[k].id, entries[k].at) in events;
    }
    forall r: nat | r < |t'.rows| ensures RowRanked(t', entries, r) {
      if r < |t.rows| {
        assert RowRanked(t, entries, r);
        CountRowsPrefix(t, [row], [None], r, t.rows[r].content);
      }
    }
  }

  lemma OtherRowKeepsMemory(t: Transcript, entries: seq<Entry>, row: Row, m: Memory)
    requires |t.rows| == |t.origins| && MemoryInv(t, entries, m)
    requires forall k: nat :: Written(Append(t, [row], [None]), k) == Written(t, k)
    ensures MemoryInv(Append(t, [row], [None]), entries, m)
  {
    var t' := Append(t, [row], [None]);
    if !IsClosed(m.mode) {
      forall i: nat | i < |m.slots| ensures SlotRanked(t', entries, m, i) {
        assert SlotRanked(t, entries, m, i);
        CountRowsPrefix(t, [row], [None], |t.rows|, m.pending[i]);
        SameRanks(t, t', entries, entries, m, i);
      }
      assert forall k: nat :: Wanted(t', entries, k) == Wanted(t, entries, k);
    }
  }

  lemma OtherRowKeepsInv(s: State, step: Step)
    requires Inv(s) && Enabled(s, step) && step.OtherRow?
    ensures Inv(Apply(s, step))
  {
    if Recovered(s.events).Some? {
      var entries, row := Recovered(s.events).value, Row(step.id, step.role, step.content, s.clock);
      OtherRowKeepsRows(s.events, s.transcript, s.clock, entries, row);
      var t' := Append(s.transcript, [row], [None]);
      assert FrontInv(s.events, t', entries) by {
        assert forall k: nat :: Wanted(t', entries, k) == Wanted(s.transcript, entries, k);
      }
      if s.memory.Some? { OtherRowKeepsMemory(s.transcript, entries, row, s.memory.value); }
    }
  }

  // -- accepting --

  lemma AcceptedEntry(events: seq<Event>, clock: nat, entries: seq<Entry>, text: string, id: AcceptanceId)
    requires EntryInv(events, clock, entries) && forall e | e in events && e.Queued? :: e.id != Some(id)
    ensures EntryInv(events + [Queued(text, Some(id), clock)], clock, entries + [Entry(text, Some(id), clock, false)])
  {
    var event := Queued(text, Some(id), clock);
    QueuedCountAppend(events, event);
    forall k | 0 <= k < |entries| ensures entries[k].id != Some(id) {
      assert Queued(entries[k].text, entries[k].id, entries[k].at) in events;
    }
  }

  lemma AcceptedKeepsRows(t: Transcript, clock: nat, entries: seq<Entry>, entry: Entry)
    requires RowInv(t, clock, entries) && entry.at == clock
    requires forall r: nat | r < |t.rows| && Lookalike(t, r, entry.text) :: t.rows[r].at < clock
    ensures RowInv(t, clock, entries + [entry])
  {
    forall r | 0 <= r < |t.rows| && t.origins[r].None? ensures !LooksDelivered(t.rows[r], entry) {
      assert Lookalike(t, r, entry.text) ==> t.rows[r].at < clock;
    }
    forall r: nat | r < |t.rows| ensures RowRanked(t, entries + [entry], r) {
      SameRowRank(t, entries, entries + [entry], r);
    }
  }

  /** There is an acceptance for every row of a text and every pending message of it. */
  lemma {:induction false} RoomForPending(t: Transcript, clock: nat, entries: seq<Entry>, m: Memory, i: nat,
                                          text: string)
    requires RowInv(t, clock, entries) && MemoryInv(t, entries, m) && !IsClosed(m.mode) && Done(m) <= i <= |m.pending|
    ensures CountRows(t, |t.rows|, text) + CountPending(m.pending, Done(m), i, text)
            <= CountText(entries, |entries|, text)
    decreases i
  {
    if i == Done(m) {
      RowsAreBounded(t, clock, entries, |t.rows|, |entries|, text);
    } else if m.pending[i - 1] == text {
      assert SlotRanked(t, entries, m, i - 1);
      CountTextGrows(entries, m.slots[i - 1], |entries|, text);
    } else {
      RoomForPending(t, clock, entries, m, i - 1, text);
    }
  }

  lemma {:induction false} CountPendingSame(pending: seq<string>, more: seq<string>, first: nat, n: nat, text: string)
    requires first <= n <= |pending|
    ensures CountPending(pending + more, first, n, text) == CountPending(pending, first, n, text)
    decreases n
  {
    if first < n { CountPendingSame(pending, more, first, n - 1, text); }
  }

  lemma AcceptedKeepsFront(
    events: seq<Event>, t: Transcript, clock: nat, entries: seq<Entry>, entry: Entry, event: Event)
    requires RowInv(t, clock, entries) && FrontInv(events, t, entries) && !entry.acked
    ensures FrontInv(events + [event], t, entries + [entry])
    ensures forall k: nat :: Wanted(t, entries + [entry], k) <==> Wanted(t, entries, k) || k == |entries|
  {
    forall k: nat | Written(t, k) ensures k < |entries| { WrittenIsAccepted(t, clock, entries, k); }
    assert forall k: nat :: Wanted(t, entries + [entry], k) <==> Wanted(t, entries, k) || k == |entries|;
  }

  lemma AcceptedKeepsRanks(t: Transcript, clock: nat, entries: seq<Entry>, entry: Entry, m: Memory, m': Memory, i: nat)
    requires RowInv(t, clock, entries) && MemoryInv(t, entries, m) && !IsClosed(m.mode) && i <= |m.slots|
    requires m'.mode == m.mode && m'.pending == m.pending + [entry.text] && m'.slots == m.slots + [|entries|]
    ensures Below(m'.slots, |entries + [entry]|) && SlotRanked(t, entries + [entry], m', i)
  {
    var text := m'.pending[i];
    if Done(m) <= i {
      CountPendingSame(m.pending, [entry.text], Done(m), i, text);
      CountTextSame(entries, entries + [entry], m'.slots[i], text);
      if i < |m.slots| {
        assert SlotRanked(t, entries, m, i);
      } else {
        RoomForPending(t, clock, entries, m, i, text);
      }
    }
  }

  lemma AcceptedKeepsMatch(entries: seq<Entry>, entry: Entry, m: Memory, m': Memory)
    requires SlotsMatch(entries, m) && m'.pending == m.pending + [entry.text]
    requires m'.ids == m.ids + [entry.id] && m'.slots == m.slots + [|entries|]
    ensures SlotsMatch(entries + [entry], m')
  {
    IncreasingAppend(m.slots, |entries|);
  }

  lemma AcceptedKeepsOpen(t: Transcript, entries: seq<Entry>, entry: Entry, m: Memory, m': Memory)
    requires Below(m.slots, |entries|) && SlotsOpen(t, entries, m) && !entry.acked
    requires m'.mode == m.mode && m'.slots == m.slots + [|entries|] && Below(m'.slots, |entries + [entry]|)
    requires forall k: nat :: Wanted(t, entries + [entry], k) <==> Wanted(t, entries, k) || k == |entries|
    ensures SlotsOpen(t, entries + [entry], m')
  {
    assert m'.slots[Done(m)..] == m.slots[Done(m)..] + [|entries|];
  }

  lemma AcceptedKeepsMemory(t: Transcript, clock: nat, entries: seq<Entry>, entry: Entry, m: Memory)
    requires RowInv(t, clock, entries) && MemoryInv(t, entries, m) && (m.mode.Running? || m.mode.Aborted?)
    requires !entry.acked
    requires forall k: nat :: Wanted(t, entries + [entry], k) <==> Wanted(t, entries, k) || k == |entries|
    ensures MemoryInv(t, entries + [entry], Memory(m.queue + [entry.text], m.pending + [entry.text],
                                                   m.ids + [entry.id], m.slots + [|entries|], m.mode))
  {
    var m' := Memory(m.queue + [entry.text], m.pending + [entry.text], m.ids + [entry.id], m.slots + [|entries|],
                     m.mode);
    AcceptedKeepsMatch(entries, entry, m, m');
    AcceptedKeepsOpen(t, entries, entry, m, m');
    forall i: nat | i < |m'.slots| ensures SlotRanked(t, entries + [entry], m', i) {
      AcceptedKeepsRanks(t, clock, entries, entry, m, m', i);
    }
  }

  lemma AcceptKeepsInv(s: State, step: Step)
    requires Inv(s) && Enabled(s, step) && step.Accept?
    ensures Inv(Apply(s, step))
  {
    var t, event := s.transcript, Queued(step.text, Some(step.id), s.clock);
    RecoveredAppend(s.events, event);
    if Recovered(s.events).Some? {
      var entries, entry := Recovered(s.events).value, Entry(step.text, Some(step.id), s.clock, false);
      AcceptedEntry(s.events, s.clock, entries, step.text, step.id);
      AcceptedKeepsRows(t, s.clock, entries, entry);
      AcceptedKeepsFront(s.events, t, s.clock, entries, entry, event);
      AcceptedKeepsMemory(t, s.clock, entries, entry, s.memory.value);
    }
  }

  // -- writing to the transcript --

  /** The transcript after writing the first pending messages. */
  function WithRows(t: Transcript, m: Memory, ids: seq<nat>, clock: nat): Transcript
    requires |ids| <= |m.pending| == |m.slots|
  {
    Append(t,
      seq(|ids|, i requires 0 <= i < |ids| => Row(ids[i], User, m.pending[i], clock)),
      seq(|ids|, i requires 0 <= i < |ids| => Some(m.slots[i])))
  }

  lemma RowsWritten(t: Transcript, m: Memory, ids: seq<nat>, clock: nat, k: nat)
    requires |ids| <= |m.pending| == |m.slots|
    ensures Written(WithRows(t, m, ids, clock), k) <==> Written(t, k) || k in m.slots[..|ids|]
  {
    var t' := WithRows(t, m, ids, clock);
    if k in m.slots[..|ids|] {
      var i :| 0 <= i < |ids| && m.slots[..|ids|][i] == k;
      assert t'.origins[|t.origins| + i] == Some(k);
    }
  }

  /** Rows of a text after writing the first `i` pending messages. */
  lemma {:induction false} CountRowsWritten(t: Transcript, m: Memory, ids: seq<nat>, clock: nat, i: nat, text: string)
    requires |t.rows| == |t.origins| && i <= |ids| <= |m.pending| == |m.slots|
    ensures CountRows(WithRows(t, m, ids, clock), |t.rows| + i, text)
         == CountRows(t, |t.rows|, text) + CountPending(m.pending, 0, i, text)
  {
    var t' := WithRows(t, m, ids, clock);
    if i == 0 {
      CountRowsPrefix(t, t'.rows[|t.rows|..], t'.origins[|t.origins|..], |t.rows|, text);
      assert Append(t, t'.rows[|t.rows|..], t'.origins[|t.origins|..]) == t';
    } else {
      CountRowsWritten(t, m, ids, clock, i - 1, text);
      assert t'.rows[|t.rows| + i - 1].content == m.pending[i - 1] && t'.origins[|t.rows| + i - 1].Some?;
    }
  }

  /** Rows appended later do not change the rank of an earlier one. */
  lemma OldRowRank(t: Transcript, t': Transcript, entries: seq<Entry>, r: nat)
    requires |t.rows| == |t.origins| && |t'.rows| == |t'.origins| && t.rows <= t'.rows && t.origins <= t'.origins
    requires r < |t.rows| && RowRanked(t, entries, r)
    ensures RowRanked(t', entries, r)
  {
    var rows, origins := t'.rows[|t.rows|..], t'.origins[|t.origins|..];
    assert t.rows + rows == t'.rows && t.origins + origins == t'.origins;
    assert Append(t, rows, origins) == t';
    CountRowsPrefix(t, rows, origins, r, t.rows[r].content);
  }

  lemma WrittenRowRank(t: Transcript, clock: nat, entries: seq<Entry>, m: Memory, ids: seq<nat>, r: nat)
    requires RowInv(t, clock, entries) && MemoryInv(t, entries, m) && m.mode.Running? && |ids| <= |m.slots|
    requires r < |WithRows(t, m, ids, clock).rows|
    ensures RowRanked(WithRows(t, m, ids, clock), entries, r)
  {
    var t' := WithRows(t, m, ids, clock);
    if r < |t.rows| {
      assert RowRanked(t, entries, r);
      OldRowRank(t, t', entries, r);
    } else {
      var i := r - |t.rows|;
      assert SlotRanked(t, entries, m, i);
      CountRowsWritten(t, m, ids, clock, i, m.pending[i]);
    }
  }

  lemma WriteKeepsRows(t: Transcript, clock: nat, entries: seq<Entry>, m: Memory, ids: seq<nat>)
    requires RowInv(t, clock, entries) && MemoryInv(t, entries, m) && m.mode.Running? && |ids| <= |m.slots|
    requires forall i | 0 <= i < |m.slots| :: entries[m.slots[i]].at <= clock
    requires forall i | 0 <= i < |ids| :: Fresh(t.rows, ids[i])
    requires forall i, j | 0 <= i < j < |ids| :: ids[i] != ids[j]
    ensures RowInv(WithRows(t, m, ids, clock), clock, entries)
  {
    var t' := WithRows(t, m, ids, clock);
    forall r | |t.rows| <= r < |t'.rows|
      ensures t'.rows[r] == Row(ids[r - |t.rows|], User, m.pending[r - |t.rows|], clock)
      ensures t'.origins[r] == Some(m.slots[r - |t.rows|])
    {
    }
    assert forall q, r | 0 <= q < r < |t'.rows| :: t'.rows[q].id != t'.rows[r].id;
    forall r: nat | r < |t'.rows| ensures RowRanked(t', entries, r) {
      WrittenRowRank(t, clock, entries, m, ids, r);
    }
  }

  /** What is wanted after a write is among the pending messages that were not written. */
  lemma StillWanted(t: Transcript, clock: nat, entries: seq<Entry>, m: Memory, ids: seq<nat>, k: nat)
    requires |t.rows| == |t.origins| && MemoryInv(t, entries, m) && m.mode.Running? && |ids| <= |m.slots|
    requires Wanted(WithRows(t, m, ids, clock), entries, k)
    ensures Wanted(t, entries, k) && k in m.slots[|ids|..]
  {
    RowsWritten(t, m, ids, clock, k);
    assert m.slots[0..] == m.slots == m.slots[..|ids|] + m.slots[|ids|..];
    assert k in m.slots[0..];
  }

  lemma WriteKeepsFront(
    events: seq<Event>, t: Transcript, clock: nat, entries: seq<Entry>, m: Memory, ids: seq<nat>)
    requires |t.rows| == |t.origins| && MemoryInv(t, entries, m) && m.mode.Running? && |ids| <= |m.slots|
    requires FrontInv(events, t, entries)
    ensures FrontInv(events, WithRows(t, m, ids, clock), entries)
  {
    var t' := WithRows(t, m, ids, clock);
    forall j: nat, k: nat | Written(t', j) && Wanted(t', entries, k) ensures j < k {
      RowsWritten(t, m, ids, clock, j);
      StillWanted(t, clock, entries, m, ids, k);
      if j in m.slots[..|ids|] {
        var i :| 0 <= i < |ids| && m.slots[i] == j;
        var l :| |ids| <= l < |m.slots| && m.slots[l] == k;
      }
    }
    forall k: nat | k < |entries| && entries[k].acked && !Written(t', k)
      ensures Undelivered(entries[k].text, entries[k].id) in events
    {
      RowsWritten(t, m, ids, clock, k);
    }
  }

  lemma {:induction false} CountPendingSplit(pending: seq<string>, first: nat, mid: nat, n: nat, text: string)
    requires first <= mid <= n <= |pending|
    ensures CountPending(pending, first, n, text)
            == CountPending(pending, first, mid, text) + CountPending(pending, mid, n, text)
    decreases n
  {
    if mid < n { CountPendingSplit(pending, first, mid, n - 1, text); }
  }

  lemma WriteKeepsMemory(t: Transcript, clock: nat, entries: seq<Entry>, m: Memory, ids: seq<nat>)
    requires |t.rows| == |t.origins| && MemoryInv(t, entries, m) && m.mode.Running? && |ids| <= |m.slots|
    ensures MemoryInv(WithRows(t, m, ids, clock), entries, m.(mode := Writing(|ids|, 0)))
  {
    var t', m' := WithRows(t, m, ids, clock), m.(mode := Writing(|ids|, 0));
    forall i | 0 <= i < |ids| ensures Written(t', m.slots[i]) {
      RowsWritten(t, m, ids, clock, m.slots[i]);
      assert m.slots[i] in m.slots[..|ids|];
    }
    forall i: nat | i < |m.slots| ensures SlotRanked(t', entries, m', i) {
      assert SlotRanked(t, entries, m, i);
      if |ids| <= i {
        CountRowsWritten(t, m, ids, clock, |ids|, m.pending[i]);
        CountPendingSplit(m.pending, 0, |ids|, i, m.pending[i]);
      }
    }
    forall k: nat | Wanted(t', entries, k) ensures k in m.slots[|ids|..] {
      StillWanted(t, clock, entries, m, ids, k);
    }
  }

  lemma WriteKeepsInv(s: State, step: Step)
    requires Inv(s) && Enabled(s, step) && step.Write?
    ensures Inv(Apply(s, step))
  {
    var t, clock, m, ids := s.transcript, s.clock, s.memory.value, step.ids;
    if Recovered(s.events).Some? {
      var entries := Recovered(s.events).value;
      WriteKeepsRows(t, clock, entries, m, ids);
      WriteKeepsFront(s.events, t, clock, entries, m, ids);
      WriteKeepsMemory(t, clock, entries, m, ids);
    }
  }

  // -- acknowledging --

  lemma AckedEntryInv(events: seq<Event>, clock: nat, entries: seq<Entry>, k: nat, event: Event)
    requires EntryInv(events, clock, entries) && k < |entries| && !event.Queued?
    ensures EntryInv(events + [event], clock, entries[k := entries[k].(acked := true)])
  {
    var entries' := entries[k := entries[k].(acked := true)];
    QueuedCountAppend(events, event);
    forall j | 0 <= j < |entries'|
      ensures Queued(entries'[j].text, entries'[j].id, entries'[j].at) in events + [event]
    {
      assert Queued(entries[j].text, entries[j].id, entries[j].at) in events;
    }
  }

  lemma AckedFrontInv(events: seq<Event>, t: Transcript, entries: seq<Entry>, k: nat, event: Event)
    requires FrontInv(events, t, entries) && k < |entries|
    requires Written(t, k) || event == Undelivered(entries[k].text, entries[k].id)
    ensures var entries' := entries[k := entries[k].(acked := true)];
            && FrontInv(events + [event], t, entries')
            && forall j: nat :: Wanted(t, entries', j) <==> Wanted(t, entries, j) && j != k
  {
    var entries' := entries[k := entries[k].(acked := true)];
    assert forall j: nat :: Wanted(t, entries', j) <==> Wanted(t, entries, j) && j != k;
    assert event in events + [event];
  }

  lemma AckedRowInv(t: Transcript, clock: nat, entries: seq<Entry>, k: nat)
    requires RowInv(t, clock, entries) && k < |entries|
    ensures RowInv(t, clock, entries[k := entries[k].(acked := true)])
  {
    var entries' := entries[k := entries[k].(acked := true)];
    forall r: nat | r < |t.rows| ensures RowRanked(t, entries', r) {
      SameRowRank(t, entries, entries', r);
    }
  }

  /** Acknowledging pending message `i`: one already written, or one reported at the end. */
  lemma AckedMemoryInv(t: Transcript, entries: seq<Entry>, m: Memory, i: nat, mode: Mode)
    requires |t.rows| == |t.origins| && MemoryInv(t, entries, m) && i < |m.slots|
    requires if m.mode.Writing? then i < m.mode.count && mode == Writing(m.mode.count, i + 1)
             else m.mode.Ending? && mode.Ending?
    ensures MemoryInv(t, entries[m.slots[i] := entries[m.slots[i]].(acked := true)], m.(mode := mode))
  {
    var entries', m' := entries[m.slots[i] := entries[m.slots[i]].(acked := true)], m.(mode := mode);
    if m.mode.Writing? {
      forall j: nat | j < |m.slots| ensures SlotRanked(t, entries', m', j) {
        assert SlotRanked(t, entries, m, j);
        CountTextSame(entries, entries', m.slots[j], m.pending[j]);
      }
      forall k: nat | Wanted(t, entries', k) ensures k in m.slots[Done(m)..] {
        assert Wanted(t, entries, k);
      }
    }
  }

  /** The log with pending message `i` acknowledged, and the memory in its next mode. */
  lemma AckKeepsInv(s: State, s': State, i: nat, event: Event, mode: Mode)
    requires Inv(s) && s.memory.Some? && Recovered(s.events).Some? && i < |s.memory.value.slots|
    requires s' == s.(events := s.events + [event], memory := Some(s.memory.value.(mode := mode)))
    requires var m := s.memory.value;
             if m.mode.Writing? then
               i < m.mode.count && mode == Writing(m.mode.count, i + 1) && event == Delivered(m.pending[i], m.ids[i])
             else
               m.mode.Ending? && mode.Ending? && event == Undelivered(m.pending[i], m.ids[i])
    ensures Inv(s')
  {
    var entries, m := Recovered(s.events).value, s.memory.value;
    var k := m.slots[i];
    RecoveredAppend(s.events, event);
    AcknowledgeById(s.events, s.clock, entries, k);
    if !entries[k].acked {
      AckedEntryInv(s.events, s.clock, entries, k, event);
      AckedRowInv(s.transcript, s.clock, entries, k);
      AckedFrontInv(s.events, s.transcript, entries, k, event);
      AckedMemoryInv(s.transcript, entries, m, i, mode);
    }
  }

  lemma AcknowledgeKeepsInv(s: State)
    requires Inv(s) && Enabled(s, Step.Acknowledge)
    ensures Inv(Apply(s, Step.Acknowledge))
  {
    var s', m := Apply(s, Step.Acknowledge), s.memory.value;
    if Recovered(s.events).Some? {
      AckKeepsInv(s, s', m.mode.acked, Delivered(m.pending[m.mode.acked], m.ids[m.mode.acked]), s'.memory.value.mode);
    } else {
      RecoveredAppend(s.events, Delivered(m.pending[m.mode.acked], m.ids[m.mode.acked]));
    }
  }

  lemma ReportKeepsInv(s: State, ok: bool)
    requires Inv(s) && Enabled(s, Report(ok))
    ensures Inv(Apply(s, Report(ok)))
  {
    var s', m := Apply(s, Report(ok)), s.memory.value;
    if ok {
      var event := Undelivered(m.pending[m.mode.next], m.ids[m.mode.next]);
      if Recovered(s.events).Some? {
        AckKeepsInv(s, s', m.mode.next, event, s'.memory.value.mode);
      } else {
        RecoveredAppend(s.events, event);
      }
    }
  }

  // -- the rest --

  lemma {:induction false} CountPendingShift(pending: seq<string>, first: nat, n: nat, text: string)
    requires first <= n <= |pending|
    ensures CountPending(pending[first..], 0, n - first, text) == CountPending(pending, first, n, text)
    decreases n
  {
    if first < n { CountPendingShift(pending, first, n - 1, text); }
  }

  lemma DroppedRank(t: Transcript, entries: seq<Entry>, m: Memory, m': Memory, count: nat, i: nat)
    requires |t.rows| == |t.origins| && |m.slots| == |m.pending| && Below(m.slots, |entries|) && count + i < |m.slots|
    requires Done(m) == count && Done(m') == 0 && m'.pending == m.pending[count..] && m'.slots == m.slots[count..]
    requires SlotRanked(t, entries, m, count + i)
    ensures Below(m'.slots, |entries|) && SlotRanked(t, entries, m', i)
  {
    CountPendingShift(m.pending, count, count + i, m'.pending[i]);
  }

  lemma DroppedMemory(t: Transcript, entries: seq<Entry>, m: Memory, count: nat)
    requires |t.rows| == |t.origins| && MemoryInv(t, entries, m) && m.mode.Writing?
    requires count == m.mode.count <= |m.slots|
    ensures MemoryInv(t, entries, Memory(m.queue, m.pending[count..], m.ids[count..], m.slots[count..], Running))
  {
    var m' := Memory(m.queue, m.pending[count..], m.ids[count..], m.slots[count..], Running);
    assert m'.slots[0..] == m.slots[count..];
    forall i: nat | i < |m'.slots| ensures SlotRanked(t, entries, m', i) {
      assert SlotRanked(t, entries, m, count + i);
      DroppedRank(t, entries, m, m', count, i);
    }
  }

  lemma CheckpointedKeepsInv(s: State, step: Step)
    requires Inv(s) && Enabled(s, step) && step.Checkpointed?
    ensures Inv(Apply(s, step))
  {
    if Recovered(s.events).Some? {
      DroppedMemory(s.transcript, Recovered(s.events).value, s.memory.value, s.memory.value.mode.count);
    }
  }

  /** Restored messages have room for their rows: among those of one text ranks increase. */
  lemma {:induction false} RestoredRanks(t: Transcript, entries: seq<Entry>, slots: seq<nat>, i: nat, j: nat)
    requires |t.rows| == |t.origins| && Increasing(slots) && Below(slots, |entries|) && j <= i < |slots|
    requires forall l | 0 <= l < |slots| :: !Matched(t, entries, slots[l])
    ensures CountRows(t, |t.rows|, entries[slots[i]].text)
            + CountPending(Texts(entries, slots), 0, j, entries[slots[i]].text)
         <= CountText(entries, slots[i], entries[slots[i]].text)
    decreases i, j
  {
    var text := entries[slots[i]].text;
    if j == 0 {
      assert !Matched(t, entries, slots[i]);
    } else if entries[slots[j - 1]].text == text {
      RestoredRanks(t, entries, slots, j - 1, j - 1);
      CountTextGrows(entries, slots[j - 1], slots[i], text);
    } else {
      RestoredRanks(t, entries, slots, i, j - 1);
    }
  }

  lemma RestoredMemory(t: Transcript, events: seq<Event>, clock: nat, entries: seq<Entry>)
    requires EntryInv(events, clock, entries) && RowInv(t, clock, entries) && FrontInv(events, t, entries)
    ensures var slots := Restored(entries, t.rows);
            Below(slots, |entries|) &&
            MemoryInv(t, entries,
                Memory(Texts(entries, slots), Texts(entries, slots), Ids(entries, slots), slots, Running))
  {
    var slots := Restored(entries, t.rows);
    QueuedInOrder(entries, t.rows, |entries|);
    GreedyMatchesByRank(t, clock, entries);
    assert slots[0..] == slots;
    forall i | 0 <= i < |slots| ensures !Matched(t, entries, slots[i]) && !entries[slots[i]].acked {
      QueuedByRank(t, entries, |entries|, slots[i]);
    }
    var m := Memory(Texts(entries, slots), Texts(entries, slots), Ids(entries, slots), slots, Running);
    forall i: nat | i < |slots| ensures SlotRanked(t, entries, m, i) {
      RestoredRanks(t, entries, slots, i, i);
    }
    forall k: nat | Wanted(t, entries, k) ensures k in slots {
      RestoredIsWantedOrStolen(t, events, clock, entries, k);
    }
  }

  lemma RestoreKeepsInv(s: State)
    requires Inv(s) && Enabled(s, Restore)
    ensures Inv(Apply(s, Restore))
  {
    if Recovered(s.events).Some? { RestoredMemory(s.transcript, s.events, s.clock, Recovered(s.events).value); }
  }

  lemma TickKeepsInv(s: State, seconds: nat)
    requires Inv(s)
    ensures Inv(Apply(s, Tick(seconds)))
  {
  }

  lemma OtherEventKeepsInv(s: State)
    requires Inv(s)
    ensures Inv(Apply(s, OtherEvent))
  {
    RecoveredAppend(s.events, Other);
    QueuedCountAppend(s.events, Other);
  }

  lemma ModeKeepsMemory(t: Transcript, entries: seq<Entry>, m: Memory, m': Memory)
    requires |t.rows| == |t.origins| && MemoryInv(t, entries, m)
    requires m'.pending == m.pending && m'.ids == m.ids && m'.slots == m.slots
    requires IsClosed(m'.mode) || (!IsClosed(m.mode) && Done(m') == Done(m))
    ensures MemoryInv(t, entries, m')
  {
    if !IsClosed(m'.mode) {
      forall i: nat | i < |m.slots| ensures SlotRanked(t, entries, m', i) { assert SlotRanked(t, entries, m, i); }
    }
  }

  /** Steps that only touch the memory, and leave the wanted messages where they are. */
  lemma MemoryStepKeepsInv(s: State, step: Step)
    requires Inv(s) && Enabled(s, step)
    requires step.Take? || step.WriteFails? || step.AcknowledgeFails? || step.Close? || step.Crash?
    ensures Inv(Apply(s, step))
  {
    if Recovered(s.events).Some? && !step.Crash? {
      ModeKeepsMemory(s.transcript, Recovered(s.events).value, s.memory.value, Apply(s, step).memory.value);
    }
  }

  lemma StepKeepsInv(s: State, step: Step)
    requires Inv(s) && Enabled(s, step)
    ensures Inv(Apply(s, step))
  {
    match step
    case OtherRow(_, _, _) => OtherRowKeepsInv(s, step);
    case Accept(_, _) => AcceptKeepsInv(s, step);
    case Write(_, _) => WriteKeepsInv(s, step);
    case Acknowledge => AcknowledgeKeepsInv(s);
    case Report(ok) => ReportKeepsInv(s, ok);
    case Checkpointed => CheckpointedKeepsInv(s, step);
    case Restore => RestoreKeepsInv(s);
    case Tick(seconds) => TickKeepsInv(s, seconds);
    case OtherEvent => OtherEventKeepsInv(s);
    case _ => MemoryStepKeepsInv(s, step);
  }

  // ---- exact accounting ----

  lemma AcknowledgeKeepsExact(s: State)
    requires Inv(s) && ExactInv(s) && Enabled(s, Step.Acknowledge)
    ensures ExactInv(Apply(s, Step.Acknowledge))
  {
    var m := s.memory.value;
    if s.exact {
      RecoveredAppend(s.events, Delivered(m.pending[m.mode.acked], m.ids[m.mode.acked]));
      AcknowledgeById(s.events, s.clock, Recovered(s.events).value, m.slots[m.mode.acked]);
    }
  }

  lemma ReportKeepsExact(s: State, ok: bool)
    requires Inv(s) && ExactInv(s) && Enabled(s, Report(ok))
    ensures ExactInv(Apply(s, Report(ok)))
  {
    var m := s.memory.value;
    if s.exact && ok {
      RecoveredAppend(s.events, Undelivered(m.pending[m.mode.next], m.ids[m.mode.next]));
      AcknowledgeById(s.events, s.clock, Recovered(s.events).value, m.slots[m.mode.next]);
    }
  }

  lemma OpenStepKeepsExact(s: State, step: Step)
    requires Inv(s) && ExactInv(s) && Enabled(s, step) && (step.Close? || step.Write?)
    ensures ExactInv(Apply(s, step))
  {
    var m := s.memory.value;
    if s.exact {
      assert MemoryInv(s.transcript, Recovered(s.events).value, m);
    }
  }

  lemma AcceptKeepsExact(s: State, step: Step)
    requires ExactInv(s) && Enabled(s, step) && step.Accept?
    requires s.exact ==> |Recovered(s.events).value| == QueuedCount(s.events)
    ensures ExactInv(Apply(s, step))
  {
    RecoveredAppend(s.events, Queued(step.text, Some(step.id), s.clock));
    if s.exact {
      var m := s.memory.value;
      assert (m.pending + [step.text])[Taken(m)..] == m.pending[Taken(m)..] + [step.text];
    }
  }

  lemma CheckpointedKeepsExact(s: State, step: Step)
    requires ExactInv(s) && Enabled(s, step) && step.Checkpointed?
    ensures ExactInv(Apply(s, step))
  {
    if s.exact {
      var m := s.memory.value;
      assert m.pending[m.mode.count..][Taken(m) - m.mode.count..] == m.pending[Taken(m)..];
    }
  }

  lemma PlainStepKeepsExact(s: State, step: Step)
    requires ExactInv(s) && Enabled(s, step)
    requires step.Tick? || step.OtherEvent? || step.OtherRow? || step.Take? || step.WriteFails?
          || step.AcknowledgeFails? || step.Crash? || step.Restore?
    ensures ExactInv(Apply(s, step))
  {
    if step.OtherEvent? { RecoveredAppend(s.events, Other); }
  }

  lemma StepKeepsExact(s: State, step: Step)
    requires Inv(s) && ExactInv(s) && Enabled(s, step)
    ensures ExactInv(Apply(s, step))
  {
    match step
    case Accept(_, _) => AcceptKeepsExact(s, step);
    case Write(_, _) => OpenStepKeepsExact(s, step);
    case Close => OpenStepKeepsExact(s, step);
    case Acknowledge => AcknowledgeKeepsExact(s);
    case Report(ok) => ReportKeepsExact(s, ok);
    case Checkpointed => CheckpointedKeepsExact(s, step);
    case _ => PlainStepKeepsExact(s, step);
  }

  // ---- the log of an open inbox can be read back ----

  lemma AckedAppend(entries: seq<Entry>, slots: seq<nat>, n: nat, entry: Entry)
    requires AckedPrefix(entries, slots, n) && !entry.acked
    ensures AckedPrefix(entries + [entry], slots + [|entries|], n)
  {
  }

  lemma AcceptKeepsReadable(s: State, step: Step)
    requires ReadInv(s) && Enabled(s, step) && step.Accept?
    requires Recovered(s.events).Some? ==> |Recovered(s.events).value| == QueuedCount(s.events)
    ensures ReadInv(Apply(s, step))
  {
    var m, entries := s.memory.value, Recovered(s.events).value;
    RecoveredAppend(s.events, Queued(step.text, Some(step.id), s.clock));
    AckedAppend(entries, m.slots, Acked(m), Entry(step.text, Some(step.id), s.clock, false));
  }

  lemma AcknowledgeKeepsReadable(s: State)
    requires ReadInv(s) && Inv(s) && Enabled(s, Step.Acknowledge)
    ensures ReadInv(Apply(s, Step.Acknowledge))
  {
    var m, entries := s.memory.value, Recovered(s.events).value;
    AcknowledgedLog(s.events, s.clock, entries, m, m.mode.acked);
  }

  /** The acknowledgement of the next pending message is read back as such. */
  lemma AcknowledgedLog(events: seq<Event>, clock: nat, entries: seq<Entry>, m: Memory, k: nat)
    requires Recovered(events) == Some(entries) && EntryInv(events, clock, entries)
    requires SlotsMatch(entries, m) && k < |m.slots| && AckedPrefix(entries, m.slots, k)
    ensures var recovered := Recovered(events + [Delivered(m.pending[k], m.ids[k])]);
            recovered.Some? && AckedPrefix(recovered.value, m.slots, k + 1)
  {
    RecoveredAppend(events, Delivered(m.pending[k], m.ids[k]));
    AcknowledgeById(events, clock, entries, m.slots[k]);
    AckedOneMore(entries, m.slots, k);
  }

  lemma AckedOneMore(entries: seq<Entry>, slots: seq<nat>, k: nat)
    requires Increasing(slots) && AckedPrefix(entries, slots, k) && k < |slots|
    ensures AckedPrefix(entries[slots[k] := entries[slots[k]].(acked := true)], slots, k + 1)
  {
  }

  lemma CheckpointedKeepsReadable(s: State, step: Step)
    requires ReadInv(s) && Enabled(s, step) && step.Checkpointed?
    ensures ReadInv(Apply(s, step))
  {
  }

  /** What a restore queues is not acknowledged. */
  lemma RestoreKeepsReadable(s: State)
    requires Inv(s) && Enabled(s, Restore)
    ensures ReadInv(Apply(s, Restore))
  {
    RestoreKeepsInv(s);
    if Rebuild(s).Some? {
      assert MemoryInv(s.transcript, Recovered(s.events).value, Rebuild(s).value);
    }
  }

  lemma PlainStepKeepsReadable(s: State, step: Step)
    requires ReadInv(s) && Enabled(s, step)
    requires !step.Accept? && !step.Acknowledge? && !step.Checkpointed? && !step.Restore?
    ensures ReadInv(Apply(s, step))
  {
    if step.OtherEvent? { RecoveredAppend(s.events, Other); }
  }

  lemma StepKeepsReadable(s: State, step: Step)
    requires Inv(s) && ReadInv(s) && Enabled(s, step)
    ensures ReadInv(Apply(s, step))
  {
    match step
    case Accept(_, _) => AcceptKeepsReadable(s, step);
    case Acknowledge => AcknowledgeKeepsReadable(s);
    case Checkpointed => CheckpointedKeepsReadable(s, step);
    case Restore => RestoreKeepsReadable(s);
    case _ => PlainStepKeepsReadable(s, step);
  }
}
