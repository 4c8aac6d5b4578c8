/** When a restore queues exactly what is missing, read off the event log and the transcript
    alone: what the log confirms as delivered says how many of the open messages are written. */
module InboxClear {
  import opened Options
  import opened Inbox
  import opened InboxRecovery
  import opened InboxProtocol
  import opened InboxRanks
  import opened InboxSteps
  import opened InboxTheorems

  // ---- what log and transcript show ----

  /** A user row that can be the record of some acceptance. */
  predicate Claimed(row: Row, entries: seq<Entry>)
  {
    exists k | 0 <= k < |entries| :: LooksDelivered(row, entries[k])
  }

  function CountClaimed(rows: seq<Row>, entries: seq<Entry>, n: nat, text: string): nat
    requires n <= |rows|
  {
    if n == 0 then 0
    else
      CountClaimed(rows, entries, n - 1, text)
      + if Claimed(rows[n - 1], entries) && rows[n - 1].content == text then 1 else 0
  }

  /** How many of the first `n` acceptances have this text and no acknowledgement. */
  function CountOpen(entries: seq<Entry>, n: nat, text: string): nat
    requires n <= |entries|
  {
    if n == 0 then 0
    else CountOpen(entries, n - 1, text) + if entries[n - 1].text == text && !entries[n - 1].acked then 1 else 0
  }

  predicate Confirmed(events: seq<Event>, entry: Entry)
  {
    Delivered(entry.text, entry.id) in events
  }

  /** How many of the first `n` acceptances have this text and are recorded as delivered. */
  function CountConfirmed(events: seq<Event>, entries: seq<Entry>, n: nat, text: string): nat
    requires n <= |entries|
  {
    if n == 0 then 0
    else
      CountConfirmed(events, entries, n - 1, text)
      + if entries[n - 1].text == text && Confirmed(events, entries[n - 1]) then 1 else 0
  }

  /** Of the messages with this entry's text, the rows beyond the confirmed ones reach this one. */
  predicate RowsReach(events: seq<Event>, rows: seq<Row>, entries: seq<Entry>, k: nat)
    requires k < |entries|
  {
    var text := entries[k].text;
    CountOpen(entries, k, text) + CountConfirmed(events, entries, |entries|, text)
    < CountClaimed(rows, entries, |rows|, text)
  }

  /** If the rows reach it, an open message has fewer equal acceptances before it than there are
      rows of its text. */
  predicate ClearEntry(events: seq<Event>, rows: seq<Row>, entries: seq<Entry>, k: nat)
    requires k < |entries|
  {
    !entries[k].acked && RowsReach(events, rows, entries, k) ==>
      CountText(entries, k, entries[k].text) < CountClaimed(rows, entries, |rows|, entries[k].text)
  }

  predicate Clear(events: seq<Event>, rows: seq<Row>)
  {
    var recovered := Recovered(events);
    recovered.Some? ==> forall k: nat | k < |recovered.value| :: ClearEntry(events, rows, recovered.value, k)
  }

  // ---- the log confirms exactly what was acknowledged after being written ----

  predicate ConfirmedEntry(t: Transcript, entries: seq<Entry>, e: Event)
  {
    exists k: nat ::
      k < |entries| && e == Delivered(entries[k].text, entries[k].id) && entries[k].acked && Written(t, k)
  }

  ghost predicate SettledInv(events: seq<Event>, t: Transcript, entries: seq<Entry>)
  {
    && (forall e | e in events && e.Delivered? :: ConfirmedEntry(t, entries, e))
    && (forall k: nat | k < |entries| && entries[k].acked && Written(t, k) :: Confirmed(events, entries[k]))
  }

  /** What a closed inbox still reports is not in the transcript. */
  ghost predicate UnreadInv(t: Transcript, memory: Option<Memory>)
  {
    memory.Some? && memory.value.mode.Ending? ==>
      forall i | memory.value.mode.next <= i < |memory.value.slots| :: !Written(t, memory.value.slots[i])
  }

  lemma AcceptKeepsSettled(events: seq<Event>, t: Transcript, clock: nat, entries: seq<Entry>, entry: Entry,
                           event: Event)
    requires RowInv(t, clock, entries) && SettledInv(events, t, entries) && !entry.acked && event.Queued?
    ensures SettledInv(events + [event], t, entries + [entry])
  {
    var entries' := entries + [entry];
    forall e | e in events + [event] && e.Delivered? ensures ConfirmedEntry(t, entries', e) {
      assert ConfirmedEntry(t, entries, e);
      var k: nat :| k < |entries| && e == Delivered(entries[k].text, entries[k].id) && entries[k].acked
          && Written(t, k);
      assert entries'[k] == entries[k];
    }
    forall k: nat | k < |entries'| && entries'[k].acked && Written(t, k)
      ensures Confirmed(events + [event], entries'[k])
    {
      assert Confirmed(events, entries[k]);
    }
  }

  /** More rows, none of them for an acknowledged message. */
  lemma RowsKeepSettled(events: seq<Event>, t: Transcript, t': Transcript, entries: seq<Entry>)
    requires SettledInv(events, t, entries)
    requires forall k: nat :: Written(t, k) ==> Written(t', k)
    requires forall k: nat | k < |entries| && entries[k].acked :: Written(t', k) ==> Written(t, k)
    ensures SettledInv(events, t', entries)
  {
    forall e | e in events && e.Delivered? ensures ConfirmedEntry(t', entries, e) {
      assert ConfirmedEntry(t, entries, e);
      var k: nat :| k < |entries| && e == Delivered(entries[k].text, entries[k].id) && entries[k].acked
          && Written(t, k);
      assert Written(t', k);
    }
  }

  lemma WriteKeepsSettled(events: seq<Event>, t: Transcript, clock: nat, entries: seq<Entry>, m: Memory, ids: seq<nat>)
    requires |t.rows| == |t.origins| && MemoryInv(t, entries, m) && m.mode.Running? && |ids| <= |m.slots|
    requires SettledInv(events, t, entries)
    ensures SettledInv(events, WithRows(t, m, ids, clock), entries)
  {
    forall k: nat
      ensures Written(t, k) ==> Written(WithRows(t, m, ids, clock), k)
      ensures k < |entries| && entries[k].acked && Written(WithRows(t, m, ids, clock), k) ==> Written(t, k)
    {
      RowsWritten(t, m, ids, clock, k);
    }
    RowsKeepSettled(events, t, WithRows(t, m, ids, clock), entries);
  }

  /** A written message is acknowledged as delivered, one that is not as undelivered. */
  lemma AckKeepsSettled(events: seq<Event>, t: Transcript, entries: seq<Entry>, k: nat, event: Event)
    requires SettledInv(events, t, entries) && k < |entries|
    requires if Written(t, k) then event == Delivered(entries[k].text, entries[k].id)
             else event.Undelivered? || event.Other?
    ensures SettledInv(events + [event], t, entries[k := entries[k].(acked := true)])
  {
    var entries', events' := entries[k := entries[k].(acked := true)], events + [event];
    forall e | e in events' && e.Delivered? ensures ConfirmedEntry(t, entries', e) {
      if e in events {
        assert ConfirmedEntry(t, entries, e);
        var j: nat :| j < |entries| && e == Delivered(entries[j].text, entries[j].id) && entries[j].acked
            && Written(t, j);
        assert entries'[j] == entries[j];
      } else {
        assert entries'[k].acked && Written(t, k);
      }
    }
    forall j: nat | j < |entries'| && entries'[j].acked && Written(t, j) ensures Confirmed(events', entries'[j]) {
      if j != k { assert Confirmed(events, entries[j]); }
    }
  }

  ghost predicate Settled(s: State)
  {
    s.exact ==>
      && Recovered(s.events).Some?
      && SettledInv(s.events, s.transcript, Recovered(s.events).value) && UnreadInv(s.transcript, s.memory)
  }

  lemma AcknowledgeKeepsAllSettled(s: State)
    requires Inv(s) && ExactInv(s) && Settled(s) && Enabled(s, Step.Acknowledge)
    ensures Settled(Apply(s, Step.Acknowledge))
  {
    if s.exact {
      var m, entries := s.memory.value, Recovered(s.events).value;
      var i := m.mode.acked;
      RecoveredAppend(s.events, Delivered(m.pending[i], m.ids[i]));
      AcknowledgeById(s.events, s.clock, entries, m.slots[i]);
      AckKeepsSettled(s.events, s.transcript, entries, m.slots[i], Delivered(m.pending[i], m.ids[i]));
    }
  }

  lemma ReportKeepsAllSettled(s: State, ok: bool)
    requires Inv(s) && ExactInv(s) && Settled(s) && Enabled(s, Report(ok))
    ensures Settled(Apply(s, Report(ok)))
  {
    if s.exact && ok {
      var m, entries := s.memory.value, Recovered(s.events).value;
      var i := m.mode.next;
      RecoveredAppend(s.events, Undelivered(m.pending[i], m.ids[i]));
      AcknowledgeById(s.events, s.clock, entries, m.slots[i]);
      AckKeepsSettled(s.events, s.transcript, entries, m.slots[i], Undelivered(m.pending[i], m.ids[i]));
    }
  }

  lemma AcceptKeepsAllSettled(s: State, step: Step)
    requires Inv(s) && Settled(s) && Enabled(s, step) && step.Accept?
    ensures Settled(Apply(s, step))
  {
    if s.exact {
      var event := Queued(step.text, Some(step.id), s.clock);
      RecoveredAppend(s.events, event);
      AcceptKeepsSettled(s.events, s.transcript, s.clock, Recovered(s.events).value,
        Entry(step.text, Some(step.id), s.clock, false), event);
    }
  }

  lemma OtherEventKeepsAllSettled(s: State)
    requires Settled(s) && Enabled(s, OtherEvent)
    ensures Settled(Apply(s, OtherEvent))
  {
    RecoveredAppend(s.events, Other);
    if s.exact {
      var events, t, entries := s.events + [Other], s.transcript, Recovered(s.events).value;
      forall k: nat | k < |entries| && entries[k].acked && Written(t, k) ensures Confirmed(events, entries[k]) {
        assert Confirmed(s.events, entries[k]);
      }
    }
  }

  lemma OtherRowKeepsAllSettled(s: State, step: Step)
    requires Settled(s) && Enabled(s, step) && step.OtherRow?
    ensures Settled(Apply(s, step))
  {
    if s.exact {
      var t := Append(s.transcript, [Row(step.id, step.role, step.content, s.clock)], [None]);
      forall k: nat ensures Written(t, k) <==> Written(s.transcript, k) {}
      RowsKeepSettled(s.events, s.transcript, t, Recovered(s.events).value);
    }
  }

  lemma MemoryKeepsAllSettled(s: State, step: Step)
    requires Inv(s) && ExactInv(s) && Settled(s) && Enabled(s, step)
    requires Recovered(s.events).Some? ==> PureInv(s.transcript, s.memory)
    requires !step.Acknowledge? && !step.Report? && !step.Accept? && !step.OtherRow? && !step.OtherEvent?
    requires !step.Write?
    ensures Settled(Apply(s, step))
  {
  }

  lemma StepKeepsSettled(s: State, step: Step)
    requires Inv(s) && ExactInv(s) && Settled(s) && Enabled(s, step)
    requires Recovered(s.events).Some? ==> PureInv(s.transcript, s.memory)
    ensures Settled(Apply(s, step))
  {
    match step
    case Accept(_, _) => AcceptKeepsAllSettled(s, step);
    case Write(_, ids) =>
      if s.exact {
        WriteKeepsSettled(s.events, s.transcript, s.clock, Recovered(s.events).value, s.memory.value, ids);
      }
    case Acknowledge => AcknowledgeKeepsAllSettled(s);
    case Report(ok) => ReportKeepsAllSettled(s, ok);
    case OtherRow(_, _, _) => OtherRowKeepsAllSettled(s, step);
    case OtherEvent => OtherEventKeepsAllSettled(s);
    case _ => MemoryKeepsAllSettled(s, step);
  }

  /** While every count was exact and no message was queued again after it was written, the log
      confirms exactly the messages that were written and acknowledged. */
  lemma {:induction false} SettledInEveryRun(run: Run)
    requires Valid(run) && NoTheft(run)
    ensures Settled(run.s)
  {
    if run.Then? {
      SettledInEveryRun(run.before);
      InvHoldsInEveryRun(run.before);
      if Recovered(run.before.s.events).Some? { PureInEveryRun(run.before); }
      StepKeepsSettled(run.before.s, run.step);
    }
  }

  // ---- the counts ----

  /** A row reads like a delivery exactly when it is one. */
  lemma {:induction false} ClaimedAreRows(t: Transcript, clock: nat, entries: seq<Entry>, n: nat, text: string)
    requires RowInv(t, clock, entries) && n <= |t.rows|
    ensures CountClaimed(t.rows, entries, n, text) == CountRows(t, n, text)
  {
    if n > 0 {
      ClaimedAreRows(t, clock, entries, n - 1, text);
      assert Claimed(t.rows[n - 1], entries) <==> t.origins[n - 1].Some?;
    }
  }

  /** How many of the first `n` acceptances have this text, are open and are in the set. */
  function CountOpenIn(entries: seq<Entry>, n: nat, text: string, chosen: set<nat>): nat
    requires n <= |entries|
  {
    if n == 0 then 0
    else
      CountOpenIn(entries, n - 1, text, chosen)
      + if entries[n - 1].text == text && !entries[n - 1].acked && n - 1 in chosen then 1 else 0
  }

  /** The written messages are the confirmed ones and the open ones that are written. */
  lemma {:induction false} WrittenSplit(
    events: seq<Event>, t: Transcript, entries: seq<Entry>, n: nat, text: string, chosen: set<nat>)
    requires n <= |entries|
    requires forall k: nat | k < n :: Confirmed(events, entries[k]) <==> entries[k].acked && k in chosen
    ensures CountIn(entries, n, text, chosen)
         == CountConfirmed(events, entries, n, text) + CountOpenIn(entries, n, text, chosen)
  {
    if n > 0 { WrittenSplit(events, t, entries, n - 1, text, chosen); }
  }

  /** With every open message of the text before `k` in the set, they are all counted. */
  lemma {:induction false} OpenAllIn(entries: seq<Entry>, k: nat, n: nat, text: string, chosen: set<nat>)
    requires k <= n <= |entries|
    requires forall j: nat | j < k && entries[j].text == text && !entries[j].acked :: j in chosen
    ensures CountOpen(entries, k, text) <= CountOpenIn(entries, n, text, chosen)
    decreases n
  {
    if k < n {
      OpenAllIn(entries, k, n - 1, text, chosen);
    } else if n > 0 {
      OpenAllIn(entries, k - 1, n - 1, text, chosen);
    }
  }

  /** With none from `k` on in the set, no more are counted than there are before `k`. */
  lemma {:induction false} OpenNoneIn(entries: seq<Entry>, k: nat, n: nat, text: string, chosen: set<nat>)
    requires k <= |entries| && n <= |entries|
    requires forall j: nat | k <= j < |entries| :: j !in chosen
    ensures CountOpenIn(entries, n, text, chosen) <= CountOpen(entries, if n < k then n else k, text)
  {
    if n > 0 { OpenNoneIn(entries, k, n - 1, text, chosen); }
  }

  lemma OpenBeforeWritten(events: seq<Event>, t: Transcript, entries: seq<Entry>, j: nat, k: nat)
    requires FrontInv(events, t, entries) && j <= k < |entries| && !entries[j].acked && Written(t, k)
    ensures Written(t, j)
  {
    assert !Wanted(t, entries, j);
  }

  lemma NoneWrittenAfterWanted(events: seq<Event>, t: Transcript, entries: seq<Entry>, j: nat, k: nat)
    requires FrontInv(events, t, entries) && k <= j && Wanted(t, entries, k)
    ensures !Written(t, j)
  {
  }

  /** The open written messages of a text are the first open ones. */
  lemma WrittenIsAmongFirst(events: seq<Event>, t: Transcript, entries: seq<Entry>, k: nat, chosen: set<nat>)
    requires FrontInv(events, t, entries) && k < |entries| && !entries[k].acked && Written(t, k)
    requires forall j: nat :: j in chosen <==> Written(t, j)
    ensures CountOpen(entries, k, entries[k].text) < CountOpenIn(entries, |entries|, entries[k].text, chosen)
  {
    var text := entries[k].text;
    forall j: nat | j < k + 1 && entries[j].text == text && !entries[j].acked ensures j in chosen {
      OpenBeforeWritten(events, t, entries, j, k);
    }
    OpenAllIn(entries, k + 1, |entries|, text, chosen);
  }

  lemma WantedIsBeyond(events: seq<Event>, t: Transcript, entries: seq<Entry>, k: nat, chosen: set<nat>)
    requires FrontInv(events, t, entries) && Wanted(t, entries, k)
    requires forall j: nat :: j in chosen <==> Written(t, j)
    ensures CountOpen(entries, k, entries[k].text) >= CountOpenIn(entries, |entries|, entries[k].text, chosen)
  {
    forall j: nat | k <= j < |entries| ensures j !in chosen {
      NoneWrittenAfterWanted(events, t, entries, j, k);
    }
    OpenNoneIn(entries, k, |entries|, entries[k].text, chosen);
  }

  lemma ConfirmedAreWritten(events: seq<Event>, t: Transcript, clock: nat, entries: seq<Entry>, k: nat)
    requires EntryInv(events, clock, entries) && SettledInv(events, t, entries) && k < |entries|
    ensures Confirmed(events, entries[k]) <==> entries[k].acked && Written(t, k)
  {
    if Confirmed(events, entries[k]) {
      assert ConfirmedEntry(t, entries, Delivered(entries[k].text, entries[k].id));
    }
  }

  /** Which open messages are in the transcript can be read off the log and the rows. */
  lemma WrittenIffRowsReach(events: seq<Event>, t: Transcript, clock: nat, entries: seq<Entry>, k: nat)
    requires EntryInv(events, clock, entries) && RowInv(t, clock, entries) && FrontInv(events, t, entries)
    requires OriginsIncrease(t) && SettledInv(events, t, entries) && k < |entries| && !entries[k].acked
    ensures Written(t, k) <==> RowsReach(events, t.rows, entries, k)
  {
    var text, chosen := entries[k].text, Origins(t, |t.rows|);
    forall j: nat ensures j in chosen <==> Written(t, j) { OriginsAre(t, |t.rows|, j); }
    forall j: nat | j < |entries| ensures Confirmed(events, entries[j]) <==> entries[j].acked && j in chosen {
      ConfirmedAreWritten(events, t, clock, entries, j);
    }
    WrittenSplit(events, t, entries, |entries|, text, chosen);
    RowsCountOrigins(t, clock, entries, |t.rows|, text);
    ClaimedAreRows(t, clock, entries, |t.rows|, text);
    if Written(t, k) {
      WrittenIsAmongFirst(events, t, entries, k, chosen);
    } else {
      WantedIsBeyond(events, t, entries, k, chosen);
    }
  }

  lemma ClearEntryIffNotStolen(events: seq<Event>, t: Transcript, clock: nat, entries: seq<Entry>, k: nat)
    requires EntryInv(events, clock, entries) && RowInv(t, clock, entries) && FrontInv(events, t, entries)
    requires OriginsIncrease(t) && SettledInv(events, t, entries) && k < |entries|
    ensures ClearEntry(events, t.rows, entries, k) <==> !Stolen(t, entries, k)
  {
    if !entries[k].acked { WrittenIffRowsReach(events, t, clock, entries, k); }
    ClaimedAreRows(t, clock, entries, |t.rows|, entries[k].text);
  }

  lemma ClearIffNothingStolen(events: seq<Event>, t: Transcript, clock: nat, entries: seq<Entry>)
    requires Recovered(events) == Some(entries)
    requires EntryInv(events, clock, entries) && RowInv(t, clock, entries) && FrontInv(events, t, entries)
    requires OriginsIncrease(t) && SettledInv(events, t, entries)
    ensures Clear(events, t.rows) <==> forall k: nat :: !Stolen(t, entries, k)
  {
    forall k: nat | k < |entries| ensures ClearEntry(events, t.rows, entries, k) <==> !Stolen(t, entries, k) {
      ClearEntryIffNotStolen(events, t, clock, entries, k);
    }
  }

  // ---- the theorems ----

  lemma ClearIffNoTheftNext(run: Run)
    requires Valid(run) && run.s.exact && NoTheft(run)
    ensures Recovered(run.s.events).Some? && (Clear(run.s.events, run.s.transcript.rows) <==> !RowStolen(run.s))
  {
    InvHoldsInEveryRun(run);
    SettledInEveryRun(run);
    PureInEveryRun(run);
    ClearIffNothingStolen(run.s.events, run.s.transcript, run.s.clock, Recovered(run.s.events).value);
  }

  /** Every restore of the history found the log and the transcript clear. */
  predicate AllClear(run: Run)
  {
    run.Then? ==>
      AllClear(run.before) && (run.step.Restore? ==> Clear(run.before.s.events, run.before.s.transcript.rows))
  }

  lemma {:induction false} NoTheftIffAllClear(run: Run)
    requires Valid(run) && run.s.exact
    ensures NoTheft(run) <==> AllClear(run)
  {
    if run.Then? {
      NoTheftIffAllClear(run.before);
      if NoTheft(run.before) { ClearIffNoTheftNext(run.before); }
    }
  }

  /** Every restore of the history was exact. */
  ghost predicate RestoresAreExact(run: Run)
  {
    run.Then? ==> RestoresAreExact(run.before) && (run.step.Restore? ==> RestoreIsExact(run.before.s))
  }

  lemma {:induction false} RestoresAreExactIffNoTheft(run: Run)
    requires Valid(run)
    ensures RestoresAreExact(run) <==> NoTheft(run)
  {
    if run.Then? {
      RestoresAreExactIffNoTheft(run.before);
      RestoreIsExactUnlessStolen(run.before);
    }
  }

  /** In a history with exact counts, all restores queue exactly the messages that are accepted,
      not in the transcript and not acknowledged, if and only if each of them found the log and
      the transcript clear. */
  lemma RestoresAreExactIffAllClear(run: Run)
    requires Valid(run) && run.s.exact
    ensures RestoresAreExact(run) <==> AllClear(run)
  {
    RestoresAreExactIffNoTheft(run);
    NoTheftIffAllClear(run);
  }

  /** And then the next restore is exact if and only if log and transcript are clear now. */
  lemma RestoreIsExactIffClear(run: Run)
    requires Valid(run) && run.s.exact && AllClear(run)
    ensures RestoreIsExact(run.s) <==> Clear(run.s.events, run.s.transcript.rows)
  {
    NoTheftIffAllClear(run);
    ClearIffNoTheftNext(run);
    RestoreIsExactUnlessStolen(run);
  }

  /** So a check of log and transcript before each restore is enough for at most once. */
  lemma ClearRestoresWriteAtMostOnce(run: Run, q: nat, r: nat)
    requires Valid(run) && run.s.exact && AllClear(run)
    requires q < r < |run.s.transcript.origins|
    requires run.s.transcript.origins[q].Some? && run.s.transcript.origins[r].Some?
    ensures run.s.transcript.origins[q].value < run.s.transcript.origins[r].value
  {
    NoTheftIffAllClear(run);
    InvHoldsInEveryRun(run);
    WrittenInOrderAtMostOnce(run, q, r);
  }
}
