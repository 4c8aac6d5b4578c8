/** Histories in which the inbox does not do what it is for, for any text. */
module InboxExamples {
  import opened Conversation
  import opened Options
  import opened Inbox
  import opened InboxRecovery
  import opened InboxProtocol
  import opened InboxRanks
  import opened InboxSteps
  import opened InboxTheorems
  import opened InboxClear
  import opened InboxConversations
  import opened InboxReports

  function Idle(): Option<Memory>
  {
    Some(Memory([], [], [], [], Running))
  }

  // ---- a repeated text is counted twice, and then close fails ----

  lemma AcceptedFirst(text: string) returns (run: Run)
    ensures Valid(run) && Conversations(run) && NoTheft(run)
    ensures run.s == State([Queued(text, Some(0), 0)], Transcript([], []), 0, 1,
                           Some(Memory([text], [text], [Some(0)], [0], Running)), true)
  {
    var r0 := Begin(State([], Transcript([], []), 0, 1, Idle(), true));
    run := Do(r0, Accept(text, 0));
    assert [] + [text] == [text] && [] + [Some(0 as AcceptanceId)] == [Some(0)] && [] + [0 as nat] == [0];
    assert [] + [Queued(text, Some(0), 0)] == [Queued(text, Some(0), 0)];
  }

  lemma AcceptedWhileRecording(text: string) returns (run: Run)
    ensures Valid(run) && Conversations(run)
    ensures run.s == State([Queued(text, Some(0), 0), Queued(text, Some(1), 0)], Transcript([], []), 0, 1,
                           Some(Memory([text], [text, text], [Some(0), Some(1)], [0, 1], Running)), true)
  {
    var r1 := AcceptedFirst(text);
    var r2 := Do(r1, Take);
    assert Valid(r2) && Conversations(r2);
    assert QueuedCount([Queued(text, Some(0), 0)]) == 1;
    run := Do(r2, Accept(text, 1));
    assert [] + [text] == [text] && [text] + [text] == [text, text] && [0 as nat] + [1] == [0, 1];
    assert [Some(0 as AcceptanceId)] + [Some(1)] == [Some(0), Some(1)];
    assert run.s.events == [Queued(text, Some(0), 0), Queued(text, Some(1), 0)];
  }

  lemma RecordedTwice(text: string, r4: Run) returns (run: Run)
    requires Valid(r4) && Conversations(r4) && !NoRepeat(r4) && r4.s.memory.Some?
    requires r4.s.memory.value == Memory([text], [text, text], [Some(0), Some(1)], [0, 1], Writing(2, 0))
    ensures Valid(run) && Conversations(run) && !NoRepeat(run)
    ensures run.s.memory == Some(Memory([text], [], [], [], Running))
  {
    var r5 := Do(r4, Step.Acknowledge);
    assert Valid(r5) && Conversations(r5) && !NoRepeat(r5);
    var r6 := Do(r5, Step.Acknowledge);
    assert Valid(r6) && Conversations(r6) && !NoRepeat(r6);
    assert r6.s.memory.value.mode == Writing(2, 2);
    run := Do(r6, Checkpointed);
    assert [text, text][2..] == [];
    assert [Some(0 as AcceptanceId), Some(1)][2..] == [];
    assert [0 as nat, 1][2..] == [];
  }

  lemma TwoEqualMessagesRepeat(text: string, m: Memory)
    requires m.queue == [text] && m.pending == [text, text]
    ensures var messages := [Message(User, text), Message(User, text)];
            EndsWithTaken(m, messages) && RepeatsInbox(m, messages) && DeliveredCount(messages, m.pending, 2) == 2
  {
    var messages := [Message(User, text), Message(User, text)];
    assert EndsWithUserTexts(messages, [text, text][..2]);
    assert messages[1..] == AsUser([text, text][..1]);
    WriteIsExactIffNoRepeat(m, messages);
  }

  /** A text is accepted again while the round that took it first is being recorded behind an
      equal user message: both are recorded, the queue still holds the second, and `close` asks
      for one more message than is pending. */
  lemma RepeatedTextBreaksClose(text: string) returns (run: Run)
    ensures Valid(run) && Conversations(run) && !NoRepeat(run)
    ensures run.s.memory == Some(Memory([text], [], [], [], Running))
    ensures Enabled(run.s, Step.Close) && Apply(run.s, Step.Close).memory.value.mode == Broken
  {
    var r3 := AcceptedWhileRecording(text);
    var messages := [Message(User, text), Message(User, text)];
    TwoEqualMessagesRepeat(text, r3.s.memory.value);
    var r4 := Do(r3, Write(messages, [0, 1]));
    assert Valid(r4) && Conversations(r4) && !NoRepeat(r4);
    run := RecordedTwice(text, r4);
  }

  // ---- a close after a failed checkpoint makes the log unreadable ----

  function Thrice(text: string): seq<Event>
  {
    [Queued(text, Some(0), 0), Queued(text, Some(1), 0), Queued(text, Some(2), 0)]
  }

  function ThreeOf(text: string, queue: seq<string>, mode: Mode): Memory
  {
    Memory(queue, [text, text, text], [Some(0), Some(1), Some(2)], [0, 1, 2], mode)
  }

  ghost function ThriceState(text: string, queue: seq<string>): State
  {
    State(Thrice(text), Transcript([], []), 0, 3, Some(ThreeOf(text, queue, Running)), true)
  }

  lemma ThriceCounts(text: string)
    ensures QueuedCount(Thrice(text)[..1]) == 1 && QueuedCount(Thrice(text)[..2]) == 2 && QueuedCount(Thrice(text)) == 3
  {
    var events := Thrice(text);
    QueuedCountAppend([], events[0]);
    QueuedCountAppend(events[..1], events[1]);
    QueuedCountAppend(events[..2], events[2]);
    assert [] + [events[0]] == events[..1] && events[..1] + [events[1]] == events[..2];
    assert events[..2] + [events[2]] == events;
  }

  /** One message is accepted and taken. */
  lemma TakenOnce(text: string) returns (run: Run)
    ensures Valid(run) && Conversations(run)
    ensures run.s == State(Thrice(text)[..1], Transcript([], []), 0, 3,
                           Some(Memory([], [text], [Some(0)], [0], Running)), true)
  {
    var r0 := Begin(State([], Transcript([], []), 0, 3, Idle(), true));
    var r1 := Do(r0, Accept(text, 0));
    assert Valid(r1) && Conversations(r1);
    assert [] + [text] == [text] && [] + [Some(0 as AcceptanceId)] == [Some(0)] && [] + [0 as nat] == [0];
    assert r1.s.events == Thrice(text)[..1];
    run := Do(r1, Take);
  }

  /** The same text arrives twice more before the round is recorded. */
  lemma AcceptedTwice(text: string) returns (run: Run)
    ensures Valid(run) && Conversations(run)
    ensures run.s == State(Thrice(text)[..2], Transcript([], []), 0, 3,
                           Some(Memory([text], [text, text], [Some(0), Some(1)], [0, 1], Running)), true)
  {
    var r1 := TakenOnce(text);
    ThriceCounts(text);
    run := Do(r1, Accept(text, 1));
    assert run.s.events == Thrice(text)[..2];
    assert [] + [text] == [text] && [text] + [text] == [text, text] && [0 as nat] + [1] == [0, 1];
    assert [Some(0 as AcceptanceId)] + [Some(1)] == [Some(0), Some(1)];
  }

  lemma AcceptedThrice(text: string) returns (run: Run)
    ensures Valid(run) && Conversations(run) && run.s == ThriceState(text, [text, text])
  {
    var r2 := AcceptedTwice(text);
    ThriceCounts(text);
    run := Do(r2, Accept(text, 2));
    assert run.s.events == Thrice(text) && [text] + [text] == [text, text];
    assert [text, text] + [text] == [text, text, text] && [0 as nat, 1] + [2] == [0, 1, 2];
    assert [Some(0 as AcceptanceId), Some(1)] + [Some(2)] == [Some(0), Some(1), Some(2)];
  }

  lemma ThreeEqualMessages(text: string)
    ensures var messages := AsUser([text, text, text]);
            && EndsWithTaken(ThreeOf(text, [text, text], Running), messages)
            && DeliveredCount(messages, [text, text, text], 3) == 3
  {
    var messages := AsUser([text, text, text]);
    assert EndsWithUserTexts(messages, [text, text, text][..3]);
    assert messages[2..] == AsUser([text, text, text][..1]);
  }

  /** The round is recorded behind two equal user messages, so all three count as taken. */
  lemma RecordedThrice(text: string) returns (run: Run)
    ensures Valid(run) && Conversations(run)
    ensures run.s.events == Thrice(text) && run.s.clock == 0 && run.s.capacity == 3
    ensures run.s.memory == Some(ThreeOf(text, [text, text], Writing(3, 0)))
    ensures |run.s.transcript.rows| == |run.s.transcript.origins|
    ensures run.s.transcript.origins == [Some(0), Some(1), Some(2)]
  {
    var r1 := AcceptedThrice(text);
    ThreeEqualMessages(text);
    run := Do(r1, Write(AsUser([text, text, text]), [0, 1, 2]));
    assert run.s.transcript.origins == [Some(0), Some(1), Some(2)];
  }

  lemma AcknowledgedOfThree(run: Run, text: string, queue: seq<string>, k: nat) returns (run': Run)
    requires Valid(run) && Conversations(run) && k < 3
    requires run.s.memory == Some(ThreeOf(text, queue, Writing(3, k)))
    ensures Valid(run') && Conversations(run')
    ensures run'.s == run.s.(events := run.s.events + [Delivered(text, Some(k))],
                             memory := Some(ThreeOf(text, queue, Writing(3, k + 1))))
  {
    run' := Do(run, Step.Acknowledge);
  }

  lemma AbortedOfThree(run: Run, text: string, queue: seq<string>, k: nat) returns (run': Run)
    requires Valid(run) && Conversations(run) && k < 3
    requires run.s.memory == Some(ThreeOf(text, queue, Writing(3, k)))
    ensures Valid(run') && Conversations(run')
    ensures run'.s == run.s.(memory := Some(ThreeOf(text, queue, Aborted(3, k))))
  {
    run' := Do(run, AcknowledgeFails);
  }

  lemma TwoMore(events: seq<Event>, a: Event, b: Event)
    ensures events + [a] + [b] == events + [a, b]
  {
  }

  /** Two of the three acknowledgements are stored, the third fails. */
  lemma FailedAtThird(text: string) returns (run: Run)
    ensures Valid(run) && Conversations(run)
    ensures run.s.events == Thrice(text) + [Delivered(text, Some(0)), Delivered(text, Some(1))]
    ensures run.s.clock == 0 && run.s.capacity == 3
    ensures run.s.memory == Some(ThreeOf(text, [text, text], Aborted(3, 2)))
    ensures |run.s.transcript.rows| == |run.s.transcript.origins|
    ensures run.s.transcript.origins == [Some(0), Some(1), Some(2)]
  {
    var r1 := RecordedThrice(text);
    var r2 := AcknowledgedOfThree(r1, text, [text, text], 0);
    var r3 := AcknowledgedOfThree(r2, text, [text, text], 1);
    TwoMore(Thrice(text), Delivered(text, Some(0)), Delivered(text, Some(1)));
    run := AbortedOfThree(r3, text, [text, text], 2);
  }

  /** One more message is accepted before the inbox is closed. */
  lemma AcceptedAfterFailure(text: string, last: string) returns (run: Run)
    ensures Valid(run) && Conversations(run)
    ensures run.s.events
            == Thrice(text) + [Delivered(text, Some(0)), Delivered(text, Some(1)), Queued(last, Some(3), 0)]
    ensures run.s.memory.Some? && run.s.memory.value.mode == Aborted(3, 2) && Taken(run.s.memory.value) == 1
    ensures run.s.memory.value.pending == [text, text, text, last]
    ensures |run.s.memory.value.ids| == 4 && run.s.memory.value.ids[1] == Some(1)
    ensures run.s.transcript.origins == [Some(0), Some(1), Some(2)]
  {
    var r1 := FailedAtThird(text);
    assert forall e | e in r1.s.events && e.Queued? :: e.id != Some(3);
    run := Do(r1, Accept(last, 3));
    assert [text, text, text] + [last] == [text, text, text, last];
  }

  /** The close reports the second message undelivered, and the process dies. */
  lemma ReportedAfterFailure(text: string, last: string) returns (run: Run)
    ensures Valid(run) && Conversations(run) && run.s.memory.None? && Recovered(run.s.events).None?
    ensures run.s.transcript.origins == [Some(0), Some(1), Some(2)]
    ensures run.s.events == Stranded(text, last)
  {
    var r1 := AcceptedAfterFailure(text, last);
    var closed := Do(r1, Step.Close);
    assert Valid(closed) && Conversations(closed);
    var reported := CloseOutOfRangeBreaksLog(r1, closed);
    assert reported.s.events == r1.s.events + [Undelivered(text, Some(1))];
    assert Valid(reported) && Conversations(reported);
    run := Do(reported, Crash);
  }

  function Stranded(text: string, last: string): seq<Event>
  {
    Thrice(text) + [Delivered(text, Some(0)), Delivered(text, Some(1)), Queued(last, Some(3), 0)]
    + [Undelivered(text, Some(1))]
  }

  lemma StrandedEvents(text: string, last: string)
    ensures Queued(last, Some(3), 0) in Stranded(text, last)
    ensures forall e | e in Stranded(text, last) && (e.Delivered? || e.Undelivered?) :: e.id != Some(3)
  {
    assert Stranded(text, last)[5] == Queued(last, Some(3), 0);
  }

  /** For any texts: closing after that failure reports an acknowledged message, the log can never
      be read back again, and after a crash no restore ever queues the last message, although it
      was accepted and neither written nor acknowledged. */
  lemma FailedCheckpointStrandsMessage(text: string, last: string) returns (run: Run)
    ensures Valid(run) && Conversations(run) && run.s.memory.None?
    ensures Queued(last, Some(3), 0) in run.s.events && !Written(run.s.transcript, 3)
    ensures forall e | e in run.s.events && (e.Delivered? || e.Undelivered?) :: e.id != Some(3)
    ensures forall later | Valid(later) && Extends(later, run) ::
              Recovered(later.s.events).None? && later.s.memory.None?
  {
    run := ReportedAfterFailure(text, last);
    StrandedEvents(text, last);
    forall later | Valid(later) && Extends(later, run)
      ensures Recovered(later.s.events).None? && later.s.memory.None?
    {
      UnreadableForGood(run, later);
    }
  }

  // ---- a row can be stolen ----

  /** The log of one message that was accepted and then reported undelivered. */
  function Reported(text: string): seq<Event>
  {
    [Queued(text, Some(0), 0), Undelivered(text, Some(0))]
  }

  lemma ReportedEntries(text: string)
    ensures Recovered(Reported(text)) == Some([Entry(text, Some(0), 0, true)])
    ensures QueuedCount(Reported(text)) == 1
  {
    var queued, open := Queued(text, Some(0), 0), Entry(text, Some(0), 0, false);
    assert [queued] == [] + [queued] && Reported(text) == [queued] + [Undelivered(text, Some(0))];
    RecoveredAppend([], queued);
    RecoveredAppend([queued], Undelivered(text, Some(0)));
    QueuedCountAppend([], queued);
    QueuedCountAppend([queued], Undelivered(text, Some(0)));
    assert Recovered([queued]) == Some([] + [open]);
    assert [] + [open] == [open] && Acknowledges(open, text, Some(0));
    assert [open][0 := open.(acked := true)] == [open.(acked := true)];
  }

  /** A message is accepted, reported undelivered at the end of the run, and the process dies. */
  lemma DiedAfterReport(text: string) returns (run: Run)
    ensures Valid(run) && NoTheft(run) && run.s == State(Reported(text), Transcript([], []), 0, 1, None, true)
  {
    var r1 := AcceptedFirst(text);
    var r2 := Do(r1, Step.Close);
    assert Valid(r2) && NoTheft(r2);
    var r3 := Do(r2, Report(true));
    assert Valid(r3) && NoTheft(r3) && r3.s.events == Reported(text);
    run := Do(r3, Crash);
  }

  /** The restored inbox is empty. */
  lemma RestartedAfterReport(text: string) returns (run: Run)
    ensures Valid(run) && NoTheft(run)
    ensures run.s == State(Reported(text), Transcript([], []), 0, 1, Idle(), true)
  {
    var r0 := DiedAfterReport(text);
    ReportedEntries(text);
    var closed := [Entry(text, Some(0), 0, true)];
    assert |closed| == 1 && After(closed, [], 1).queued == [];
    assert Texts(closed, []) == [] && Ids(closed, []) == [];
    assert forall k: nat :: !Stolen(r0.s.transcript, closed, k);
    assert !RowStolen(r0.s);
    run := Do(r0, Restore);
  }

  /** The child then accepts the same text, and a round takes it. */
  lemma AcceptedAgain(text: string) returns (run: Run)
    ensures Valid(run) && NoTheft(run)
    ensures run.s == State(Reported(text) + [Queued(text, Some(1), 0)], Transcript([], []), 0, 1,
                           Some(Memory([], [text], [Some(1)], [1], Running)), true)
  {
    var r1 := RestartedAfterReport(text);
    ReportedEntries(text);
    var r2 := Do(r1, Accept(text, 1));
    assert [] + [text] == [text] && [] + [Some(1 as AcceptanceId)] == [Some(1)] && [] + [1 as nat] == [1];
    assert Valid(r2) && NoTheft(r2);
    run := Do(r2, Take);
  }

  /** It writes the message, and has not acknowledged it yet. */
  lemma WrittenOnce(text: string) returns (run: Run)
    ensures Valid(run) && NoTheft(run)
    ensures run.s == State(Reported(text) + [Queued(text, Some(1), 0)],
                           Transcript([Row(0, User, text, 0)], [Some(1)]), 0, 1,
                           Some(Memory([], [text], [Some(1)], [1], Writing(1, 0))), true)
  {
    var r3 := AcceptedAgain(text);
    var messages := [Message(User, text)];
    assert Inbox.Fits(messages, [text], 1);
    run := Do(r3, Write(messages, [0]));
    assert run.s.transcript == Transcript([Row(0, User, text, 0)], [Some(1)]);
  }

  function TwoAccepted(text: string): seq<Entry>
  {
    [Entry(text, Some(0), 0, true), Entry(text, Some(1), 0, false)]
  }

  lemma TwoAcceptedEntries(text: string)
    ensures Recovered(Reported(text) + [Queued(text, Some(1), 0)]) == Some(TwoAccepted(text))
  {
    ReportedEntries(text);
    RecoveredAppend(Reported(text), Queued(text, Some(1), 0));
    assert TwoAccepted(text) == [Entry(text, Some(0), 0, true)] + [Entry(text, Some(1), 0, false)];
  }

  /** If it dies there, the next restore queues the message although it is in the transcript. */
  lemma SameTextIsRestoredAgain(text: string) returns (run: Run)
    ensures Valid(run) && NoTheft(run) && RowStolen(run.s) && !Clear(run.s.events, run.s.transcript.rows)
    ensures run.s == State(Reported(text) + [Queued(text, Some(1), 0)],
                           Transcript([Row(0, User, text, 0)], [Some(1)]), 0, 1, None, true)
    ensures Restored(TwoAccepted(text), run.s.transcript.rows) == [1]
  {
    var written := WrittenOnce(text);
    run := Do(written, Crash);
    TwoAcceptedEntries(text);
    var entries, t := TwoAccepted(text), run.s.transcript;
    assert t.origins[0] == Some(1);
    assert CountText(entries, 0, text) == 0 && CountText(entries, 1, text) == 1;
    assert t.rows[0].content == text && CountRows(t, 0, text) == 0 && CountRows(t, |t.rows|, text) == 1;
    assert Stolen(t, entries, 1);
    ClearIffNoTheftNext(run);
    InvHoldsInEveryRun(run);
    RestoredIsWantedOrStolen(t, run.s.events, run.s.clock, entries, 0);
    RestoredIsWantedOrStolen(t, run.s.events, run.s.clock, entries, 1);
    QueuedInOrder(entries, t.rows, 2);
    OnlyOne(Restored(entries, t.rows));
  }

  lemma OnlyOne(slots: seq<nat>)
    requires Increasing(slots) && Below(slots, 2) && 0 !in slots && 1 in slots
    ensures slots == [1]
  {
    forall i | 0 <= i < |slots| ensures slots[i] == 1 {
      assert slots[i] in slots;
    }
    assert slots[0] == slots[|slots| - 1] == 1;
  }

  /** And the restored child writes it a second time. */
  lemma SameTextIsWrittenTwice(text: string) returns (run: Run)
    ensures Valid(run) && !NoTheft(run) && WrittenTwice(run.s.transcript, 1)
  {
    var stolen := SameTextIsRestoredAgain(text);
    TwoAcceptedEntries(text);
    InvHoldsInEveryRun(stolen);
    assert Stolen(stolen.s.transcript, TwoAccepted(text), 1) by {
      RestoredIsWantedOrStolen(stolen.s.transcript, stolen.s.events, stolen.s.clock, TwoAccepted(text), 1);
      assert stolen.s.transcript.origins[0] == Some(1);
    }
    run := TheftWritesTwice(stolen, 1);
    if NoTheft(run) {
      var q, r :| 0 <= q < r < |run.s.transcript.origins|
          && run.s.transcript.origins[q] == Some(1) == run.s.transcript.origins[r];
      WrittenInOrderAtMostOnce(run, q, r);
    }
  }

  // ---- after that, log and transcript no longer tell ----

  function Confirmation(text: string): seq<Event>
  {
    Reported(text) + [Queued(text, Some(1), 0), Delivered(text, Some(1)), Queued(text, Some(2), 0)]
  }

  function ThreeAccepted(text: string): seq<Entry>
  {
    [Entry(text, Some(0), 0, true), Entry(text, Some(1), 0, true), Entry(text, Some(2), 0, false)]
  }

  lemma ConfirmationEntries(text: string)
    ensures Recovered(Confirmation(text)) == Some(ThreeAccepted(text))
  {
    var two := Reported(text) + [Queued(text, Some(1), 0)];
    var confirmed := two + [Delivered(text, Some(1))];
    TwoAcceptedEntries(text);
    RecoveredAppend(two, Delivered(text, Some(1)));
    assert MatchingAcceptance(TwoAccepted(text), text, Some(1), 0) == Some(1);
    RecoveredAppend(confirmed, Queued(text, Some(2), 0));
    assert Confirmation(text) == confirmed + [Queued(text, Some(2), 0)];
    assert ThreeAccepted(text)
        == TwoAccepted(text)[1 := Entry(text, Some(1), 0, true)] + [Entry(text, Some(2), 0, false)];
  }

  ghost function Recording(text: string, t: Transcript): State
  {
    State(Reported(text) + [Queued(text, Some(1), 0)], t, 0, 1,
      Some(Memory([], [text], [Some(1)], [1], Writing(1, 0))), true)
  }

  ghost function AcceptedThird(text: string, t: Transcript): State
  {
    State(Confirmation(text), t, 0, 1, Some(Memory([text], [text], [Some(2)], [2], Running)), true)
  }

  lemma IdTwoIsFree(text: string)
    ensures var events := Reported(text) + [Queued(text, Some(1), 0)] + [Delivered(text, Some(1))];
            && (forall e | e in events && e.Queued? :: e.id != Some(2))
            && events + [Queued(text, Some(2), 0)] == Confirmation(text)
  {
  }

  lemma ConfirmationCount(text: string)
    ensures QueuedCount(Reported(text) + [Queued(text, Some(1), 0)] + [Delivered(text, Some(1))]) == 2
  {
    ReportedEntries(text);
    QueuedCountAppend(Reported(text), Queued(text, Some(1), 0));
    QueuedCountAppend(Reported(text) + [Queued(text, Some(1), 0)], Delivered(text, Some(1)));
  }

  lemma AcknowledgedSecond(text: string, run: Run) returns (run': Run)
    requires Valid(run) && run.s == Recording(text, run.s.transcript)
    ensures Valid(run') && (NoTheft(run') <==> NoTheft(run))
    ensures run'.s == run.s.(events := run.s.events + [Delivered(text, Some(1))], memory := Idle())
  {
    var r1 := Do(run, Step.Acknowledge);
    assert Valid(r1) && (NoTheft(r1) <==> NoTheft(run));
    run' := Do(r1, Checkpointed);
    assert [text][1..] == [] && [Some(1 as AcceptanceId)][1..] == [] && [1 as nat][1..] == [];
  }

  /** The message being recorded is acknowledged, and the text is accepted a third time. */
  lemma AcknowledgedThenAccepted(text: string, run: Run) returns (run': Run)
    requires Valid(run) && run.s == Recording(text, run.s.transcript)
    requires |run.s.transcript.rows| == |run.s.transcript.origins|
    requires forall r | 0 <= r < |run.s.transcript.rows| :: run.s.transcript.origins[r].Some?
    ensures Valid(run') && run'.s == AcceptedThird(text, run.s.transcript) && (NoTheft(run') <==> NoTheft(run))
  {
    var r2 := AcknowledgedSecond(text, run);
    ConfirmationCount(text);
    IdTwoIsFree(text);
    run' := Do(r2, Accept(text, 2));
    assert [] + [text] == [text] && [] + [Some(2 as AcceptanceId)] == [Some(2)] && [] + [2 as nat] == [2];
  }

  function TwoRows(text: string): seq<Row>
  {
    [Row(0, User, text, 0), Row(1, User, text, 0)]
  }

  /** A round takes the one pending message and is recorded as the second row. */
  lemma SecondRow(text: string, run: Run, id: AcceptanceId, first: nat, slot: nat) returns (run': Run)
    requires Valid(run) && run.s.clock == 0 && run.s.exact
    requires run.s.memory == Some(Memory([text], [text], [Some(id)], [slot], Running))
    requires run.s.transcript == Transcript([Row(0, User, text, 0)], [Some(first)])
    ensures Valid(run') && (NoTheft(run') <==> NoTheft(run))
    ensures run'.s == run.s.(transcript := Transcript(TwoRows(text), [Some(first), Some(slot)]),
                             memory := Some(Memory([], [text], [Some(id)], [slot], Writing(1, 0))))
  {
    var taken := Do(run, Take);
    assert Valid(taken) && (NoTheft(taken) <==> NoTheft(run));
    var messages := [Message(User, text)];
    assert Inbox.Fits(messages, [text], 1);
    run' := Do(taken, Write(messages, [1]));
    assert run'.s.transcript == Transcript(TwoRows(text), [Some(first), Some(slot)]);
  }

  /** Without a theft, the third message is written as the second row. */
  lemma ThirdIsWritten(text: string) returns (run: Run)
    ensures Valid(run) && NoTheft(run)
    ensures run.s == State(Confirmation(text), Transcript(TwoRows(text), [Some(1), Some(2)]), 0, 1, None, true)
  {
    var r0 := WrittenOnce(text);
    var r1 := AcknowledgedThenAccepted(text, r0);
    var r2 := SecondRow(text, r1, 2, 1, 2);
    run := Do(r2, Crash);
  }

  lemma RestoredSecond(text: string) returns (run: Run)
    ensures Valid(run) && !NoTheft(run)
    ensures run.s == State(Reported(text) + [Queued(text, Some(1), 0)],
                           Transcript([Row(0, User, text, 0)], [Some(1)]), 0, 1,
                           Some(Memory([text], [text], [Some(1)], [1], Running)), true)
  {
    var r0 := SameTextIsRestoredAgain(text);
    TwoAcceptedEntries(text);
    run := Do(r0, Restore);
    assert Texts(TwoAccepted(text), [1]) == [text] && Ids(TwoAccepted(text), [1]) == [Some(1)];
  }

  /** After a theft, the second message has both rows and the third none. */
  lemma ThirdIsMissing(text: string) returns (run: Run)
    ensures Valid(run) && !NoTheft(run)
    ensures run.s == State(Confirmation(text), Transcript(TwoRows(text), [Some(1), Some(1)]), 0, 1, None, true)
  {
    var r0 := RestoredSecond(text);
    var r1 := SecondRow(text, r0, 1, 1, 1);
    var r2 := AcknowledgedThenAccepted(text, r1);
    run := Do(r2, Crash);
  }

  lemma ThirdIsUnmatched(text: string, t: Transcript)
    requires t.rows == TwoRows(text) && |t.origins| == 2 && t.origins[0].Some? && t.origins[1].Some?
    ensures forall k: nat :: Stolen(t, ThreeAccepted(text), k) <==> k == 2 && Written(t, 2)
  {
    var entries := ThreeAccepted(text);
    assert CountText(entries, 0, text) == 0 && CountText(entries, 1, text) == 1 && CountText(entries, 2, text) == 2;
    assert CountRows(t, 0, text) == 0 && CountRows(t, 1, text) == 1 && CountRows(t, 2, text) == 2;
  }

  /** Two histories with exact counts end in the same log and the same transcript, one of them
      after a theft. A restore queues the same messages in both. In one that is right, in the
      other it queues a message that is written: no condition on log and transcript can tell. */
  lemma TheftHidesWhatIsWritten(text: string) returns (honest: Run, robbed: Run)
    ensures Valid(honest) && Valid(robbed) && NoTheft(honest) && !NoTheft(robbed)
    ensures honest.s == robbed.s.(transcript := honest.s.transcript) && robbed.s.exact && robbed.s.memory.None?
    ensures honest.s.transcript.rows == robbed.s.transcript.rows
    ensures !RestoreIsExact(honest.s) && RestoreIsExact(robbed.s)
  {
    honest := ThirdIsWritten(text);
    robbed := ThirdIsMissing(text);
    ConfirmationEntries(text);
    ThirdIsUnmatched(text, honest.s.transcript);
    ThirdIsUnmatched(text, robbed.s.transcript);
    assert honest.s.transcript.origins[1] == Some(2);
    assert Stolen(honest.s.transcript, ThreeAccepted(text), 2);
    RestoreIsExactUnlessStolen(honest);
    RestoreIsExactUnlessStolen(robbed);
  }
}
