/** What every history of the inbox promises: a restore loses nothing, and what it repeats. */
module InboxTheorems {
  import opened Options
  import opened Inbox
  import opened InboxRecovery
  import opened InboxProtocol
  import opened InboxRanks
  import opened InboxSteps

  /** A history: an initial state, or a history with one more step. */
  datatype Run = Begin(s: State) | Then(before: Run, step: Step, s: State)

  ghost predicate Valid(run: Run)
  {
    match run
    case Begin(s) => Initial(s)
    case Then(before, step, s) => Valid(before) && Enabled(before.s, step) && s == Apply(before.s, step)
  }

  ghost function Do(run: Run, step: Step): Run
    requires Enabled(run.s, step)
  {
    Then(run, step, Apply(run.s, step))
  }

  lemma {:induction false} InvHoldsInEveryRun(run: Run)
    requires Valid(run)
    ensures Inv(run.s) && ExactInv(run.s) && ReadInv(run.s)
  {
    if run.Then? {
      InvHoldsInEveryRun(run.before);
      StepKeepsInv(run.before.s, run.step);
      StepKeepsExact(run.before.s, run.step);
      StepKeepsReadable(run.before.s, run.step);
    }
  }

  /** What is restored holds everything that was accepted and neither written nor acknowledged,
      in the order of acceptance, and nothing that was acknowledged. */
  ghost predicate NothingLost(t: Transcript, entries: seq<Entry>, restored: seq<nat>)
  {
    && Increasing(restored) && Below(restored, |entries|)
    && (forall k: nat | Wanted(t, entries, k) :: k in restored)
    && (forall k: nat | k in restored :: !entries[k].acked)
  }

  /** After every history a restore fails exactly on a log that cannot be read back or on more
      messages than fit in the queue, and otherwise loses nothing. */
  lemma RestoreLosesNothing(run: Run)
    requires Valid(run)
    ensures match Recovered(run.s.events)
            case None => Rebuild(run.s).None?
            case Some(entries) =>
              var restored := Restored(entries, run.s.transcript.rows);
              && NothingLost(run.s.transcript, entries, restored)
              && (Rebuild(run.s).None? <==> |restored| > run.s.capacity)
              && (Rebuild(run.s).Some? ==>
                    var m := Rebuild(run.s).value;
                    && m.slots == restored && |m.queue| == |restored| && m.pending == m.queue
                    && forall i | 0 <= i < |restored| ::
                         m.queue[i] == entries[restored[i]].text && m.ids[i] == entries[restored[i]].id)
  {
    InvHoldsInEveryRun(run);
    if Recovered(run.s.events).Some? {
      RestoredHasAll(run.s.transcript, run.s.events, run.s.clock, Recovered(run.s.events).value);
    }
  }

  lemma RestoredHasAll(t: Transcript, events: seq<Event>, clock: nat, entries: seq<Entry>)
    requires EntryInv(events, clock, entries) && RowInv(t, clock, entries) && FrontInv(events, t, entries)
    ensures NothingLost(t, entries, Restored(entries, t.rows))
  {
    RestoredMemory(t, events, clock, entries);
    var slots := Restored(entries, t.rows);
    assert slots[0..] == slots;
    forall k: nat | k in slots ensures !entries[k].acked {
      var i :| 0 <= i < |slots| && slots[i] == k;
    }
  }

  /** A restore here queues exactly the messages that are accepted, not in the transcript and
      not acknowledged. */
  ghost predicate RestoreIsExact(s: State)
  {
    Recovered(s.events).Some? ==>
      var entries := Recovered(s.events).value;
      forall k: nat :: k in Restored(entries, s.transcript.rows) <==> Wanted(s.transcript, entries, k)
  }

  lemma RestoreIsExactUnlessStolen(run: Run)
    requires Valid(run)
    ensures RestoreIsExact(run.s) <==> !RowStolen(run.s)
  {
    InvHoldsInEveryRun(run);
    if Recovered(run.s.events).Some? {
      var entries, t := Recovered(run.s.events).value, run.s.transcript;
      forall k: nat
        ensures k in Restored(entries, t.rows) <==> Wanted(t, entries, k) || Stolen(t, entries, k)
        ensures Stolen(t, entries, k) ==> !Wanted(t, entries, k)
      {
        RestoredIsWantedOrStolen(t, run.s.events, run.s.clock, entries, k);
      }
    }
  }

  /** While no message was ever reported undelivered, no row is stolen: restores are exact. */
  lemma NoReportNoTheft(run: Run)
    requires Valid(run) && forall e | e in run.s.events :: !e.Undelivered?
    ensures !RowStolen(run.s)
  {
    InvHoldsInEveryRun(run);
    if Recovered(run.s.events).Some? {
      var entries, t := Recovered(run.s.events).value, run.s.transcript;
      forall k: nat ensures !Stolen(t, entries, k) {
        if Stolen(t, entries, k) {
          StolenOnlyAfterUndelivered(t, run.s.events, run.s.clock, entries, k);
        }
      }
    }
  }

  // ---- at most once ----

  /** No restore of the history queued a message that was already in the transcript. */
  ghost predicate NoTheft(run: Run)
  {
    run.Then? ==> NoTheft(run.before) && (run.step.Restore? ==> !RowStolen(run.before.s))
  }

  /** Rows follow acceptance, and what is pending and not recorded is not in the transcript. */
  ghost predicate PureInv(t: Transcript, memory: Option<Memory>)
  {
    && OriginsIncrease(t)
    && (memory.Some? && !IsClosed(memory.value.mode) ==>
          forall i | Done(memory.value) <= i < |memory.value.slots| :: !Written(t, memory.value.slots[i]))
  }

  lemma AcceptKeepsPure(s: State, step: Step)
    requires Inv(s) && Enabled(s, step) && step.Accept? && Recovered(s.events).Some? && PureInv(s.transcript, s.memory)
    ensures PureInv(Apply(s, step).transcript, Apply(s, step).memory)
  {
    var entries := Recovered(s.events).value;
    if Written(s.transcript, QueuedCount(s.events)) {
      WrittenIsAccepted(s.transcript, s.clock, entries, QueuedCount(s.events));
    }
  }

  lemma WriteKeepsPure(t: Transcript, events: seq<Event>, clock: nat, entries: seq<Entry>, m: Memory, ids: seq<nat>)
    requires |t.rows| == |t.origins| && MemoryInv(t, entries, m) && FrontInv(events, t, entries) && m.mode.Running?
    requires |ids| <= |m.slots|
    requires PureInv(t, Some(m))
    ensures PureInv(WithRows(t, m, ids, clock), Some(m.(mode := Writing(|ids|, 0))))
  {
    var t' := WithRows(t, m, ids, clock);
    forall q, r | 0 <= q < r < |t'.origins| && t'.origins[q].Some? && t'.origins[r].Some?
      ensures t'.origins[q].value < t'.origins[r].value
    {
      if q < |t.origins| <= r {
        assert Written(t, t'.origins[q].value) && Wanted(t, entries, m.slots[r - |t.origins|]);
      }
    }
    forall i | |ids| <= i < |m.slots| ensures !Written(t', m.slots[i]) {
      RowsWritten(t, m, ids, clock, m.slots[i]);
    }
  }

  lemma RestoreKeepsPure(s: State)
    requires Inv(s) && Enabled(s, Restore) && !RowStolen(s) && Recovered(s.events).Some?
    requires OriginsIncrease(s.transcript)
    ensures PureInv(s.transcript, Apply(s, Restore).memory)
  {
    var t, entries := s.transcript, Recovered(s.events).value;
    var slots := Restored(entries, t.rows);
    forall i | 0 <= i < |slots| ensures !Written(t, slots[i]) {
      RestoredIsWantedOrStolen(t, s.events, s.clock, entries, slots[i]);
    }
  }

  lemma OtherRowKeepsPure(t: Transcript, row: Row, memory: Option<Memory>)
    requires PureInv(t, memory)
    ensures PureInv(Append(t, [row], [None]), memory)
  {
  }

  lemma StepKeepsPure(s: State, step: Step)
    requires Inv(s) && Enabled(s, step) && (step.Restore? ==> !RowStolen(s))
    requires Recovered(s.events).Some? && PureInv(s.transcript, s.memory)
    ensures PureInv(Apply(s, step).transcript, Apply(s, step).memory)
  {
    match step
    case OtherRow(id, role, content) => OtherRowKeepsPure(s.transcript, Row(id, role, content, s.clock), s.memory);
    case Accept(_, _) => AcceptKeepsPure(s, step);
    case Write(_, ids) => WriteKeepsPure(s.transcript, s.events, s.clock, Recovered(s.events).value, s.memory.value,
        ids);
    case Restore => RestoreKeepsPure(s);
    case _ =>
  }

  /** A log that can be read back could always be read back before. */
  lemma RecoveredBefore(s: State, step: Step)
    requires Enabled(s, step) && Recovered(Apply(s, step).events).Some?
    ensures Recovered(s.events).Some?
  {
    var events := Apply(s, step).events;
    assert events != s.events ==> events[..|s.events|] == s.events;
  }

  lemma {:induction false} PureInEveryRun(run: Run)
    requires Valid(run) && NoTheft(run) && Recovered(run.s.events).Some?
    ensures PureInv(run.s.transcript, run.s.memory)
  {
    if run.Then? {
      RecoveredBefore(run.before.s, run.step);
      PureInEveryRun(run.before);
      InvHoldsInEveryRun(run.before);
      StepKeepsPure(run.before.s, run.step);
    }
  }

  lemma OtherStepKeepsOrigins(s: State, step: Step)
    requires Enabled(s, step) && !step.Write? && OriginsIncrease(s.transcript)
    ensures OriginsIncrease(Apply(s, step).transcript)
  {
  }

  /** Once the log cannot be read back, nothing is written for the inbox any more. */
  lemma {:induction false} OriginsInEveryRun(run: Run)
    requires Valid(run) && NoTheft(run)
    ensures OriginsIncrease(run.s.transcript)
  {
    if Recovered(run.s.events).Some? {
      PureInEveryRun(run);
    } else if run.Then? {
      OriginsInEveryRun(run.before);
      assert ReadInv(run.s) by { InvHoldsInEveryRun(run); }
      assert !run.step.Write?;
      OtherStepKeepsOrigins(run.before.s, run.step);
    }
  }

  /** Unless a restore queued a written message again, no accepted message is written to the
      transcript twice, and rows follow acceptance. */
  lemma WrittenInOrderAtMostOnce(run: Run, q: nat, r: nat)
    requires Valid(run) && NoTheft(run)
    requires q < r < |run.s.transcript.origins|
    requires run.s.transcript.origins[q].Some? && run.s.transcript.origins[r].Some?
    ensures run.s.transcript.origins[q].value < run.s.transcript.origins[r].value
  {
    OriginsInEveryRun(run);
  }

  // ---- what a theft leads to ----

  ghost predicate WrittenTwice(t: Transcript, k: nat)
  {
    exists q, r :: 0 <= q < r < |t.origins| && t.origins[q] == Some(k) == t.origins[r]
  }

  lemma {:induction false} UnusedIds(rows: seq<Row>) returns (base: nat)
    ensures forall id: nat | base <= id :: Fresh(rows, id)
  {
    if rows == [] {
      base := 0;
    } else {
      var last := rows[|rows| - 1].id;
      base := UnusedIds(rows[..|rows| - 1]);
      base := if base <= last then last + 1 else base;
      forall id: nat | base <= id ensures Fresh(rows, id) {
        assert Fresh(rows[..|rows| - 1], id);
        assert rows == rows[..|rows| - 1] + [rows[|rows| - 1]];
      }
    }
  }

  /** A round that takes everything pending and is recorded. */
  lemma EverythingIsWritten(run: Run) returns (run': Run)
    requires Valid(run) && run.s.memory.Some? && run.s.memory.value.mode.Running?
    requires |run.s.memory.value.slots| == |run.s.memory.value.pending| > 0
    ensures Valid(run') && run'.s.events == run.s.events
    ensures run'.s.transcript.origins
         == run.s.transcript.origins + seq(|run.s.memory.value.slots|,
              i requires 0 <= i < |run.s.memory.value.slots| => Some(run.s.memory.value.slots[i]))
  {
    var taken := Do(run, Take);
    assert Valid(taken);
    var pending := run.s.memory.value.pending;
    var base := UnusedIds(run.s.transcript.rows);
    var ids := seq(|pending|, i requires 0 <= i < |pending| => base + i);
    assert Fits(AsUser(pending), pending, |pending|);
    assert Enabled(taken.s, Write(AsUser(pending), ids));
    run' := Do(taken, Write(AsUser(pending), ids));
  }

  lemma OriginTwice(t: Transcript, slots: seq<nat>, t': Transcript, k: nat)
    requires Written(t, k) && k in slots
    requires t'.origins == t.origins + seq(|slots|, i requires 0 <= i < |slots| => Some(slots[i]))
    ensures WrittenTwice(t', k)
  {
    var q :| 0 <= q < |t.origins| && t.origins[q] == Some(k);
    var i :| 0 <= i < |slots| && slots[i] == k;
    assert t'.origins[q] == Some(k) == t'.origins[|t.origins| + i];
  }

  lemma RestoredAgain(run: Run, k: nat) returns (restored: Run)
    requires Valid(run) && Recovered(run.s.events).Some? && |run.s.transcript.rows| == |run.s.transcript.origins|
    requires Stolen(run.s.transcript, Recovered(run.s.events).value, k)
    requires |Restored(Recovered(run.s.events).value, run.s.transcript.rows)| <= run.s.capacity
    ensures Valid(restored) && restored.s.events == run.s.events && restored.s.transcript == run.s.transcript
    ensures restored.s.memory.Some? && restored.s.memory.value.mode.Running?
    ensures |restored.s.memory.value.slots| == |restored.s.memory.value.pending|
    ensures k in restored.s.memory.value.slots
  {
    InvHoldsInEveryRun(run);
    var t, entries := run.s.transcript, Recovered(run.s.events).value;
    RestoredIsWantedOrStolen(t, run.s.events, run.s.clock, entries, k);
    QueuedInOrder(entries, t.rows, |entries|);
    var down := if run.s.memory.Some? then Do(run, Crash) else run;
    assert Valid(down);
    restored := Do(down, Restore);
  }

  /** Wherever a row is stolen, a restore that has room for it, one round and its record write
      the message a second time. */
  lemma TheftWritesTwice(run: Run, k: nat) returns (later: Run)
    requires Valid(run) && Recovered(run.s.events).Some? && |run.s.transcript.rows| == |run.s.transcript.origins|
    requires Stolen(run.s.transcript, Recovered(run.s.events).value, k)
    requires |Restored(Recovered(run.s.events).value, run.s.transcript.rows)| <= run.s.capacity
    ensures Valid(later) && Recovered(later.s.events).Some? && WrittenTwice(later.s.transcript, k)
  {
    var restored := RestoredAgain(run, k);
    later := EverythingIsWritten(restored);
    OriginTwice(run.s.transcript, restored.s.memory.value.slots, later.s.transcript, k);
  }

  // ---- accounting ----

  /** The log can be read back, the queue is the end of the pending messages, and the message
      is in the transcript, was acknowledged, would be returned unread by `close`, or was taken
      by a round that has not recorded it. */
  ghost predicate Accounted(s: State, k: nat)
  {
    && Recovered(s.events).Some?
    && (s.memory.Some? && !IsClosed(s.memory.value.mode) && k < |Recovered(s.events).value| ==>
          var entries, m := Recovered(s.events).value, s.memory.value;
          && 0 <= Done(m) <= Taken(m) <= |m.pending| == |m.slots| && m.queue == m.pending[Taken(m)..]
          && (|| Written(s.transcript, k) || entries[k].acked
              || k in m.slots[Taken(m)..] || k in m.slots[Done(m)..Taken(m)]))
  }

  lemma EveryMessageIsAccountedFor(run: Run, k: nat)
    requires Valid(run) && run.s.exact
    ensures Accounted(run.s, k)
  {
    InvHoldsInEveryRun(run);
    var entries := Recovered(run.s.events).value;
    if run.s.memory.Some? && !IsClosed(run.s.memory.value.mode) && k < |entries| {
      WantedIsTakenOrQueued(run.s.transcript, entries, run.s.memory.value, k);
    }
  }

  lemma WantedIsTakenOrQueued(t: Transcript, entries: seq<Entry>, m: Memory, k: nat)
    requires |t.rows| == |t.origins| && MemoryInv(t, entries, m) && !IsClosed(m.mode)
    requires k < |entries| && Done(m) <= Taken(m) <= |m.slots|
    ensures Written(t, k) || entries[k].acked || k in m.slots[Taken(m)..] || k in m.slots[Done(m)..Taken(m)]
  {
    assert m.slots[Done(m)..] == m.slots[Done(m)..Taken(m)] + m.slots[Taken(m)..];
    assert Wanted(t, entries, k) ==> k in m.slots[Done(m)..];
  }
}
