/** When the event log stops being readable: a close after a failed checkpoint may report
    messages undelivered that are acknowledged already, and no restore reads such a log. */
module InboxReports {
  import opened Options
  import opened Inbox
  import opened InboxRecovery
  import opened InboxProtocol
  import opened InboxSteps
  import opened InboxTheorems

  /** `later` is `run` with any steps more. */
  ghost predicate Extends(later: Run, run: Run)
  {
    later == run || (later.Then? && Extends(later.before, run))
  }

  /** A close that fails, or that reports no acknowledged message: no more messages are
      acknowledged than rounds have taken. */
  predicate CloseInRange(m: Memory)
  {
    Taken(m) < 0 || Acked(m) <= Taken(m)
  }

  /** The log can be read back, and what is still to be reported is not acknowledged. */
  ghost predicate ReportInv(s: State)
  {
    && Recovered(s.events).Some?
    && (s.memory.Some? && s.memory.value.mode.Ending? ==>
          var m, entries := s.memory.value, Recovered(s.events).value;
          Below(m.slots, |entries|) && forall i | m.mode.next <= i < |m.slots| :: !entries[m.slots[i]].acked)
  }

  lemma ReportKeepsReadable(s: State, ok: bool)
    requires Inv(s) && ReportInv(s) && Enabled(s, Report(ok))
    ensures ReportInv(Apply(s, Report(ok)))
  {
    if ok {
      var m, entries := s.memory.value, Recovered(s.events).value;
      var k := m.mode.next;
      RecoveredAppend(s.events, Undelivered(m.pending[k], m.ids[k]));
      AcknowledgeById(s.events, s.clock, entries, m.slots[k]);
    }
  }

  /** Steps of an open inbox keep the log readable. */
  lemma OpenKeepsReadable(s: State, step: Step)
    requires Inv(s) && ReadInv(s) && ReportInv(s) && Enabled(s, step) && (step.Accept? || step.Acknowledge?)
    ensures ReportInv(Apply(s, step))
  {
    StepKeepsReadable(s, step);
  }

  lemma QuietKeepsReadable(s: State, step: Step)
    requires ReadInv(s) && ReportInv(s) && Enabled(s, step)
    requires !step.Accept? && !step.Acknowledge? && !step.Report?
    requires step.Close? ==> CloseInRange(s.memory.value)
    ensures ReportInv(Apply(s, step))
  {
    if step.OtherEvent? { RecoveredAppend(s.events, Other); }
  }

  lemma StepKeepsReports(s: State, step: Step)
    requires Inv(s) && ReadInv(s) && ReportInv(s) && Enabled(s, step)
    requires step.Close? ==> CloseInRange(s.memory.value)
    ensures ReportInv(Apply(s, step))
  {
    match step
    case Report(ok) => ReportKeepsReadable(s, ok);
    case Accept(_, _) => OpenKeepsReadable(s, step);
    case Acknowledge => OpenKeepsReadable(s, step);
    case _ => QuietKeepsReadable(s, step);
  }

  ghost predicate ClosesInRange(run: Run)
  {
    run.Then? ==>
      && ClosesInRange(run.before)
      && (run.step.Close? && run.before.s.memory.Some? ==> CloseInRange(run.before.s.memory.value))
  }

  lemma {:induction false} ReportsInEveryRun(run: Run)
    requires Valid(run) && ClosesInRange(run)
    ensures ReportInv(run.s)
  {
    if run.Then? {
      ReportsInEveryRun(run.before);
      InvHoldsInEveryRun(run.before);
      StepKeepsReports(run.before.s, run.step);
    }
  }

  /** After a close in range the log stays readable, whatever reports are stored. */
  lemma ReadableWhileClosesInRange(run: Run)
    requires Valid(run) && ClosesInRange(run)
    ensures Recovered(run.s.events).Some?
  {
    ReportsInEveryRun(run);
  }

  /** Every step from `closed` to `later` is a report. */
  ghost predicate Reporting(later: Run, closed: Run)
  {
    later == closed || (later.Then? && later.step.Report? && Reporting(later.before, closed))
  }

  /** After a close that is not, the first report makes it unreadable. */
  lemma CloseOutOfRangeBreaksLog(run: Run, closed: Run) returns (later: Run)
    requires Valid(run) && Enabled(run.s, Step.Close) && !CloseInRange(run.s.memory.value)
    requires closed == Do(run, Step.Close)
    ensures Valid(later) && Reporting(later, closed) && Recovered(later.s.events).None?
    ensures later.Then? && later.before == closed && later.step == Report(true)
  {
    InvHoldsInEveryRun(run);
    var m, entries := run.s.memory.value, Recovered(run.s.events).value;
    var k := Taken(m);
    assert Valid(closed);
    RecoveredAppend(run.s.events, Undelivered(m.pending[k], m.ids[k]));
    AcknowledgeById(run.s.events, run.s.clock, entries, m.slots[k]);
    later := Do(closed, Report(true));
    assert Reporting(closed, closed);
  }

  lemma {:induction false} ReportsStayReadable(later: Run, closed: Run)
    requires Valid(later) && Reporting(later, closed) && ReportInv(closed.s)
    ensures ReportInv(later.s)
  {
    if later != closed {
      ReportsStayReadable(later.before, closed);
      InvHoldsInEveryRun(later.before);
      StepKeepsReports(later.before.s, later.step);
    }
  }

  /** The log can be read back after the reports that follow, however many are stored. */
  ghost predicate StaysReadable(closed: Run)
  {
    forall later | Valid(later) && Reporting(later, closed) :: Recovered(later.s.events).Some?
  }

  lemma CloseInRangeStaysReadable(run: Run, closed: Run)
    requires Valid(run) && Enabled(run.s, Step.Close) && CloseInRange(run.s.memory.value)
    requires closed == Do(run, Step.Close)
    ensures StaysReadable(closed)
  {
    InvHoldsInEveryRun(run);
    QuietKeepsReadable(run.s, Step.Close);
    forall later | Valid(later) && Reporting(later, closed) ensures Recovered(later.s.events).Some? {
      ReportsStayReadable(later, closed);
    }
  }

  /** Wherever an inbox can be closed, its log stays readable through any reports of that close if
      and only if the close is in range. */
  lemma ReadableAfterCloseIffInRange(run: Run, closed: Run)
    requires Valid(run) && Enabled(run.s, Step.Close) && closed == Do(run, Step.Close)
    ensures StaysReadable(closed) <==> CloseInRange(run.s.memory.value)
  {
    if CloseInRange(run.s.memory.value) {
      CloseInRangeStaysReadable(run, closed);
    } else {
      var later := CloseOutOfRangeBreaksLog(run, closed);
    }
  }

  /** A log that cannot be read back stays so for good, and once the process is gone no restore
      ever brings the inbox back. */
  lemma {:induction false} UnreadableForGood(run: Run, later: Run)
    requires Valid(later) && Extends(later, run) && Recovered(run.s.events).None?
    ensures Recovered(later.s.events).None?
    ensures run.s.memory.None? ==> later.s.memory.None?
  {
    if later != run {
      UnreadableForGood(run, later.before);
      if Recovered(later.s.events).Some? { RecoveredBefore(later.before.s, later.step); }
    }
  }
}
