/** The inbox as the steps of its history tell it: what was handed in, what rounds were given, and
    what a close reports. */
module InboxHistories {
  import opened Options
  import opened Inbox
  import opened InboxRecovery
  import opened InboxProtocol
  import opened InboxTheorems
  import opened InboxReports

  // ---- every message goes to one round ----

  /** The texts a restore in `s` queues. */
  ghost function RestoredTexts(s: State): seq<string>
  {
    match Recovered(s.events)
    case None => []
    case Some(entries) =>
      var slots := Restored(entries, s.transcript.rows);
      if Below(slots, |entries|) then Texts(entries, slots) else []
  }

  /** What was handed in since the last restore: what it queued, and the messages accepted after it. */
  ghost function HandedIn(run: Run): seq<string>
  {
    match run
    case Begin(_) => []
    case Then(before, step, _) =>
      match step
      case Accept(text, _) => HandedIn(before) + [text]
      case Restore => RestoredTexts(before.s)
      case _ => HandedIn(before)
  }

  /** What the rounds since then were given: at each take, the whole queue. */
  ghost function Given(run: Run): seq<string>
  {
    match run
    case Begin(_) => []
    case Then(before, step, _) =>
      if step.Restore? then []
      else if step.Take? && before.s.memory.Some? then Given(before) + before.s.memory.value.queue
      else Given(before)
  }

  /** In every history what the rounds were given, followed by what still waits, is what was handed
      in: each message goes to one round, in order, whatever is recorded meanwhile. */
  lemma {:induction false} EveryMessageGoesToOneRound(run: Run)
    requires Valid(run) && run.s.memory.Some?
    ensures Given(run) + run.s.memory.value.queue == HandedIn(run)
  {
    if run.Then? && run.step.Restore? {
      assert Rebuild(run.before.s).Some?;
    } else if run.Then? {
      EveryMessageGoesToOneRound(run.before);
      var given, queue := Given(run.before), run.before.s.memory.value.queue;
      if run.step.Accept? {
        assert given + (queue + [run.step.text]) == (given + queue) + [run.step.text];
      } else if run.step.Take? {
        assert (given + queue) + [] == given + queue;
      }
    }
  }

  // ---- what a close reports ----

  /** Which reports since the close were stored. */
  ghost function Stored(later: Run, closed: Run): seq<bool>
    requires Reporting(later, closed)
  {
    if later == closed then [] else Stored(later.before, closed) + [later.step.ok]
  }

  /** The events those leave, when `from` is the first pending message reported. */
  ghost function Reports(m: Memory, from: nat, stored: seq<bool>): seq<Event>
    requires from + |stored| <= |m.pending| == |m.ids|
  {
    if stored == [] then []
    else
      var last := |stored| - 1;
      Reports(m, from, stored[..last])
      + if stored[last] then [Undelivered(m.pending[from + last], m.ids[from + last])] else []
  }

  /** `later` has come from closing `s` by these reports. */
  ghost predicate HasReported(s: State, stored: seq<bool>, later: State)
    requires s.memory.Some?
  {
    var m := s.memory.value;
    && 0 <= Taken(m) && Taken(m) + |stored| <= |m.pending| == |m.ids|
    && later.events == s.events + Reports(m, Taken(m), stored)
    && later.memory == Some(m.(mode := Ending(Taken(m) + |stored|)))
  }

  lemma CloseReportsNothingYet(s: State)
    requires Enabled(s, Step.Close) && 0 <= Taken(s.memory.value) && |s.memory.value.pending| == |s.memory.value.ids|
    ensures HasReported(s, [], Apply(s, Step.Close))
  {
    assert s.events + [] == s.events;
  }

  lemma ReportReportsOneMore(s: State, stored: seq<bool>, later: State, ok: bool)
    requires s.memory.Some? && HasReported(s, stored, later) && Enabled(later, Report(ok))
    ensures HasReported(s, stored + [ok], Apply(later, Report(ok)))
  {
    var m := s.memory.value;
    assert (stored + [ok])[..|stored|] == stored;
    var more := if ok then [Undelivered(m.pending[Taken(m) + |stored|], m.ids[Taken(m) + |stored|])] else [];
    assert Reports(m, Taken(m), stored + [ok]) == Reports(m, Taken(m), stored) + more;
    assert (s.events + Reports(m, Taken(m), stored)) + more == s.events + (Reports(m, Taken(m), stored) + more);
  }

  /** Wherever an inbox is closed, exactly as many messages are reported as are queued, from the first
      no round has taken on, each once and in order; a queue longer than the pending messages
      reports none. */
  lemma {:induction false} CloseReportsTheUnread(run: Run, closed: Run, later: Run)
    requires Valid(run) && Enabled(run.s, Step.Close) && closed == Do(run, Step.Close)
    requires Valid(later) && Reporting(later, closed)
    ensures var m, stored := run.s.memory.value, Stored(later, closed);
            if Taken(m) < 0 then later == closed && !Enabled(later.s, Report(true))
            else HasReported(run.s, stored, later.s) && (Enabled(later.s, Report(true)) <==> |stored| < |m.queue|)
  {
    PendingHasIds(run);
    var s := run.s;
    if later != closed {
      CloseReportsTheUnread(run, closed, later.before);
      ReportReportsOneMore(s, Stored(later.before, closed), later.before.s, later.step.ok);
    } else if Taken(s.memory.value) >= 0 {
      CloseReportsNothingYet(s);
    }
  }

  lemma PendingHasIds(run: Run)
    requires Valid(run) && Enabled(run.s, Step.Close)
    ensures |run.s.memory.value.pending| == |run.s.memory.value.ids|
  {
    InvHoldsInEveryRun(run);
  }

  /** While counts are exact, what is reported is what is queued. */
  lemma ReportsAreTheQueue(run: Run)
    requires Valid(run) && run.s.exact && run.s.memory.Some?
    ensures var m := run.s.memory.value; 0 <= Taken(m) && m.pending[Taken(m)..] == m.queue
  {
    InvHoldsInEveryRun(run);
  }
}
