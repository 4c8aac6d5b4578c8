/** What an interrupted child's compactions come to: its stored rows are incomplete from then on,
    the history still holds them, and the store takes no summary that covers one of them. */
module CompactionInterrupts {
  import opened Conversation
  import opened Options
  import opened Reconstruction
  import opened SummaryChain
  import opened CompactionRuns
  import opened CompactionTheorems

  ghost function Do(run: Run, step: Step): Run
    requires Enabled(run.s, step)
  {
    Then(run, step, Apply(run.s, step))
  }

  /** `later` is `run` with any steps more. */
  ghost predicate Extends(later: Run, run: Run)
  {
    later == run || (later.Then? && Extends(later.before, run))
  }

  // ---- without incomplete rows every commit succeeds ----

  ghost predicate AllComplete(rows: seq<Row>)
  {
    forall r | r in rows :: !r.incomplete
  }

  /** A commit always covers the oldest row no summary covers. */
  lemma CommitCoversOldest(s: State, n: nat, text: string, id: nat)
    requires Ordered(s.rows) && Ready(s, n)
    ensures s.covered < |s.rows| && s.rows[s.covered] in s.rows
    ensures InDirect(CompactionInput(s.plan, s.active, n, text, id), s.rows[s.covered])
  {
    CommittedSlice(s.kind, s.rows, s.covered, s.planned, n, s.plan.units, MessageCount(s.plan.units, n));
  }

  lemma CompleteHistoryIsAccepted(run: Run, n: nat, text: string, id: nat, head: Option<Compaction>)
    requires Valid(run) && AllComplete(run.s.rows) && Enabled(run.s, Commit(n, text, id, head))
    ensures Accepted(run.s, n, text, id, head)
  {
    InvHoldsInEveryRun(run);
    CommitIsReady(run.s, n, text, id, head);
    CommitCoversOldest(run.s, n, text, id);
    CommitSucceedsIff(run, n, text, id, head);
  }

  // ---- an interrupted child is never compacted again ----

  /** The oldest row no summary covers is incomplete. */
  ghost predicate Stuck(s: State)
  {
    s.kind.Child? && s.covered < |s.rows| && s.rows[s.covered].incomplete
  }

  lemma StuckRefuses(run: Run, n: nat, text: string, id: nat, head: Option<Compaction>)
    requires Valid(run) && Stuck(run.s) && Enabled(run.s, Commit(n, text, id, head))
    ensures !Accepted(run.s, n, text, id, head)
  {
    InvHoldsInEveryRun(run);
    CommitIsReady(run.s, n, text, id, head);
    CommitCoversOldest(run.s, n, text, id);
    CommitSucceedsIff(run, n, text, id, head);
  }

  lemma StuckStays(run: Run)
    requires Valid(run) && run.Then? && Stuck(run.before.s)
    ensures Stuck(run.s) && run.s.chain == run.before.s.chain
  {
    if run.step.Commit? {
      StuckRefuses(run.before, run.step.n, run.step.text, run.step.id, run.step.head);
    }
  }

  /** From a stuck state on, through any reloads, refreshes, new rows and attempts, no summary is
      ever stored again. */
  lemma {:induction false} StuckChildIsNeverCompacted(run: Run, later: Run)
    requires Valid(later) && Extends(later, run) && Stuck(run.s)
    ensures Stuck(later.s) && later.s.chain == run.s.chain
  {
    if later != run {
      StuckChildIsNeverCompacted(run, later.before);
      StuckStays(later);
    }
  }

  /** The ids of all rows. */
  function Ids(rows: seq<Row>): set<nat>
  {
    set r | r in rows :: r.id
  }

  lemma InterruptedChildIsStuck(run: Run) returns (stopped: Run)
    requires Valid(run) && run.s.kind.Child? && run.s.rows != []
    ensures Enabled(run.s, Interrupt(Ids(run.s.rows))) && stopped == Do(run, Interrupt(Ids(run.s.rows)))
    ensures Valid(stopped) && Stuck(stopped.s)
  {
    InvHoldsInEveryRun(run);
    stopped := Do(run, Interrupt(Ids(run.s.rows)));
    assert run.s.rows[run.s.covered] in run.s.rows;
  }

  /** Interrupting a child that stored anything leaves it stuck: whatever it does after its
      recovery, it is never compacted again. */
  lemma InterruptedChildIsNeverCompacted(run: Run, later: Run)
    requires Valid(run) && run.s.kind.Child? && run.s.rows != []
    requires Valid(later) && Extends(later, Do(run, Interrupt(Ids(run.s.rows))))
    ensures later.s.chain == run.s.chain
  {
    var stopped := InterruptedChildIsStuck(run);
    StuckChildIsNeverCompacted(stopped, later);
  }

  // ---- one such child ----

  /** A child's first message and two answers. */
  function ThreeRows(opening: string, first: string, second: string): seq<Row>
  {
    [Row(1, 1, 0, Message(User, opening, {}, None), false), Row(2, 2, 0, Message(Assistant, first, {}, None), false),
     Row(3, 3, 0, Message(Assistant, second, {}, None), false)]
  }

  ghost function Fresh(rows: seq<Row>): State
  {
    State(Child, [], rows, 0, |rows|, [], Plan(0, false, Units(Child, rows)), None, [] + Messages(rows) + [], [], [0])
  }

  lemma ThreeUnits(a: Row, b: Row, c: Row)
    requires a.id != b.id && a.id != c.id && b.id != c.id
    requires a.message.role != Tool && b.message.role != Tool && c.message.role != Tool
    ensures var units := Units(Child, [a, b, c]);
            |units| == 3 && units[0] == NewUnit(Child, a) && Coverable(units, 3) == 2
  {
    assert Units(Child, [a]) == [NewUnit(Child, a)] by {
      assert [] + [a] == [a];
      UnitsAppend(Child, [], a);
    }
    assert Units(Child, [a, b]) == [NewUnit(Child, a), NewUnit(Child, b)] by {
      assert [a] + [b] == [a, b];
      UnitsAppend(Child, [a], b);
    }
    assert Units(Child, [a, b, c]) == [NewUnit(Child, a), NewUnit(Child, b), NewUnit(Child, c)] by {
      assert [a, b] + [c] == [a, b, c];
      UnitsAppend(Child, [a, b], c);
    }
  }

  lemma FirstCommitIsEnabled(run: Run, text: string)
    requires Valid(run) && text != "" && |run.s.rows| == 3 && run.s.chain == [] && run.s.covered == 0
    requires run.s.rows[0].id == 1 && run.s.rows[1].id == 2 && run.s.rows[2].id == 3
    requires forall i | 0 <= i < 3 :: run.s.rows[i].message.role != Tool
    requires run.s.kind.Child? && run.s.planned == 3
    ensures Enabled(run.s, Commit(1, text, 0, None))
  {
    PlanStaysAligned(run);
    InvHoldsInEveryRun(run);
    assert run.s.rows[0..3] == run.s.rows;
    ThreeUnits(run.s.rows[0], run.s.rows[1], run.s.rows[2]);
    assert run.s.rows == [run.s.rows[0], run.s.rows[1], run.s.rows[2]];
    CoveredIsInside(run.s.plan, run.s.messages, 1);
  }

  /** A child that was never compacted is interrupted and reloaded. */
  lemma Recovered(before: Run) returns (after: Run)
    requires Valid(before) && before.s.kind.Child? && before.s.rows != [] && before.s.chain == []
    requires before.s.covered == 0
    ensures Valid(after) && Extends(after, before) && Stuck(after.s)
    ensures after.s.rows == Mark(before.s.rows, Ids(before.s.rows)) && after.s.kind.Child?
    ensures after.s.chain == [] && after.s.covered == 0 && after.s.planned == |after.s.rows|
  {
    var stopped := InterruptedChildIsStuck(before);
    assert Extends(stopped, before);
    after := Do(stopped, Reload([], [], None));
    StuckStays(after);
    assert Extends(after, before);
  }

  /** For any texts: the child could be compacted, is interrupted and reloaded, and its next commit
      is refused. */
  lemma InterruptedCommitIsRefused(opening: string, first: string, second: string, summary: string)
    returns (before: Run, after: Run)
    requires summary != ""
    ensures Valid(before) && Valid(after) && Extends(after, before)
    ensures Enabled(before.s, Commit(1, summary, 0, None)) && Accepted(before.s, 1, summary, 0, None)
    ensures Enabled(after.s, Commit(1, summary, 0, None)) && !Accepted(after.s, 1, summary, 0, None)
    ensures Apply(after.s, Commit(1, summary, 0, None)) == after.s
  {
    var rows := ThreeRows(opening, first, second);
    before := Begin(Fresh(rows));
    FirstCommitIsEnabled(before, summary);
    CompleteHistoryIsAccepted(before, 1, summary, 0, None);
    after := Recovered(before);
    FirstCommitIsEnabled(after, summary);
    StuckRefuses(after, 1, summary, 0, None);
  }
}
