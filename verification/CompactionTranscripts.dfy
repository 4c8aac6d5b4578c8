/** What the model is shown, read off a run's steps: the lead, the newest summary's text, and
    everything said since the rows it covers. */
module CompactionTranscripts {
  import opened Conversation
  import opened Options
  import opened Reconstruction
  import opened SummaryChain
  import opened CompactionRuns
  import opened CompactionTheorems

  // ---- what the steps say ----

  /** The lead the last load was given. */
  function Lead(run: Run): seq<Message>
  {
    match run
    case Begin(s) => s.base
    case Then(before, step, _) => if step.Reload? then step.lead else Lead(before)
  }

  /** The rows stored so far, as they were stored. */
  function StoredRows(run: Run): seq<Row>
  {
    match run
    case Begin(s) => s.rows
    case Then(before, step, _) => if step.Store? then StoredRows(before) + step.more else StoredRows(before)
  }

  /** How many rows the last load found. */
  function Loaded(run: Run): nat
  {
    match run
    case Begin(s) => |s.rows|
    case Then(before, step, _) => if step.Reload? then |StoredRows(before)| else Loaded(before)
  }

  /** What was appended since the last load. */
  function Appended(run: Run): seq<Message>
  {
    match run
    case Begin(s) => s.rest
    case Then(before, step, _) =>
      if step.Append? then Appended(before) + step.tail
      else if step.Reload? then step.tail
      else Appended(before)
  }

  /** How long the conversation is: the history the last load found and what came since. */
  function Length(run: Run): nat
  {
    Loaded(run) + |Appended(run)|
  }

  /** Its message `i`. */
  function Spoken(run: Run, i: nat): Message
    requires Loaded(run) <= |StoredRows(run)| && i < Length(run)
  {
    if i < Loaded(run) then StoredRows(run)[i].message else Appended(run)[i - Loaded(run)]
  }

  // ---- the state agrees with them ----

  predicate SameRow(a: Row, b: Row)
  {
    a.id == b.id && a.sequence == b.sequence && a.turn == b.turn && a.message == b.message
  }

  ghost predicate SameRows(a: seq<Row>, b: seq<Row>)
  {
    |a| == |b| && forall i | 0 <= i < |a| :: SameRow(a[i], b[i])
  }

  /** Rows only get marked. */
  lemma {:induction false} RowsAre(run: Run)
    requires Valid(run)
    ensures SameRows(run.s.rows, StoredRows(run))
  {
    if run.Then? { RowsAre(run.before); }
  }

  lemma {:induction false} LeadIs(run: Run)
    requires Valid(run)
    ensures run.s.base == Lead(run)
  {
    if run.Then? { LeadIs(run.before); }
  }

  /** Message `i` of the conversation as the state holds it: a planned row's, or one of the rest. */
  function Held(s: State, i: nat): Message
    requires s.planned <= |s.rows| && i < s.planned + |s.rest|
  {
    if i < s.planned then s.rows[i].message else s.rest[i - s.planned]
  }

  ghost predicate SaidAt(s: State, loaded: nat, appended: seq<Message>, i: nat)
    requires s.planned <= |s.rows| && loaded <= i < s.planned + |s.rest| == loaded + |appended|
  {
    appended[i - loaded] == Held(s, i)
  }

  /** What was appended is partly stored and planned over by now, and otherwise the rest. */
  ghost predicate Tail(s: State, loaded: nat, appended: seq<Message>)
  {
    && loaded <= s.planned <= |s.rows| && s.planned + |s.rest| == loaded + |appended|
    && forall i: nat | loaded <= i < loaded + |appended| :: SaidAt(s, loaded, appended, i)
  }

  lemma RefreshKeepsHeld(s: State, head: Option<Compaction>, i: nat)
    requires Enabled(s, Refresh(head)) && i < s.planned + |s.rest|
    ensures var s' := Apply(s, Refresh(head));
            s'.planned == |s'.rows| && s'.planned + |s'.rest| == s.planned + |s.rest| && Held(s', i) == Held(s, i)
  {
    if s.planned <= i < |s.rows| { StoredIsSaid(s.rows, s.planned, s.rest, i); }
  }

  lemma RefreshKeepsTail(s: State, head: Option<Compaction>, loaded: nat, appended: seq<Message>)
    requires Tail(s, loaded, appended) && Enabled(s, Refresh(head))
    ensures Tail(Apply(s, Refresh(head)), loaded, appended)
  {
    forall i: nat | loaded <= i < loaded + |appended| ensures SaidAt(Apply(s, Refresh(head)), loaded, appended, i) {
      assert SaidAt(s, loaded, appended, i);
      RefreshKeepsHeld(s, head, i);
    }
  }

  lemma StoredIsSaid(rows: seq<Row>, planned: nat, rest: seq<Message>, i: nat)
    requires planned <= i < |rows| && Messages(rows[planned..]) <= rest
    ensures i - planned < |rest| && rest[i - planned] == rows[i].message
  {
    var stored := rows[planned..];
    assert Messages(stored)[i - planned] == stored[i - planned].message;
  }

  lemma OtherKeepsTail(s: State, step: Step, loaded: nat, appended: seq<Message>)
    requires Tail(s, loaded, appended) && Enabled(s, step) && !step.Reload? && !step.Refresh?
    ensures Tail(Apply(s, step), loaded, if step.Append? then appended + step.tail else appended)
  {
    var s', appended' := Apply(s, step), if step.Append? then appended + step.tail else appended;
    forall i: nat | loaded <= i < loaded + |appended'| ensures SaidAt(s', loaded, appended', i) {
      if i < loaded + |appended| { assert SaidAt(s, loaded, appended, i); }
    }
  }

  lemma StepKeepsTail(s: State, step: Step, loaded: nat, appended: seq<Message>)
    requires Tail(s, loaded, appended) && Enabled(s, step) && !step.Reload?
    ensures Tail(Apply(s, step), loaded, if step.Append? then appended + step.tail else appended)
  {
    if step.Refresh? {
      RefreshKeepsTail(s, step.head, loaded, appended);
    } else {
      OtherKeepsTail(s, step, loaded, appended);
    }
  }

  /** A load plans over all rows and starts with its own tail. */
  lemma ReloadTail(s: State, lead: seq<Message>, tail: seq<Message>, head: Option<Compaction>)
    requires Enabled(s, Reload(lead, tail, head))
    ensures Tail(Apply(s, Reload(lead, tail, head)), |s.rows|, tail)
  {
  }

  lemma {:induction false} TailIs(run: Run)
    requires Valid(run)
    ensures Tail(run.s, Loaded(run), Appended(run))
  {
    if run.Then? {
      TailIs(run.before);
      if run.step.Reload? {
        RowsAre(run.before);
        ReloadTail(run.before.s, run.step.lead, run.step.tail, run.step.head);
      } else {
        StepKeepsTail(run.before.s, run.step, Loaded(run.before), Appended(run.before));
      }
    }
  }

  // ---- which rows are incomplete ----

  /** Whether row `i` was stored incomplete or an interrupt since then marked its id. */
  ghost predicate EverMarked(run: Run, i: nat)
    requires i < |StoredRows(run)|
  {
    match run
    case Begin(s) => s.rows[i].incomplete
    case Then(before, step, _) =>
      if i >= |StoredRows(before)| then StoredRows(run)[i].incomplete
      else EverMarked(before, i) || (step.Interrupt? && StoredRows(before)[i].id in step.marked)
  }

  lemma StepMarks(s: State, step: Step, i: nat)
    requires Enabled(s, step) && i < |s.rows|
    ensures var rows := Apply(s, step).rows;
            && i < |rows|
            && (rows[i].incomplete <==> s.rows[i].incomplete || (step.Interrupt? && s.rows[i].id in step.marked))
  {
  }

  lemma StepStores(s: State, step: Step, i: nat)
    requires Enabled(s, step) && |s.rows| <= i
    ensures i < |Apply(s, step).rows| ==>
              step.Store? && i - |s.rows| < |step.more| && Apply(s, step).rows[i] == step.more[i - |s.rows|]
  {
  }

  /** In every run a row is incomplete exactly when the steps say so: nothing else marks one, and
      nothing clears a mark. */
  lemma {:induction false} MarkedExactlyByInterrupts(run: Run, i: nat)
    requires Valid(run) && i < |StoredRows(run)|
    ensures i < |run.s.rows| && (run.s.rows[i].incomplete <==> EverMarked(run, i))
  {
    RowsAre(run);
    if run.Then? {
      RowsAre(run.before);
      var s, step := run.before.s, run.step;
      if i < |s.rows| {
        MarkedExactlyByInterrupts(run.before, i);
        StepMarks(s, step, i);
        assert SameRow(s.rows[i], StoredRows(run.before)[i]);
      } else {
        StepStores(s, step, i);
      }
    }
  }

  // ---- what the model is shown ----

  /** The lead comes first. */
  ghost predicate StartsWith(messages: seq<Message>, lead: seq<Message>)
  {
    |lead| <= |messages| && forall i | 0 <= i < |lead| :: messages[i] == lead[i]
  }

  /** From `at` on the messages are the conversation from its message `first` on. */
  ghost predicate Continues(run: Run, messages: seq<Message>, at: nat, first: nat)
    requires Loaded(run) <= |StoredRows(run)|
  {
    && at <= |messages| && first <= Length(run) && |messages| - at == Length(run) - first
    && forall i: nat | first <= i < Length(run) :: messages[at + i - first] == Spoken(run, i)
  }

  /** In every run the model is shown the lead, then, if anything is summarised, a user message with
      the newest summary's very text, and then every message of the conversation that is not
      summarised, unchanged and in order. */
  lemma TranscriptIsTheConversation(run: Run)
    requires Valid(run)
    ensures Loaded(run) <= |StoredRows(run)| && StartsWith(run.s.messages, Lead(run))
    ensures var at := |Lead(run)|;
            if run.s.chain == [] then run.s.covered == 0 && Continues(run, run.s.messages, at, 0)
            else && at < |run.s.messages|
                 && run.s.messages[at] == Message(User, run.s.chain[|run.s.chain| - 1].summary, {}, None)
                 && Continues(run, run.s.messages, at + 1, run.s.covered)
  {
    PlanStaysAligned(run);
    RowsAre(run);
    LeadIs(run);
    TailIs(run);
    var s, part := run.s, SummaryPart(Last(run.s.chain));
    ConversationFollows(run, s.base + part);
    FrontIs(s.messages, s.base, part, Messages(s.rows[s.covered..s.planned]), s.rest);
  }

  lemma FrontIs(messages: seq<Message>, base: seq<Message>, part: seq<Message>, raw: seq<Message>, rest: seq<Message>)
    requires messages == base + part + raw + rest
    ensures StartsWith(messages, base)
    ensures part != [] ==> |base| < |messages| && messages[|base|] == part[0]
  {
  }

  lemma ConversationFollows(run: Run, front: seq<Message>)
    requires Tail(run.s, Loaded(run), Appended(run)) && SameRows(run.s.rows, StoredRows(run))
    requires run.s.covered <= run.s.planned
    requires run.s.messages == front + Messages(run.s.rows[run.s.covered..run.s.planned]) + run.s.rest
    ensures Continues(run, run.s.messages, |front|, run.s.covered)
  {
    var s := run.s;
    LayoutLength(s, front);
    forall i: nat | s.covered <= i < Length(run) ensures s.messages[|front| + i - s.covered] == Spoken(run, i) {
      SpokenIs(run, i);
      ShownAt(s, front, i);
    }
  }

  lemma SpokenIs(run: Run, i: nat)
    requires Tail(run.s, Loaded(run), Appended(run)) && SameRows(run.s.rows, StoredRows(run)) && i < Length(run)
    ensures i < run.s.planned + |run.s.rest| && Spoken(run, i) == Held(run.s, i)
  {
    if i < Loaded(run) {
      assert SameRow(run.s.rows[i], StoredRows(run)[i]);
    } else {
      assert SaidAt(run.s, Loaded(run), Appended(run), i);
    }
  }

  lemma LayoutLength(s: State, front: seq<Message>)
    requires s.covered <= s.planned <= |s.rows|
    requires s.messages == front + Messages(s.rows[s.covered..s.planned]) + s.rest
    ensures |s.messages| == |front| + s.planned - s.covered + |s.rest|
  {
  }

  lemma ShownAt(s: State, front: seq<Message>, i: nat)
    requires s.covered <= s.planned <= |s.rows| && s.covered <= i < s.planned + |s.rest|
    requires s.messages == front + Messages(s.rows[s.covered..s.planned]) + s.rest
    ensures |front| + i - s.covered < |s.messages| && s.messages[|front| + i - s.covered] == Held(s, i)
  {
    LayoutLength(s, front);
    if i < s.planned {
      RawMessage(front, s.rows, s.covered, s.planned, s.rest, i);
    } else {
      RestMessage(front, s.rows, s.covered, s.planned, s.rest, i - s.planned);
    }
  }

  lemma RawMessage(front: seq<Message>, rows: seq<Row>, covered: nat, planned: nat, rest: seq<Message>, i: nat)
    requires covered <= i < planned <= |rows|
    ensures (front + Messages(rows[covered..planned]) + rest)[|front| + i - covered] == rows[i].message
  {
    var raw := rows[covered..planned];
    assert Messages(raw)[i - covered] == raw[i - covered].message;
  }

  lemma RestMessage(front: seq<Message>, rows: seq<Row>, covered: nat, planned: nat, rest: seq<Message>, j: nat)
    requires covered <= planned <= |rows| && j < |rest|
    ensures (front + Messages(rows[covered..planned]) + rest)[|front| + planned - covered + j] == rest[j]
  {
  }

  /** A commit that the store takes makes the text it was given the newest summary, and shows it. */
  lemma CommittedTextIsShown(run: Run)
    requires Valid(run) && run.Then? && run.step.Commit? && run.s.chain != run.before.s.chain
    ensures run.s.chain != [] && run.s.chain[|run.s.chain| - 1].summary == run.step.text
    ensures |Lead(run)| < |run.s.messages|
    ensures run.s.messages[|Lead(run)|] == Message(User, run.step.text, {}, None)
  {
    TranscriptIsTheConversation(run);
  }
}
