/** What holds after any number of compactions, over every run. */
module CompactionTheorems {
  import opened Conversation
  import opened Options
  import opened Reconstruction
  import opened SummaryChain
  import opened CompactionRuns

  lemma StepKeepsInv(s: State, step: Step)
    requires Inv(s) && Enabled(s, step)
    ensures Inv(Apply(s, step))
  {
    match step
    case Append(tail) => AppendKeepsInv(s, tail);
    case Store(more) => StoreKeepsInv(s, more);
    case Refresh(head) => RefreshKeepsInv(s, head);
    case Reload(lead, tail, head) => ReloadKeepsInv(s, lead, tail, head);
    case Interrupt(marked) => InterruptKeepsInv(s, marked);
    case Commit(n, text, id, head) => CommitKeepsInv(s, n, text, id, head);
  }

  // ---- runs ----

  datatype Run = Begin(s: State) | Then(before: Run, step: Step, s: State)

  ghost predicate Valid(run: Run)
  {
    match run
    case Begin(s) => Initial(s)
    case Then(before, step, s) => Valid(before) && Enabled(before.s, step) && s == Apply(before.s, step)
  }

  lemma {:induction false} InvHoldsInEveryRun(run: Run)
    requires Valid(run)
    ensures Inv(run.s)
  {
    match run
    case Begin(s) => InitialInv(s);
    case Then(before, step, _) =>
      InvHoldsInEveryRun(before);
      StepKeepsInv(before.s, step);
  }

  lemma ChainInEveryRun(run: Run)
    requires Valid(run)
    ensures Ordered(run.s.rows) && Tiles(run.s.rows, run.s.chain, run.s.cuts)
    ensures run.s.covered == run.s.cuts[|run.s.chain|]
  {
    InvHoldsInEveryRun(run);
  }

  // ---- the plan stays aligned ----

  /** A plan built over rows matches the messages those rows became, wherever they stand. */
  lemma BuiltPlanMatches(kind: Kind, rows: seq<Row>, front: seq<Message>, rest: seq<Message>, plan: Plan, k: nat)
    requires plan.lead == |front| && plan.units == Units(kind, rows) && k < |plan.units|
    ensures MatchesAt(plan, front + Messages(rows) + rest, k)
  {
    UnitsPartition(kind, rows);
    assert CoversAt(kind, plan.units, rows, k);
    var start, messages := MessageCount(plan.units, k), front + Messages(rows) + rest;
    forall i | 0 <= i < |plan.units[k].roles| ensures messages[plan.lead + start + i].role == plan.units[k].roles[i] {
      assert messages[plan.lead + start + i] == Messages(rows)[start + i] == rows[start + i].message;
    }
  }

  /** In every reachable state the plan verifies against the transcript, and the transcript
      is the lead, at most one summary, and an untouched suffix of the conversation that
      starts at a unit boundary. */
  lemma PlanStaysAligned(run: Run)
    requires Valid(run)
    ensures Verifies(run.s.plan, run.s.messages)
    ensures var s := run.s;
            && s.covered <= s.planned <= |s.rows|
            && s.messages == s.base + SummaryPart(Last(s.chain)) + Messages(s.rows[s.covered..s.planned]) + s.rest
            && (s.covered > 0 <==> s.chain != [])
            && (s.covered > 0 ==> s.covered < s.planned && s.rows[s.covered].message.role != Tool)
  {
    InvHoldsInEveryRun(run);
    var s := run.s;
    forall k: nat | k < |s.plan.units| ensures MatchesAt(s.plan, s.messages, k) {
      BuiltPlanMatches(s.kind, s.rows[s.covered..s.planned], s.base + SummaryPart(Last(s.chain)), s.rest, s.plan, k);
    }
    if s.chain != [] { CutsIncrease(s.rows, s.chain, s.cuts, 0, |s.chain|); }
  }

  // ---- the summaries tile the history ----

  /** In every run the direct ranges are disjoint and hold exactly the covered rows. */
  lemma SummariesTileHistory(run: Run)
    requires Valid(run)
    ensures CoverExactly(run.s.rows, run.s.chain, run.s.covered) && Disjoint(run.s.rows, run.s.chain)
  {
    ChainInEveryRun(run);
    TilesAreExact(run.s.rows, run.s.chain, run.s.cuts);
  }

  /** In every run the query for the current summary finds the newest one. */
  lemma CurrentSummaryIsNewest(run: Run, head: Option<Compaction>)
    requires Valid(run)
    ensures ActiveHead(run.s.chain, head) <==> head == Last(run.s.chain)
  {
    ChainInEveryRun(run);
    QueryFindsLast(run.s.rows, run.s.chain, run.s.cuts, head);
  }

  /** In every run that one spans and counts exactly the covered rows. */
  lemma CurrentSummaryCountsHistory(run: Run)
    requires Valid(run) && run.s.chain != []
    ensures HeadSpans(run.s.rows, run.s.chain[|run.s.chain| - 1], run.s.covered)
  {
    var rows, chain, cuts := run.s.rows, run.s.chain, run.s.cuts;
    ChainInEveryRun(run);
    HeadCountsItsRows(rows, chain, cuts);
    assert HeadSpans(rows, chain[|chain| - 1], cuts[|chain|]);
  }

  // ---- commits are bounded ----

  /** The run from `run` back to `start`, with no plan rebuilt on the way. */
  ghost predicate SamePlan(run: Run, start: Run)
  {
    run == start || (run.Then? && !run.step.Refresh? && !run.step.Reload? && SamePlan(run.before, start))
  }

  function CoverableUnitsOf(s: State): nat
  {
    Coverable(s.plan.units, |s.plan.units|)
  }

  /** Each commit the store takes, takes the units it covers off the coverable ones. */
  lemma CommitSpendsUnits(s: State, n: nat, text: string, id: nat, head: Option<Compaction>)
    requires Enabled(s, Commit(n, text, id, head)) && Accepted(s, n, text, id, head)
    ensures CoverableUnitsOf(Apply(s, Commit(n, text, id, head))) == CoverableUnitsOf(s) - n
  {
    CoveringLeavesTheRest(s.plan.units, n);
  }

  /** Without a rebuild, at most as many commits happen as units were coverable. */
  lemma {:induction false} CommitsAreBounded(run: Run, start: Run)
    requires Valid(run) && SamePlan(run, start)
    ensures |start.s.chain| <= |run.s.chain|
    ensures |run.s.chain| - |start.s.chain| <= CoverableUnitsOf(start.s) - CoverableUnitsOf(run.s)
  {
    if run != start {
      CommitsAreBounded(run.before, start);
      var s, step := run.before.s, run.step;
      if step.Commit? && Accepted(s, step.n, step.text, step.id, step.head) {
        CommitSpendsUnits(s, step.n, step.text, step.id, step.head);
      }
    }
  }

  /** However often the plan is rebuilt, there are never more summaries than covered rows. */
  lemma SummariesAreBoundedByHistory(run: Run)
    requires Valid(run)
    ensures |run.s.chain| <= run.s.covered <= |run.s.rows|
  {
    ChainInEveryRun(run);
    CutsCount(run.s.rows, run.s.chain, run.s.cuts, |run.s.chain|);
  }

  // ---- what the summarizer reads and what the store checks ----

  /** Behind the lead, `removed` gives way to one message and everything else stays. */
  ghost predicate ReplacedBy(messages: seq<Message>, messages': seq<Message>, base: seq<Message>,
                             removed: seq<Message>, summary: Message)
  {
    && |base| + |removed| <= |messages|
    && messages == base + removed + messages[|base| + |removed|..]
    && messages' == base + [summary] + messages[|base| + |removed|..]
  }

  /** The messages rendered for the summarizer, behind the lead and `count` messages long after an
      old summary, are `read`; and that is what gives way to the new summary. */
  ghost predicate RemovesWhatIsRead(messages: seq<Message>, messages': seq<Message>, base: seq<Message>, plan: Plan,
                                    count: nat,
                                    read: seq<Message>, summary: Message)
  {
    && 0 <= SummaryStart(plan) <= plan.lead + count <= |messages|
    && messages[SummaryStart(plan)..plan.lead + count] == read
    && ReplacedBy(messages, messages', base, read, summary)
  }

  lemma RemovedCut(messages: seq<Message>, base: seq<Message>, end: nat, summary: Message)
    requires |base| <= end <= |messages| && messages[..|base|] == base
    ensures ReplacedBy(messages, messages[..|base|] + [summary] + messages[end..], base, messages[|base|..end], summary)
  {
    assert messages == messages[..|base|] + messages[|base|..end] + messages[end..];
  }

  lemma RemovedPart(messages: seq<Message>, base: seq<Message>, head: Option<Compaction>, rows: seq<Row>, covered: nat,
                    planned: nat, rest: seq<Message>, plan: Plan, n: nat, count: nat, summary: Message)
    requires covered + count <= planned <= |rows| && n <= |plan.units| && MessageCount(plan.units, n) == count
    requires plan.lead == |base| + |SummaryPart(head)| && plan.hasSummary == head.Some?
    requires messages == Assemble(base, head, rows[covered..planned], rest)
    ensures plan.lead + count <= |messages|
    ensures RemovesWhatIsRead(messages, ReplacePrefix(plan, messages, n, summary), base, plan, count,
                              SummaryPart(head) + Messages(rows[covered..covered + count]), summary)
  {
    var raw := rows[covered..planned];
    RewrittenLayout(base, SummaryPart(head), raw, rest, count, summary);
    assert raw[..count] == rows[covered..covered + count];
    RemovedCut(messages, base, plan.lead + count, summary);
  }

  lemma RemovedByCommit(messages: seq<Message>, kind: Kind, base: seq<Message>, head: Option<Compaction>,
                        rows: seq<Row>,
                        covered: nat, planned: nat, rest: seq<Message>, plan: Plan, n: nat, summary: Message)
    requires covered <= planned <= |rows| && messages == Assemble(base, head, rows[covered..planned], rest)
    requires plan == Plan(|base| + |SummaryPart(head)|, head.Some?, Units(kind, rows[covered..planned]))
    requires 1 <= n < |plan.units|
    ensures var count := MessageCount(plan.units, n);
            && 0 < count && covered + count <= |rows| && plan.lead + count <= |messages|
            && RemovesWhatIsRead(messages, ReplacePrefix(plan, messages, n, summary), base, plan, count,
                                 SummaryPart(head) + Messages(rows[covered..covered + count]), summary)
  {
    var count := MessageCount(plan.units, n);
    assert 0 < count && covered + count <= planned by {
      CommittedSlice(kind, rows, covered, planned, n, plan.units, count);
    }
    RemovedPart(messages, base, head, rows, covered, planned, rest, plan, n, count, summary);
  }

  lemma ReadIsRemoved(s: State, n: nat, summary: Message)
    requires s.covered <= s.planned <= |s.rows| && Aligned(s) && 1 <= n < |s.plan.units|
    ensures var count := MessageCount(s.plan.units, n);
            && 0 < count && s.covered + count <= |s.rows| && s.plan.lead + count <= |s.messages|
            && RemovesWhatIsRead(s.messages, ReplacePrefix(s.plan, s.messages, n, summary), s.base, s.plan, count,
                                 SummaryPart(Last(s.chain)) + Messages(s.rows[s.covered..s.covered + count]), summary)
  {
    RemovedByCommit(s.messages, s.kind, s.base, Last(s.chain), s.rows, s.covered, s.planned, s.rest, s.plan, n,
        summary);
  }

  /** The summarizer is given exactly what the rewrite removes: the old summary and the rows
      the new one covers. Everything around it stays. */
  lemma SummarizerReadsWhatIsRemoved(s: State, n: nat, c: Compaction, s': State)
    requires s.covered <= s.planned <= |s.rows| && Aligned(s) && 1 <= n < |s.plan.units|
    requires s.plan.lead + MessageCount(s.plan.units, n) <= |s.messages| && s' == Committed(s, n, c)
    ensures s.covered < s'.covered <= |s.rows|
    ensures RemovesWhatIsRead(s.messages, s'.messages, s.base, s.plan, MessageCount(s.plan.units, n),
              SummaryPart(Last(s.chain)) + Messages(s.rows[s.covered..s'.covered]), SummaryMessage(c.summary))
  {
    ReadIsRemoved(s, n, SummaryMessage(c.summary));
  }

  lemma CommitLinks(s: State, n: nat, text: string, id: nat)
    requires s.covered <= s.planned <= |s.rows| && Aligned(s) && 1 <= n < |s.plan.units|
    requires Tiles(s.rows, s.chain, s.cuts) && s.covered == s.cuts[|s.chain|]
    ensures Link(s.rows, s.chain + [CompactionInput(s.plan, s.active, n, text, id)],
                 s.cuts + [s.covered + MessageCount(s.plan.units, n)], |s.chain|)
  {
    var count := MessageCount(s.plan.units, n);
    CommittedSlice(s.kind, s.rows, s.covered, s.planned, n, s.plan.units, count);
    NewLink(s.rows, s.chain, s.cuts, s.plan, n, count, CompactionInput(s.plan, s.active, n, text, id), text);
  }

  /** In every reachable state a commit succeeds if and only if the rows it covers by itself are
      acceptable: for a child none of them is incomplete, for a session some are complete. */
  lemma CommitSucceedsIff(run: Run, n: nat, text: string, id: nat, head: Option<Compaction>)
    requires Valid(run) && Enabled(run.s, Commit(n, text, id, head))
    ensures 1 <= n <= |run.s.plan.units|
    ensures Accepted(run.s, n, text, id, head)
       <==> RangeAcceptable(run.s.kind, run.s.rows, CompactionInput(run.s.plan, run.s.active, n, text, id))
  {
    InvHoldsInEveryRun(run);
    CommitIsReady(run.s, n, text, id, head);
    ReadyCommitSucceedsIff(run.s, n, text, id, head);
  }

  lemma ReadyCommitSucceedsIff(s: State, n: nat, text: string, id: nat, head: Option<Compaction>)
    requires Ordered(s.rows) && Tiles(s.rows, s.chain, s.cuts) && s.covered == s.cuts[|s.chain|]
    requires Ready(s, n) && ActiveHead(s.chain, head)
    ensures Accepted(s, n, text, id, head)
       <==> RangeAcceptable(s.kind, s.rows, CompactionInput(s.plan, s.active, n, text, id))
  {
    CommitLinks(s, n, text, id);
    StoreAcceptsLink(s.kind, s.rows, s.chain, s.cuts, s.covered + MessageCount(s.plan.units, n),
                     CompactionInput(s.plan, s.active, n, text, id), head);
  }

  // ---- tool calls stay with their results ----

  ghost predicate ToolsAfter(messages: seq<Message>, j: int, i: int)
    requires 0 <= j <= i < |messages|
  {
    forall k | j < k <= i :: messages[k].role == Tool
  }

  /** Tool result `i` answers a call of the nearest message before it that is no tool result. */
  ghost predicate Owned(messages: seq<Message>, i: int)
    requires 0 <= i < |messages|
  {
    messages[i].role == Tool ==>
      exists j | 0 <= j < i :: messages[j].role != Tool && ToolsAfter(messages, j, i)
                               && messages[i].answers.Some? && messages[i].answers.value in messages[j].calls
  }

  /** Every call of message `j` is answered by one of the tool results right behind it. */
  ghost predicate Answered(messages: seq<Message>, j: int)
    requires 0 <= j < |messages|
  {
    forall call | call in messages[j].calls ::
      exists i | j < i < |messages| :: messages[i].answers == Some(call) && ToolsAfter(messages, j, i)
  }

  ghost predicate Paired(messages: seq<Message>)
  {
    forall i | 0 <= i < |messages| :: Owned(messages, i) && Answered(messages, i)
  }

  /** Cutting in front of a message that is no tool result keeps every pair behind the cut. */
  lemma OwnedBehindCut(whole: seq<Message>, cut: nat, front: seq<Message>, i: nat)
    requires cut < |whole| && whole[cut].role != Tool && cut <= i < |whole| && Owned(whole, i)
    ensures Owned(front + whole[cut..], |front| + i - cut)
  {
    var messages, shift := front + whole[cut..], |front| - cut;
    assert messages[i + shift] == whole[i];
    if whole[i].role == Tool {
      var j :| 0 <= j < i && whole[j].role != Tool && ToolsAfter(whole, j, i)
               && whole[i].answers.Some? && whole[i].answers.value in whole[j].calls;
      assert j >= cut;
      assert messages[j + shift] == whole[j];
      forall k | j + shift < k <= i + shift ensures messages[k].role == Tool { assert messages[k] == whole[k - shift]; }
    }
  }

  lemma AnsweredBehindCut(whole: seq<Message>, cut: nat, front: seq<Message>, j: nat)
    requires cut <= j < |whole| && Answered(whole, j)
    ensures Answered(front + whole[cut..], |front| + j - cut)
  {
    var messages, shift := front + whole[cut..], |front| - cut;
    assert messages[j + shift] == whole[j];
    forall call | call in whole[j].calls
      ensures exists i | j + shift < i < |messages| ::
                messages[i].answers == Some(call) && ToolsAfter(messages, j + shift, i)
    {
      var i :| j < i < |whole| && whole[i].answers == Some(call) && ToolsAfter(whole, j, i);
      assert messages[i + shift] == whole[i];
      forall k | j + shift < k <= i + shift ensures messages[k].role == Tool { assert messages[k] == whole[k - shift]; }
    }
  }

  lemma CutKeepsPairs(whole: seq<Message>, cut: nat, front: seq<Message>)
    requires Paired(whole) && cut < |whole| && whole[cut].role != Tool && Plain(front)
    ensures Paired(front + whole[cut..])
  {
    var messages := front + whole[cut..];
    forall i | 0 <= i < |messages| ensures Owned(messages, i) && Answered(messages, i) {
      if i < |front| {
        assert messages[i] in front;
      } else {
        OwnedBehindCut(whole, cut, front, i - |front| + cut);
        AnsweredBehindCut(whole, cut, front, i - |front| + cut);
      }
    }
  }

  /** The conversation as it would stand had nothing been summarised. */
  ghost function Whole(s: State): seq<Message>
    requires s.planned <= |s.rows|
  {
    s.base + Messages(s.rows[..s.planned]) + s.rest
  }

  /** The transcript behind the summary is the tail of the whole conversation. */
  lemma SuffixOfWhole(front: seq<Message>, base: seq<Message>, rows: seq<Row>, covered: nat, planned: nat,
                      rest: seq<Message>)
    requires covered <= planned <= |rows|
    ensures var whole := base + Messages(rows[..planned]) + rest;
            && front + Messages(rows[covered..planned]) + rest == front + whole[|base| + covered..]
            && (covered < planned ==> whole[|base| + covered] == rows[covered].message)
  {
    var whole, raw := base + Messages(rows[..planned]) + rest, rows[covered..planned];
    assert Messages(rows[..planned]) == Messages(rows[..covered]) + Messages(raw);
    assert whole[|base| + covered..] == Messages(raw) + rest;
  }

  lemma AlignedKeepsPairs(s: State)
    requires Boundary(s.rows, s.covered, s.planned) && Aligned(s) && Plain(s.base)
    requires (s.covered > 0 <==> s.chain != []) && Paired(Whole(s))
    ensures Paired(s.messages)
  {
    var front := s.base + SummaryPart(Last(s.chain));
    SuffixOfWhole(front, s.base, s.rows, s.covered, s.planned, s.rest);
    if s.chain == [] {
      assert front + Whole(s)[|s.base|..] == Whole(s);
    } else {
      CutKeepsPairs(Whole(s), |s.base| + s.covered, front);
    }
  }

  /** If every result follows its call in the conversation, so it does after any compactions. */
  lemma ToolPairingIsPreserved(run: Run)
    requires Valid(run) && run.s.planned <= |run.s.rows| && Paired(Whole(run.s))
    ensures Paired(run.s.messages)
  {
    InvHoldsInEveryRun(run);
    var s := run.s;
    if s.chain != [] { CutsIncrease(s.rows, s.chain, s.cuts, 0, |s.chain|); }
    AlignedKeepsPairs(s);
  }
}
