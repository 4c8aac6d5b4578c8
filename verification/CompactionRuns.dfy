/** Repeated compaction of one conversation as a step system: messages arrive, rows are
    stored, a stopped process leaves its rows marked incomplete, plans are rebuilt from the store,
    and prefixes are replaced by summaries if the store takes them. */
module CompactionRuns {
  import opened Conversation
  import opened Options
  import opened Reconstruction
  import opened SummaryChain

  /** `rows` is the durable history, of which the plan was built over the first `planned`;
      `rest` is what the current run has appended behind those. `covered`, `cuts` and `rest`
      only record what happened: how many rows are summarised, where each summary ended. */
  datatype State = State(
    kind: Kind, base: seq<Message>, rows: seq<Row>, covered: nat, planned: nat, rest: seq<Message>,
    plan: Plan, active: Option<Head>, messages: seq<Message>,
    chain: seq<Compaction>, cuts: seq<nat>)

  datatype Step =
    | Append(tail: seq<Message>)
    | Store(more: seq<Row>)
    | Refresh(head: Option<Compaction>)
    | Reload(lead: seq<Message>, tail: seq<Message>, head: Option<Compaction>)
    | Interrupt(marked: set<nat>)
    | Commit(n: nat, text: string, id: nat, head: Option<Compaction>)

  /** The synthetic message a summary becomes; its fixed opening line is left out. */
  function SummaryMessage(text: string): Message
  {
    Message(User, text, {}, None)
  }

  function SummaryPart(head: Option<Compaction>): seq<Message>
  {
    match head case None => [] case Some(c) => [SummaryMessage(c.summary)]
  }

  function Messages(rows: seq<Row>): (messages: seq<Message>)
    ensures |messages| == |rows|
  {
    seq(|rows|, i requires 0 <= i < |rows| => rows[i].message)
  }

  function Last(chain: seq<Compaction>): Option<Compaction>
  {
    if chain == [] then None else Some(chain[|chain| - 1])
  }

  function ActiveOf(head: Option<Compaction>): Option<Head>
  {
    match head case None => None case Some(c) => Some(HeadOf(c))
  }

  /** The history a load returns: the rows after the head's range. */
  function History(rows: seq<Row>, head: Option<Compaction>): seq<Row>
  {
    SummaryChain.After(rows, match head case None => 0 case Some(c) => c.toSequence)
  }

  function BuildPlan(kind: Kind, base: seq<Message>, rows: seq<Row>, head: Option<Compaction>): Plan
  {
    Plan(|base| + |SummaryPart(head)|, head.Some?, Units(kind, History(rows, head)))
  }

  function Assemble(base: seq<Message>, head: Option<Compaction>, rows: seq<Row>, rest: seq<Message>): seq<Message>
  {
    base + SummaryPart(head) + Messages(rows) + rest
  }

  /** The rows with these ids are incomplete from now on. */
  function Mark(rows: seq<Row>, marked: set<nat>): (rows': seq<Row>)
    ensures |rows'| == |rows|
  {
    seq(|rows|, i requires 0 <= i < |rows| => rows[i].(incomplete := rows[i].incomplete || rows[i].id in marked))
  }

  /** Lead messages carry no tool traffic. */
  ghost predicate Plain(base: seq<Message>)
  {
    forall m | m in base :: m.role != Tool && m.calls == {}
  }

  ghost predicate Enabled(s: State, step: Step)
  {
    match step
    case Append(_) => true
    case Store(more) => Ordered(s.rows + more)
    case Refresh(head) =>
      // What the run appended was stored in the order it was appended.
      ActiveHead(s.chain, head) && s.planned <= |s.rows| && Messages(s.rows[s.planned..]) <= s.rest
    case Reload(lead, _, head) => ActiveHead(s.chain, head) && Plain(lead)
    case Interrupt(marked) =>
      // An interrupted child marks everything it stored; a turn that ends early, rows of its own.
      s.kind.Child? ==> forall r | r in s.rows :: r.id in marked
    case Commit(n, text, id, head) =>
      && ActiveHead(s.chain, head)
      && Verifies(s.plan, s.messages)
      && 1 <= n <= Coverable(s.plan.units, |s.plan.units|) && text != ""
      && SummaryStart(s.plan) >= 0 && s.plan.lead + MessageCount(s.plan.units, n) <= |s.messages|
      && forall c | c in s.chain :: c.id != id
  }

  /** Install a stored summary: rewrite the transcript, advance the plan, move the head. */
  ghost function Committed(s: State, n: nat, c: Compaction): State
    requires n <= |s.plan.units| && SummaryStart(s.plan) >= 0
    requires s.plan.lead + MessageCount(s.plan.units, n) <= |s.messages|
  {
    s.(messages := ReplacePrefix(s.plan, s.messages, n, SummaryMessage(c.summary)),
       chain := s.chain + [c], active := Some(HeadOf(c)), plan := Advance(s.plan, n),
       covered := s.covered + MessageCount(s.plan.units, n),
       cuts := s.cuts + [s.covered + MessageCount(s.plan.units, n)])
  }

  /** Whether the store takes the summary that a commit hands it. */
  ghost predicate Accepted(s: State, n: nat, text: string, id: nat, head: Option<Compaction>)
  {
    1 <= n <= |s.plan.units|
    && StoreAccepts(s.kind, s.rows, s.chain, head, CompactionInput(s.plan, s.active, n, text, id))
  }

  ghost function Apply(s: State, step: Step): State
    requires Enabled(s, step)
  {
    match step
    case Append(tail) => s.(messages := s.messages + tail, rest := s.rest + tail)
    case Store(more) => s.(rows := s.rows + more)
    case Refresh(head) =>
      s.(plan := BuildPlan(s.kind, s.base, s.rows, head), active := ActiveOf(head),
         planned := |s.rows|, rest := s.rest[|s.rows| - s.planned..])
    case Reload(lead, tail, head) =>
      s.(base := lead, rest := tail, planned := |s.rows|,
         messages := Assemble(lead, head, History(s.rows, head), tail),
         plan := BuildPlan(s.kind, lead, s.rows, head), active := ActiveOf(head))
    case Interrupt(marked) => s.(rows := Mark(s.rows, marked))
    case Commit(n, text, id, head) =>
      if Accepted(s, n, text, id, head)
      then Committed(s, n, CompactionInput(s.plan, s.active, n, text, id))
      else s
  }

  // ---- the invariant ----

  /** The raw part starts at a unit boundary, inside the planned rows. */
  ghost predicate Boundary(rows: seq<Row>, covered: nat, planned: nat)
  {
    && covered <= planned <= |rows|
    && (covered > 0 ==> covered < planned && rows[covered].message.role != Tool)
  }

  ghost predicate Aligned(s: State)
    requires s.covered <= s.planned <= |s.rows|
  {
    && s.plan == Plan(|s.base| + |SummaryPart(Last(s.chain))|, s.chain != [],
       Units(s.kind, s.rows[s.covered..s.planned]))
    && s.active == ActiveOf(Last(s.chain))
    && s.messages == Assemble(s.base, Last(s.chain), s.rows[s.covered..s.planned], s.rest)
  }

  ghost predicate Inv(s: State)
  {
    && Ordered(s.rows) && Plain(s.base)
    && Tiles(s.rows, s.chain, s.cuts) && s.covered == s.cuts[|s.chain|]
    && Boundary(s.rows, s.covered, s.planned)
    && Aligned(s)
  }

  /** A fresh conversation: nothing summarised, prompt assembled from lead, history and turn. */
  ghost predicate Initial(s: State)
  {
    && Ordered(s.rows) && Plain(s.base) && s.planned == |s.rows|
    && s.chain == [] && s.cuts == [0] && s.covered == 0 && s.active == None
    && s.plan == Plan(|s.base|, false, Units(s.kind, s.rows))
    && s.messages == s.base + Messages(s.rows) + s.rest
  }

  lemma InitialInv(s: State)
    requires Initial(s)
    ensures Inv(s)
  {
    assert s.rows[0..|s.rows|] == s.rows;
    assert s.base + [] == s.base;
  }

  // ---- one step keeps it ----

  lemma StoreKeepsInv(s: State, more: seq<Row>)
    requires Inv(s) && Enabled(s, Store(more))
    ensures Inv(Apply(s, Store(more)))
  {
    var rows := s.rows + more;
    forall k: nat | k < |s.chain| ensures Link(rows, s.chain, s.cuts, k) {
      assert Link(s.rows, s.chain, s.cuts, k);
    }
    assert rows[s.covered..s.planned] == s.rows[s.covered..s.planned];
  }

  lemma AppendKeepsInv(s: State, tail: seq<Message>)
    requires Inv(s)
    ensures Inv(Apply(s, Append(tail)))
  {
    var raw := s.rows[s.covered..s.planned];
    assert Assemble(s.base, Last(s.chain), raw, s.rest) + tail == Assemble(s.base, Last(s.chain), raw, s.rest + tail);
  }

  lemma DropIsSlice(rows: seq<Row>, k: nat)
    requires k <= |rows|
    ensures rows[k..] == rows[k..|rows|]
  {
  }

  /** What a load returns is the part no summary covers. */
  lemma LoadedHistory(s: State, head: Option<Compaction>)
    requires Ordered(s.rows) && Tiles(s.rows, s.chain, s.cuts) && ActiveHead(s.chain, head)
    requires s.covered == s.cuts[|s.chain|]
    ensures head == Last(s.chain) && s.covered <= |s.rows|
    ensures History(s.rows, head) == s.rows[s.covered..|s.rows|]
  {
    QueryFindsLast(s.rows, s.chain, s.cuts, head);
    HistoryAfterHead(s.rows, s.chain, s.cuts);
    DropIsSlice(s.rows, s.covered);
    assert (match head case None => 0 case Some(c) => c.toSequence)
        == (if s.chain == [] then 0 else s.chain[|s.chain| - 1].toSequence);
  }

  /** Rows stored from the front of the run's own messages extend the history part. */
  lemma StoredJoinHistory(front: seq<Message>, rows: seq<Row>, covered: nat, planned: nat, rest: seq<Message>)
    requires covered <= planned <= |rows| && Messages(rows[planned..]) <= rest
    ensures front + Messages(rows[covered..planned]) + rest
         == front + Messages(rows[covered..|rows|]) + rest[|rows| - planned..]
  {
    var raw, stored := Messages(rows[covered..planned]), Messages(rows[planned..]);
    assert Messages(rows[covered..|rows|]) == raw + stored;
    assert rest == stored + rest[|stored|..];
    assert front + raw + (stored + rest[|stored|..]) == front + (raw + stored) + rest[|stored|..];
  }

  /** The part of the invariant a refresh rewrites. */
  lemma RefreshAligns(s: State, head: Option<Compaction>)
    requires s.covered <= s.planned <= |s.rows| && Aligned(s) && head == Last(s.chain)
    requires History(s.rows, head) == s.rows[s.covered..|s.rows|] && Messages(s.rows[s.planned..]) <= s.rest
    ensures Aligned(s.(plan := BuildPlan(s.kind, s.base, s.rows, head), active := ActiveOf(head),
                       planned := |s.rows|, rest := s.rest[|s.rows| - s.planned..]))
  {
    StoredJoinHistory(s.base + SummaryPart(head), s.rows, s.covered, s.planned, s.rest);
  }

  lemma RefreshKeepsInv(s: State, head: Option<Compaction>)
    requires Inv(s) && Enabled(s, Refresh(head))
    ensures Inv(Apply(s, Refresh(head)))
  {
    LoadedHistory(s, head);
    RefreshAligns(s, head);
  }

  lemma ReloadKeepsInv(s: State, lead: seq<Message>, tail: seq<Message>, head: Option<Compaction>)
    requires Inv(s) && Enabled(s, Reload(lead, tail, head))
    ensures Inv(Apply(s, Reload(lead, tail, head)))
  {
    LoadedHistory(s, head);
  }

  /** Units do not depend on what is marked. */
  lemma {:induction false} UnitsMarked(kind: Kind, rows: seq<Row>, marked: set<nat>)
    ensures Units(kind, Mark(rows, marked)) == Units(kind, rows)
  {
    if rows != [] {
      var front := rows[..|rows| - 1];
      UnitsMarked(kind, front, marked);
      assert Mark(rows, marked)[..|rows| - 1] == Mark(front, marked);
    }
  }

  lemma MarkKeepsChain(rows: seq<Row>, chain: seq<Compaction>, cuts: seq<nat>, marked: set<nat>)
    requires Ordered(rows) && Tiles(rows, chain, cuts)
    ensures Ordered(Mark(rows, marked)) && Tiles(Mark(rows, marked), chain, cuts)
  {
    forall k: nat | k < |chain| ensures Link(Mark(rows, marked), chain, cuts, k) {
      assert Link(rows, chain, cuts, k);
    }
  }

  lemma InterruptKeepsInv(s: State, marked: set<nat>)
    requires Inv(s) && Enabled(s, Interrupt(marked))
    ensures Inv(Apply(s, Interrupt(marked)))
  {
    var rows, raw := Mark(s.rows, marked), s.rows[s.covered..s.planned];
    MarkKeepsChain(s.rows, s.chain, s.cuts, marked);
    assert rows[s.covered..s.planned] == Mark(raw, marked);
    UnitsMarked(s.kind, raw, marked);
    assert Messages(Mark(raw, marked)) == Messages(raw);
  }

  // ---- a commit ----

  /** Where the units of a commit lie in the history: from the first raw row up to the cut. */
  lemma CommittedUnits(kind: Kind, rows: seq<Row>, n: nat)
    requires 1 <= n < |Units(kind, rows)|
    ensures var units, count := Units(kind, rows), MessageCount(Units(kind, rows), n);
            && 0 < count < |rows| && rows[count].message.role != Tool
            && units[0].fromId == rows[0].id && units[0].fromSequence == rows[0].sequence
            && units[n - 1].toId == rows[count - 1].id && units[n - 1].toSequence == rows[count - 1].sequence
            && Units(kind, rows[count..]) == units[n..]
  {
    var units := Units(kind, rows);
    UnitsPartition(kind, rows);
    assert CoversAt(kind, units, rows, 0) && CoversAt(kind, units, rows, n - 1) && CoversAt(kind, units, rows, n);
    assert MessageCount(units, 0) == 0;
    RebuildEqualsAdvance(kind, rows, n);
  }

  /** The same, seen from the whole history. */
  lemma CommittedSlice(kind: Kind, rows: seq<Row>, covered: nat, planned: nat, n: nat, units: seq<Unit>, count: nat)
    requires covered <= planned <= |rows| && units == Units(kind, rows[covered..planned])
    requires 1 <= n < |units| && count == MessageCount(units, n)
    ensures UnitBounds(rows, covered, units, n, count) && Boundary(rows, covered + count, planned)
    ensures Units(kind, rows[covered + count..planned]) == units[n..]
  {
    var raw := rows[covered..planned];
    CommittedUnits(kind, raw, n);
    assert raw[count..] == rows[covered + count..planned];
  }

  /** The unit bounds a commit records, as bounds of rows. */
  ghost predicate UnitBounds(rows: seq<Row>, covered: nat, units: seq<Unit>, n: nat, count: nat)
    requires 1 <= n <= |units|
  {
    var cut := covered + count;
    && covered < cut <= |rows|
    && units[0].fromId == rows[covered].id && units[0].fromSequence == rows[covered].sequence
    && units[n - 1].toId == rows[cut - 1].id && units[n - 1].toSequence == rows[cut - 1].sequence
  }

  /** The rewritten transcript is lead, one summary, and everything behind the cut. */
  lemma RewrittenLayout(base: seq<Message>, part: seq<Message>, rows: seq<Row>, rest: seq<Message>, count: nat,
                        summary: Message)
    requires count <= |rows|
    ensures var messages := base + part + Messages(rows) + rest;
            && messages[..|base|] == base
            && messages[|base| + |part| + count..] == Messages(rows[count..]) + rest
            && messages[|base|..|base| + |part| + count] == part + Messages(rows[..count])
            && base + [summary] + (Messages(rows[count..]) + rest) == base + [summary] + Messages(rows[count..]) + rest
  {
  }

  lemma CommitRewrites(base: seq<Message>, head: Option<Compaction>, rows: seq<Row>, covered: nat, planned: nat,
                       rest: seq<Message>, plan: Plan, n: nat, count: nat, summary: Message)
    requires covered + count <= planned <= |rows| && n <= |plan.units| && MessageCount(plan.units, n) == count
    requires plan.lead == |base| + |SummaryPart(head)| && plan.hasSummary == head.Some?
    ensures ReplacePrefix(plan, Assemble(base, head, rows[covered..planned], rest), n, summary)
         == base + [summary] + Messages(rows[covered + count..planned]) + rest
  {
    var raw := rows[covered..planned];
    RewrittenLayout(base, SummaryPart(head), raw, rest, count, summary);
    assert raw[count..] == rows[covered + count..planned];
  }

  /** Advancing a plan built over the raw rows gives the plan built over what is left of them. */
  lemma PlanAdvances(kind: Kind, lead: nat, part: nat, rows: seq<Row>, covered: nat, planned: nat, plan: Plan, n: nat,
                     count: nat)
    requires covered <= planned <= |rows| && part <= 1
    requires plan == Plan(lead + part, part == 1, Units(kind, rows[covered..planned]))
    requires 1 <= n < |plan.units| && count == MessageCount(plan.units, n)
    ensures Boundary(rows, covered + count, planned)
    ensures Advance(plan, n) == Plan(lead + 1, true, Units(kind, rows[covered + count..planned]))
  {
    CommittedSlice(kind, rows, covered, planned, n, plan.units, count);
  }

  /** What a commit needs of the state it finds. */
  ghost predicate Ready(s: State, n: nat)
  {
    && s.covered <= s.planned <= |s.rows| && Aligned(s) && 1 <= n < |s.plan.units|
    && s.plan.lead + MessageCount(s.plan.units, n) <= |s.messages|
  }

  lemma CommittedPlan(s: State, n: nat, c: Compaction)
    requires Ready(s, n)
    ensures var s' := Committed(s, n, c);
            && Boundary(s'.rows, s'.covered, s'.planned)
            && s'.plan == Plan(|s.base| + 1, true, Units(s.kind, s.rows[s'.covered..s.planned]))
  {
    PlanAdvances(s.kind, |s.base|, |SummaryPart(Last(s.chain))|, s.rows, s.covered, s.planned, s.plan, n,
        MessageCount(s.plan.units, n));
  }

  lemma CommittedMessages(s: State, n: nat, c: Compaction)
    requires Ready(s, n) && Committed(s, n, c).covered <= s.planned
    ensures var s' := Committed(s, n, c);
            s'.messages == Assemble(s.base, Some(c), s.rows[s'.covered..s.planned], s.rest)
  {
    CommitRewrites(s.base, Last(s.chain), s.rows, s.covered, s.planned, s.rest, s.plan, n,
        MessageCount(s.plan.units, n),
                   SummaryMessage(c.summary));
  }

  lemma CommittedAligns(s: State, n: nat, c: Compaction)
    requires Ready(s, n)
    ensures var s' := Committed(s, n, c); Boundary(s'.rows, s'.covered, s'.planned) && Aligned(s')
  {
    CommittedPlan(s, n, c);
    CommittedMessages(s, n, c);
    assert Last(s.chain + [c]) == Some(c);
  }

  /** The stored row links on to the chain. */
  lemma NewLink(rows: seq<Row>, chain: seq<Compaction>, cuts: seq<nat>, plan: Plan, n: nat, count: nat, c: Compaction,
                text: string)
    requires Tiles(rows, chain, cuts) && 1 <= n <= |plan.units| && count == MessageCount(plan.units, n)
    requires UnitBounds(rows, cuts[|chain|], plan.units, n, count)
    requires c == CompactionInput(plan, ActiveOf(Last(chain)), n, text, c.id)
    ensures Link(rows, chain + [c], cuts + [cuts[|chain|] + count], |chain|)
  {
    if chain != [] { assert Link(rows, chain, cuts, |chain| - 1); }
  }

  /** Linking on keeps the tiling. */
  lemma LinkTiles(rows: seq<Row>, chain: seq<Compaction>, cuts: seq<nat>, cut: nat, c: Compaction)
    requires Tiles(rows, chain, cuts) && forall d | d in chain :: d.id != c.id
    requires Link(rows, chain + [c], cuts + [cut], |chain|)
    ensures Tiles(rows, chain + [c], cuts + [cut])
  {
    forall k: nat | k < |chain| ensures Link(rows, chain + [c], cuts + [cut], k) {
      assert Link(rows, chain, cuts, k);
    }
  }

  /** The chain part of a commit. */
  lemma CommitTiles(s: State, n: nat, count: nat, c: Compaction, text: string)
    requires Tiles(s.rows, s.chain, s.cuts) && s.covered == s.cuts[|s.chain|] && s.active == ActiveOf(Last(s.chain))
    requires 1 <= n <= |s.plan.units| && count == MessageCount(s.plan.units, n)
    requires UnitBounds(s.rows, s.covered, s.plan.units, n, count)
    requires c == CompactionInput(s.plan, s.active, n, text, c.id) && forall d | d in s.chain :: d.id != c.id
    ensures Tiles(s.rows, s.chain + [c], s.cuts + [s.covered + count])
  {
    NewLink(s.rows, s.chain, s.cuts, s.plan, n, count, c, text);
    LinkTiles(s.rows, s.chain, s.cuts, s.covered + count, c);
  }

  lemma CommittedTiles(s: State, n: nat, count: nat, c: Compaction, text: string)
    requires Tiles(s.rows, s.chain, s.cuts) && s.covered == s.cuts[|s.chain|] && s.active == ActiveOf(Last(s.chain))
    requires 1 <= n <= |s.plan.units| && count == MessageCount(s.plan.units, n) && SummaryStart(s.plan) >= 0
    requires UnitBounds(s.rows, s.covered, s.plan.units, n, count) && s.plan.lead + count <= |s.messages|
    requires c == CompactionInput(s.plan, s.active, n, text, c.id) && forall d | d in s.chain :: d.id != c.id
    ensures var s' := Committed(s, n, c); Tiles(s'.rows, s'.chain, s'.cuts) && s'.covered == s'.cuts[|s'.chain|]
  {
    CommitTiles(s, n, count, c, text);
  }

  /** What an enabled commit finds. */
  lemma CommitIsReady(s: State, n: nat, text: string, id: nat, head: Option<Compaction>)
    requires Inv(s) && Enabled(s, Commit(n, text, id, head))
    ensures Ready(s, n) && SummaryStart(s.plan) >= 0
  {
  }

  lemma CommitKeepsChain(s: State, n: nat, text: string, id: nat)
    requires Tiles(s.rows, s.chain, s.cuts) && s.covered == s.cuts[|s.chain|] && Ready(s, n)
    requires SummaryStart(s.plan) >= 0 && forall c | c in s.chain :: c.id != id
    ensures var s' := Committed(s, n, CompactionInput(s.plan, s.active, n, text, id));
            Tiles(s'.rows, s'.chain, s'.cuts) && s'.covered == s'.cuts[|s'.chain|]
  {
    var count := MessageCount(s.plan.units, n);
    CommittedSlice(s.kind, s.rows, s.covered, s.planned, n, s.plan.units, count);
    CommittedTiles(s, n, count, CompactionInput(s.plan, s.active, n, text, id), text);
  }

  /** A commit moves plan, head, transcript and chain together, or changes nothing. */
  lemma CommitKeepsInv(s: State, n: nat, text: string, id: nat, head: Option<Compaction>)
    requires Inv(s) && Enabled(s, Commit(n, text, id, head))
    ensures Inv(Apply(s, Commit(n, text, id, head)))
  {
    if Accepted(s, n, text, id, head) {
      CommitIsReady(s, n, text, id, head);
      CommitKeepsChain(s, n, text, id);
      CommittedAligns(s, n, CompactionInput(s.plan, s.active, n, text, id));
    }
  }
}
