/** The compactor: it picks the prefix to summarise, has it summarised, and commits. */
module Compactor {
  import opened Arithmetic
  import opened Conversation
  import opened Options
  import opened Reconstruction
  import opened SummaryChain
  import opened CompactionRuns

  /** A token counter; counting may fail. Nothing else is known about it. */
  type Counter = seq<Message> -> Option<int>

  const MINIMUM_SUMMARY_TOKENS := 512

  // ---- the rooms to try ----

  function Halved(configured: int, i: nat): int
  {
    if i == 0 then configured else Halved(configured, i - 1) / 2
  }

  /** The rooms tried are the configured one and its halves, as long as those leave the minimum. */
  ghost predicate IsRooms(configured: int, rooms: seq<int>)
  {
    && rooms != []
    && (forall i: nat | i < |rooms| :: rooms[i] == Halved(configured, i))
    && (forall i | 1 <= i < |rooms| :: rooms[i] >= MINIMUM_SUMMARY_TOKENS)
    && Halved(configured, |rooms|) < MINIMUM_SUMMARY_TOKENS
  }

  method SummaryRooms(configured: int) returns (rooms: seq<int>)
    requires configured > 0
    ensures IsRooms(configured, rooms)
  {
    rooms := [configured];
    var room := configured / 2;
    while room >= MINIMUM_SUMMARY_TOKENS
      invariant rooms != [] && room == Halved(configured, |rooms|)
      invariant forall i: nat | i < |rooms| :: rooms[i] == Halved(configured, i)
      invariant forall i | 1 <= i < |rooms| :: rooms[i] >= MINIMUM_SUMMARY_TOKENS
    {
      rooms := rooms + [room];
      room := room / 2;
    }
  }

  /** Room `i` is the configured room divided by two to the `i`, rounded down. */
  lemma {:induction false} RoomIsQuotient(configured: int, i: nat)
    requires configured > 0
    ensures Power(2, i) > 0 && Halved(configured, i) == configured / Power(2, i)
  {
    if i > 0 {
      RoomIsQuotient(configured, i - 1);
      PowerPositive(2, i - 1);
      DivideTwice(configured, Power(2, i - 1));
    }
  }

  /** Later rooms are smaller. */
  lemma {:induction false} RoomsShrink(configured: int, rooms: seq<int>, i: nat, j: nat)
    requires configured > 0 && IsRooms(configured, rooms) && i < j < |rooms|
    ensures rooms[j] < rooms[i]
    decreases j
  {
    assert Halved(configured, j) == Halved(configured, j - 1) / 2;
    if i < j - 1 { RoomsShrink(configured, rooms, i, j - 1); }
  }

  // ---- what a selection must be ----

  datatype Selection = Selected(units: nat, room: int) | Unavailable | CountFailed

  /** The request with `units` units replaced by an empty summary. */
  ghost function Candidate(plan: Plan, messages: seq<Message>, units: nat): seq<Message>
    requires Verifies(plan, messages) && units <= |plan.units| && plan.units != []
  {
    CoveredIsInside(plan, messages, units);
    ReplacePrefix(plan, messages, units, SummaryMessage(""))
  }

  /** One search problem: what each candidate counts to, and the bounds to meet. */
  datatype Search = Search(counts: seq<Option<int>>, budget: int, configured: int)

  ghost function SearchOf(plan: Plan, messages: seq<Message>, budget: int, configured: int,
                          counter: Counter): (q: Search)
    requires Verifies(plan, messages)
    ensures |q.counts| == Coverable(plan.units, |plan.units|)
    ensures forall u: nat | u < |q.counts| ::
              plan.units != [] && q.counts[u] == counter(Candidate(plan, messages, u + 1))
  {
    Search(seq(Coverable(plan.units, |plan.units|),
               u requires 0 <= u < Coverable(plan.units, |plan.units|) => counter(Candidate(plan, messages, u + 1))),
           budget, configured)
  }

  ghost predicate Fits(q: Search, units: nat, room: int)
    requires 1 <= units <= |q.counts|
  {
    q.counts[units - 1].Some? && q.counts[units - 1].value + room <= q.budget
  }

  /** No prefix of fewer than `bound` units fits `room`. */
  ghost predicate NoneFits(q: Search, bound: nat, room: int)
    requires bound <= |q.counts| + 1
  {
    forall u: nat | 1 <= u < bound :: !Fits(q, u, room)
  }

  /** Every room before `i` fits no prefix at all. */
  ghost predicate NoRoomFits(q: Search, rooms: seq<int>, i: nat)
    requires i <= |rooms|
  {
    forall j: nat | j < i :: NoneFits(q, |q.counts| + 1, rooms[j])
  }

  ghost predicate AllCounted(q: Search)
  {
    forall u: nat | u < |q.counts| :: q.counts[u].Some?
  }

  /** The naive reading: the first room any prefix fits, with the smallest prefix that fits
      it; failing when nothing fits, or when a count is needed that fails. */
  ghost predicate IsSelection(q: Search, rooms: seq<int>, r: Selection)
    requires rooms != []
  {
    match r
    case Selected(units, room) =>
      exists i: nat | i < |rooms| ::
        && room == rooms[i] && NoRoomFits(q, rooms, i)
        && 1 <= units <= |q.counts| && Fits(q, units, room) && NoneFits(q, units, room)
        && (if i > 0 then AllCounted(q) else forall u: nat | u < units :: q.counts[u].Some?)
    case Unavailable => AllCounted(q) && NoRoomFits(q, rooms, |rooms|)
    case CountFailed =>
      exists u: nat | u < |q.counts| ::
        && q.counts[u].None? && (forall v: nat | v < u :: q.counts[v].Some?)
        && NoneFits(q, u + 1, rooms[0])
  }

  /** With every count available, the search gives up exactly when no prefix fits any room. */
  lemma UnavailableMeansNothingFits(q: Search, rooms: seq<int>, r: Selection)
    requires rooms != [] && IsSelection(q, rooms, r) && AllCounted(q)
    ensures r.Unavailable? <==> forall j: nat, u: nat | j < |rooms| && 1 <= u <= |q.counts| :: !Fits(q, u, rooms[j])
  {
    if r.Unavailable? {
      forall j: nat, u: nat | j < |rooms| && 1 <= u <= |q.counts| ensures !Fits(q, u, rooms[j]) {
        assert NoneFits(q, |q.counts| + 1, rooms[j]);
      }
    }
  }

  lemma FittingRoomIsNotBefore(q: Search, rooms: seq<int>, i: nat, j: nat, u: nat)
    requires i <= |rooms| && j < |rooms| && NoRoomFits(q, rooms, i)
    requires 1 <= u <= |q.counts| && Fits(q, u, rooms[j])
    ensures i <= j
  {
  }

  /** The selected room is the largest any prefix fits, and the prefix the smallest that fits it. */
  lemma SelectedIsLargestRoomSmallestPrefix(q: Search, rooms: seq<int>, r: Selection, j: nat, u: nat)
    requires q.configured > 0 && IsRooms(q.configured, rooms) && IsSelection(q, rooms, r) && r.Selected?
    requires j < |rooms| && 1 <= u <= |q.counts| && Fits(q, u, rooms[j])
    ensures rooms[j] <= r.room && (rooms[j] == r.room ==> r.units <= u)
  {
    var i: nat :| i < |rooms| && r.room == rooms[i] && NoRoomFits(q, rooms, i) && NoneFits(q, r.units, r.room);
    FittingRoomIsNotBefore(q, rooms, i, j, u);
    if i < j { RoomsShrink(q.configured, rooms, i, j); }
  }

  lemma SelectedExcludesFailure(q: Search, rooms: seq<int>, r: Selection)
    requires rooms != [] && IsSelection(q, rooms, r) && r.Selected?
    ensures !IsSelection(q, rooms, Unavailable) && !IsSelection(q, rooms, CountFailed)
  {
    var i: nat :| && i < |rooms| && r.room == rooms[i]
                  && (if i > 0 then AllCounted(q) else forall u: nat | u < r.units :: q.counts[u].Some?);
    assert i > 0 ==> AllCounted(q);
    if NoRoomFits(q, rooms, |rooms|) { FittingRoomIsNotBefore(q, rooms, |rooms|, i, r.units); }
    forall u: nat | u < |q.counts| && q.counts[u].None? ensures !NoneFits(q, u + 1, rooms[0]) {
      assert i == 0 && r.units <= u && Fits(q, r.units, rooms[0]);
    }
  }

  lemma SelectedOnce(q: Search, rooms: seq<int>, r: Selection, r': Selection)
    requires rooms != [] && IsSelection(q, rooms, r) && IsSelection(q, rooms, r') && r.Selected? && r'.Selected?
    ensures r == r'
  {
    var i: nat :| i < |rooms| && r.room == rooms[i] && NoRoomFits(q, rooms, i) && NoneFits(q, r.units, r.room);
    var j: nat :| j < |rooms| && r'.room == rooms[j] && NoRoomFits(q, rooms, j) && NoneFits(q, r'.units, r'.room);
    FittingRoomIsNotBefore(q, rooms, i, j, r'.units);
    FittingRoomIsNotBefore(q, rooms, j, i, r.units);
  }

  /** The naive reading leaves no choice: it determines the result, failures included. */
  lemma SelectionIsUnique(q: Search, rooms: seq<int>, r: Selection, r': Selection)
    requires rooms != [] && IsSelection(q, rooms, r) && IsSelection(q, rooms, r')
    ensures r == r'
  {
    if r.Selected? { SelectedExcludesFailure(q, rooms, r); }
    if r'.Selected? { SelectedExcludesFailure(q, rooms, r'); }
    if r.Selected? && r'.Selected? { SelectedOnce(q, rooms, r, r'); }
  }

  // ---- the objects ----

  class TokenLimitEvent {
    var messages: seq<Message>
    var estimated: int
    const budget: int
    /** Every transcript that was counted. */
    ghost var counted: seq<seq<Message>>

    constructor (messages: seq<Message>, budget: int)
      ensures this.messages == messages && this.budget == budget && counted == []
    {
      this.messages, this.budget, this.estimated, this.counted := messages, budget, 0, [];
    }

    /** Count the transcript; None when counting fails. */
    method IsOverBudget(counter: Counter) returns (over: Option<bool>)
      modifies `estimated, `counted
      ensures counted == old(counted) + [messages]
      ensures counter(messages).None? ==> over == None && estimated == old(estimated)
      ensures counter(messages).Some? ==> estimated == counter(messages).value && over == Some(estimated > budget)
    {
      counted := counted + [messages];
      match counter(messages)
      case None => over := None;
      case Some(n) =>
        estimated := n;
        over := Some(estimated > budget);
    }
  }

  ghost function Candidates(plan: Plan, messages: seq<Message>, n: nat): seq<seq<Message>>
    requires Verifies(plan, messages) && n <= |plan.units| && (n > 0 ==> plan.units != [])
  {
    if n == 0 then [] else Candidates(plan, messages, n - 1) + [Candidate(plan, messages, n)]
  }

  /** The estimates made so far are what the first candidates count to. */
  ghost predicate Estimated(q: Search, estimates: seq<int>)
  {
    && |estimates| <= |q.counts|
    && forall u: nat | u < |estimates| :: q.counts[u] == Some(estimates[u])
  }

  /** The first `k` counts of `q` are the counts of the first candidates. */
  ghost predicate Linked(q: Search, plan: Plan, messages: seq<Message>, counter: Counter, k: nat)
    requires Verifies(plan, messages)
  {
    k == 0 || (&& k <= |q.counts| && k <= |plan.units| && q.counts[k - 1] == counter(Candidate(plan, messages, k))
               && Linked(q, plan, messages, counter, k - 1))
  }

  lemma {:induction false} LinkedAt(q: Search, plan: Plan, messages: seq<Message>, counter: Counter, k: nat, units: nat)
    requires Verifies(plan, messages) && Linked(q, plan, messages, counter, k) && 1 <= units <= k
    ensures units <= |plan.units| && k <= |q.counts| && q.counts[units - 1] == counter(Candidate(plan, messages, units))
  {
    if units < k { LinkedAt(q, plan, messages, counter, k - 1, units); }
  }

  lemma {:induction false} SearchIsLinked(plan: Plan, messages: seq<Message>, budget: int, configured: int,
                                          counter: Counter, k: nat)
    requires Verifies(plan, messages) && k <= Coverable(plan.units, |plan.units|)
    ensures Linked(SearchOf(plan, messages, budget, configured, counter), plan, messages, counter, k)
  {
    if k > 0 { SearchIsLinked(plan, messages, budget, configured, counter, k - 1); }
  }

  datatype Refreshed = NoRefresher | RefreshFailed | Reread(plan: Plan, active: Option<Head>)

  /** The plan and the head in force once a refresher, if there is one, has answered. */
  function PlanInForce(refreshed: Refreshed, plan: Plan): Plan
  {
    if refreshed.Reread? then refreshed.plan else plan
  }

  function HeadInForce(refreshed: Refreshed, active: Option<Head>): Option<Head>
  {
    if refreshed.Reread? then refreshed.active else active
  }

  /** A user message with the summary's text stands where the covered messages stood, and a summary
      before them; every other message is as it was. */
  ghost predicate Summarised(plan: Plan, units: nat, text: string, messages: seq<Message>, messages': seq<Message>)
    requires units <= |plan.units|
  {
    var start := if plan.hasSummary then plan.lead - 1 else plan.lead;
    && 0 <= start && plan.lead + MessageCount(plan.units, units) <= |messages|
    && messages' == messages[..start] + [Message(User, text, {}, None)]
                  + messages[plan.lead + MessageCount(plan.units, units)..]
  }

  /** What a commit leaves, in terms of what it found: the same as one commit step. */
  ghost predicate Installed(plan: Plan, active: Option<Head>, messages: seq<Message>, chain: seq<Compaction>,
                            units: nat, text: string, id: nat,
                            plan': Plan, active': Option<Head>, messages': seq<Message>, chain': seq<Compaction>)
  {
    && 1 <= units <= |plan.units|
    && Summarised(plan, units, text, messages, messages')
    && plan' == Advance(plan, units)
    && chain' == chain + [CompactionInput(plan, active, units, text, id)]
    && active' == Some(HeadOf(CompactionInput(plan, active, units, text, id)))
  }

  /** A commit the object makes is the commit step of a store that accepts, and one it takes back
      is the step of a store that refuses, so every run theorem covers both. */
  lemma InstalledIsCommitStep(s: State, n: nat, text: string, id: nat, head: Option<Compaction>, plan': Plan,
                              active': Option<Head>, messages': seq<Message>, chain': seq<Compaction>)
    requires Enabled(s, Step.Commit(n, text, id, head))
    requires if Accepted(s, n, text, id, head)
             then Installed(s.plan, s.active, s.messages, s.chain, n, text, id, plan', active', messages', chain')
             else plan' == s.plan && active' == s.active && messages' == s.messages && chain' == s.chain
    ensures var s' := Apply(s, Step.Commit(n, text, id, head));
            s'.plan == plan' && s'.active == active' && s'.messages == messages' && s'.chain == chain'
  {
  }

  datatype Outcome =
    | Done
    | RefreshError | Mismatch | NothingToSummarize | CountError | HookError
    | SummarizerError | EmptySummary | RecountError | Insufficient | PersistError

  /** The search that stops at a room, with every room before it tried in vain, is the naive one. */
  lemma StoppedAtRoom(q: Search, rooms: seq<int>, i: nat, r: Selection, estimates: seq<int>)
    requires i < |rooms| && NoRoomFits(q, rooms, i) && Estimated(q, estimates) && !r.Unavailable?
    requires r.CountFailed? ==>
               && i == 0 && |estimates| < |q.counts| && q.counts[|estimates|].None?
               && NoneFits(q, |estimates| + 1, rooms[0])
    requires r.Selected? ==>
               && r.room == rooms[i] && 1 <= r.units <= |estimates| && (i > 0 ==> |estimates| == |q.counts|)
               && Fits(q, r.units, rooms[i]) && NoneFits(q, r.units, rooms[i])
    ensures IsSelection(q, rooms, r)
  {
  }

  lemma OneRoomMore(q: Search, rooms: seq<int>, i: nat)
    requires i < |rooms| && NoRoomFits(q, rooms, i) && NoneFits(q, |q.counts| + 1, rooms[i])
    ensures NoRoomFits(q, rooms, i + 1)
  {
  }

  lemma NothingFitted(q: Search, rooms: seq<int>, estimates: seq<int>)
    requires rooms != [] && NoRoomFits(q, rooms, |rooms|) && Estimated(q, estimates) && |estimates| == |q.counts|
    ensures IsSelection(q, rooms, Unavailable)
  {
  }

  class Compactor {
    var plan: Plan
    var active: Option<Head>
    var room: int
    const maxOutput: int
    /** The summaries stored so far. */
    var chain: seq<Compaction>

    constructor (plan: Plan, active: Option<Head>, chain: seq<Compaction>, maxOutput: int)
      ensures this.plan == plan && this.active == active && this.chain == chain && this.maxOutput == maxOutput
    {
      this.plan, this.active, this.chain, this.maxOutput, this.room := plan, active, chain, maxOutput, 0;
    }

    /** Count one candidate: install it, count, read the estimate. */
    method CountCandidate(event: TokenLimitEvent, counter: Counter, original: seq<Message>, units: nat, ghost q: Search)
      returns (estimate: Option<int>)
      requires Verifies(plan, original) && Linked(q, plan, original, counter, |q.counts|) && 1 <= units <= |q.counts|
      modifies event
      ensures estimate == q.counts[units - 1] && units <= |plan.units|
      ensures event.counted == old(event.counted) + [Candidate(plan, original, units)]
    {
      LinkedAt(q, plan, original, counter, |q.counts|, units);
      CoveredIsInside(plan, original, units);
      event.messages := ReplacePrefix(plan, original, units, SummaryMessage(""));
      var over := event.IsOverBudget(counter);
      if over.None? {
        return None;
      }
      estimate := Some(event.estimated);
    }

    /** Make sure prefix `units` has been counted; count it only if it has not. */
    method Estimate(event: TokenLimitEvent, counter: Counter, original: seq<Message>, units: nat, estimates: seq<int>,
                    ghost q: Search, ghost log: seq<seq<Message>>)
      returns (failed: bool, estimates': seq<int>)
      requires Verifies(plan, original) && Linked(q, plan, original, counter, |q.counts|)
      requires |q.counts| <= |plan.units| && 1 <= units <= |q.counts| && units <= |estimates| + 1
      requires Estimated(q, estimates) && event.counted == log + Candidates(plan, original, |estimates|)
      modifies event
      ensures Estimated(q, estimates') && |estimates'| >= |estimates|
      ensures !failed ==> |estimates'| >= units && event.counted == log + Candidates(plan, original, |estimates'|)
      ensures |estimates| >= units ==> estimates' == estimates
      ensures |estimates| < units && !failed ==> |estimates'| == units
      ensures failed ==> && |estimates| < units && q.counts[units - 1].None? && estimates' == estimates
                         && event.counted == log + Candidates(plan, original, units)
    {
      failed, estimates' := false, estimates;
      if units > |estimates| {
        var estimate := CountCandidate(event, counter, original, units, q);
        assert Candidates(plan, original, units)
            == Candidates(plan, original, units - 1) + [Candidate(plan, original, units)];
        if estimate.None? {
          return true, estimates;
        }
        estimates' := estimates + [estimate.value];
      }
    }

    /** The smallest prefix that fits one room. */
    method TryRoom(event: TokenLimitEvent, counter: Counter, original: seq<Message>, coverable: nat, room: int,
                   estimates: seq<int>,
                   ghost q: Search, ghost log: seq<seq<Message>>)
      returns (r: Selection, estimates': seq<int>)
      requires Verifies(plan, original) && Linked(q, plan, original, counter, |q.counts|)
      requires |q.counts| == coverable <= |plan.units| && q.budget == event.budget
      requires Estimated(q, estimates) && (estimates == [] || |estimates| == coverable)
      requires event.counted == log + Candidates(plan, original, |estimates|)
      modifies event
      ensures Estimated(q, estimates')
      ensures r.CountFailed? ==> && |estimates'| < coverable && q.counts[|estimates'|].None? && estimates == []
                                 && NoneFits(q, |estimates'| + 1, room)
                                 && event.counted == log + Candidates(plan, original, |estimates'| + 1)
      ensures !r.CountFailed? ==> event.counted == log + Candidates(plan, original, |estimates'|)
      ensures r.Unavailable? ==> |estimates'| == coverable && NoneFits(q, coverable + 1, room)
      ensures r.Selected? ==> && r.room == room && 1 <= r.units <= |estimates'|
                              && Fits(q, r.units, room) && NoneFits(q, r.units, room)
                              && (estimates != [] ==> |estimates'| == coverable)
    {
      estimates' := estimates;
      var units := 1;
      while units <= coverable
        invariant 1 <= units <= coverable + 1
        invariant Estimated(q, estimates') && |estimates'| == if estimates == [] then units - 1 else coverable
        invariant NoneFits(q, units, room)
        invariant event.counted == log + Candidates(plan, original, |estimates'|)
      {
        var failed;
        failed, estimates' := Estimate(event, counter, original, units, estimates', q, log);
        if failed {
          return CountFailed, estimates';
        }
        if estimates'[units - 1] + room <= event.budget {
          return Selected(units, room), estimates';
        }
        units := units + 1;
      }
      r := Unavailable;
    }

    /** Try the rooms in order. */
    method TryRooms(event: TokenLimitEvent, counter: Counter, original: seq<Message>, coverable: nat, rooms: seq<int>,
                    ghost q: Search, ghost log: seq<seq<Message>>)
      returns (r: Selection, ghost n: nat)
      requires Verifies(plan, original) && Linked(q, plan, original, counter, |q.counts|)
      requires 0 < |q.counts| == coverable <= |plan.units| && q.budget == event.budget && rooms != []
      requires event.counted == log
      modifies event
      ensures IsSelection(q, rooms, r)
      ensures n <= coverable && event.counted == log + Candidates(plan, original, n)
    {
      var estimates: seq<int> := [];
      for i := 0 to |rooms|
        invariant Estimated(q, estimates) && |estimates| == if i == 0 then 0 else coverable
        invariant NoRoomFits(q, rooms, i)
        invariant event.counted == log + Candidates(plan, original, |estimates|)
      {
        r, estimates := TryRoom(event, counter, original, coverable, rooms[i], estimates, q, log);
        n := |estimates| + if r.CountFailed? then 1 else 0;
        assert event.counted == log + Candidates(plan, original, n);
        if !r.Unavailable? {
          StoppedAtRoom(q, rooms, i, r, estimates);
          return;
        }
        OneRoomMore(q, rooms, i);
      }
      NothingFitted(q, rooms, estimates);
      r, n := Unavailable, |estimates|;
    }

    /** Pick the prefix and the room; the transcript is put back on every path. */
    method SelectPrefix(event: TokenLimitEvent, counter: Counter)
      returns (r: Selection, ghost rooms: seq<int>, ghost n: nat)
      requires Verifies(plan, event.messages) && maxOutput > 0
      modifies event
      ensures event.messages == old(event.messages)
      ensures IsRooms(maxOutput, rooms)
      ensures IsSelection(SearchOf(plan, event.messages, event.budget, maxOutput, counter), rooms, r)
      ensures n <= Coverable(plan.units, |plan.units|)
      ensures event.counted == old(event.counted) + Candidates(plan, event.messages, n)
    {
      var coverable := CoverableUnits(plan.units);
      var tries := SummaryRooms(maxOutput);
      rooms, n := tries, 0;
      if coverable == 0 {
        return Unavailable, rooms, n;
      }
      var original := event.messages;
      ghost var q := SearchOf(plan, original, event.budget, maxOutput, counter);
      SearchIsLinked(plan, original, event.budget, maxOutput, counter, coverable);
      r, n := TryRooms(event, counter, original, coverable, tries, q, event.counted);
      event.messages := original;
    }

    /** Install the summary, recount, store; on any failure everything is as it was. */
    method Commit(event: TokenLimitEvent, counter: Counter, units: nat, text: string, stored: Option<nat>)
      returns (r: Outcome)
      requires Verifies(plan, event.messages) && 1 <= units <= |plan.units|
      modifies this, event
      ensures room == old(room)
      ensures SummaryStart(old(plan)) >= 0
      ensures old(plan).lead + MessageCount(old(plan).units, units) <= |old(event.messages)|
      ensures var rewritten := ReplacePrefix(old(plan), old(event.messages), units, SummaryMessage(text));
              && Summarised(old(plan), units, text, old(event.messages), rewritten)
              && event.counted == old(event.counted) + [rewritten]
              && r == (match counter(rewritten)
                       case None => RecountError
                       case Some(tokens) =>
                         if tokens > event.budget then Insufficient else if stored.None? then PersistError else Done)
              && (r.Done? ==>
                    Installed(old(plan), old(active), old(event.messages), old(chain), units, text, stored.value,
                              plan, active, event.messages, chain))
              && (!r.Done? ==> && event.messages == old(event.messages) && plan == old(plan)
                               && chain == old(chain) && active == old(active))
    {
      CoveredIsInside(plan, event.messages, units);
      var original := event.messages;
      event.messages := ReplacePrefix(plan, original, units, SummaryMessage(text));
      var over := event.IsOverBudget(counter);
      if over.None? {
        event.messages := original;
        return RecountError;
      }
      if over.value {
        event.messages := original;
        return Insufficient;
      }
      if stored.None? {
        event.messages := original;
        return PersistError;
      }
      var row := CompactionInput(plan, active, units, text, stored.value);
      chain := chain + [row];
      active := Some(HeadOf(row));
      plan := Advance(plan, units);
      r := Done;
    }

    /** Run the hook and the summarizer for the selected prefix, and commit what it wrote. */
    method CommitSummary(event: TokenLimitEvent, counter: Counter, units: nat, hookOk: bool, summary: Option<string>,
                         stored: Option<nat>)
      returns (r: Outcome)
      requires Verifies(plan, event.messages) && 1 <= units <= |plan.units|
      modifies this, event
      ensures room == old(room) && !r.RefreshError? && !r.Mismatch?
      ensures r.Done? ==> && hookOk && summary.Some? && summary.value != "" && stored.Some?
                          && Installed(old(plan), old(active), old(event.messages), old(chain), units, summary.value,
                                       stored.value, plan, active, event.messages, chain)
                          && counter(event.messages).Some? && counter(event.messages).value <= event.budget
      ensures !r.Done? ==> && event.messages == old(event.messages) && chain == old(chain)
                           && plan == old(plan) && active == old(active)
    {
      if !hookOk {
        return HookError;
      }
      if summary.None? {
        return SummarizerError;
      }
      if summary.value == "" {
        return EmptySummary;
      }
      r := Commit(event, counter, units, summary.value, stored);
    }

    /** Select, summarise and commit under a plan that verifies. `hookOk`, `summary` and `stored`
        are what the pre-compaction hook, the summarizer and the store answer. */
    method Compact(event: TokenLimitEvent, counter: Counter, hookOk: bool, summary: Option<string>, stored: Option<nat>)
      returns (r: Outcome, ghost units: nat, ghost rooms: seq<int>)
      requires maxOutput > 0 && Verifies(plan, event.messages)
      modifies this, event
      ensures !r.RefreshError? && !r.Mismatch?
      ensures r.Done? ==> && hookOk && summary.Some? && summary.value != "" && stored.Some?
                          && IsRooms(maxOutput, rooms)
                          && IsSelection(SearchOf(old(plan), old(event.messages), event.budget, maxOutput, counter),
                                         rooms, Selected(units, room))
                          && 1 <= units <= Coverable(old(plan).units, |old(plan).units|)
                          && Installed(old(plan), old(active), old(event.messages), old(chain), units, summary.value,
                                       stored.value, plan, active, event.messages, chain)
                          && counter(event.messages).Some? && counter(event.messages).value <= event.budget
      ensures !r.Done? ==> && event.messages == old(event.messages) && chain == old(chain)
                           && plan == old(plan) && active == old(active)
    {
      units := 0;
      var selection, tried, _ := SelectPrefix(event, counter);
      rooms := tried;
      if selection.Unavailable? {
        return NothingToSummarize, units, rooms;
      }
      if selection.CountFailed? {
        return CountError, units, rooms;
      }
      room, units := selection.room, selection.units;
      r := CommitSummary(event, counter, selection.units, hookOk, summary, stored);
    }

    /** One token-limit hook: reread the plan, check it, compact. */
    method Handle(event: TokenLimitEvent, counter: Counter, refreshed: Refreshed, hookOk: bool,
                  summary: Option<string>, stored: Option<nat>)
      returns (r: Outcome, ghost units: nat, ghost rooms: seq<int>)
      requires maxOutput > 0
      modifies this, event
      ensures r.RefreshError? <==> refreshed.RefreshFailed?
      ensures r.Mismatch?
              <==> !refreshed.RefreshFailed? && !Verifies(PlanInForce(refreshed, old(plan)), old(event.messages))
      ensures !r.Done? ==> && event.messages == old(event.messages) && chain == old(chain)
                           && plan == PlanInForce(refreshed, old(plan)) && active == HeadInForce(refreshed, old(active))
      ensures r.Done? ==> && hookOk && summary.Some? && summary.value != "" && stored.Some?
                          && Verifies(PlanInForce(refreshed, old(plan)), old(event.messages))
                          && IsRooms(maxOutput, rooms)
                          && IsSelection(SearchOf(PlanInForce(refreshed, old(plan)), old(event.messages),
                                                  event.budget, maxOutput, counter),
                                         rooms, Selected(units, room))
                          && Installed(PlanInForce(refreshed, old(plan)), HeadInForce(refreshed, old(active)),
                                       old(event.messages), old(chain), units, summary.value, stored.value,
                                       plan, active, event.messages, chain)
                          && counter(event.messages).Some? && counter(event.messages).value <= event.budget
    {
      units, rooms := 0, [];
      if refreshed.RefreshFailed? {
        return RefreshError, units, rooms;
      }
      if refreshed.Reread? {
        plan, active := refreshed.plan, refreshed.active;
      }
      var ok := Verify(plan, event.messages);
      if !ok {
        return Mismatch, units, rooms;
      }
      r, units, rooms := Compact(event, counter, hookOk, summary, stored);
    }
  }
}
