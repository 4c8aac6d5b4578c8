/** One round budget across directory changes: a request stops when the directory has moved
    and goes on, under the new directory, with what is left of its rounds. */
module RoundBudget {
  import opened Options
  import opened Pricing

  /** What the model and its tools do in one round. */
  datatype Round = Round(fails: bool, hop: bool, final: bool, usage: Usage)

  /** What happens in the round of each number. */
  type Script = int -> Round

  datatype Outcome = Finished | Failed | Exhausted | Changed

  // ---- the run as if directories never moved ----

  datatype Result = Result(outcome: Outcome, completed: int)

  /** Rounds from `n` on, one after the other, until one ends the request or the budget does. */
  function Uninterrupted(script: Script, n: int, maximum: int): Result
    decreases maximum - n
  {
    if n >= maximum then Result(Exhausted, n)
    else if script(n).fails then Result(Failed, n)
    else if script(n).final then Result(Finished, n + 1)
    else Uninterrupted(script, n + 1, maximum)
  }

  /** The usage of rounds `a` up to `b`. */
  function UsageOf(script: Script, a: int, b: int): Usage
    decreases b - a
  {
    if b <= a then NoUsage() else Merge(UsageOf(script, a, b - 1), script(b - 1).usage)
  }

  /** The numbers from `a` up to `b`. */
  function Numbers(a: int, b: int): seq<int>
    decreases b - a
  {
    if b <= a then [] else Numbers(a, b - 1) + [b - 1]
  }

  /** They are consecutive, so no two are the same. */
  lemma {:induction false} NumbersAre(a: int, b: int, i: nat)
    requires a <= b && i < b - a
    ensures |Numbers(a, b)| == b - a && Numbers(a, b)[i] == a + i
    decreases b - a
  {
    if a < b - 1 { NumbersAre(a, b - 1, if i < b - 1 - a then i else 0); }
  }

  lemma {:induction false} UsageJoins(script: Script, a: int, b: int, c: int)
    requires a <= b <= c
    ensures Merge(UsageOf(script, a, b), UsageOf(script, b, c)) == UsageOf(script, a, c)
    decreases c - b
  {
    if b < c { UsageJoins(script, a, b, c - 1); }
  }

  lemma {:induction false} NumbersJoin(a: int, b: int, c: int)
    requires a <= b <= c
    ensures Numbers(a, b) + Numbers(b, c) == Numbers(a, c)
    decreases c - b
  {
    if b < c {
      NumbersJoin(a, b, c - 1);
      assert Numbers(a, b) + (Numbers(b, c - 1) + [c - 1]) == (Numbers(a, b) + Numbers(b, c - 1)) + [c - 1];
    } else {
      assert Numbers(a, b) + [] == Numbers(a, b);
    }
  }

  /** The round of number `i` neither fails nor ends the request. */
  ghost predicate GoesOn(script: Script, i: int)
  {
    !script(i).fails && !script(i).final
  }

  /** The request ends with the first round that fails or is final, which counts as completed only
      when it does not fail; without such a round it uses the budget up. */
  ghost predicate EndsAt(script: Script, first: int, maximum: int, outcome: Outcome, n: int)
  {
    match outcome
    case Failed => first <= n < maximum && script(n).fails && forall i | first <= i < n :: GoesOn(script, i)
    case Finished =>
      && first < n <= maximum && !script(n - 1).fails && script(n - 1).final
      && forall i | first <= i < n - 1 :: GoesOn(script, i)
    case Exhausted => n == maximum && forall i | first <= i < n :: GoesOn(script, i)
    case Changed => false
  }

  lemma {:induction false} UninterruptedEnds(script: Script, first: int, maximum: int)
    requires first <= maximum
    ensures var r := Uninterrupted(script, first, maximum); EndsAt(script, first, maximum, r.outcome, r.completed)
    decreases maximum - first
  {
    if first < maximum && GoesOn(script, first) { UninterruptedEnds(script, first + 1, maximum); }
  }

  /** There is one way to end: the uninterrupted run's. */
  lemma {:induction false} EndIsUninterrupted(script: Script, first: int, maximum: int, outcome: Outcome, n: int)
    requires first <= maximum
    ensures Uninterrupted(script, first, maximum) == Result(outcome, n)
       <==> EndsAt(script, first, maximum, outcome, n)
    decreases maximum - first
  {
    if first < maximum {
      if GoesOn(script, first) {
        EndIsUninterrupted(script, first + 1, maximum, outcome, n);
        EndsLater(script, first, maximum, outcome, n);
      } else if EndsAt(script, first, maximum, outcome, n) {
        assert !GoesOn(script, first);
      }
    }
  }

  lemma EndsLater(script: Script, first: int, maximum: int, outcome: Outcome, n: int)
    requires first < maximum && GoesOn(script, first)
    ensures EndsAt(script, first, maximum, outcome, n) <==> EndsAt(script, first + 1, maximum, outcome, n)
  {
  }

  /** Rounds `first` up to `n` are done: nothing ended the run, their numbers were used once and
      in order, and their usage is added up. */
  ghost predicate Done(script: Script, first: int, n: int, maximum: int, starts: seq<int>, usage: Usage)
  {
    && first <= n <= maximum && starts == Numbers(first, n) && usage == UsageOf(script, first, n)
    && Uninterrupted(script, n, maximum) == Uninterrupted(script, first, maximum)
  }

  /** Behind the last round begun: a round that failed was begun and not completed. */
  function EndOf(outcome: Outcome, n: int): int
  {
    if outcome.Failed? then n + 1 else n
  }

  /** What a segment or a run leaves when it stopped for good. */
  ghost predicate Ended(script: Script, first: int, maximum: int, outcome: Outcome, n: int, starts: seq<int>,
                        usage: Usage)
  {
    && first <= n <= maximum && usage == UsageOf(script, first, n)
    && Uninterrupted(script, first, maximum) == Result(outcome, n)
    && starts == Numbers(first, EndOf(outcome, n))
  }

  lemma DoneJoins(script: Script, first: int, m: int, n: int, maximum: int, s: seq<int>, t: seq<int>, u: Usage,
                  v: Usage)
    requires Done(script, first, m, maximum, s, u) && Done(script, m, n, maximum, t, v)
    ensures Done(script, first, n, maximum, s + t, Merge(u, v))
  {
    UsageJoins(script, first, m, n);
    NumbersJoin(first, m, n);
  }

  lemma EndJoins(script: Script, first: int, m: int, maximum: int, outcome: Outcome, n: int, s: seq<int>, t: seq<int>,
                 u: Usage, v: Usage)
    requires Done(script, first, m, maximum, s, u) && Ended(script, m, maximum, outcome, n, t, v)
    ensures Ended(script, first, maximum, outcome, n, s + t, Merge(u, v))
  {
    assert Merge(u, v) == UsageOf(script, first, n) by { UsageJoins(script, first, m, n); }
    assert s + t == Numbers(first, EndOf(outcome, n)) by { NumbersJoin(first, m, EndOf(outcome, n)); }
  }

  class DirectoryScope {
    /** The directory in force, and the one the running request was built for. */
    var current: nat
    var applied: nat
    var roundOffset: int
    var completedRounds: int
    var maximumRounds: int
    /** The number of every round that was started. */
    ghost var starts: seq<int>

    constructor (completed: int, maximum: int)
      ensures current == applied && roundOffset == completedRounds == completed && maximumRounds == maximum
      ensures starts == []
    {
      current, applied, roundOffset, completedRounds, maximumRounds, starts := 0, 0, completed, completed, maximum, [];
    }

    /** The number and budget a round is shown; None when the directory has moved. */
    method BeforeRound(round: int) returns (shown: Option<(int, int)>)
      modifies `starts
      ensures shown.None? <==> current != applied
      ensures shown.Some? ==>
                shown.value == (round + roundOffset, maximumRounds) && starts == old(starts) + [round + roundOffset]
      ensures shown.None? ==> starts == old(starts)
    {
      if current != applied {
        return None;
      }
      starts := starts + [round + roundOffset];
      shown := Some((round + roundOffset, maximumRounds));
    }

    method AfterRound()
      modifies `completedRounds
      ensures completedRounds == old(completedRounds) + 1
    {
      completedRounds := completedRounds + 1;
    }

    /** Build for the directory in force; what is left of the budget, if anything. */
    method Advance(maximum: int) returns (remaining: Option<int>)
      modifies `applied, `roundOffset
      ensures applied == current && roundOffset == completedRounds
      ensures remaining == if maximum - completedRounds <= 0 then None else Some(maximum - completedRounds)
    {
      applied := current;
      roundOffset := completedRounds;
      var left := maximum - completedRounds;
      remaining := if left <= 0 then None else Some(left);
    }

    /** One request of at most `limit` rounds, ended early when the directory has moved. */
    method Segment(script: Script, limit: nat) returns (outcome: Outcome, usage: Usage, ghost begun: seq<int>)
      requires current == applied && roundOffset == completedRounds
      modifies `current, `completedRounds, `starts
      ensures starts == old(starts) + begun
      ensures outcome.Changed? ==> && old(completedRounds) < completedRounds < old(completedRounds) + limit
                                   && Done(script, old(completedRounds), completedRounds,
                                      old(completedRounds) + limit, begun, usage)
      ensures !outcome.Changed? ==>
                Ended(script, old(completedRounds), old(completedRounds) + limit, outcome, completedRounds, begun,
                    usage)
    {
      usage, begun := NoUsage(), [];
      ghost var first := completedRounds;
      for round := 0 to limit
        invariant completedRounds == first + round && roundOffset == first
        invariant round == 0 ==> current == applied
        invariant starts == old(starts) + begun
        invariant Done(script, first, completedRounds, first + limit, begun, usage)
      {
        var shown := BeforeRound(round);
        if shown.None? {
          return Changed, usage, begun;
        }
        begun := begun + [completedRounds];
        var did := script(completedRounds);
        if did.fails {
          return Failed, usage, begun;
        }
        if did.hop {
          current := current + 1;
        }
        AfterRound();
        usage := Merge(usage, did.usage);
        if did.final {
          return Finished, usage, begun;
        }
      }
      outcome := Exhausted;
    }

    /** The whole run: it starts with `limit` rounds left and restarts after every move. It ends
        as it would have without any move, having used every round number once and in order. */
    method Run(script: Script, maximum: int, limit: nat) returns (outcome: Outcome, usage: Usage, ghost begun: seq<int>)
      requires current == applied && roundOffset == completedRounds && limit == maximum - completedRounds
      modifies this
      ensures starts == old(starts) + begun
      ensures Ended(script, old(completedRounds), maximum, outcome, completedRounds, begun, usage)
      ensures EndsAt(script, old(completedRounds), maximum, outcome, completedRounds)
    {
      UninterruptedEnds(script, completedRounds, maximum);
      maximumRounds := maximum;
      usage, begun := NoUsage(), [];
      ghost var first := completedRounds;
      var left := limit;
      while true
        invariant left == maximum - completedRounds && current == applied && roundOffset == completedRounds
        invariant starts == old(starts) + begun
        invariant Done(script, first, completedRounds, maximum, begun, usage)
        decreases maximum - completedRounds
      {
        ghost var before := completedRounds;
        var ended, segment, more := Segment(script, left);
        outcome := ended;
        if !outcome.Changed? {
          EndJoins(script, first, before, maximum, outcome, completedRounds, begun, more, usage, segment);
          usage, begun := Merge(usage, segment), begun + more;
          return;
        }
        DoneJoins(script, first, before, completedRounds, maximum, begun, more, usage, segment);
        usage, begun := Merge(usage, segment), begun + more;
        var remaining := Advance(maximum);
        if remaining.None? {
          assert false;
        }
        left := remaining.value;
      }
    }
  }

  datatype Prepared = Prepared(remaining: nat) | OverBudget

  /** What a fresh or recovered run may still use. */
  function Prepare(maximum: int, completed: int): Prepared
  {
    if maximum - completed <= 0 then OverBudget else Prepared(maximum - completed)
  }

  datatype Resumed = Ran(outcome: Outcome, completed: int, usage: Usage) | NothingLeft

  /** A fresh or recovered run: its scope starts behind the rounds completed before. Together with
      those, whatever process ran them, it ends as one run without a break would have. */
  method RunPrepared(
    script: Script, maximum: int, completed: int, ghost first: int, ghost earlier: seq<int>, ghost spent: Usage)
    returns (r: Resumed, ghost begun: seq<int>)
    ensures r.NothingLeft? <==> completed >= maximum
    ensures r.Ran? ==> && Ended(script, completed, maximum, r.outcome, r.completed, begun, r.usage)
                       && EndsAt(script, completed, maximum, r.outcome, r.completed)
    ensures r.Ran? && Done(script, first, completed, maximum, earlier, spent) ==>
              && Ended(script, first, maximum, r.outcome, r.completed, earlier + begun, Merge(spent, r.usage))
              && EndsAt(script, first, maximum, r.outcome, r.completed)
  {
    var prepared := Prepare(maximum, completed);
    if prepared.OverBudget? {
      return NothingLeft, [];
    }
    var scope := new DirectoryScope(completed, maximum);
    var outcome, usage, numbers := scope.Run(script, maximum, prepared.remaining);
    r, begun := Ran(outcome, scope.completedRounds, usage), numbers;
    if Done(script, first, completed, maximum, earlier, spent) {
      EndJoins(script, first, completed, maximum, outcome, r.completed, earlier, begun, spent, usage);
      UninterruptedEnds(script, first, maximum);
    }
  }
}
