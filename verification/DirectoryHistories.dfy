/** Directory hops read off a run's steps: a hop moves the directory exactly when its own result
    was a success, and to the context it staged itself. */
module DirectoryHistories {
  import opened Options
  import opened DirectoryTools

  // ---- what the steps say ----

  /** The result the call was last given. */
  function LastResult(run: Run, l: Life): Option<bool>
  {
    match run
    case Begin(_) => None
    case Then(before, step, _) => if step.SetResult? && step.l == l then Some(step.ok) else LastResult(before, l)
  }

  /** The context the next staging builds: one that none before it built. */
  function NextContext(run: Run): Context
  {
    match run
    case Begin(s) => s.nextContext
    case Then(before, step, _) => NextContext(before) + if step.Stage? then 1 else 0
  }

  /** The context the call staged. */
  function StagedBy(run: Run, l: Life): Option<Context>
  {
    match run
    case Begin(_) => None
    case Then(before, step, _) => if step == Stage(l) then Some(NextContext(before)) else StagedBy(before, l)
  }

  // ---- the state agrees with them ----

  lemma {:induction false} ResultsAre(c: Calls, run: Run, l: Life)
    requires Valid(c, run)
    ensures l in run.s.succeeded <==> LastResult(run, l) == Some(true)
  {
    if run.Then? { ResultsAre(c, run.before, l); }
  }

  lemma {:induction false} ContextsAre(c: Calls, run: Run, l: Life)
    requires Valid(c, run)
    ensures run.s.nextContext == NextContext(run)
    ensures StagedBy(run, l) == if l in run.s.staged then Some(run.s.staged[l]) else None
  {
    if run.Then? { ContextsAre(c, run.before, l); }
  }

  /** No context in use is one that a later staging builds. */
  ghost predicate ContextsUsed(s: State)
  {
    && s.current < s.nextContext && (s.pending.Some? ==> s.pending.value < s.nextContext)
    && forall l | l in s.phases && s.phases[l].Committing? :: s.phases[l].candidate < s.nextContext
  }

  lemma {:induction false} ContextsUsedInEveryRun(c: Calls, run: Run)
    requires Valid(c, run)
    ensures ContextsUsed(run.s)
  {
    if run.Then? {
      ContextsUsedInEveryRun(c, run.before);
      StepKeepsContexts(c, run.before.s, run.step);
    }
  }

  lemma StepKeepsContexts(c: Calls, s: State, step: Step)
    requires ContextsUsed(s) && Enabled(c, s, step)
    ensures ContextsUsed(Apply(c, s, step))
  {
  }

  /** A call that has read the staged context read it just now, or had read it before. */
  lemma CommitterCameFrom(c: Calls, s: State, step: Step, h: Life)
    requires Enabled(c, s, step) && PhaseOf(Apply(c, s, step), h).Committing?
    ensures if step == ReadCandidate(h) then h in c.hops && h in s.succeeded
            else PhaseOf(s, h).Committing? && !(step.SetResult? && step.l == h)
  {
  }

  lemma {:induction false} CommitterSucceeded(c: Calls, run: Run, h: Life)
    requires Valid(c, run) && PhaseOf(run.s, h).Committing?
    ensures h in c.hops && LastResult(run, h) == Some(true)
  {
    if run.Then? {
      CommitterCameFrom(c, run.before.s, run.step, h);
      if run.step == ReadCandidate(h) {
        ResultsAre(c, run.before, h);
      } else {
        CommitterSucceeded(c, run.before, h);
      }
    }
  }

  // ---- who moves the directory ----

  /** For any calls: a step that publishes for a call means that its last result was a success.
      So after an error result, with none set since, nothing is published for it. */
  lemma OnlySuccessPublishes(c: Calls, run: Run, h: Life)
    requires Valid(c, run) && run.Then? && run.step == Publish(h)
    ensures h in c.hops && LastResult(run.before, h) == Some(true)
  {
    CommitterSucceeded(c, run.before, h);
  }

  /** The context only changes when a hop that holds the gate alone publishes the very context it
      staged itself, and the last result it was given is not an error. */
  lemma OnlyASuccessfulHopMoves(c: Calls, run: Run)
    requires DistinctIds(c) && Valid(c, run) && run.Then? && run.s.current != run.before.s.current
    ensures run.step.Publish? && run.step.l in c.hops && run.before.s.lock == map[run.step.l := true]
    ensures LastResult(run.before, run.step.l) == Some(true)
    ensures StagedBy(run.before, run.step.l) == Some(run.s.current)
  {
    OnlyALoneHopMoves(c, run);
    OnlySuccessPublishes(c, run, run.step.l);
    ContextsAre(c, run.before, run.step.l);
  }

  // ---- a hop that succeeds moves, one that fails does not ----

  /** `later` is `run` with any steps of this call more. */
  ghost predicate Extends(later: Run, run: Run, h: Life)
  {
    later == run || (later.Then? && later.step.l == h && Extends(later.before, run, h))
  }

  lemma {:induction false} ExtendsOn(later: Run, middle: Run, run: Run, h: Life)
    requires Extends(later, middle, h) && Extends(middle, run, h)
    ensures Extends(later, run, h)
  {
    if later != middle { ExtendsOn(later.before, middle, run, h); }
  }

  lemma {:induction false} StagedHasHandled(c: Calls, run: Run, h: Life)
    requires Valid(c, run) && (PhaseOf(run.s, h).Fresh? || PhaseOf(run.s, h).Holding? || PhaseOf(run.s, h).Bound?)
    ensures h !in run.s.staged
  {
    if run.Then? {
      BoundCameFrom(c, run.before.s, run.step, h);
      StagedHasHandled(c, run.before, h);
    }
  }

  lemma BoundCameFrom(c: Calls, s: State, step: Step, h: Life)
    requires Enabled(c, s, step)
    requires var p := PhaseOf(Apply(c, s, step), h); p.Fresh? || p.Holding? || p.Bound?
    ensures var p := PhaseOf(s, h); p.Fresh? || p.Holding? || p.Bound?
    ensures step != Stage(h) && (h in Apply(c, s, step).staged ==> h in s.staged)
  {
  }

  /** One step more, and what the steps say then. */
  lemma OneMore(c: Calls, run: Run, step: Step, h: Life) returns (later: Run)
    requires Valid(c, run) && Enabled(c, run.s, step)
    ensures later == Do(c, run, step) && Valid(c, later) && (step.l == h ==> Extends(later, run, h))
    ensures LastResult(later, h) == if step.SetResult? && step.l == h then Some(step.ok) else LastResult(run, h)
    ensures NextContext(later) == NextContext(run) + if step.Stage? then 1 else 0
    ensures StagedBy(later, h) == if step == Stage(h) then Some(NextContext(run)) else StagedBy(run, h)
  {
    later := Do(c, run, step);
    assert Extends(run, run, h);
  }

  /** A bound hop runs its handler, which stages a context, and is given its result. */
  lemma HopHandles(c: Calls, run: Run, h: Life, ok: bool) returns (later: Run)
    requires DistinctIds(c) && Valid(c, run) && h in c.hops && PhaseOf(run.s, h).Bound?
    ensures Valid(c, later) && Extends(later, run, h) && PhaseOf(later.s, h).Injecting? && h in c.ids
    ensures later.s.current == run.s.current && later.s.lock == run.s.lock
    ensures later.s.pending == Some(NextContext(run)) && StagedBy(later, h) == Some(NextContext(run))
    ensures LastResult(later, h) == Some(ok)
  {
    InvHoldsInEveryRun(c, run);
    assert LifeInv(c, run.s, h);
    StagedHasHandled(c, run, h);
    ContextsAre(c, run, h);
    var r1 := OneMore(c, run, Handle(h), h);
    var r2 := OneMore(c, r1, Stage(h), h);
    var r3 := OneMore(c, r2, SetResult(h, ok), h);
    later := OneMore(c, r3, Inject(h), h);
    ExtendsOn(r2, r1, run, h);
    ExtendsOn(r3, r2, run, h);
    ExtendsOn(later, r3, run, h);
  }

  /** It finishes: its entry and its hold are gone, and nothing is pending. */
  lemma HopFinishes(c: Calls, run: Run, h: Life) returns (later: Run)
    requires DistinctIds(c) && Valid(c, run) && h in c.hops && Active(PhaseOf(run.s, h))
    ensures Valid(c, later) && Extends(later, run, h) && LastResult(later, h) == LastResult(run, h)
    ensures PhaseOf(later.s, h).Ended? && h in c.ids && c.ids[h] !in later.s.table
    ensures later.s.current == run.s.current && later.s.lock == map[] && later.s.pending == None
  {
    InvHoldsInEveryRun(c, run);
    assert LifeInv(c, run.s, h);
    assert run.s.lock == map[h := true];
    var r1 := OneMore(c, run, Take(h), h);
    var r2 := OneMore(c, r1, Clear(h), h);
    later := OneMore(c, r2, Release(h), h);
    ExtendsOn(r2, r1, run, h);
    ExtendsOn(later, r2, run, h);
  }

  /** A hop whose result is a success moves the directory to the context it stages, a new one, and
      gives its hold back. */
  lemma SuccessfulHopMoves(c: Calls, run: Run, h: Life) returns (later: Run)
    requires DistinctIds(c) && Valid(c, run) && h in c.hops && PhaseOf(run.s, h).Bound?
    ensures Valid(c, later) && Extends(later, run, h) && LastResult(later, h) == Some(true)
    ensures PhaseOf(later.s, h).Ended? && later.s.current == NextContext(run) != run.s.current
    ensures later.s.lock == map[] && later.s.pending == None
  {
    ContextsUsedInEveryRun(c, run);
    ContextsAre(c, run, h);
    var r1 := HopHandles(c, run, h, true);
    ResultsAre(c, r1, h);
    var r2 := OneMore(c, r1, ReadCandidate(h), h);
    var r3 := OneMore(c, r2, Publish(h), h);
    later := HopFinishes(c, r3, h);
    ExtendsOn(r2, r1, run, h);
    ExtendsOn(r3, r2, run, h);
    ExtendsOn(later, r3, run, h);
  }

  /** A hop whose result is an error leaves the directory alone, and what it staged is dropped. */
  lemma FailedHopStays(c: Calls, run: Run, h: Life) returns (later: Run)
    requires DistinctIds(c) && Valid(c, run) && h in c.hops && PhaseOf(run.s, h).Bound?
    ensures Valid(c, later) && Extends(later, run, h) && LastResult(later, h) == Some(false)
    ensures PhaseOf(later.s, h).Ended? && later.s.current == run.s.current
    ensures later.s.lock == map[] && later.s.pending == None
  {
    var r1 := HopHandles(c, run, h, false);
    ResultsAre(c, r1, h);
    assert !Enabled(c, r1.s, ReadCandidate(h));
    later := HopFinishes(c, r1, h);
    ExtendsOn(later, r1, run, h);
  }
}
