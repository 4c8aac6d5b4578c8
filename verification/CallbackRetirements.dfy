/** When a scope goes for good: a finish retires the scope of the revision it read and no other, and
    a finish or a pause finds every body done. */
module CallbackRetirements {
  import opened Options
  import opened CallbackScopes
  import opened CallbackHistories

  /** The scope, if there is one, was built at the revision the finish read, or the execution was
      cancelled. */
  ghost predicate MayRetire(run: Run, scope: Option<nat>, job: Job)
    requires job.Retire?
  {
    scope.Some? ==> BuiltAt(run, scope.value) == Some(job.revisionSeen) || job.executionCancelled
  }

  predicate Retires(pc: Pc)
  {
    (pc.Draining? || pc.Drained?) && pc.job.Retire?
  }

  lemma RetirerCameFrom(s: System, step: Step, t: Thread)
    requires Enabled(s, step) && Retires(PcOf(Apply(s, step), t))
    ensures step == StartDrain(t) || (Retires(PcOf(s, t)) && PcOf(s, t).job == PcOf(Apply(s, step), t).job
                                      && PcOf(s, t).previous == PcOf(Apply(s, step), t).previous)
    ensures step == StartDrain(t) ==> && PcOf(Apply(s, step), t).job == PcOf(s, t).job && MayDrain(s, PcOf(s, t).job)
                                      && PcOf(Apply(s, step), t).previous == s.current
  {
  }

  lemma BuiltStays(run: Run, i: nat)
    requires Valid(run) && run.Then? && i < |run.before.s.scopes|
    ensures BuiltAt(run, i) == BuiltAt(run.before, i)
  {
    CountsScopes(run.before);
  }

  lemma {:induction false} RetirerIsFenced(run: Run, t: Thread)
    requires Valid(run) && Retires(PcOf(run.s, t))
    ensures var pc := PcOf(run.s, t);
            MayRetire(run, pc.previous, pc.job) && (pc.previous.Some? ==> pc.previous.value < |run.s.scopes|)
  {
    if run.Then? {
      var before, previous := run.before, PcOf(run.s, t).previous;
      RetirerCameFrom(before.s, run.step, t);
      ScopeIdentity(before.s, run.step);
      if run.step == StartDrain(t) {
        InvHoldsInEveryRun(before);
        if previous.Some? { EveryScopeHasItsRevision(before, previous.value); }
      } else {
        RetirerIsFenced(before, t);
      }
      if previous.Some? { BuiltStays(run, previous.value); }
    }
  }

  /** A finish retires only what is current, and only if that was built at the revision the finish
      had read, or the execution was cancelled. */
  lemma OnlyItsRevisionRetires(run: Run)
    requires Valid(run) && run.Then? && run.step.RetireDone?
    ensures JobOf(run, run.step.t).Some? && JobOf(run, run.step.t).value.Retire?
    ensures MayRetire(run, run.before.s.current, JobOf(run, run.step.t).value)
  {
    var t := run.step.t;
    InvHoldsInEveryRun(run.before);
    assert DrainsCurrent(run.before.s, t);
    EveryThreadRemembers(run.before, t);
    RetirerIsFenced(run.before, t);
    if run.before.s.current.Some? { BuiltStays(run, run.before.s.current.value); }
  }

  /** In every quiet state such a finish can retire what is current. */
  lemma ItsRevisionRetires(run: Run, t: Thread, job: Job) returns (later: Run)
    requires Valid(run) && Quiet(run.s) && PcOf(run.s, t).Idle? && job.Retire? && MayRetire(run, run.s.current, job)
    ensures Valid(later) && Extends(later, run) && later.Then? && later.step == RetireDone(t)
    ensures PcOf(later.s, t).Finished? && later.s.current == None
  {
    NothingOutlivesTheThreads(run);
    if run.s.current.Some? { EveryScopeHasItsRevision(run, run.s.current.value); }
    var r1 := QuietTakesSlot(run, t, job);
    var r2 := SlotDrains(r1, t, job);
    later := OneMore(r2, RetireDone(t));
    ExtendsOn(later, r2, r1);
    ExtendsOn(later, r1, run);
  }

  /** Whoever drains, for a finish, a pause or a replacement, has found every body done. */
  lemma DrainedFindsNoBody(run: Run, t: Thread, u: Thread)
    requires Valid(run) && PcOf(run.s, t).Drained? && run.s.current.Some?
    ensures !PcOf(run.s, u).Body?
  {
    InvHoldsInEveryRun(run);
    assert DrainsCurrent(run.s, t) && DrainerInside(run.s, t) && CallbackInside(run.s, u);
    if PcOf(run.s, u).Body? { BodyRunsUnderNewestScope(run, u); }
  }
}
