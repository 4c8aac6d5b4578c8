/** Callback scopes read off a run's steps: at which durable revision each scope was built, in
    which mode each callback asked to run, and when it gets to run. */
module CallbackHistories {
  import opened Options
  import opened ReadWriteLock
  import opened CallbackScopes

  ghost function Do(run: Run, step: Step): Run
    requires Enabled(run.s, step)
  {
    Then(run, step, Apply(run.s, step))
  }

  /** `later` is `run` with any steps more. */
  ghost predicate Extends(later: Run, run: Run)
  {
    later == run || (later.Then? && Extends(later.before, run))
  }

  // ---- what the steps say ----

  /** The durable revision: what the last control change set. */
  function Durable(run: Run): int
  {
    match run
    case Begin(s) => s.revision
    case Then(before, step, _) => if step.Control? then step.revision else Durable(before)
  }

  /** Whether callbacks are admitted: what the last control change set. */
  function Available(run: Run): bool
  {
    match run
    case Begin(s) => s.available
    case Then(before, step, _) => if step.Control? then step.available else Available(before)
  }

  /** The durable revision when the step was last taken. */
  function RevisionAt(run: Run, step: Step): Option<int>
  {
    match run
    case Begin(_) => None
    case Then(before, last, _) => if last == step then Some(Durable(before)) else RevisionAt(before, step)
  }

  /** What the thread came for. */
  function JobOf(run: Run, t: Thread): Option<Job>
  {
    match run
    case Begin(_) => None
    case Then(before, step, _) => if step.Arrive? && step.t == t then Some(step.job) else JobOf(before, t)
  }

  /** How many scopes were installed. */
  function InstalledCount(run: Run): nat
  {
    match run
    case Begin(_) => 0
    case Then(before, step, _) => InstalledCount(before) + if Installs(step) then 1 else 0
  }

  /** The revision scope `i` was built at: the durable one when its installer began to drain, or
      the one its submission had read. */
  function BuiltAt(run: Run, i: nat): Option<int>
  {
    match run
    case Begin(_) => None
    case Then(before, step, _) =>
      if Installs(step) && i == InstalledCount(before) then
        if step.Install? then RevisionAt(before, StartDrain(step.t)) else SeenBy(before, step.t)
      else BuiltAt(before, i)
  }

  function SeenBy(run: Run, t: Thread): Option<int>
  {
    match JobOf(run, t)
    case Some(Bind(revisionSeen)) => Some(revisionSeen)
    case _ => None
  }

  // ---- the state agrees with them ----

  lemma {:induction false} DurableIs(run: Run)
    requires Valid(run)
    ensures run.s.revision == Durable(run) && run.s.available == Available(run)
  {
    if run.Then? {
      DurableIs(run.before);
      ControlEffect(run.before.s, run.step);
    }
  }

  lemma ControlEffect(s: System, step: Step)
    requires Enabled(s, step)
    ensures var s' := Apply(s, step);
            if step.Control? then s'.revision == step.revision && s'.available == step.available
            else s'.revision == s.revision && s'.available == s.available
  {
  }

  /** What a thread remembers is what its steps found. */
  ghost predicate Remembers(run: Run, t: Thread)
  {
    var pc := PcOf(run.s, t);
    && (pc.WaitingForSlot? || HoldsSlot(pc) ==> JobOf(run, t) == Some(pc.job))
    && (pc.Draining? || pc.Drained? || pc.Rechecked? || pc.Registered? ==>
          RevisionAt(run, StartDrain(t)) == Some(pc.revision))
    && (pc.Rechecked? || pc.Registered? ==> RevisionAt(run, Recheck(t)) == Some(pc.revision))
    && (pc.Resolved? || InScope(pc) ==> JobOf(run, t) == Some(Callback(pc.exclusive)))
  }

  /** Another thread's step changes nothing of that. */
  lemma OthersRemember(run: Run, t: Thread)
    requires Valid(run) && run.Then? && !Moves(run.step, t) && Remembers(run.before, t)
    ensures Remembers(run, t)
  {
    OthersStay(run.before.s, run.step, t);
  }

  lemma SlotStepRemembers(run: Run, t: Thread)
    requires Valid(run) && run.Then? && Moves(run.step, t) && Remembers(run.before, t)
    requires run.step.Arrive? || run.step.TakeSlot? || run.step.Reuse? || run.step.StartDrain? || run.step.Drain?
    ensures Remembers(run, t)
  {
    DurableIs(run.before);
  }

  lemma BuildStepRemembers(run: Run, t: Thread)
    requires Valid(run) && run.Then? && Moves(run.step, t) && Remembers(run.before, t)
    requires run.step.Recheck? || run.step.Register? || run.step.Install?
    ensures Remembers(run, t)
  {
    DurableIs(run.before);
  }

  lemma LateStepRemembers(run: Run, t: Thread)
    requires Valid(run) && run.Then? && Moves(run.step, t) && Remembers(run.before, t)
    requires run.step.Adopt? || run.step.RetireDone? || run.step.Enter? || run.step.CheckRevision?
          || run.step.CheckRegistry? || run.step.Finish?
    ensures Remembers(run, t)
  {
  }

  lemma {:induction false} EveryThreadRemembers(run: Run, t: Thread)
    requires Valid(run)
    ensures Remembers(run, t)
  {
    if run.Then? {
      EveryThreadRemembers(run.before, t);
      if !Moves(run.step, t) {
        OthersRemember(run, t);
      } else {
        match run.step
        case Arrive(_, _) => SlotStepRemembers(run, t);
        case TakeSlot(_) => SlotStepRemembers(run, t);
        case Reuse(_) => SlotStepRemembers(run, t);
        case StartDrain(_) => SlotStepRemembers(run, t);
        case Drain(_) => SlotStepRemembers(run, t);
        case Recheck(_) => BuildStepRemembers(run, t);
        case Register(_) => BuildStepRemembers(run, t);
        case Install(_) => BuildStepRemembers(run, t);
        case _ => LateStepRemembers(run, t);
      }
    }
  }

  // ---- every scope was built at its own revision ----

  /** A replacement carries the durable revision its thread found when it began to drain and
      found again when it had drained. */
  lemma InstalledAtItsRevision(run: Run)
    requires Valid(run) && run.Then? && run.step.Install?
    ensures |run.s.scopes| == |run.before.s.scopes| + 1
    ensures var scope, t := run.s.scopes[|run.before.s.scopes|], run.step.t;
            Some(scope.revision) == RevisionAt(run.before, StartDrain(t)) == RevisionAt(run.before, Recheck(t))
  {
    EveryThreadRemembers(run.before, run.step.t);
  }

  /** A scope for a submitted run carries the revision the submission had read. */
  lemma AdoptedAtItsRevision(run: Run)
    requires Valid(run) && run.Then? && run.step.Adopt?
    ensures |run.s.scopes| == |run.before.s.scopes| + 1
    ensures Some(run.s.scopes[|run.before.s.scopes|].revision) == SeenBy(run.before, run.step.t)
  {
    EveryThreadRemembers(run.before, run.step.t);
  }

  /** In every run every scope, current or replaced, has the revision it was built at. */
  lemma {:induction false} EveryScopeHasItsRevision(run: Run, i: nat)
    requires Valid(run) && i < |run.s.scopes|
    ensures InstalledCount(run) == |run.s.scopes| && BuiltAt(run, i) == Some(run.s.scopes[i].revision)
  {
    CountsScopes(run);
    if run.Then? {
      ScopeIdentity(run.before.s, run.step);
      CountsScopes(run.before);
      if i < |run.before.s.scopes| {
        EveryScopeHasItsRevision(run.before, i);
      } else if run.step.Install? {
        InstalledAtItsRevision(run);
      } else {
        AdoptedAtItsRevision(run);
      }
    }
  }

  lemma {:induction false} CountsScopes(run: Run)
    requires Valid(run)
    ensures InstalledCount(run) == |run.s.scopes|
  {
    if run.Then? {
      CountsScopes(run.before);
      ScopeIdentity(run.before.s, run.step);
    }
  }

  /** The last revision check of a thread past it found the durable revision its scope was built
      at, and callbacks admitted. */
  lemma {:induction false} BodyRunsAtBuiltRevision(run: Run, t: Thread)
    requires Valid(run) && PastRevisionCheck(PcOf(run.s, t))
    ensures RevisionAt(run, CheckRevision(t)).Some?
    ensures RevisionAt(run, CheckRevision(t)) == BuiltAt(run, PcOf(run.s, t).scope)
  {
    if run.Then? {
      var before, scope := run.before, PcOf(run.s, t).scope;
      PastCheckCameFrom(before.s, run.step, t);
      CountsScopes(before);
      if run.step == CheckRevision(t) {
        DurableIs(before);
        EveryScopeHasItsRevision(before, scope);
      } else {
        BodyRunsAtBuiltRevision(before, t);
        InvHoldsInEveryRun(before);
        assert CallbackInside(before.s, t);
      }
    }
  }

  /** A callback runs in the mode it asked for. */
  lemma BodyRunsAsAsked(run: Run, t: Thread)
    requires Valid(run) && PcOf(run.s, t).Body?
    ensures JobOf(run, t) == Some(Callback(PcOf(run.s, t).exclusive))
  {
    EveryThreadRemembers(run, t);
  }

  // ---- when a callback gets to run ----

  /** One step more that is neither a control change nor an installation. */
  lemma OneMore(run: Run, step: Step) returns (later: Run)
    requires Valid(run) && Enabled(run.s, step) && !step.Control? && !Installs(step)
    ensures later == Do(run, step) && Valid(later) && Extends(later, run)
    ensures InstalledCount(later) == InstalledCount(run)
    ensures Durable(later) == Durable(run) && Available(later) == Available(run)
    ensures forall i: nat :: BuiltAt(later, i) == BuiltAt(run, i)
  {
    later := Do(run, step);
    assert Extends(run, run);
  }

  /** A callback that has resolved its scope enters a free gate, passes both checks and runs. */
  lemma ResolvedReachesBody(run: Run, t: Thread) returns (later: Run)
    requires Valid(run) && PcOf(run.s, t).Resolved? && PcOf(run.s, t).scope < |run.s.scopes| && Available(run)
    requires var scope := run.s.scopes[PcOf(run.s, t).scope];
             && MayEnter(scope.gate, t, PcOf(run.s, t).exclusive)
             && run.s.registry == Some(scope.actor)
    requires BuiltAt(run, PcOf(run.s, t).scope) == Some(Durable(run))
    ensures Valid(later) && Extends(later, run) && InstalledCount(later) == InstalledCount(run)
    ensures PcOf(later.s, t) == Body(PcOf(run.s, t).scope, PcOf(run.s, t).exclusive)
  {
    DurableIs(run);
    EveryScopeHasItsRevision(run, PcOf(run.s, t).scope);
    var r1 := OneMore(run, Enter(t));
    var r2 := OneMore(r1, CheckRevision(t));
    later := OneMore(r2, CheckRegistry(t));
    ExtendsOn(later, r2, r1);
    ExtendsOn(later, r1, run);
  }

  /** The thread that installs a scope runs under it, if the revision is still the one it found
      when it began to drain and callbacks are admitted. */
  lemma InstallerReachesBody(run: Run) returns (later: Run)
    requires Valid(run) && run.Then? && run.step.Install? && Available(run)
    requires RevisionAt(run.before, StartDrain(run.step.t)) == Some(Durable(run))
    ensures Valid(later) && Extends(later, run)
    ensures PcOf(later.s, run.step.t).Body? && PcOf(later.s, run.step.t).scope == InstalledCount(run.before)
    ensures JobOf(run, run.step.t) == Some(Callback(PcOf(later.s, run.step.t).exclusive))
  {
    InvHoldsInEveryRun(run.before);
    CountsScopes(run.before);
    CountsScopes(run);
    EveryThreadRemembers(run, run.step.t);
    assert OwnsRegistry(run.before.s, run.step.t);
    later := ResolvedReachesBody(run, run.step.t);
  }

  /** Nobody is on the way, and the registry holds the current scope's actor or nothing. */
  ghost predicate Quiet(s: System)
  {
    && (forall t :: PcOf(s, t).Idle? || PcOf(s, t).Finished?)
    && (s.current.Some? ==> s.current.value < |s.scopes|)
    && s.registry == if s.current.Some? then Some(s.scopes[s.current.value].actor) else None
  }

  lemma QuietTakesSlot(run: Run, t: Thread, job: Job) returns (later: Run)
    requires Valid(run) && Quiet(run.s) && PcOf(run.s, t).Idle?
    ensures Valid(later) && Extends(later, run) && InstalledCount(later) == InstalledCount(run)
    ensures Durable(later) == Durable(run) && Available(later) == Available(run)
    ensures later.s == At(run.s.(slot := map[t := true]), t, InSlot(job))
    ensures forall i: nat :: BuiltAt(later, i) == BuiltAt(run, i)
  {
    NothingOutlivesTheThreads(run);
    var r1 := OneMore(run, Arrive(t, job));
    later := OneMore(r1, TakeSlot(t));
    assert later.s.pcs == run.s.pcs[t := InSlot(job)];
    ExtendsOn(later, r1, run);
  }

  /** A thread in the slot drains the current scope, whose gate is free. */
  lemma SlotDrains(run: Run, t: Thread, job: Job) returns (later: Run)
    requires Valid(run) && run.s.slot == map[t := true] && PcOf(run.s, t) == InSlot(job) && MayDrain(run.s, job)
    requires run.s.current.Some? ==>
               run.s.current.value < |run.s.scopes| && run.s.scopes[run.s.current.value].gate == map[]
    ensures Valid(later) && Extends(later, run) && InstalledCount(later) == InstalledCount(run)
    ensures Durable(later) == Durable(run) && Available(later) == Available(run)
    ensures PcOf(later.s, t) == Drained(job, Durable(run), run.s.current)
    ensures later.s.registry == run.s.registry && |later.s.scopes| == |run.s.scopes|
    ensures forall i | 0 <= i < |run.s.scopes| :: later.s.scopes[i].actor == run.s.scopes[i].actor
  {
    DurableIs(run);
    var r1 := OneMore(run, StartDrain(t));
    later := OneMore(r1, Drain(t));
    ExtendsOn(later, r1, run);
    ScopeIdentity(r1.s, Drain(t));
  }

  /** And installs a replacement. */
  lemma DrainedInstalls(run: Run, t: Thread, exclusive: bool, previous: Option<nat>) returns (later: Run)
    requires Valid(run) && Available(run)
    requires PcOf(run.s, t) == Drained(Callback(exclusive), Durable(run), previous) && MayRegister(run.s, previous)
    ensures Valid(later) && Extends(later, run) && later.Then? && later.step == Install(t)
    ensures InstalledCount(later.before) == InstalledCount(run)
    ensures Durable(later) == Durable(run) && Available(later) == Available(run)
    ensures RevisionAt(later.before, StartDrain(t)) == Some(Durable(run))
    ensures JobOf(later, t) == Some(Callback(exclusive))
  {
    DurableIs(run);
    var r1 := OneMore(run, Recheck(t));
    var r2 := OneMore(r1, Register(t));
    ExtendsOn(r2, r1, run);
    EveryThreadRemembers(r2, t);
    later := Do(r2, Install(t));
    assert Durable(later) == Durable(r2) && Available(later) == Available(r2) && JobOf(later, t) == JobOf(r2, t);
  }

  lemma {:induction false} ExtendsOn(c: Run, b: Run, a: Run)
    requires Extends(c, b) && Extends(b, a)
    ensures Extends(c, a)
  {
    if c != b { ExtendsOn(c.before, b, a); }
  }

  lemma ReusesCurrent(run: Run, t: Thread, exclusive: bool) returns (later: Run)
    requires Valid(run) && Quiet(run.s) && PcOf(run.s, t).Idle? && Available(run) && CurrentMatches(run.s)
    ensures Valid(later) && Extends(later, run) && InstalledCount(later) == InstalledCount(run)
    ensures PcOf(later.s, t) == Body(run.s.current.value, exclusive)
  {
    NothingOutlivesTheThreads(run);
    var current := run.s.current.value;
    DurableIs(run);
    EveryScopeHasItsRevision(run, current);
    var r1 := QuietTakesSlot(run, t, Callback(exclusive));
    DurableIs(r1);
    var r2 := OneMore(r1, Reuse(t));
    later := ResolvedReachesBody(r2, t);
    ExtendsOn(later, r2, r1);
    ExtendsOn(later, r1, run);
  }

  lemma ReplacesCurrent(run: Run, t: Thread, exclusive: bool) returns (later: Run)
    requires Valid(run) && Quiet(run.s) && PcOf(run.s, t).Idle? && Available(run) && !CurrentMatches(run.s)
    ensures Valid(later) && Extends(later, run)
    ensures PcOf(later.s, t) == Body(InstalledCount(run), exclusive)
  {
    NothingOutlivesTheThreads(run);
    var r1 := QuietTakesSlot(run, t, Callback(exclusive));
    DurableIs(r1);
    var r2 := SlotDrains(r1, t, Callback(exclusive));
    var r3 := DrainedInstalls(r2, t, exclusive, run.s.current);
    later := InstallerReachesBody(r3);
    ExtendsOn(later, r3, r2);
    ExtendsOn(later, r2, r1);
    ExtendsOn(later, r1, run);
  }

  /** In every quiet state in which callbacks are admitted an idle thread can run its callback, in
      the mode it asks for: under the current scope if that was built at the durable revision, else
      under one scope more, built for it. */
  lemma IdleCallbackReachesBody(run: Run, t: Thread, exclusive: bool) returns (later: Run)
    requires Valid(run) && Quiet(run.s) && PcOf(run.s, t).Idle? && Available(run)
    ensures Valid(later) && Extends(later, run)
    ensures var current := run.s.current;
            PcOf(later.s, t) == Body(if current.Some? && BuiltAt(run, current.value) == Some(Durable(run))
                                     then current.value else InstalledCount(run), exclusive)
  {
    DurableIs(run);
    if run.s.current.Some? { EveryScopeHasItsRevision(run, run.s.current.value); }
    if CurrentMatches(run.s) {
      later := ReusesCurrent(run, t, exclusive);
    } else {
      later := ReplacesCurrent(run, t, exclusive);
    }
  }
}
