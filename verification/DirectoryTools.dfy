/** Tool lifecycles over one directory scope: bind under the gate, look the tool up and run its
    handler, look it up again after the run, read the staged context and publish it or leave it,
    and finish. Ordinary calls hold the gate shared, `changeDirectory` holds it exclusively.
    Lifecycles interleave at every mutex. */
module DirectoryTools {
  import opened Options
  import opened ReadWriteLock

  type Life = Holder
  type CallId = nat
  type Context = nat

  /** The calls of a run: what id the provider gave each, and which are directory hops. */
  datatype Calls = Calls(ids: map<Life, CallId>, hops: set<Life>)

  /** `Bound` has its entry in the table; `Handling` has looked it up and runs the handler;
      `Injecting` has looked it up after the run; `Committing` has read the staged context.
      `Clearing` and `Releasing` are the two later mutex sections of `finishTool`, for the
      entry it took out of the table; `again` counts the calls of it that may still follow,
      because a failing post-run injector finishes the call before the deferred finish does. */
  datatype Phase =
    | Fresh
    | Holding
    | Bound
    | Handling
    | Injecting
    | Committing(candidate: Context)
    | Published
    | Clearing(owner: Life, again: nat)
    | Releasing(owner: Life, again: nat)
    | Ended(again: nat)

  datatype State = State(
    lock: Lock,
    current: Context,
    pending: Option<Context>,
    table: map<CallId, Life>,          // s.calls
    phases: map<Life, Phase>,
    succeeded: set<Life>,              // calls whose result is present and not an error
    staged: map<Life, Context>,        // the candidate each hop built
    nextContext: Context)

  /** Between its registration and its finish. */
  predicate Active(p: Phase)
  {
    p.Bound? || p.Handling? || p.Injecting? || p.Committing? || p.Published?
  }

  datatype Step =
    | Acquire(l: Life)
    | Register(l: Life)
    | Handle(l: Life)         // handleTool: look the entry up
    | Stage(l: Life)
    | SetResult(l: Life, ok: bool)
    | Inject(l: Life)         // toolInjection after the run: look the entry up
    | ReadCandidate(l: Life)  // commitDirectory: read the pending context
    | Publish(l: Life)        // commitDirectory: make it the current one
    | Take(l: Life)       // finishTool: remove the table entry
    | Clear(l: Life)      // finishTool: drop the pending context of a hop
    | Release(l: Life)    // finishTool: release the entry's hold

  function PhaseOf(s: State, l: Life): Phase
  {
    if l in s.phases then s.phases[l] else Fresh
  }

  function At(s: State, l: Life, p: Phase): State
  {
    s.(phases := s.phases[l := p])
  }

  ghost predicate Enabled(c: Calls, s: State, step: Step)
  {
    && step.l in c.ids
    && match step
       case Acquire(l) => PhaseOf(s, l).Fresh? && MayEnter(s.lock, l, l in c.hops)
       case Register(l) => PhaseOf(s, l).Holding?
       case Handle(l) => PhaseOf(s, l).Bound? && c.ids[l] in s.table
       case Stage(l) => l in c.hops && (PhaseOf(s, l).Handling? || PhaseOf(s, l).Clearing?) && l !in s.staged
       case SetResult(l, _) => PhaseOf(s, l).Bound? || PhaseOf(s, l).Handling?
       case Inject(l) => (PhaseOf(s, l).Bound? || PhaseOf(s, l).Handling?) && c.ids[l] in s.table
       case ReadCandidate(l) => PhaseOf(s, l).Injecting? && l in c.hops && l in s.succeeded && s.pending.Some?
       case Publish(l) => PhaseOf(s, l).Committing?
       case Take(l) => Active(PhaseOf(s, l)) || (PhaseOf(s, l).Ended? && PhaseOf(s, l).again > 0)
       case Clear(l) => PhaseOf(s, l).Clearing?
       case Release(l) => PhaseOf(s, l).Releasing?
  }

  function Apply(c: Calls, s: State, step: Step): State
    requires Enabled(c, s, step)
  {
    match step
    case Acquire(l) => At(s.(lock := Enter(s.lock, l, l in c.hops)), l, Holding)
    case Register(l) =>
      if c.ids[l] in s.table
      then At(s.(lock := Leave(s.lock, l)), l, Ended(0))
      else At(s.(table := s.table[c.ids[l] := l]), l, Bound)
    case Stage(l) =>
      s.(pending := Some(s.nextContext), staged := s.staged[l := s.nextContext], nextContext := s.nextContext + 1)
    case SetResult(l, ok) => s.(succeeded := if ok then s.succeeded + {l} else s.succeeded - {l})
    case Handle(l) => At(s, l, Handling)
    case Inject(l) => At(s, l, Injecting)
    case ReadCandidate(l) => At(s, l, Committing(s.pending.value))
    case Publish(l) => At(s.(current := PhaseOf(s, l).candidate), l, Published)
    case Take(l) =>
      var again := if Active(PhaseOf(s, l)) then 1 else PhaseOf(s, l).again - 1;
      if c.ids[l] in s.table
      then At(s.(table := s.table - {c.ids[l]}), l, Clearing(s.table[c.ids[l]], again))
      else At(s, l, Ended(again))
    case Clear(l) =>
      var p := PhaseOf(s, l);
      At(s.(pending := if p.owner in c.hops then None else s.pending), l, Releasing(p.owner, p.again))
    case Release(l) =>
      var p := PhaseOf(s, l);
      At(s.(lock := Leave(s.lock, p.owner)), l, Ended(p.again))
  }

  ghost predicate Initial(s: State)
  {
    && s.lock == map[] && s.pending == None && s.table == map[] && s.phases == map[] && s.staged == map[]
    && s.succeeded == {} && s.current < s.nextContext
  }

  /** A run: an initial state, or a run with one more step. `s` is the state it ends in. */
  datatype Run = Begin(s: State) | Then(before: Run, step: Step, s: State)

  ghost predicate Valid(c: Calls, run: Run)
  {
    match run
    case Begin(s) => Initial(s)
    case Then(before, step, s) =>
      Valid(c, before) && Enabled(c, before.s, step) && s == Apply(c, before.s, step)
  }

  /** The call has been bound in every state from the end of `earlier` to the end of `run`. */
  ghost predicate BoundSince(run: Run, earlier: Run, l: Life)
  {
    Active(PhaseOf(run.s, l)) && (run == earlier || (run.Then? && BoundSince(run.before, earlier, l)))
  }

  /** The call has held the gate in every state from the end of `earlier` to the end of `run`. */
  ghost predicate HeldSince(run: Run, earlier: Run, l: Life)
  {
    l in run.s.lock && (run == earlier || (run.Then? && HeldSince(run.before, earlier, l)))
  }

  /** No two calls of the run carry the same id. */
  ghost predicate DistinctIds(c: Calls)
  {
    forall l, m | l in c.ids && m in c.ids && c.ids[l] == c.ids[m] :: l == m
  }

  // ---- the invariant ----

  ghost predicate Registered(c: Calls, s: State, l: Life)
  {
    l in s.lock && l in c.ids && c.ids[l] in s.table && s.table[c.ids[l]] == l
  }

  /** A lifecycle's hold lasts from its acquisition to the release its own finish performs. */
  ghost predicate LifeInv(c: Calls, s: State, l: Life)
  {
    match PhaseOf(s, l)
    case Fresh => l !in s.lock
    case Holding => l in s.lock
    case Bound => Registered(c, s, l)
    case Handling => Registered(c, s, l)
    case Injecting => Registered(c, s, l)
    case Committing(candidate) =>
      && Registered(c, s, l) && l in c.hops && l in s.succeeded
      && l in s.staged && s.staged[l] == candidate
    case Published => Registered(c, s, l)
    case Clearing(owner, _) => l in s.lock && owner == l
    case Releasing(owner, _) => l in s.lock && owner == l
    case Ended(_) => l !in s.lock
  }

  /** A pending context belongs to a hop that is still bound or about to discard it. */
  ghost predicate PendingInv(c: Calls, s: State)
  {
    s.pending.Some? ==>
      exists h :: && h in s.lock && h in c.hops && h in s.staged && s.staged[h] == s.pending.value
                  && (Active(PhaseOf(s, h)) || PhaseOf(s, h).Clearing?)
  }

  ghost predicate Inv(c: Calls, s: State)
  {
    && Safe(s.lock)
    && (forall l | l in s.lock :: s.lock[l] == (l in c.hops))
    && (forall l :: LifeInv(c, s, l))
    && (forall id :: EntryOf(c, s, id))
    && PendingInv(c, s)
  }

  /** A step touches only the hold and the entry of its own call. */
  lemma StepKeepsOtherLife(c: Calls, s: State, step: Step, l: Life)
    requires step.l in c.ids && (l in c.ids ==> c.ids[l] != c.ids[step.l])
    requires step.l != l && LifeInv(c, s, l) && LifeInv(c, s, step.l) && Enabled(c, s, step)
    ensures LifeInv(c, Apply(c, s, step), l)
  {
  }

  /** A hop that holds the gate alone finds its own context pending. */
  lemma OwnCandidate(c: Calls, s: State, l: Life)
    requires Safe(s.lock) && PendingInv(c, s) && s.pending.Some?
    requires l in s.lock && s.lock[l]
    ensures l in s.staged && s.staged[l] == s.pending.value
  {
  }

  lemma StepKeepsOwnLife(c: Calls, s: State, step: Step)
    requires DistinctIds(c) && LifeInv(c, s, step.l) && Enabled(c, s, step) && EntryOf(c, s, c.ids[step.l])
    requires step.ReadCandidate? ==> step.l in s.staged && s.staged[step.l] == s.pending.value
    ensures LifeInv(c, Apply(c, s, step), step.l)
  {
  }

  lemma StepKeepsLife(c: Calls, s: State, step: Step, l: Life)
    requires DistinctIds(c) && Inv(c, s) && Enabled(c, s, step)
    ensures LifeInv(c, Apply(c, s, step), l)
  {
    assert LifeInv(c, s, l) && LifeInv(c, s, step.l);
    if l != step.l {
      StepKeepsOtherLife(c, s, step, l);
    } else {
      if step.ReadCandidate? { OwnCandidate(c, s, l); }
      assert EntryOf(c, s, c.ids[l]);
      StepKeepsOwnLife(c, s, step);
    }
  }

  /** The table names bound calls by their ids. */
  ghost predicate EntryOf(c: Calls, s: State, id: CallId)
  {
    id in s.table ==> Active(PhaseOf(s, s.table[id])) && s.table[id] in c.ids && c.ids[s.table[id]] == id
  }

  lemma StepKeepsEntryOf(c: Calls, s: State, step: Step, id: CallId)
    requires DistinctIds(c) && EntryOf(c, s, id) && Enabled(c, s, step)
    ensures EntryOf(c, Apply(c, s, step), id)
  {
  }

  lemma StepKeepsModes(c: Calls, s: State, step: Step)
    requires Safe(s.lock) && LifeInv(c, s, step.l) && Enabled(c, s, step)
    requires forall l | l in s.lock :: s.lock[l] == (l in c.hops)
    ensures var lock := Apply(c, s, step).lock;
            Safe(lock) && forall l | l in lock :: lock[l] == (l in c.hops)
  {
  }

  lemma StepKeepsPending(c: Calls, s: State, step: Step)
    requires DistinctIds(c) && Inv(c, s) && Enabled(c, s, step)
    ensures PendingInv(c, Apply(c, s, step))
  {
    var s' := Apply(c, s, step);
    assert LifeInv(c, s, step.l);
    if step.Stage? {
      assert s'.staged[step.l] == s'.pending.value;
    } else if s'.pending.Some? {
      var h :| && h in s.lock && h in c.hops && h in s.staged && s.staged[h] == s.pending.value
               && (Active(PhaseOf(s, h)) || PhaseOf(s, h).Clearing?);
      assert LifeInv(c, s, h) && LifeInv(c, s', h) by { StepKeepsLife(c, s, step, h); }
      assert Active(PhaseOf(s', h)) || PhaseOf(s', h).Clearing?;
    }
  }

  lemma StepKeepsInv(c: Calls, s: State, step: Step)
    requires DistinctIds(c) && Inv(c, s) && Enabled(c, s, step)
    ensures Inv(c, Apply(c, s, step))
  {
    forall l ensures LifeInv(c, Apply(c, s, step), l) {
      StepKeepsLife(c, s, step, l);
    }
    forall id ensures EntryOf(c, Apply(c, s, step), id) {
      assert EntryOf(c, s, id);
      StepKeepsEntryOf(c, s, step, id);
    }
    StepKeepsPending(c, s, step);
    assert LifeInv(c, s, step.l);
    StepKeepsModes(c, s, step);
  }

  lemma {:induction false} InvHoldsInEveryRun(c: Calls, run: Run)
    requires DistinctIds(c) && Valid(c, run)
    ensures Inv(c, run.s)
  {
    if run.Then? {
      InvHoldsInEveryRun(c, run.before);
      StepKeepsInv(c, run.before.s, run.step);
    }
  }

  // ---- what it means ----

  /** The context only changes when a hop that holds the gate alone publishes the very
      context it staged. */
  lemma OnlyALoneHopMoves(c: Calls, run: Run)
    requires DistinctIds(c) && Valid(c, run) && run.Then? && run.s.current != run.before.s.current
    ensures run.step.Publish?
    ensures var s, h := run.before.s, run.step.l;
            && h in c.hops && h in s.succeeded && Active(PhaseOf(s, h))
            && s.lock == map[h := true]
            && h in s.staged && run.s.current == s.staged[h]
  {
    InvHoldsInEveryRun(c, run.before);
    assert LifeInv(c, run.before.s, run.step.l);
    assert run.before.s.lock == map[run.step.l := true];
  }

  /** An ordinary call sees one context as long as it holds the gate: from its acquisition,
      before the tool is selected, to the release its finish performs. */
  lemma {:induction false} OrdinaryHoldSeesOneContext(c: Calls, run: Run, earlier: Run, l: Life)
    requires DistinctIds(c) && Valid(c, run) && l !in c.hops && HeldSince(run, earlier, l)
    ensures run.s.current == earlier.s.current
  {
    if run != earlier {
      OrdinaryHoldSeesOneContext(c, run.before, earlier, l);
      InvHoldsInEveryRun(c, run.before);
      assert LifeInv(c, run.before.s, run.step.l);
    }
  }

  /** In particular from bind to finish. */
  lemma {:induction false} BoundCallsHold(c: Calls, run: Run, earlier: Run, l: Life)
    requires DistinctIds(c) && Valid(c, run) && BoundSince(run, earlier, l)
    ensures HeldSince(run, earlier, l)
  {
    HoldLastsUntilFinish(c, run, l);
    if run != earlier { BoundCallsHold(c, run.before, earlier, l); }
  }

  lemma OrdinaryCallSeesOneContext(c: Calls, run: Run, earlier: Run, l: Life)
    requires DistinctIds(c) && Valid(c, run) && l !in c.hops && BoundSince(run, earlier, l)
    ensures run.s.current == earlier.s.current
  {
    BoundCallsHold(c, run, earlier, l);
    OrdinaryHoldSeesOneContext(c, run, earlier, l);
  }

  /** Every hold is given back: a lifecycle that has ended holds nothing, and one that is
      bound still has its hold, in its own mode. */
  lemma HoldLastsUntilFinish(c: Calls, run: Run, l: Life)
    requires DistinctIds(c) && Valid(c, run)
    ensures PhaseOf(run.s, l).Ended? ==> l !in run.s.lock
    ensures Active(PhaseOf(run.s, l)) ==> l in run.s.lock && run.s.lock[l] == (l in c.hops)
  {
    InvHoldsInEveryRun(c, run);
    assert LifeInv(c, run.s, l);
  }

  /** When every lifecycle has ended, nothing is held, bound or pending. */
  lemma NothingOutlivesTheCalls(c: Calls, run: Run)
    requires DistinctIds(c) && Valid(c, run) && forall l | l in run.s.phases :: run.s.phases[l].Ended?
    ensures run.s.lock == map[] && run.s.table == map[] && run.s.pending == None
  {
    InvHoldsInEveryRun(c, run);
    forall l ensures l !in run.s.lock {
      HoldLastsUntilFinish(c, run, l);
      assert LifeInv(c, run.s, l);
    }
    forall id ensures id !in run.s.table {
      assert EntryOf(c, run.s, id);
    }
  }

  // ---- distinct ids are needed ----

  /** What the tools promise, over every run of these calls. */
  ghost predicate Isolated(c: Calls)
  {
    forall run, earlier, l | Valid(c, run) && l !in c.hops && BoundSince(run, earlier, l) ::
      run.s.current == earlier.s.current
  }

  const Start := State(map[], 0, None, map[], map[], {}, map[], 1)

  ghost function Do(c: Calls, run: Run, step: Step): Run
    requires Enabled(c, run.s, step)
  {
    Then(run, step, Apply(c, run.s, step))
  }

  /** Call `a` binds and finishes, and may finish once more. */
  lemma FinishOnce(c: Calls, a: Life) returns (run: Run)
    requires a in c.ids
    ensures Valid(c, run) && run.s == Start.(phases := map[a := Ended(1)])
  {
    var r2 := BindsAlone(c, Begin(Start), a);
    var r3 := Do(c, r2, Take(a));
    assert Valid(c, r3) && r3.s.table == map[];
    var r4 := Do(c, r3, Clear(a));
    assert Valid(c, r4);
    run := Do(c, r4, Release(a));
    assert run.s.lock == map[] && run.s.phases == map[a := Ended(1)];
  }

  /** The scope right after `b` registered, with `a` finished once before. */
  function Rebound(c: Calls, a: Life, b: Life): State
    requires b in c.ids
  {
    Start.(lock := map[b := b in c.hops], table := map[c.ids[b] := b], phases := map[a := Ended(1), b := Bound])
  }

  /** Call `a` finishes once, and `b` binds the same id. */
  lemma SecondBinds(c: Calls, a: Life, b: Life) returns (run: Run)
    requires a != b && a in c.ids && b in c.ids && c.ids[a] == c.ids[b]
    ensures Valid(c, run) && run.s == Rebound(c, a, b)
  {
    var r0 := FinishOnce(c, a);
    run := BindsAlone(c, r0, b);
    assert run.s.phases == map[a := Ended(1), b := Bound];
  }

  /** `a` finishes again: it takes the entry of `b` and gives its hold back. */
  lemma FinishAgain(c: Calls, before: Run, a: Life, b: Life) returns (run: Run)
    requires Valid(c, before) && a != b && a in c.ids && b in c.ids && c.ids[a] == c.ids[b]
    requires before.s.table == map[c.ids[b] := b] && PhaseOf(before.s, a) == Ended(1)
    ensures Valid(c, run)
    ensures run.s == At(before.s.(lock := Leave(before.s.lock, b), table := map[],
                                  pending := if b in c.hops then None else before.s.pending), a, Ended(0))
  {
    var r1 := Do(c, before, Take(a));
    assert Valid(c, r1) && r1.s.table == map[];
    var r2 := Do(c, r1, Clear(a));
    assert Valid(c, r2);
    run := Do(c, r2, Release(a));
    assert run.s.phases == before.s.phases[a := Ended(0)];
  }

  /** Call `a` finishes twice; between the two, `b` binds the same id and loses its hold. */
  lemma SharedIdReleasesAnother(c: Calls, a: Life, b: Life) returns (run: Run)
    requires a != b && a in c.ids && b in c.ids && c.ids[a] == c.ids[b]
    ensures Valid(c, run) && run.s == Start.(phases := map[a := Ended(0), b := Bound])
  {
    var r0 := SecondBinds(c, a, b);
    run := FinishAgain(c, r0, a, b);
    assert run.s.lock == map[] && run.s.phases == map[a := Ended(0), b := Bound];
  }

  /** A bound hop runs its handler and reads the context it staged. */
  lemma HopReadsCandidate(c: Calls, before: Run, h: Life) returns (run: Run)
    requires Valid(c, before) && h in c.ids && h in c.hops && PhaseOf(before.s, h).Bound?
    requires c.ids[h] in before.s.table && h !in before.s.staged
    ensures Valid(c, run) && run.s.current == before.s.current && run.s.lock == before.s.lock
    ensures run.s.table == before.s.table
    ensures run.s.phases == before.s.phases[h := Committing(before.s.nextContext)]
    ensures forall l | l != h && BoundSince(before, before, l) :: BoundSince(run, before, l)
  {
    var r1 := Do(c, before, Handle(h));
    var r2 := Do(c, r1, Stage(h));
    assert Valid(c, r2);
    var r3 := Do(c, r2, SetResult(h, true));
    var r4 := Do(c, r3, Inject(h));
    assert Valid(c, r4);
    run := Do(c, r4, ReadCandidate(h));
    assert run.s.phases == before.s.phases[h := Committing(before.s.nextContext)];
    forall l | l != h && BoundSince(before, before, l) ensures BoundSince(run, before, l) {
      assert BoundSince(r2, before, l) by { assert BoundSince(r1, before, l); }
      assert BoundSince(r4, before, l) by { assert BoundSince(r3, before, l); }
    }
  }

  /** A call finds the scope free and registers. */
  lemma BindsAlone(c: Calls, before: Run, l: Life) returns (run: Run)
    requires Valid(c, before) && l in c.ids && PhaseOf(before.s, l).Fresh?
    requires before.s.lock == map[] && before.s.table == map[]
    ensures Valid(c, run)
    ensures run.s == before.s.(lock := map[l := l in c.hops], table := map[c.ids[l] := l],
                               phases := before.s.phases[l := Bound])
  {
    var acquired := Do(c, before, Acquire(l));
    assert Valid(c, acquired);
    run := Do(c, acquired, Register(l));
    assert run.s.phases == before.s.phases[l := Bound] && run.s.lock == map[l := l in c.hops];
  }

  /** An ordinary `b` that lost its hold sees the hop of `h`. */
  lemma LostHoldSeesAnotherHop(c: Calls, a: Life, b: Life, h: Life)
    requires a != b && h != a && h != b && {a, b, h} <= c.ids.Keys && c.ids[a] == c.ids[b]
    requires b !in c.hops && h in c.hops
    ensures !Isolated(c)
  {
    var r0 := SharedIdReleasesAnother(c, a, b);
    var r2 := BindsAlone(c, r0, h);
    assert BoundSince(r2, r2, b);
    var r3 := HopReadsCandidate(c, r2, h);
    var r4 := Do(c, r3, Publish(h));
    assert Valid(c, r4) && BoundSince(r4, r2, b) && r4.s.current != r2.s.current;
  }

  /** A hop `b` loses its hold between reading what it staged and publishing it, and then
      publishes under the feet of an ordinary `x`. */
  lemma LostHoldHopsUnderAnother(c: Calls, a: Life, b: Life, x: Life)
    requires a != b && x != a && x != b && {a, b, x} <= c.ids.Keys && c.ids[a] == c.ids[b]
    requires b in c.hops && x !in c.hops
    ensures !Isolated(c)
  {
    var r0 := SecondBinds(c, a, b);
    var r1 := HopReadsCandidate(c, r0, b);
    var r2 := FinishAgain(c, r1, a, b);
    assert r2.s.lock == map[];
    var r4 := BindsAlone(c, r2, x);
    assert BoundSince(r4, r4, x) && PhaseOf(r4.s, b) == Committing(1);
    var r5 := Do(c, r4, Publish(b));
    assert Valid(c, r5) && BoundSince(r5, r4, x) && r5.s.current != r4.s.current;
  }

  /** Two calls share an id, and some third call is a hop exactly when the second is not. */
  ghost predicate Mixed(c: Calls)
  {
    exists a, b, z :: MixedTriple(c, a, b, z)
  }

  ghost predicate MixedTriple(c: Calls, a: Life, b: Life, z: Life)
  {
    && a in c.ids && b in c.ids && z in c.ids && a != b && z != a && z != b
    && c.ids[a] == c.ids[b] && ((b in c.hops) != (z in c.hops))
  }

  lemma MixedIsNotIsolated(c: Calls)
    requires Mixed(c)
    ensures !Isolated(c)
  {
    var a, b, z :| MixedTriple(c, a, b, z);
    if b in c.hops {
      LostHoldHopsUnderAnother(c, a, b, z);
    } else {
      LostHoldSeesAnotherHop(c, a, b, z);
    }
  }

  // ---- and otherwise shared ids do no harm ----

  lemma {:induction false} OnlyCallsHavePhases(c: Calls, run: Run)
    requires Valid(c, run)
    ensures run.s.phases.Keys <= c.ids.Keys
  {
    if run.Then? { OnlyCallsHavePhases(c, run.before); }
  }

  /** Only hops read a staged context. */
  lemma {:induction false} CommittersAreHops(c: Calls, run: Run, l: Life)
    requires Valid(c, run) && PhaseOf(run.s, l).Committing?
    ensures l in c.hops && l in c.ids
  {
    if run.Then? && PhaseOf(run.before.s, l).Committing? { CommittersAreHops(c, run.before, l); }
  }

  lemma {:induction false} NoHopNoMove(c: Calls, run: Run, earlier: Run, l: Life)
    requires Valid(c, run) && c.hops !! c.ids.Keys && BoundSince(run, earlier, l)
    ensures run.s.current == earlier.s.current
  {
    if run != earlier {
      NoHopNoMove(c, run.before, earlier, l);
      if run.step.Publish? { CommittersAreHops(c, run.before, run.step.l); }
    }
  }

  predicate Finishing(p: Phase)
  {
    p.Clearing? || p.Releasing? || p.Ended?
  }

  /** With no third call, a bound call's entry is in the table unless the other call is over. */
  ghost predicate EntryInv(c: Calls, s: State, l: Life, other: Life)
    requires l in c.ids
  {
    Active(PhaseOf(s, l)) ==> (c.ids[l] in s.table && s.table[c.ids[l]] == l) || Finishing(PhaseOf(s, other))
  }

  lemma StepKeepsEntry(c: Calls, s: State, step: Step, l: Life, other: Life)
    requires c.ids.Keys == {l, other} && l != other && c.ids[l] == c.ids[other] && Enabled(c, s, step)
    requires EntryInv(c, s, l, other)
    ensures EntryInv(c, Apply(c, s, step), l, other)
  {
  }

  lemma {:induction false} EntryInEveryRun(c: Calls, run: Run, l: Life, other: Life)
    requires c.ids.Keys == {l, other} && l != other && c.ids[l] == c.ids[other] && Valid(c, run)
    ensures EntryInv(c, run.s, l, other)
  {
    if run.Then? {
      EntryInEveryRun(c, run.before, l, other);
      StepKeepsEntry(c, run.before.s, run.step, l, other);
    }
  }

  /** Of two calls with one id, never both are bound. */
  lemma {:induction false} TwoCallsSeeOneContext(c: Calls, run: Run, earlier: Run, l: Life, other: Life)
    requires c.ids.Keys == {l, other} && l != other && c.ids[l] == c.ids[other]
    requires Valid(c, run) && l !in c.hops && BoundSince(run, earlier, l)
    ensures run.s.current == earlier.s.current
  {
    if run != earlier {
      TwoCallsSeeOneContext(c, run.before, earlier, l, other);
      EntryInEveryRun(c, run.before, l, other);
      EntryInEveryRun(c, run.before, other, l);
      if run.step.Publish? { CommittersAreHops(c, run.before, run.step.l); }
    }
  }

  /** With two calls of one id and no mixed triple there are no hops, no ordinary calls, or just
      those two. */
  lemma UnmixedCases(c: Calls, a: Life, b: Life)
    requires !Mixed(c) && a in c.ids && b in c.ids && a != b && c.ids[a] == c.ids[b]
    ensures c.hops !! c.ids.Keys || c.ids.Keys <= c.hops || c.ids.Keys == {a, b}
  {
    if z :| z in c.ids && z != a && z != b {
      forall y | y in c.ids ensures y in c.hops <==> b in c.hops {
        assert !MixedTriple(c, a, b, z) && !MixedTriple(c, b, a, z);
        assert !MixedTriple(c, a, b, y);
      }
    }
  }

  lemma UnmixedIsIsolated(c: Calls, run: Run, earlier: Run, l: Life)
    requires !Mixed(c) && Valid(c, run) && l !in c.hops && BoundSince(run, earlier, l)
    ensures run.s.current == earlier.s.current
  {
    OnlyCallsHavePhases(c, run);
    if DistinctIds(c) {
      OrdinaryCallSeesOneContext(c, run, earlier, l);
    } else {
      var a, b :| a in c.ids && b in c.ids && c.ids[a] == c.ids[b] && a != b;
      UnmixedCases(c, a, b);
      if c.ids.Keys == {a, b} {
        TwoCallsSeeOneContext(c, run, earlier, l, if l == a then b else a);
      } else {
        NoHopNoMove(c, run, earlier, l);
      }
    }
  }

  /** For all calls, isolation over every interleaving holds exactly when there are no two calls
      with one id and a third of the other kind than the second. */
  lemma IsolatedExactlyWhenUnmixed(c: Calls)
    ensures Isolated(c) <==> !Mixed(c)
  {
    if Mixed(c) {
      MixedIsNotIsolated(c);
    } else {
      forall run, earlier, l | Valid(c, run) && l !in c.hops && BoundSince(run, earlier, l)
        ensures run.s.current == earlier.s.current
      {
        UnmixedIsIsolated(c, run, earlier, l);
      }
    }
  }
}
