/** Child callbacks of one execution: a slot whose current scope is resolved, drained and
    replaced under the slot gate, while callbacks run inside the scope's own gate. Threads
    interleave at every lock operation, every read of the durable revision and every
    registry access; any of them may also fail and clean up at any point. */
module CallbackScopes {
  import opened Options
  import opened ReadWriteLock

  type Thread = Holder

  /** `actor` is the identity of the run object the scope registered. */
  datatype Scope = Scope(revision: int, actor: nat, gate: Lock)

  /** What a thread came for. A finish, and a submission that binds the run it registered, carry
      what they read of the execution beforehand. */
  datatype Job =
    | Callback(exclusive: bool)
    | Pause
    | Retire(revisionSeen: int, executionCancelled: bool)
    | Bind(revisionSeen: int)

  datatype Pc =
    | Idle
    | WaitingForSlot(job: Job)
    | InSlot(job: Job)
    | Draining(job: Job, revision: int, previous: Option<nat>)
    | Drained(job: Job, revision: int, previous: Option<nat>)
    | Rechecked(job: Job, revision: int, previous: Option<nat>)
    | Registered(job: Job, revision: int, previous: Option<nat>, actor: nat)
    | Resolved(scope: nat, exclusive: bool)
    | Admitted(scope: nat, exclusive: bool)
    | RevisionChecked(scope: nat, exclusive: bool)
    | Body(scope: nat, exclusive: bool)
    | Finished

  datatype System = System(
    revision: int,          // durable control revision
    available: bool,        // durable execution state admits callbacks
    slot: Lock,
    scopes: seq<Scope>,     // every scope ever installed, oldest first
    current: Option<nat>,   // slot.current
    registry: Option<nat>,  // the actor the registry holds for this run
    nextActor: nat,
    pcs: map<Thread, Pc>)

  function PcOf(s: System, t: Thread): Pc
  {
    if t in s.pcs then s.pcs[t] else Idle
  }

  function At(s: System, t: Thread, pc: Pc): System
  {
    s.(pcs := s.pcs[t := pc])
  }

  /** Whether the thread is between acquiring and releasing the slot gate. */
  predicate HoldsSlot(pc: Pc)
  {
    pc.InSlot? || pc.Draining? || pc.Drained? || pc.Rechecked? || pc.Registered?
  }

  /** The scope whose gate the thread holds exclusively in order to replace or retire it. */
  function DrainedScope(pc: Pc): Option<nat>
  {
    if pc.Drained? || pc.Rechecked? || pc.Registered? then pc.previous else None
  }

  /** Whether the thread is replacing or retiring what is current. */
  predicate Drains(pc: Pc)
  {
    pc.Draining? || pc.Drained? || pc.Rechecked? || pc.Registered?
  }

  predicate InScope(pc: Pc)
  {
    pc.Admitted? || pc.RevisionChecked? || pc.Body?
  }

  datatype Step =
    | Arrive(t: Thread, job: Job)
    | TakeSlot(t: Thread)
    | Reuse(t: Thread)
    | StartDrain(t: Thread)
    | Drain(t: Thread)
    | Recheck(t: Thread)
    | Register(t: Thread)
    | Install(t: Thread)
    | Adopt(t: Thread)
    | RetireDone(t: Thread)
    | Enter(t: Thread)
    | CheckRevision(t: Thread)
    | CheckRegistry(t: Thread)
    | Finish(t: Thread)
    | Control(revision: int, available: bool)
    | ForeignActor

  predicate CurrentMatches(s: System)
  {
    && s.current.Some? && s.current.value < |s.scopes|
    && s.scopes[s.current.value].revision == s.revision
  }

  /** A pause always drains; a finish only when the revision it read is still the scope's. */
  predicate MayDrain(s: System, job: Job)
  {
    match job
    case Callback(_) => s.available && !CurrentMatches(s)
    case Pause => true
    case Retire(revisionSeen, executionCancelled) =>
      s.current.Some? && s.current.value < |s.scopes| ==>
        s.scopes[s.current.value].revision == revisionSeen || executionCancelled
    case Bind(_) => false
  }

  /** The registry holds a run that no scope was installed for yet. */
  predicate RegisteredUnbound(s: System)
  {
    s.registry.Some? && forall i | 0 <= i < |s.scopes| :: s.scopes[i].actor != s.registry.value
  }

  /** The registry accepts the new actor only over nothing or over the drained scope's own. */
  predicate MayRegister(s: System, previous: Option<nat>)
  {
    s.registry.Some? ==>
      previous.Some? && previous.value < |s.scopes| && s.registry.value == s.scopes[previous.value].actor
  }

  ghost predicate Enabled(s: System, step: Step)
  {
    match step
    case Arrive(t, _) => PcOf(s, t).Idle?
    case TakeSlot(t) => PcOf(s, t).WaitingForSlot? && MayEnter(s.slot, t, true)
    case Reuse(t) => PcOf(s, t).InSlot? && PcOf(s, t).job.Callback? && s.available && CurrentMatches(s)
    case StartDrain(t) => PcOf(s, t).InSlot? && MayDrain(s, PcOf(s, t).job)
    case Drain(t) =>
      var pc := PcOf(s, t);
      && pc.Draining?
      && (pc.previous.Some? ==>
            pc.previous.value < |s.scopes| && MayEnter(s.scopes[pc.previous.value].gate, t, true))
    case Recheck(t) =>
      PcOf(s, t).Drained? && PcOf(s, t).job.Callback? && s.available && s.revision == PcOf(s, t).revision
    case Register(t) => PcOf(s, t).Rechecked? && MayRegister(s, PcOf(s, t).previous)
    case Install(t) => PcOf(s, t).Registered? && PcOf(s, t).job.Callback?
    case Adopt(t) => PcOf(s, t).InSlot? && PcOf(s, t).job.Bind? && s.current.None? && RegisteredUnbound(s)
    case RetireDone(t) => PcOf(s, t).Drained? && PcOf(s, t).job.Retire?
    case Enter(t) =>
      var pc := PcOf(s, t);
      pc.Resolved? && pc.scope < |s.scopes| && MayEnter(s.scopes[pc.scope].gate, t, pc.exclusive)
    case CheckRevision(t) =>
      var pc := PcOf(s, t);
      pc.Admitted? && pc.scope < |s.scopes| && s.available && s.revision == s.scopes[pc.scope].revision
    case CheckRegistry(t) =>
      var pc := PcOf(s, t);
      pc.RevisionChecked? && pc.scope < |s.scopes| && s.registry == Some(s.scopes[pc.scope].actor)
    case Finish(t) => true
    case Control(_, _) => true
    case ForeignActor => s.registry.None?
  }

  function EnterScope(s: System, scope: Option<nat>, t: Thread, exclusive: bool): System
  {
    if scope.Some? && scope.value < |s.scopes|
    then
      var entered := s.scopes[scope.value];
      s.(scopes := s.scopes[scope.value := entered.(gate := ReadWriteLock.Enter(entered.gate, t, exclusive))])
    else s
  }

  /** The deferred cleanups: the thread leaves every gate it is in. */
  function ReleaseAll(s: System, t: Thread): System
  {
    s.(slot := Leave(s.slot, t),
       scopes := seq(|s.scopes|, i requires 0 <= i < |s.scopes| => s.scopes[i].(gate := Leave(s.scopes[i].gate, t))))
  }

  function Apply(s: System, step: Step): System
    requires Enabled(s, step)
  {
    match step
    case Arrive(t, job) => At(s, t, WaitingForSlot(job))
    case TakeSlot(t) => At(s.(slot := ReadWriteLock.Enter(s.slot, t, true)), t, InSlot(PcOf(s, t).job))
    case Reuse(t) => At(s.(slot := Leave(s.slot, t)), t, Resolved(s.current.value, PcOf(s, t).job.exclusive))
    case StartDrain(t) => At(s, t, Draining(PcOf(s, t).job, s.revision, s.current))
    case Drain(t) =>
      var pc := PcOf(s, t);
      At(EnterScope(s, pc.previous, t, true), t, Drained(pc.job, pc.revision, pc.previous))
    case Recheck(t) => var pc := PcOf(s, t); At(s, t, Rechecked(pc.job, pc.revision, pc.previous))
    case Register(t) =>
      var pc := PcOf(s, t);
      At(s.(registry := Some(s.nextActor), nextActor := s.nextActor + 1), t,
         Registered(pc.job, pc.revision, pc.previous, s.nextActor))
    case Install(t) =>
      var pc := PcOf(s, t);
      var s1 := ReleaseAll(s, t);
      At(s1.(scopes := s1.scopes + [Scope(pc.revision, pc.actor, map[])], current := Some(|s1.scopes|)), t,
         Resolved(|s1.scopes|, pc.job.exclusive))
    case Adopt(t) =>
      At(s.(slot := Leave(s.slot, t), current := Some(|s.scopes|),
            scopes := s.scopes + [Scope(PcOf(s, t).job.revisionSeen, s.registry.value, map[])]),
         t, Finished)
    case RetireDone(t) => At(ReleaseAll(s, t).(current := None), t, Finished)
    case Enter(t) =>
      var pc := PcOf(s, t);
      At(EnterScope(s, Some(pc.scope), t, pc.exclusive), t, Admitted(pc.scope, pc.exclusive))
    case CheckRevision(t) => var pc := PcOf(s, t); At(s, t, RevisionChecked(pc.scope, pc.exclusive))
    case CheckRegistry(t) => var pc := PcOf(s, t); At(s, t, Body(pc.scope, pc.exclusive))
    case Finish(t) => At(ReleaseAll(s, t), t, Finished)
    case Control(revision, available) => s.(revision := revision, available := available)
    case ForeignActor => s.(registry := Some(s.nextActor), nextActor := s.nextActor + 1)
  }

  // ---- the invariant ----

  /** The slot gate is held, exclusively, by the threads between taking and releasing it. */
  ghost predicate HolderInside(s: System, t: Thread)
  {
    (t in s.slot <==> HoldsSlot(PcOf(s, t))) && (t in s.slot ==> s.slot[t])
  }

  /** A thread that drains, drains what is current. */
  ghost predicate DrainsCurrent(s: System, t: Thread)
  {
    t in s.pcs && Drains(s.pcs[t]) ==> s.pcs[t].previous == s.current
  }

  ghost predicate SlotInv(s: System)
  {
    && Safe(s.slot)
    && (forall t :: HolderInside(s, t))
    && (forall t :: DrainsCurrent(s, t))
    && (s.current.Some? ==> s.current.value == |s.scopes| - 1)
  }

  ghost predicate GateInv(s: System)
  {
    && (forall i | 0 <= i < |s.scopes| :: Safe(s.scopes[i].gate))
    && (forall t :: DrainerInside(s, t))
    && (forall t :: CallbackInside(s, t))
    && (forall i: nat, t | i < |s.scopes| :: NoStrayHold(s, i, t))
    && (forall t | t in s.pcs && s.pcs[t].Resolved? :: s.pcs[t].scope < |s.scopes|)
  }

  /** Actors are numbered without repeats, and one the registry holds is the newest scope's or
      no scope's yet. */
  ghost predicate ActorNumbers(s: System)
  {
    && (forall i | 0 <= i < |s.scopes| :: s.scopes[i].actor < s.nextActor)
    && (forall i, j | 0 <= i < j < |s.scopes| :: s.scopes[i].actor != s.scopes[j].actor)
    && (s.registry.Some? ==> s.registry.value < s.nextActor)
    && (forall i | 0 <= i < |s.scopes| && s.registry == Some(s.scopes[i].actor) :: i == |s.scopes| - 1)
  }

  ghost predicate ActorInv(s: System)
  {
    ActorNumbers(s) && forall t :: OwnsRegistry(s, t)
  }

  /** A running body's scope owns the registry entry. */
  ghost predicate BodyInv(s: System)
  {
    forall t | t in s.pcs && s.pcs[t].Body? ::
      s.pcs[t].scope < |s.scopes| && s.registry == Some(s.scopes[s.pcs[t].scope].actor)
  }

  ghost predicate Inv(s: System)
  {
    SlotInv(s) && GateInv(s) && ActorInv(s) && BodyInv(s)
  }

  ghost predicate Initial(s: System)
  {
    s.slot == map[] && s.scopes == [] && s.current == None && s.registry == None && s.pcs == map[]
  }

  /** Only one thread is inside the slot. */
  lemma SlotIsMutex(s: System, t: Thread, u: Thread)
    requires SlotInv(s) && t in s.pcs && u in s.pcs && HoldsSlot(s.pcs[t]) && HoldsSlot(s.pcs[u])
    ensures t == u
  {
    assert HolderInside(s, t) && HolderInside(s, u);
  }

  /** The step is one of this thread's. */
  predicate Moves(step: Step, u: Thread)
  {
    !step.Control? && !step.ForeignActor? && step.t == u
  }

  /** The slot gate stays as it is, or the step's thread enters or leaves it. */
  lemma SlotEffect(s: System, step: Step)
    requires Enabled(s, step)
    ensures var slot := Apply(s, step).slot;
            if step.TakeSlot? then EntersGate(s.slot, slot, step.t, true)
            else if step.Reuse? || Installs(step) || LeavesAll(step) then slot == Leave(s.slot, step.t)
            else slot == s.slot
  {
  }

  lemma OwnHolderStep(s: System, step: Step, u: Thread)
    requires Moves(step, u) && HolderInside(s, u) && Enabled(s, step)
    ensures HolderInside(Apply(s, step), u)
  {
    SlotEffect(s, step);
  }

  lemma StepKeepsHolder(s: System, step: Step, u: Thread)
    requires Safe(s.slot) && HolderInside(s, u) && Enabled(s, step)
    ensures Safe(Apply(s, step).slot) && HolderInside(Apply(s, step), u)
  {
    SlotEffect(s, step);
    if Moves(step, u) {
      OwnHolderStep(s, step, u);
    } else {
      OthersStay(s, step, u);
    }
  }

  predicate ChangesCurrent(step: Step)
  {
    Installs(step) || step.RetireDone?
  }

  lemma OthersStay(s: System, step: Step, u: Thread)
    requires Enabled(s, step) && !Moves(step, u)
    ensures PcOf(Apply(s, step), u) == PcOf(s, u) && (u in Apply(s, step).pcs <==> u in s.pcs)
  {
  }

  lemma OthersKeepCurrent(s: System, step: Step)
    requires Enabled(s, step) && !ChangesCurrent(step)
    ensures Apply(s, step).current == s.current
  {
  }

  /** A drainer's own step keeps what it drains, or ends its draining. */
  lemma DrainerKeepsCurrent(s: System, step: Step, u: Thread)
    requires Enabled(s, step) && Moves(step, u) && DrainsCurrent(s, u)
    ensures DrainsCurrent(Apply(s, step), u)
  {
  }

  lemma StepKeepsDrainsCurrent(s: System, step: Step, u: Thread)
    requires SlotInv(s) && Enabled(s, step)
    ensures DrainsCurrent(Apply(s, step), u)
  {
    assert DrainsCurrent(s, u) && HolderInside(s, u);
    if Moves(step, u) {
      DrainerKeepsCurrent(s, step, u);
    } else {
      OthersStay(s, step, u);
      if !ChangesCurrent(step) {
        OthersKeepCurrent(s, step);
      } else if u in s.pcs && HoldsSlot(s.pcs[u]) {
        SlotIsMutex(s, u, step.t);
      }
    }
  }

  lemma StepKeepsSlot(s: System, step: Step)
    requires SlotInv(s) && Enabled(s, step)
    ensures SlotInv(Apply(s, step))
  {
    var s' := Apply(s, step);
    forall u ensures Safe(s'.slot) && HolderInside(s', u) && DrainsCurrent(s', u) {
      assert HolderInside(s, u);
      StepKeepsHolder(s, step, u);
      StepKeepsDrainsCurrent(s, step, u);
    }
    StepKeepsHolder(s, step, 0);
    ScopeIdentity(s, step);
  }

  /** The gate the step enters, if it enters one. */
  function Entered(s: System, step: Step): Option<nat>
  {
    match step
    case Drain(t) => if PcOf(s, t).Draining? then PcOf(s, t).previous else None
    case Enter(t) => if PcOf(s, t).Resolved? then Some(PcOf(s, t).scope) else None
    case _ => None
  }

  predicate LeavesAll(step: Step)
  {
    step.Install? || step.RetireDone? || step.Finish?
  }

  lemma LeavingEffect(s: System, step: Step, i: nat)
    requires Enabled(s, step) && LeavesAll(step) && i < |Apply(s, step).scopes|
    ensures Apply(s, step).scopes[i].gate == if i >= |s.scopes| then map[] else Leave(s.scopes[i].gate, step.t)
  {
  }

  /** What one scope's gate becomes when a thread enters that scope. */
  ghost predicate EntersGate(gate: Lock, gate': Lock, t: Thread, exclusive: bool)
  {
    MayEnter(gate, t, exclusive) && gate' == ReadWriteLock.Enter(gate, t, exclusive)
  }

  lemma EnteringEffect(s: System, step: Step, i: nat)
    requires Enabled(s, step) && (step.Drain? || step.Enter?) && i < |Apply(s, step).scopes|
    ensures i < |s.scopes|
    ensures var gate' := Apply(s, step).scopes[i].gate;
            if Entered(s, step) == Some(i)
            then EntersGate(s.scopes[i].gate, gate', step.t, step.Drain? || PcOf(s, step.t).exclusive)
            else gate' == s.scopes[i].gate
  {
  }

  lemma OtherEffect(s: System, step: Step, i: nat)
    requires Enabled(s, step) && !LeavesAll(step) && !step.Drain? && !step.Enter? && i < |Apply(s, step).scopes|
    ensures Apply(s, step).scopes[i].gate == if i >= |s.scopes| then map[] else s.scopes[i].gate
  {
  }

  /** What a step does to the gates: it enters at most one, or leaves all, as its own thread. */
  lemma GateEffect(s: System, step: Step, i: nat)
    requires Enabled(s, step) && i < |Apply(s, step).scopes|
    ensures var gate' := Apply(s, step).scopes[i].gate;
            if i >= |s.scopes| then gate' == map[]
            else if LeavesAll(step) then gate' == Leave(s.scopes[i].gate, step.t)
            else if Entered(s, step) == Some(i)
            then EntersGate(s.scopes[i].gate, gate', step.t, step.Drain? || PcOf(s, step.t).exclusive)
            else gate' == s.scopes[i].gate
  {
    if LeavesAll(step) {
      LeavingEffect(s, step, i);
    } else if step.Drain? || step.Enter? {
      EnteringEffect(s, step, i);
    } else {
      OtherEffect(s, step, i);
    }
  }

  ghost predicate DrainerInside(s: System, t: Thread)
  {
    t in s.pcs && DrainedScope(s.pcs[t]).Some? ==>
      var p := s.pcs[t].previous.value;
      p < |s.scopes| && t in s.scopes[p].gate && s.scopes[p].gate[t]
  }

  ghost predicate CallbackInside(s: System, t: Thread)
  {
    t in s.pcs && InScope(s.pcs[t]) ==>
      var i := s.pcs[t].scope;
      i < |s.scopes| && t in s.scopes[i].gate && s.scopes[i].gate[t] == s.pcs[t].exclusive
  }

  /** Whoever is in a scope's gate drains that scope or is a callback inside it. */
  ghost predicate NoStrayHold(s: System, i: nat, t: Thread)
    requires i < |s.scopes|
  {
    t in s.scopes[i].gate ==>
      DrainedScope(PcOf(s, t)) == Some(i) || (InScope(PcOf(s, t)) && PcOf(s, t).scope == i)
  }

  /** A thread that holds a gate and moves on without leaving goes on holding it. */
  lemma HolderMovesOn(s: System, step: Step, i: nat, t: Thread)
    requires Enabled(s, step) && Moves(step, t) && !LeavesAll(step) && Entered(s, step) != Some(i)
    requires DrainedScope(PcOf(s, t)) == Some(i) || (InScope(PcOf(s, t)) && PcOf(s, t).scope == i)
    ensures var pc := PcOf(Apply(s, step), t);
            DrainedScope(pc) == Some(i) || (InScope(pc) && pc.scope == i)
  {
  }

  lemma EntrantIsInside(s: System, step: Step, i: nat)
    requires Enabled(s, step) && Entered(s, step) == Some(i)
    ensures var pc := PcOf(Apply(s, step), step.t);
            DrainedScope(pc) == Some(i) || (InScope(pc) && pc.scope == i)
  {
  }

  lemma StepKeepsStrayFree(s: System, step: Step, i: nat, t: Thread)
    requires Enabled(s, step) && i < |Apply(s, step).scopes| && (i < |s.scopes| ==> NoStrayHold(s, i, t))
    ensures NoStrayHold(Apply(s, step), i, t)
  {
    GateEffect(s, step, i);
    if t in Apply(s, step).scopes[i].gate {
      if !Moves(step, t) {
        OthersStay(s, step, t);
      } else if Entered(s, step) == Some(i) {
        EntrantIsInside(s, step, i);
      } else {
        HolderMovesOn(s, step, i, t);
      }
    }
  }

  /** A hold outlasts every step that is not its own thread's leaving or entering. */
  lemma HoldLasts(s: System, step: Step, i: nat, t: Thread)
    requires Enabled(s, step) && i < |s.scopes| && t in s.scopes[i].gate
    requires LeavesAll(step) || Entered(s, step) == Some(i) ==> step.t != t
    ensures var scopes := Apply(s, step).scopes;
            i < |scopes| && t in scopes[i].gate && scopes[i].gate[t] == s.scopes[i].gate[t]
  {
    ScopeIdentity(s, step);
    GateEffect(s, step, i);
  }

  /** A thread that holds a scope to replace it did so before, or has just entered it. */
  lemma DrainerCameFrom(s: System, step: Step, t: Thread)
    requires Enabled(s, step) && DrainedScope(PcOf(Apply(s, step), t)).Some?
    ensures var p := DrainedScope(PcOf(Apply(s, step), t));
            || (step == Drain(t) && PcOf(s, t).previous == p)
            || (DrainedScope(PcOf(s, t)) == p && (LeavesAll(step) || Entered(s, step).Some? ==> step.t != t))
  {
  }

  lemma StepKeepsDrainerInside(s: System, step: Step, t: Thread)
    requires DrainerInside(s, t) && Enabled(s, step)
    ensures DrainerInside(Apply(s, step), t)
  {
    var pc := PcOf(Apply(s, step), t);
    if DrainedScope(pc).Some? {
      DrainerCameFrom(s, step, t);
      if step == Drain(t) {
        ScopeIdentity(s, step);
        GateEffect(s, step, pc.previous.value);
      } else {
        HoldLasts(s, step, pc.previous.value, t);
      }
    }
  }

  /** A callback inside a scope was inside before, or has just entered. */
  lemma CallbackCameFrom(s: System, step: Step, t: Thread)
    requires Enabled(s, step) && InScope(PcOf(Apply(s, step), t))
    ensures var pc, pc' := PcOf(s, t), PcOf(Apply(s, step), t);
            || (step == Enter(t) && pc == Resolved(pc'.scope, pc'.exclusive))
            || (&& InScope(pc) && pc.scope == pc'.scope && pc.exclusive == pc'.exclusive
                && (LeavesAll(step) || Entered(s, step).Some? ==> step.t != t))
  {
    if Moves(step, t) {
      match step
      case Enter(_) =>
      case CheckRevision(_) =>
      case CheckRegistry(_) =>
      case Drain(_) =>
      case _ =>
    } else {
      OthersStay(s, step, t);
    }
  }

  lemma StepKeepsCallbackInside(s: System, step: Step, t: Thread)
    requires CallbackInside(s, t) && Enabled(s, step)
    ensures CallbackInside(Apply(s, step), t)
  {
    var pc := PcOf(Apply(s, step), t);
    if InScope(pc) {
      CallbackCameFrom(s, step, t);
      if step == Enter(t) {
        ScopeIdentity(s, step);
        GateEffect(s, step, pc.scope);
      } else {
        HoldLasts(s, step, pc.scope, t);
      }
    }
  }

  lemma StepKeepsGates(s: System, step: Step)
    requires SlotInv(s) && GateInv(s) && Enabled(s, step)
    ensures GateInv(Apply(s, step))
  {
    var s' := Apply(s, step);
    forall i | 0 <= i < |s'.scopes| ensures Safe(s'.scopes[i].gate) {
      GateEffect(s, step, i);
    }
    forall t ensures DrainerInside(s', t) && CallbackInside(s', t) {
      assert DrainerInside(s, t) && CallbackInside(s, t);
      StepKeepsDrainerInside(s, step, t);
      StepKeepsCallbackInside(s, step, t);
    }
    forall i: nat, t | i < |s'.scopes| ensures NoStrayHold(s', i, t) {
      if i < |s.scopes| { assert NoStrayHold(s, i, t); }
      StepKeepsStrayFree(s, step, i, t);
    }
    ScopeIdentity(s, step);
  }

  predicate Installs(step: Step)
  {
    step.Install? || step.Adopt?
  }

  /** A scope's identity never changes, and only an installation adds one: the registered actor. */
  lemma ScopeIdentity(s: System, step: Step)
    requires Enabled(s, step)
    ensures var s' := Apply(s, step);
            && |s'.scopes| == |s.scopes| + (if Installs(step) then 1 else 0)
            && (step.Install? ==> s'.scopes[|s.scopes|].actor == PcOf(s, step.t).actor)
            && (step.Adopt? ==> Some(s'.scopes[|s.scopes|].actor) == s.registry)
            && forall i | 0 <= i < |s.scopes| ::
                 s'.scopes[i].actor == s.scopes[i].actor && s'.scopes[i].revision == s.scopes[i].revision
  {
  }

  /** A thread that registered an actor not yet installed. */
  ghost predicate OwnsRegistry(s: System, t: Thread)
  {
    t in s.pcs && s.pcs[t].Registered? ==>
      && s.registry == Some(s.pcs[t].actor)
      && forall i | 0 <= i < |s.scopes| :: s.scopes[i].actor != s.pcs[t].actor
  }

  lemma StepKeepsOwner(s: System, step: Step, u: Thread)
    requires SlotInv(s) && ActorInv(s) && Enabled(s, step)
    ensures OwnsRegistry(Apply(s, step), u)
  {
    ScopeIdentity(s, step);
    assert OwnsRegistry(s, u);
    if Moves(step, u) {
      RegistrantOwns(s, step, u);
    } else {
      OthersStay(s, step, u);
      if u in s.pcs && s.pcs[u].Registered? {
        if step.Register? || Installs(step) { SlotIsMutex(s, u, step.t); }
        OthersKeepRegistry(s, step);
      }
    }
  }

  lemma OthersKeepRegistry(s: System, step: Step)
    requires Enabled(s, step) && !step.Register? && s.registry.Some?
    ensures Apply(s, step).registry == s.registry
  {
  }

  /** A thread that has just registered owns the registry entry with an actor of its own. */
  lemma RegistrantOwns(s: System, step: Step, u: Thread)
    requires Enabled(s, step) && Moves(step, u)
    requires forall i | 0 <= i < |s.scopes| :: s.scopes[i].actor < s.nextActor
    ensures OwnsRegistry(Apply(s, step), u)
  {
  }

  lemma StepKeepsActors(s: System, step: Step)
    requires SlotInv(s) && ActorInv(s) && Enabled(s, step)
    ensures ActorInv(Apply(s, step))
  {
    forall u ensures OwnsRegistry(Apply(s, step), u) {
      StepKeepsOwner(s, step, u);
    }
    if step.Install? { assert OwnsRegistry(s, step.t); }
    StepKeepsActorNumbers(s, step);
  }

  lemma StepKeepsActorNumbers(s: System, step: Step)
    requires ActorNumbers(s) && Enabled(s, step)
    requires step.Install? ==> OwnsRegistry(s, step.t)
    ensures ActorNumbers(Apply(s, step))
  {
    ScopeIdentity(s, step);
  }

  /** The registry is never taken over while a body runs: its owner's gate is held exclusively. */
  lemma NoBodyWhileRegistering(s: System, t: Thread, u: Thread)
    requires Inv(s) && Enabled(s, Register(t))
    ensures !PcOf(s, u).Body?
  {
    assert DrainerInside(s, t) && CallbackInside(s, u);
  }

  lemma StepKeepsBodies(s: System, step: Step)
    requires BodyInv(s) && Enabled(s, step)
    requires step.Register? ==> forall u | u in s.pcs :: !s.pcs[u].Body?
    ensures BodyInv(Apply(s, step))
  {
    ScopeIdentity(s, step);
  }

  lemma StepKeepsInv(s: System, step: Step)
    requires Inv(s) && Enabled(s, step)
    ensures Inv(Apply(s, step))
  {
    StepKeepsSlot(s, step);
    StepKeepsGates(s, step);
    StepKeepsActors(s, step);
    forall u | step.Register? && u in s.pcs ensures !s.pcs[u].Body? {
      NoBodyWhileRegistering(s, step.t, u);
    }
    StepKeepsBodies(s, step);
  }

  // ---- runs ----

  /** A run: an initial state, or a run with one more step. `s` is the state it ends in. */
  datatype Run = Begin(s: System) | Then(before: Run, step: Step, s: System)

  ghost predicate Valid(run: Run)
  {
    match run
    case Begin(s) => Initial(s)
    case Then(before, step, s) => Valid(before) && Enabled(before.s, step) && s == Apply(before.s, step)
  }

  lemma {:induction false} InvHoldsInEveryRun(run: Run)
    requires Valid(run)
    ensures Inv(run.s)
  {
    if run.Then? {
      InvHoldsInEveryRun(run.before);
      StepKeepsInv(run.before.s, run.step);
    }
  }

  /** Two bodies never run under different scopes, and an exclusive body runs alone. */
  lemma BodiesShareOneScope(run: Run, t: Thread, u: Thread)
    requires Valid(run) && PcOf(run.s, t).Body? && PcOf(run.s, u).Body?
    ensures PcOf(run.s, t).scope == PcOf(run.s, u).scope
    ensures PcOf(run.s, t).exclusive ==> t == u
  {
    InvHoldsInEveryRun(run);
    assert CallbackInside(run.s, t) && CallbackInside(run.s, u);
  }

  /** A body only ever runs under the newest scope: none starts, or is still running, under
      a scope whose replacement is installed. */
  lemma BodyRunsUnderNewestScope(run: Run, t: Thread)
    requires Valid(run) && PcOf(run.s, t).Body?
    ensures PcOf(run.s, t).scope == |run.s.scopes| - 1
  {
    InvHoldsInEveryRun(run);
  }

  /** Installing a scope, as a replacement or for a submitted run, finds every earlier callback
      drained: no body is running. */
  lemma InstallFindsNoBody(run: Run, t: Thread)
    requires Valid(run) && run.Then? && Installs(run.step)
    ensures !PcOf(run.before.s, t).Body? && !PcOf(run.s, t).Body?
  {
    InvHoldsInEveryRun(run.before);
    assert OwnsRegistry(run.before.s, run.step.t);
  }

  /** When every thread is done, nothing is held: neither the slot nor any scope's gate. */
  lemma NothingOutlivesTheThreads(run: Run)
    requires Valid(run) && forall t :: PcOf(run.s, t).Idle? || PcOf(run.s, t).Finished?
    ensures run.s.slot == map[] && forall i | 0 <= i < |run.s.scopes| :: run.s.scopes[i].gate == map[]
  {
    InvHoldsInEveryRun(run);
    forall t ensures t !in run.s.slot { assert HolderInside(run.s, t); }
    forall i | 0 <= i < |run.s.scopes| ensures run.s.scopes[i].gate == map[] {
      forall t ensures t !in run.s.scopes[i].gate { assert NoStrayHold(run.s, i, t); }
    }
  }

  /** A retirement finds its scope current and leaves nothing current. */
  lemma RetiredIsNotCurrent(run: Run)
    requires Valid(run) && run.Then? && run.step.RetireDone?
    ensures PcOf(run.before.s, run.step.t).Drained? && PcOf(run.s, run.step.t).Finished?
    ensures PcOf(run.before.s, run.step.t).previous == run.before.s.current
    ensures run.s.current == None && run.s.slot == map[]
  {
    InvHoldsInEveryRun(run.before);
    InvHoldsInEveryRun(run);
    var t := run.step.t;
    assert DrainsCurrent(run.before.s, t) && HolderInside(run.before.s, t);
    assert run.before.s.slot == map[t := true];
  }

  predicate PastRevisionCheck(pc: Pc)
  {
    pc.Body? || pc.RevisionChecked?
  }

  /** A thread past the revision check was past it before, or has just passed it. */
  lemma PastCheckCameFrom(s: System, step: Step, t: Thread)
    requires Enabled(s, step) && PastRevisionCheck(PcOf(Apply(s, step), t))
    ensures var scope := PcOf(Apply(s, step), t).scope;
            if step == CheckRevision(t) then Checks(s, t, scope)
            else PastRevisionCheck(PcOf(s, t)) && PcOf(s, t).scope == scope
  {
  }

  /** The thread is inside the scope's gate, and the durable execution is available at the
      scope's own revision. */
  ghost predicate Checks(s: System, t: Thread, scope: nat)
  {
    && PcOf(s, t).Admitted? && PcOf(s, t).scope == scope && scope < |s.scopes|
    && s.available && s.revision == s.scopes[scope].revision
  }

  /** At some point of the run the thread checked the scope's revision, and it has been inside
      the scope's gate ever since. */
  ghost predicate Fenced(run: Run, t: Thread, scope: nat)
  {
    && InScope(PcOf(run.s, t)) && PcOf(run.s, t).scope == scope
    && run.Then? && (Fenced(run.before, t, scope) || (run.step == CheckRevision(t) && Checks(run.before.s, t, scope)))
  }

  /** Fencing: when a body runs, its thread saw the scope's own revision in the durable
      execution, and has held the scope's gate without a break ever since. */
  lemma {:induction false} BodyWasFenced(run: Run, t: Thread)
    requires Valid(run) && PastRevisionCheck(PcOf(run.s, t))
    ensures Fenced(run, t, PcOf(run.s, t).scope)
  {
    if run.Then? {
      PastCheckCameFrom(run.before.s, run.step, t);
      if run.step != CheckRevision(t) { BodyWasFenced(run.before, t); }
    }
  }
}
