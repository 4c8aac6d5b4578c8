/** The two hand-written gates as step systems over acquisitions. `directoryGate` prefers
    writers; `rootCallbackGate` does not, and then `waitingWriters` is never used. The
    channel that is closed and replaced on every change is its generation number: a channel
    is closed exactly when it is older than `changed`. */
module Gates {
  import opened ReadWriteLock

  datatype Gate = Gate(prefersWriters: bool, readers: int, waitingWriters: int, writer: bool, changed: nat)

  predicate CanEnter(gate: Gate, exclusive: bool)
  {
    !gate.writer && if exclusive then gate.readers == 0 else gate.waitingWriters == 0
  }

  function Notify(gate: Gate): Gate
  {
    gate.(changed := gate.changed + 1)
  }

  /** Start waiting: the part of `acquire` before its loop. */
  function Arrive(gate: Gate, exclusive: bool): Gate
  {
    if gate.prefersWriters && exclusive then gate.(waitingWriters := gate.waitingWriters + 1) else gate
  }

  function Admit(gate: Gate, exclusive: bool): Gate
  {
    if !exclusive then gate.(readers := gate.readers + 1)
    else if gate.prefersWriters then gate.(waitingWriters := gate.waitingWriters - 1, writer := true)
    else gate.(writer := true)
  }

  /** A cancelled acquisition gives up its place in the queue. */
  function Abandon(gate: Gate, exclusive: bool): Gate
  {
    if gate.prefersWriters && exclusive
    then Notify(gate.(waitingWriters := gate.waitingWriters - 1))
    else gate
  }

  function Depart(gate: Gate, exclusive: bool): Gate
  {
    Notify(if exclusive then gate.(writer := false) else gate.(readers := gate.readers - 1))
  }

  /** Where one acquisition stands. `Blocked` remembers the channel it selects on. */
  datatype Phase = Idle | Blocked(exclusive: bool, channel: nat) | Inside(exclusive: bool) | Done

  datatype System = System(gate: Gate, phases: map<Holder, Phase>, cancelled: set<Holder>)

  function PhaseOf(s: System, h: Holder): Phase
  {
    if h in s.phases then s.phases[h] else Idle
  }

  /** Every step is one critical section, an asynchronous cancellation, or a call of the
      returned release function, which may be called again and then does nothing. */
  datatype Step =
    | Begin(h: Holder, exclusive: bool, seesCancel: bool)
    | Retry(h: Holder, seesCancel: bool)
    | Cancel(h: Holder)
    | Release(h: Holder)

  ghost predicate Enabled(s: System, step: Step)
  {
    match step
    case Begin(h, _, seesCancel) => PhaseOf(s, h).Idle? && (seesCancel ==> h in s.cancelled)
    case Retry(h, seesCancel) =>
      var phase := PhaseOf(s, h);
      && phase.Blocked?
      && (if seesCancel then h in s.cancelled else phase.channel < s.gate.changed)
    case Cancel(_) => true
    case Release(h) => PhaseOf(s, h).Inside? || PhaseOf(s, h).Done?
  }

  /** The body of the wait loop: give up, enter, or block on the current channel. */
  function Attempt(gate: Gate, exclusive: bool, seesCancel: bool): (r: (Gate, Phase))
  {
    if seesCancel then (Abandon(gate, exclusive), Done)
    else if CanEnter(gate, exclusive) then (Admit(gate, exclusive), Inside(exclusive))
    else (gate, Blocked(exclusive, gate.changed))
  }

  function Apply(s: System, step: Step): System
  {
    match step
    case Begin(h, exclusive, seesCancel) =>
      var (gate, phase) := Attempt(Arrive(s.gate, exclusive), exclusive, seesCancel);
      s.(gate := gate, phases := s.phases[h := phase])
    case Retry(h, seesCancel) =>
      var phase := PhaseOf(s, h);
      if !phase.Blocked? then s else
        var (gate, phase') := Attempt(s.gate, phase.exclusive, seesCancel);
        s.(gate := gate, phases := s.phases[h := phase'])
    case Cancel(h) => s.(cancelled := s.cancelled + {h})
    case Release(h) =>
      var phase := PhaseOf(s, h);
      if phase.Inside?
      then s.(gate := Depart(s.gate, phase.exclusive), phases := s.phases[h := Done])
      else s
  }

  // ---- the invariant ----

  ghost function Readers(phases: map<Holder, Phase>): set<Holder>
  {
    set h | h in phases && phases[h] == Inside(false)
  }

  ghost function Writers(phases: map<Holder, Phase>): set<Holder>
  {
    set h | h in phases && phases[h] == Inside(true)
  }

  ghost function WaitingWriters(phases: map<Holder, Phase>): set<Holder>
  {
    set h | h in phases && phases[h].Blocked? && phases[h].exclusive
  }

  /** A holder blocked on the channel that is still open cannot enter: no wake-up is lost. */
  ghost predicate NoLostWakeup(s: System)
  {
    forall h | h in s.phases && s.phases[h].Blocked? ::
      && s.phases[h].channel <= s.gate.changed
      && (s.phases[h].channel == s.gate.changed ==> !CanEnter(s.gate, s.phases[h].exclusive))
  }

  ghost predicate Counted(s: System)
  {
    && s.gate.readers == |Readers(s.phases)|
    && |Writers(s.phases)| == (if s.gate.writer then 1 else 0)
    && s.gate.waitingWriters == (if s.gate.prefersWriters then |WaitingWriters(s.phases)| else 0)
    && (s.gate.writer ==> s.gate.readers == 0)
  }

  ghost predicate Inv(s: System)
  {
    Counted(s) && NoLostWakeup(s)
  }

  ghost predicate Initial(s: System)
  {
    s.phases == map[] && s.gate == Gate(s.gate.prefersWriters, 0, 0, false, 0)
  }

  function One(b: bool): int { if b then 1 else 0 }

  lemma CountsDifferOnlyAt(h: Holder, before: set<Holder>, after: set<Holder>)
    requires forall other | other != h :: other in before <==> other in after
    ensures |after| == |before| - One(h in before) + One(h in after)
  {
    assert before - {h} == after - {h};
    assert h in before ==> |before - {h}| == |before| - 1;
    assert h in after ==> |after - {h}| == |after| - 1;
    assert h !in before ==> before - {h} == before;
    assert h !in after ==> after - {h} == after;
  }

  /** How the three counts change when one acquisition moves from one phase to another. */
  lemma PhaseUpdate(s: System, h: Holder, p: Phase)
    ensures var next, was := s.phases[h := p], PhaseOf(s, h);
            && |Readers(next)| == |Readers(s.phases)| - One(was == Inside(false)) + One(p == Inside(false))
            && |Writers(next)| == |Writers(s.phases)| - One(was == Inside(true)) + One(p == Inside(true))
            && |WaitingWriters(next)|
            == |WaitingWriters(s.phases)| - One(was.Blocked? && was.exclusive) + One(p.Blocked? && p.exclusive)
  {
    var next := s.phases[h := p];
    CountsDifferOnlyAt(h, Readers(s.phases), Readers(next));
    CountsDifferOnlyAt(h, Writers(s.phases), Writers(next));
    CountsDifferOnlyAt(h, WaitingWriters(s.phases), WaitingWriters(next));
  }

  lemma StepKeepsCounts(s: System, step: Step)
    requires Counted(s) && Enabled(s, step)
    ensures Counted(Apply(s, step))
  {
    match step
    case Begin(h, exclusive, seesCancel) =>
      PhaseUpdate(s, h, Attempt(Arrive(s.gate, exclusive), exclusive, seesCancel).1);
    case Retry(h, seesCancel) =>
      PhaseUpdate(s, h, Attempt(s.gate, PhaseOf(s, h).exclusive, seesCancel).1);
    case Cancel(_) =>
    case Release(h) =>
      if PhaseOf(s, h).Inside? {
        PhaseUpdate(s, h, Done);
      }
  }

  lemma StepKeepsWakeups(s: System, step: Step)
    requires Inv(s) && Enabled(s, step)
    ensures NoLostWakeup(Apply(s, step))
  {
    var s' := Apply(s, step);
    forall h | h in s'.phases && s'.phases[h].Blocked?
      ensures s'.phases[h].channel <= s'.gate.changed
      ensures s'.phases[h].channel == s'.gate.changed ==> !CanEnter(s'.gate, s'.phases[h].exclusive)
    {
      assert step.Cancel? || h == step.h || s'.phases[h] == s.phases[h];
    }
  }

  /** One run of the gate: any interleaving of acquisitions, cancellations and releases. */
  ghost predicate Run(states: seq<System>, steps: seq<Step>)
  {
    && |states| == |steps| + 1
    && Initial(states[0])
    && forall i | 0 <= i < |steps| :: Enabled(states[i], steps[i]) && states[i + 1] == Apply(states[i], steps[i])
  }

  lemma {:induction false} InvHoldsInEveryRun(states: seq<System>, steps: seq<Step>, n: nat)
    requires Run(states, steps) && n < |states|
    ensures Inv(states[n]) && states[n].gate.prefersWriters == states[0].gate.prefersWriters
    decreases n
  {
    if n == 0 {
      assert Readers(states[0].phases) == {} && Writers(states[0].phases) == {}
          && WaitingWriters(states[0].phases) == {};
    } else {
      InvHoldsInEveryRun(states, steps, n - 1);
      StepKeepsCounts(states[n - 1], steps[n - 1]);
      StepKeepsWakeups(states[n - 1], steps[n - 1]);
    }
  }

  // ---- what the invariant means ----

  /** In every state of every run a writer excludes everybody else. */
  lemma WriterExcludesAll(states: seq<System>, steps: seq<Step>, n: nat, h: Holder, other: Holder)
    requires Run(states, steps) && n < |states|
    requires PhaseOf(states[n], h) == Inside(true) && PhaseOf(states[n], other).Inside?
    ensures h == other
  {
    InvHoldsInEveryRun(states, steps, n);
    var s := states[n];
    var writers := Writers(s.phases);
    assert h in writers;
    assert |writers - {h}| == 0;
    assert Readers(s.phases) == {};
    assert other !in Readers(s.phases);
    assert other !in writers - {h};
  }

  /** With writer preference no reader is admitted while a writer waits. */
  lemma ReadersYieldToWaitingWriters(states: seq<System>, steps: seq<Step>, n: nat, h: Holder, writer: Holder)
    requires Run(states, steps) && n < |steps|
    requires states[0].gate.prefersWriters
    requires !PhaseOf(states[n], h).Inside? && PhaseOf(states[n + 1], h) == Inside(false)
    ensures !(PhaseOf(states[n], writer).Blocked? && PhaseOf(states[n], writer).exclusive)
  {
    InvHoldsInEveryRun(states, steps, n);
    assert states[n + 1] == Apply(states[n], steps[n]);
    assert WaitingWriters(states[n].phases) == {};
    assert writer !in WaitingWriters(states[n].phases);
  }

  /** Nobody who is inside, or no writer that is, and no writer that has to be let in first. */
  ghost predicate Permitted(s: System, exclusive: bool)
  {
    if exclusive then forall h :: !PhaseOf(s, h).Inside?
    else && (forall h :: PhaseOf(s, h) != Inside(true))
         && (s.gate.prefersWriters ==> forall h :: !(PhaseOf(s, h).Blocked? && PhaseOf(s, h).exclusive))
  }

  lemma OpenIffPermitted(s: System, exclusive: bool)
    requires Counted(s)
    ensures CanEnter(s.gate, exclusive) <==> Permitted(s, exclusive)
  {
    var readers, writers, waiting := Readers(s.phases), Writers(s.phases), WaitingWriters(s.phases);
    assert forall h :: PhaseOf(s, h) == Inside(false) <==> h in readers;
    assert forall h :: PhaseOf(s, h) == Inside(true) <==> h in writers;
    assert forall h :: PhaseOf(s, h).Blocked? && PhaseOf(s, h).exclusive <==> h in waiting;
    assert forall h :: PhaseOf(s, h).Inside? <==> h in readers || h in writers;
  }

  /** In every run a section of an acquisition that does not see its cancellation enters exactly when
      that is permitted, so that readers enter together, and waits otherwise. */
  lemma EntersExactlyWhenPermitted(states: seq<System>, steps: seq<Step>, n: nat)
    requires Run(states, steps) && n < |steps| && (steps[n].Begin? || steps[n].Retry?)
    ensures var s, s', step := states[n], states[n + 1], steps[n];
            var exclusive := if step.Begin? then step.exclusive else PhaseOf(s, step.h).exclusive;
            if step.seesCancel then PhaseOf(s', step.h).Done?
            else if Permitted(s, exclusive) then PhaseOf(s', step.h) == Inside(exclusive)
            else PhaseOf(s', step.h).Blocked? && PhaseOf(s', step.h).exclusive == exclusive
  {
    InvHoldsInEveryRun(states, steps, n);
    var s, step := states[n], steps[n];
    assert states[n + 1] == Apply(s, step);
    OpenIffPermitted(s, if step.Begin? then step.exclusive else PhaseOf(s, step.h).exclusive);
  }

  /** A waiter that could enter has been woken: it never sleeps on an open channel. */
  lemma EnabledWaiterIsAwake(states: seq<System>, steps: seq<Step>, n: nat, h: Holder)
    requires Run(states, steps) && n < |states|
    requires PhaseOf(states[n], h).Blocked? && CanEnter(states[n].gate, PhaseOf(states[n], h).exclusive)
    ensures PhaseOf(states[n], h).channel < states[n].gate.changed
    ensures Enabled(states[n], Retry(h, false))
    ensures PhaseOf(Apply(states[n], Retry(h, false)), h).Inside?
  {
    InvHoldsInEveryRun(states, steps, n);
  }

  /** No deadlock: when nobody is inside and somebody waits, a waiter can enter right now. */
  lemma FreeGateAdmitsSomebody(states: seq<System>, steps: seq<Step>, n: nat, waiter: Holder) returns (next: Holder)
    requires Run(states, steps) && n < |states|
    requires PhaseOf(states[n], waiter).Blocked?
    requires forall h :: !PhaseOf(states[n], h).Inside?
    ensures PhaseOf(states[n], next).Blocked? && Enabled(states[n], Retry(next, false))
    ensures PhaseOf(Apply(states[n], Retry(next, false)), next).Inside?
  {
    InvHoldsInEveryRun(states, steps, n);
    var s := states[n];
    forall h | h in s.phases ensures !s.phases[h].Inside? { assert !PhaseOf(s, h).Inside?; }
    assert Readers(s.phases) == {} && Writers(s.phases) == {};
    var writers := WaitingWriters(s.phases);
    if writers == {} {
      next := waiter;
    } else {
      next :| next in writers;
    }
  }

  // ---- refinement of the abstract lock ----

  ghost function Held(s: System): Lock
  {
    map h | h in s.phases && s.phases[h].Inside? :: s.phases[h].exclusive
  }

  /** Every gate step enters, leaves or keeps an abstract lock, and the lock is safe. */
  lemma GateRefinesLock(states: seq<System>, steps: seq<Step>, n: nat)
    requires Run(states, steps) && n < |steps|
    ensures Safe(Held(states[n]))
    ensures Next(Held(states[n]), Held(states[n + 1]))
  {
    InvHoldsInEveryRun(states, steps, n);
    var held := Held(states[n]);
    forall h, other | h in held && other in held && held[h] ensures other == h {
      WriterExcludesAll(states, steps, n, h, other);
    }
    StepRefinesLock(states[n], steps[n]);
  }

  lemma StepRefinesLock(s: System, step: Step)
    requires Inv(s) && Enabled(s, step)
    ensures Next(Held(s), Held(Apply(s, step)))
  {
    var s' := Apply(s, step);
    if step.Cancel? || s'.phases == s.phases {
      assert Held(s') == Held(s);
    } else {
      var h := step.h;
      assert s'.phases == s.phases[h := s'.phases[h]];
      if s'.phases[h].Inside? {
        EntryIsPermitted(s, step);
        assert Held(s') == Enter(Held(s), h, s'.phases[h].exclusive);
      } else if PhaseOf(s, h).Inside? {
        assert Held(s') == Leave(Held(s), h);
      } else {
        assert Held(s') == Held(s);
      }
    }
  }

  lemma EntryIsPermitted(s: System, step: Step)
    requires Inv(s) && Enabled(s, step) && !step.Cancel?
    requires Apply(s, step).phases != s.phases && PhaseOf(Apply(s, step), step.h).Inside?
    ensures MayEnter(Held(s), step.h, PhaseOf(Apply(s, step), step.h).exclusive)
  {
    var exclusive := PhaseOf(Apply(s, step), step.h).exclusive;
    assert !s.gate.writer;
    assert Writers(s.phases) == {};
    forall other | other in Held(s) ensures !Held(s)[other] {
      assert other !in Writers(s.phases);
    }
    if exclusive {
      assert Readers(s.phases) == {};
      assert forall other | other in s.phases :: other !in Readers(s.phases) && other !in Writers(s.phases);
      assert Held(s) == map[];
    }
  }

  /** The gate object itself: its fields, and one method for each critical section. */
  class GateObject {
    const prefersWriters: bool
    var readers: int
    var waitingWriters: int
    var writer: bool
    var changed: nat

    function Value(): Gate
      reads this
    {
      Gate(prefersWriters, readers, waitingWriters, writer, changed)
    }

    constructor (prefersWriters: bool)
      ensures Value() == Gate(prefersWriters, 0, 0, false, 0)
    {
      this.prefersWriters := prefersWriters;
      readers, waitingWriters, writer, changed := 0, 0, false, 0;
    }

    /** From taking the mutex to releasing it once; `first` is the section that starts in `acquire`. */
    method Section(exclusive: bool, first: bool, cancelled: bool) returns (phase: Phase)
      modifies this
      ensures (Value(), phase)
           == Attempt(if first then Arrive(old(Value()), exclusive) else old(Value()), exclusive, cancelled)
    {
      if first && prefersWriters && exclusive {
        waitingWriters := waitingWriters + 1;
      }
      if cancelled {
        if prefersWriters && exclusive {
          waitingWriters := waitingWriters - 1;
          changed := changed + 1;
        }
        return Done;
      }
      var open := !writer && if exclusive then readers == 0 else waitingWriters == 0;
      if !open {
        return Blocked(exclusive, changed);
      }
      if exclusive {
        if prefersWriters {
          waitingWriters := waitingWriters - 1;
        }
        writer := true;
      } else {
        readers := readers + 1;
      }
      phase := Inside(exclusive);
    }

    method Leave(exclusive: bool)
      modifies this
      ensures Value() == Depart(old(Value()), exclusive)
    {
      if exclusive {
        writer := false;
      } else {
        readers := readers - 1;
      }
      changed := changed + 1;
    }
  }
}
