/** The registry of a session's child runs: who descends from whom, who is told to stop, and
    how many may run at once. */
module Registry {
  import opened FiniteSets
  import opened Options

  type Id = nat

  // ---- descendants ----

  type Parents = map<Id, Option<Id>>

  /** At most `n` steps up the chain of parents from `id` lead to `root`. */
  predicate Reaches(parents: Parents, root: Id, id: Id, n: nat)
    decreases n
  {
    n > 0 && id in parents && parents[id].Some?
    && (parents[id].value == root || Reaches(parents, root, parents[id].value, n - 1))
  }

  ghost predicate Descends(parents: Parents, root: Id, id: Id)
  {
    exists n: nat :: Reaches(parents, root, id, n)
  }

  /** Whoever has a reached parent is reached. */
  ghost predicate Closed(parents: Parents, reached: set<Id>)
  {
    forall id | id in parents && parents[id].Some? && parents[id].value in reached :: id in reached
  }

  lemma {:induction false} ClosedHoldsAll(parents: Parents, root: Id, reached: set<Id>, id: Id, n: nat)
    requires root in reached && Closed(parents, reached) && Reaches(parents, root, id, n)
    ensures id in reached
    decreases n
  {
    if parents[id].value != root { ClosedHoldsAll(parents, root, reached, parents[id].value, n - 1); }
  }

  lemma ChildDescends(parents: Parents, root: Id, id: Id)
    requires id in parents && parents[id].Some?
    requires parents[id].value == root || Descends(parents, root, parents[id].value)
    ensures Descends(parents, root, id)
  {
    if parents[id].value == root {
      assert Reaches(parents, root, id, 1);
    } else {
      var n: nat :| Reaches(parents, root, parents[id].value, n);
      assert Reaches(parents, root, id, n + 1);
    }
  }

  lemma SmallerDifference(keys: set<Id>, a: set<Id>, b: set<Id>)
    requires a < b && b <= keys
    ensures |keys - b| < |keys - a|
  {
    var x :| x in b && x !in a;
    assert keys - b <= (keys - a) - {x};
    SubsetSize(keys - b, (keys - a) - {x});
  }

  /** One sweep over the runs, in whatever order they come. */
  method Sweep(parents: Parents, root: Id, below: set<Id>) returns (below': set<Id>)
    requires below <= parents.Keys && root !in below && forall id | id in below :: Descends(parents, root, id)
    ensures below <= below' <= parents.Keys && root !in below'
    ensures forall id | id in below' :: Descends(parents, root, id)
    ensures below' == below ==> Closed(parents, below + {root})
  {
    below' := below;
    var left := parents.Keys;
    while left != {}
      invariant left <= parents.Keys && below <= below' <= parents.Keys && root !in below'
      invariant forall id | id in below' :: Descends(parents, root, id)
      invariant below' == below ==>
                  forall id | id in parents.Keys - left && parents[id].Some? && parents[id].value in below + {root} ::
                    id in below + {root}
      decreases |left|
    {
      var id :| id in left;
      left := left - {id};
      if parents[id].None? || id == root || id in below' {
        continue;
      }
      if parents[id].value != root && parents[id].value !in below' {
        continue;
      }
      ChildDescends(parents, root, id);
      below' := below' + {id};
    }
  }

  /** Sweep until nothing is added: exactly the runs whose chain of parents reaches the root. */
  method Descendants(parents: Parents, root: Id) returns (below: set<Id>)
    ensures forall id :: id in below <==> id != root && Descends(parents, root, id)
  {
    below := {};
    var grew := true;
    while grew
      invariant below <= parents.Keys && root !in below && forall id | id in below :: Descends(parents, root, id)
      invariant !grew ==> Closed(parents, below + {root})
      decreases |parents.Keys - below|, grew
    {
      var more := Sweep(parents, root, below);
      grew := more != below;
      if grew { SmallerDifference(parents.Keys, below, more); }
      below := more;
    }
    forall id | id != root && Descends(parents, root, id) ensures id in below {
      var n: nat :| Reaches(parents, root, id, n);
      ClosedHoldsAll(parents, root, below + {root}, id, n);
    }
  }

  // ---- the run cap and cancellation ----

  datatype RunState = Running | Ended

  /** One run object. A restored run is a new object under an old id. */
  datatype AgentRun = AgentRun(serial: nat, parent: Option<Id>, state: RunState, paused: bool, signalled: bool)

  predicate IsActive(run: AgentRun)
  {
    run.state.Running? && !run.paused
  }

  function Active(runs: map<Id, AgentRun>): (active: set<Id>)
    ensures forall id :: id in active <==> id in runs && runs[id].state == Running && !runs[id].paused
  {
    set id | id in runs && IsActive(runs[id])
  }

  /** A run after a sweep that may match it. */
  function Told(run: AgentRun, matched: bool): AgentRun
  {
    if matched && run.state.Running? then run.(signalled := true) else run
  }

  datatype StartResult = Started | TooMany | Conflict | PersistFailed

  /** Putting one run in changes who is active at that id only. */
  lemma ActiveAfter(runs: map<Id, AgentRun>, id: Id, run: AgentRun)
    ensures Active(runs[id := run]) == (if IsActive(run) then Active(runs) + {id} else Active(runs) - {id})
  {
  }

  lemma ActiveCount(runs: map<Id, AgentRun>, id: Id, run: AgentRun)
    ensures |Active(runs[id := run])|
         == |Active(runs)| + (if IsActive(run) && id !in Active(runs) then 1
                              else if !IsActive(run) && id in Active(runs) then -1
                              else 0)
  {
    ActiveAfter(runs, id, run);
    var active := Active(runs);
    if IsActive(run) {
      if id in active { assert active + {id} == active; }
    } else if id !in active {
      assert active - {id} == active;
    }
  }

  ghost predicate NoRepeats(s: seq<nat>)
  {
    forall i, j | 0 <= i < j < |s| :: s[i] != s[j]
  }

  class AgentRunRegistry {
    const limit: nat
    var runs: map<Id, AgentRun>
    /** The objects whose cancellation was fired, in order. */
    ghost var fired: seq<nat>

    ghost predicate Valid()
      reads this
    {
      && |Active(runs)| <= limit
      && NoRepeats(fired)
      && (forall i, j | i in runs && j in runs && i != j :: runs[i].serial != runs[j].serial)
      && (forall id | id in runs :: runs[id].signalled <==> runs[id].serial in fired)
    }

    /** An object that was never in this registry. */
    ghost predicate IsNew(serial: nat)
      reads this
    {
      serial !in fired && forall id | id in runs :: runs[id].serial != serial
    }

    constructor (limit: nat)
      ensures Valid() && runs == map[] && fired == [] && this.limit == limit
    {
      this.limit, runs, fired := limit, map[], [];
    }

    /** Count the runs that are running and not paused, in whatever order they come. */
    method RunningCount() returns (count: nat)
      ensures count == |Active(runs)|
    {
      var left := runs.Keys;
      ghost var seen: set<Id> := {};
      count := 0;
      while left != {}
        invariant left <= runs.Keys && seen == Active(runs) - left && count == |seen|
        decreases |left|
      {
        var id :| id in left;
        left := left - {id};
        if IsActive(runs[id]) {
          count := count + 1;
          seen := seen + {id};
        }
      }
      assert Active(runs) - left == Active(runs);
    }

    /** Register a run, unless the cap is reached or the id is taken. */
    method Start(id: Id, serial: nat, parent: Option<Id>, persisted: bool) returns (r: StartResult)
      requires Valid() && IsNew(serial)
      modifies `runs
      ensures Valid()
      ensures r.TooMany? <==> |old(Active(runs))| >= limit
      ensures r.Conflict? <==> |old(Active(runs))| < limit && id in old(runs)
      ensures r.PersistFailed? <==> |old(Active(runs))| < limit && id !in old(runs) && !persisted
      ensures runs == if r.Started? then old(runs)[id := AgentRun(serial, parent, Running, false, false)] else old(runs)
      ensures r.Started? ==> id in Active(runs)
    {
      var running := RunningCount();
      if running >= limit {
        return TooMany;
      }
      if id in runs {
        return Conflict;
      }
      if !persisted {
        return PersistFailed;
      }
      ActiveCount(runs, id, AgentRun(serial, parent, Running, false, false));
      runs := runs[id := AgentRun(serial, parent, Running, false, false)];
      r := Started;
    }

    /** A run ends by itself. An object the registry no longer holds ends without a trace in it. */
    method Finish(id: Id, serial: nat)
      requires Valid()
      modifies `runs
      ensures Valid()
      ensures id in old(runs) && old(runs)[id].serial == serial ==>
                && runs == old(runs)[id := old(runs)[id].(state := Ended)]
                // Its place is free again.
                && Active(runs) == old(Active(runs)) - {id}
      ensures !(id in old(runs) && old(runs)[id].serial == serial) ==> runs == old(runs)
    {
      if id in runs && runs[id].serial == serial {
        ActiveCount(runs, id, runs[id].(state := Ended));
        ActiveAfter(runs, id, runs[id].(state := Ended));
        runs := runs[id := runs[id].(state := Ended)];
      }
    }

    /** Fire a run's cancellation, once; true for the call that fired it. */
    method SignalCancel(id: Id) returns (first: bool)
      requires Valid() && id in runs
      modifies `runs, `fired
      ensures Valid() && first == !old(runs)[id].signalled
      ensures runs == old(runs)[id := old(runs)[id].(signalled := true)]
      ensures fired == if first then old(fired) + [old(runs)[id].serial] else old(fired)
    {
      first := !runs[id].signalled;
      ActiveCount(runs, id, runs[id].(signalled := true));
      if first {
        fired := fired + [runs[id].serial];
        runs := runs[id := runs[id].(signalled := true)];
      } else {
        assert runs[id := runs[id].(signalled := true)] == runs;
      }
    }

    /** Tell every matching running run to stop, in whatever order they come; how many were told
        by this sweep. */
    method CancelMatching(matching: set<Id>) returns (signalled: nat)
      requires Valid()
      modifies `runs, `fired
      ensures Valid() && old(fired) <= fired && signalled == |fired| - |old(fired)|
      ensures runs.Keys == old(runs).Keys
      ensures forall id | id in runs :: runs[id] == Told(old(runs)[id], id in matching)
      // Afterwards no matching run goes on without having been told.
      ensures forall id | id in runs && id in matching && runs[id].state == Running :: runs[id].serial in fired
    {
      signalled := 0;
      var left := runs.Keys;
      while left != {}
        invariant Valid() && old(fired) <= fired && signalled == |fired| - |old(fired)|
        invariant runs.Keys == old(runs).Keys && left <= runs.Keys
        invariant forall id | id in runs ::
                    runs[id] == if id in left then old(runs)[id] else Told(old(runs)[id], id in matching)
        decreases |left|
      {
        var id :| id in left;
        left := left - {id};
        if id !in matching || !runs[id].state.Running? {
          continue;
        }
        var first := SignalCancel(id);
        if first {
          signalled := signalled + 1;
        }
      }
    }

    /** Stop a run if it is running. */
    method Cancel(id: Id) returns (found: bool)
      requires Valid()
      modifies `runs, `fired
      ensures Valid() && found == (id in old(runs))
      ensures runs == if found && old(runs)[id].state.Running?
                      then old(runs)[id := old(runs)[id].(signalled := true)]
                      else old(runs)
      ensures old(fired) <= fired
    {
      if id !in runs {
        return false;
      }
      if runs[id].state.Running? {
        var _ := SignalCancel(id);
      }
      found := true;
    }

    /** Pause an execution: its run is stopped and no longer counts. */
    method Pause(id: Id)
      requires Valid()
      modifies `runs, `fired
      ensures Valid()
      ensures id in old(runs) ==> id in runs && runs[id].paused && id !in Active(runs)
      ensures forall other | other != id :: other in runs <==> other in old(runs)
      ensures forall other | other != id && other in runs :: runs[other] == old(runs)[other]
    {
      var found := Cancel(id);
      if found {
        ActiveCount(runs, id, runs[id].(paused := true));
        runs := runs[id := runs[id].(paused := true)];
      }
    }

    /** Put a restored run in place of the previous scope's run, or where there was none. */
    method Install(id: Id, previous: Option<nat>, run: AgentRun) returns (r: StartResult)
      requires Valid() && IsNew(run.serial) && !run.signalled
      modifies `runs
      ensures Valid()
      ensures r.Conflict? <==> id in old(runs) && previous != Some(old(runs)[id].serial)
      ensures r.TooMany? <==> !r.Conflict? && |old(Active(runs)) - {id}| >= limit
      ensures r.Conflict? || r.TooMany? || r.Started?
      ensures runs == if r.Started? then old(runs)[id := run] else old(runs)
    {
      if id in runs && previous != Some(runs[id].serial) {
        return Conflict;
      }
      var running := RunningCount();
      if id in runs && IsActive(runs[id]) {
        running := running - 1;
      } else {
        assert Active(runs) - {id} == Active(runs);
      }
      if running >= limit {
        return TooMany;
      }
      ActiveCount(runs, id, run);
      runs := runs[id := run];
      r := Started;
    }
  }
}
