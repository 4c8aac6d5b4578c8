/** What a reader/writer gate promises to the code that holds it: the current holders,
    each in shared or exclusive mode. The concrete gates of `Gates` refine it, and the
    callback scopes and the directory tools are proved against it. */
module ReadWriteLock {

  /** A holder is one acquisition; the value is true when it is exclusive. */
  type Holder = nat

  type Lock = map<Holder, bool>

  ghost predicate MayEnter(lock: Lock, holder: Holder, exclusive: bool)
  {
    && holder !in lock
    && (if exclusive then lock == map[] else forall other | other in lock :: !lock[other])
  }

  function Enter(lock: Lock, holder: Holder, exclusive: bool): Lock
  {
    lock[holder := exclusive]
  }

  function Leave(lock: Lock, holder: Holder): Lock
  {
    lock - {holder}
  }

  /** An exclusive holder is alone. */
  ghost predicate Safe(lock: Lock)
  {
    forall holder, other | holder in lock && other in lock && lock[holder] :: other == holder
  }

  ghost predicate Next(lock: Lock, lock': Lock)
  {
    || lock' == lock
    || (exists holder, exclusive :: MayEnter(lock, holder, exclusive) && lock' == Enter(lock, holder, exclusive))
    || (exists holder :: holder in lock && lock' == Leave(lock, holder))
  }
}
