/** Rebuilding a crashed child's inbox from its event log and its transcript: acceptances are
    paired with their acknowledgements, the rest with transcript rows, and what is left over
    is queued again. */
module InboxRecovery {
  import opened Conversation
  import opened Options
  import opened Inbox

  datatype Entry = Entry(text: string, id: Option<AcceptanceId>, at: nat, acked: bool)

  // ---- pairing acknowledgements with acceptances ----

  predicate Acknowledges(entry: Entry, text: string, id: Option<AcceptanceId>)
  {
    !entry.acked && entry.text == text && (id.Some? ==> entry.id == id)
  }

  /** The first acceptance from `start` on that the acknowledgement fits. */
  function MatchingAcceptance(entries: seq<Entry>, text: string, id: Option<AcceptanceId>, start: nat): (r: Option<nat>)
    requires start <= |entries|
    ensures r.Some? ==> start <= r.value < |entries| && Acknowledges(entries[r.value], text, id)
    ensures forall i | start <= i < (if r.Some? then r.value else |entries|) :: !Acknowledges(entries[i], text, id)
    decreases |entries| - start
  {
    if start == |entries| then None
    else if Acknowledges(entries[start], text, id) then Some(start)
    else MatchingAcceptance(entries, text, id, start + 1)
  }

  method MatchingInboxAcceptance(entries: seq<Entry>, text: string, id: Option<AcceptanceId>) returns (r: Option<nat>)
    ensures r == MatchingAcceptance(entries, text, id, 0)
  {
    for index := 0 to |entries|
      invariant MatchingAcceptance(entries, text, id, index) == MatchingAcceptance(entries, text, id, 0)
    {
      var entry := entries[index];
      if entry.acked || entry.text != text {
        continue;
      }
      var isOther := id.Some? && (entry.id.None? || entry.id.value != id.value);
      if isOther {
        continue;
      }
      return Some(index);
    }
    return None;
  }

  function Acknowledge(entries: seq<Entry>, text: string, id: Option<AcceptanceId>): Option<seq<Entry>>
  {
    match MatchingAcceptance(entries, text, id, 0)
    case None => None
    case Some(i) => Some(entries[i := entries[i].(acked := true)])
  }

  function AfterEvent(entries: seq<Entry>, event: Event): Option<seq<Entry>>
  {
    match event
    case Queued(text, id, at) => Some(entries + [Entry(text, id, at, false)])
    case Delivered(text, id) => Acknowledge(entries, text, id)
    case Undelivered(text, id) => Acknowledge(entries, text, id)
    case Other => Some(entries)
  }

  /** The acceptances of a log in order, each with whether it was acknowledged; none when an
      acknowledgement has no acceptance left. */
  function Recovered(events: seq<Event>): Option<seq<Entry>>
  {
    if events == [] then Some([])
    else
      match Recovered(events[..|events| - 1])
      case None => None
      case Some(entries) => AfterEvent(entries, events[|events| - 1])
  }

  lemma RecoveredAppend(events: seq<Event>, event: Event)
    ensures Recovered(events + [event])
         == (match Recovered(events) case None => None case Some(entries) => AfterEvent(entries, event))
  {
    assert (events + [event])[..|events|] == events;
  }

  lemma {:induction false} RecoveredFailureStays(events: seq<Event>, n: nat)
    requires n <= |events| && Recovered(events[..n]).None?
    ensures Recovered(events).None?
    decreases |events|
  {
    if n < |events| {
      assert events[..|events| - 1][..n] == events[..n];
      RecoveredFailureStays(events[..|events| - 1], n);
    } else {
      assert events[..n] == events;
    }
  }

  method RecoveredInboxEntries(events: seq<Event>) returns (r: Option<seq<Entry>>)
    ensures r == Recovered(events)
  {
    var entries: seq<Entry> := [];
    for k := 0 to |events|
      invariant Recovered(events[..k]) == Some(entries)
    {
      var event := events[k];
      assert events[..k + 1] == events[..k] + [event];
      RecoveredAppend(events[..k], event);
      if event.Other? {
        continue;
      }
      if event.Queued? {
        entries := entries + [Entry(event.text, event.id, event.at, false)];
        continue;
      }
      var index := MatchingInboxAcceptance(entries, event.text, event.id);
      if index.None? {
        RecoveredFailureStays(events, k + 1);
        return None;
      }
      entries := entries[index.value := entries[index.value].(acked := true)];
    }
    assert events[..|events|] == events;
    r := Some(entries);
  }

  // ---- pairing acceptances with transcript rows ----

  predicate Checkpoints(row: Row, entry: Entry, used: set<nat>)
  {
    row.id !in used && row.role == User && row.content == entry.text && entry.at <= row.at
  }

  /** The first transcript row from `start` on, not used yet, that can be this entry's checkpoint. */
  function MatchingRow(rows: seq<Row>, entry: Entry, used: set<nat>, start: nat): (r: Option<nat>)
    requires start <= |rows|
    ensures r.Some? ==> start <= r.value < |rows| && Checkpoints(rows[r.value], entry, used)
    ensures forall i | start <= i < (if r.Some? then r.value else |rows|) :: !Checkpoints(rows[i], entry, used)
    decreases |rows| - start
  {
    if start == |rows| then None
    else if Checkpoints(rows[start], entry, used) then Some(start)
    else MatchingRow(rows, entry, used, start + 1)
  }

  method MatchInboxCheckpoint(rows: seq<Row>, entry: Entry, used: set<nat>) returns (found: bool, used': set<nat>)
    ensures var r := MatchingRow(rows, entry, used, 0);
            found == r.Some? && used' == (if r.Some? then used + {rows[r.value].id} else used)
  {
    for index := 0 to |rows|
      invariant MatchingRow(rows, entry, used, index) == MatchingRow(rows, entry, used, 0)
    {
      var row := rows[index];
      if row.id in used || row.role != User || row.content != entry.text || row.at < entry.at {
        continue;
      }
      return true, used + {row.id};
    }
    return false, used;
  }

  /** What the restore loop has done after the first entries: the entries it queued again,
      and the rows it used up. */
  datatype Progress = Progress(queued: seq<nat>, used: set<nat>)

  function After(entries: seq<Entry>, rows: seq<Row>, n: nat): Progress
    requires n <= |entries|
  {
    if n == 0 then Progress([], {})
    else
      var before := After(entries, rows, n - 1);
      var row := MatchingRow(rows, entries[n - 1], before.used, 0);
      Progress(
        if entries[n - 1].acked || row.Some? then before.queued else before.queued + [n - 1],
        if row.Some? then before.used + {rows[row.value].id} else before.used)
  }

  /** The acceptances a restore queues again, as indexes into the recovered entries. */
  function Restored(entries: seq<Entry>, rows: seq<Row>): seq<nat>
  {
    After(entries, rows, |entries|).queued
  }

  lemma {:induction false} QueuedGrows(entries: seq<Entry>, rows: seq<Row>, n: nat, m: nat)
    requires n <= m <= |entries|
    ensures After(entries, rows, n).queued <= After(entries, rows, m).queued
    decreases m
  {
    if n < m { QueuedGrows(entries, rows, n, m - 1); }
  }

  ghost predicate Increasing(indexes: seq<nat>)
  {
    forall i, j | 0 <= i < j < |indexes| :: indexes[i] < indexes[j]
  }

  ghost predicate Below(indexes: seq<nat>, n: nat)
  {
    forall i | 0 <= i < |indexes| :: indexes[i] < n
  }

  lemma IncreasingAppend(indexes: seq<nat>, next: nat)
    requires Increasing(indexes) && Below(indexes, next)
    ensures Increasing(indexes + [next])
  {
  }

  /** A restore keeps the order of acceptance. */
  lemma {:induction false} QueuedInOrder(entries: seq<Entry>, rows: seq<Row>, n: nat)
    requires n <= |entries|
    ensures Below(After(entries, rows, n).queued, n) && Increasing(After(entries, rows, n).queued)
  {
    if n > 0 {
      QueuedInOrder(entries, rows, n - 1);
      IncreasingAppend(After(entries, rows, n - 1).queued, n - 1);
    }
  }

  ghost function Texts(entries: seq<Entry>, indexes: seq<nat>): seq<string>
    requires Below(indexes, |entries|)
  {
    seq(|indexes|, i requires 0 <= i < |indexes| => entries[indexes[i]].text)
  }

  ghost function Ids(entries: seq<Entry>, indexes: seq<nat>): seq<Option<AcceptanceId>>
    requires Below(indexes, |entries|)
  {
    seq(|indexes|, i requires 0 <= i < |indexes| => entries[indexes[i]].id)
  }

  datatype RestoreResult =
    | Rebuilt(pending: seq<string>, ids: seq<Option<AcceptanceId>>)
    | NoMatchingAcceptance
    | QueueFull

  /** The whole restore. It fills a queue of bounded capacity, and errs rather than drop. */
  method RestoreChildInbox(events: seq<Event>, rows: seq<Row>, capacity: nat) returns (r: RestoreResult)
    ensures Recovered(events).None? <==> r.NoMatchingAcceptance?
    ensures Recovered(events).Some? ==>
              (r.QueueFull? <==> |Restored(Recovered(events).value, rows)| > capacity)
    ensures r.Rebuilt? ==>
              var entries := Recovered(events).value;
              var indexes := Restored(entries, rows);
              && Below(indexes, |entries|)
              && r.pending == Texts(entries, indexes) && r.ids == Ids(entries, indexes)
  {
    var recovered := RecoveredInboxEntries(events);
    if recovered.None? {
      return NoMatchingAcceptance;
    }
    var entries := recovered.value;
    var used: set<nat> := {};
    var pending: seq<string> := [];
    var ids: seq<Option<AcceptanceId>> := [];
    for k := 0 to |entries|
      invariant var done := After(entries, rows, k);
                && used == done.used && |done.queued| <= capacity
                && Below(done.queued, |entries|)
                && pending == Texts(entries, done.queued) && ids == Ids(entries, done.queued)
    {
      var isCheckpointed, used' := MatchInboxCheckpoint(rows, entries[k], used);
      used := used';
      if entries[k].acked || isCheckpointed {
        continue;
      }
      if |pending| >= capacity {
        QueuedGrows(entries, rows, k + 1, |entries|);
        return QueueFull;
      }
      pending := pending + [entries[k].text];
      ids := ids + [entries[k].id];
    }
    r := Rebuilt(pending, ids);
  }
}
