/** The inbox over a whole history of accepts, rounds, transcript writes, acknowledgements,
    crashes and restores. Everything durable is append-only; a crash may fall between any two
    steps and loses the memory. */
module InboxProtocol {
  import opened Conversation
  import opened Options
  import opened Inbox
  import opened InboxRecovery

  /** `Writing` is between the transcript write and the end of `checkpointDelivered`; `Aborted`
      is after it failed, with that many of the pending messages in the transcript and the first
      `acked` of those acknowledged; `Ending` reports the pending messages from `next` on as
      undelivered; `Broken` is after a close that asked for more unread messages than are pending. */
  datatype Mode = Running | Writing(count: nat, acked: nat) | Aborted(count: nat, acked: nat)
                | Ending(next: nat) | Broken

  predicate IsClosed(mode: Mode)
  {
    mode.Ending? || mode.Broken?
  }

  /** `slots` remembers which acceptance each pending message is: it is not in the program. */
  datatype Memory = Memory(
    queue: seq<string>, pending: seq<string>, ids: seq<Option<AcceptanceId>>, slots: seq<nat>, mode: Mode)

  /** `origins` remembers the acceptance each row was written for: it is not in the program. */
  datatype Transcript = Transcript(rows: seq<Row>, origins: seq<Option<nat>>)

  /** `exact` remembers whether every checkpoint so far counted only messages a round had taken. */
  datatype State = State(
    events: seq<Event>,
    transcript: Transcript,
    clock: nat,
    capacity: nat,
    memory: Option<Memory>,
    exact: bool)

  datatype Step =
    | Tick(seconds: nat)
    | OtherEvent
    | OtherRow(id: nat, role: Role, content: string)
    | Accept(text: string, id: AcceptanceId)
    | Take
    | Write(messages: seq<Message>, ids: seq<nat>)
    | WriteFails
    | Acknowledge
    | AcknowledgeFails
    | Checkpointed
    | Close
    | Report(ok: bool)
    | Crash
    | Restore

  function QueuedCount(events: seq<Event>): nat
  {
    if events == [] then 0
    else QueuedCount(events[..|events| - 1]) + if events[|events| - 1].Queued? then 1 else 0
  }

  /** How many pending messages rounds have taken out of the queue. */
  function Taken(m: Memory): int
  {
    |m.pending| - |m.queue|
  }

  predicate Fresh(rows: seq<Row>, id: nat)
  {
    forall r | 0 <= r < |rows| :: rows[r].id != id
  }

  /** A row that is not an inbox delivery but reads like one. */
  predicate Lookalike(t: Transcript, r: nat, text: string)
    requires r < |t.rows| == |t.origins|
  {
    t.origins[r].None? && t.rows[r].role == User && t.rows[r].content == text
  }

  ghost predicate Enabled(s: State, step: Step)
  {
    match step
    case Tick(_) => true
    case OtherEvent => true
    case OtherRow(id, role, content) =>
      && Fresh(s.transcript.rows, id)
      && (role == User ==> forall e | e in s.events && e.Queued? :: e.text != content)
    case Accept(text, id) =>
      && s.memory.Some? && (s.memory.value.mode.Running? || s.memory.value.mode.Aborted?)
      && |s.memory.value.queue| < s.capacity
      && (forall e | e in s.events && e.Queued? :: e.id != Some(id))
      && |s.transcript.rows| == |s.transcript.origins|
      && (forall r: nat | r < |s.transcript.rows| && Lookalike(s.transcript, r, text) ::
            s.transcript.rows[r].at < s.clock)
    case Take => s.memory.Some? && s.memory.value.mode.Running?
    case Write(messages, ids) =>
      && s.memory.Some? && s.memory.value.mode.Running?
      && |s.memory.value.slots| == |s.memory.value.pending|
      && |ids| == DeliveredCount(messages, s.memory.value.pending, |s.memory.value.pending|) > 0
      && (forall i | 0 <= i < |ids| :: Fresh(s.transcript.rows, ids[i]))
      && (forall i, j | 0 <= i < j < |ids| :: ids[i] != ids[j])
    case WriteFails => s.memory.Some? && s.memory.value.mode.Running?
    case Acknowledge =>
      && s.memory.Some? && s.memory.value.mode.Writing?
      && var m := s.memory.value;
         m.mode.acked < m.mode.count <= |m.pending| == |m.ids|
    case AcknowledgeFails =>
      s.memory.Some? && s.memory.value.mode.Writing? && s.memory.value.mode.acked < s.memory.value.mode.count
    case Checkpointed =>
      && s.memory.Some? && s.memory.value.mode.Writing?
      && var m := s.memory.value;
         m.mode.acked == m.mode.count <= |m.pending| == |m.ids| == |m.slots|
    case Close => s.memory.Some? && (s.memory.value.mode.Running? || s.memory.value.mode.Aborted?)
    case Report(_) =>
      && s.memory.Some? && s.memory.value.mode.Ending?
      && s.memory.value.mode.next < |s.memory.value.pending| == |s.memory.value.ids|
    case Crash => s.memory.Some?
    case Restore => s.memory.None?
  }

  function Append(t: Transcript, rows: seq<Row>, origins: seq<Option<nat>>): Transcript
  {
    Transcript(t.rows + rows, t.origins + origins)
  }

  function WithMemory(s: State, m: Memory): State
  {
    s.(memory := Some(m))
  }

  ghost function Rebuild(s: State): Option<Memory>
  {
    match Recovered(s.events)
    case None => None
    case Some(entries) =>
      var slots := Restored(entries, s.transcript.rows);
      if |slots| > s.capacity || !Below(slots, |entries|) then None
      else Some(Memory(Texts(entries, slots), Texts(entries, slots), Ids(entries, slots), slots, Running))
  }

  ghost function Apply(s: State, step: Step): State
    requires Enabled(s, step)
  {
    match step
    case Tick(seconds) => s.(clock := s.clock + seconds)
    case OtherEvent => s.(events := s.events + [Other])
    case OtherRow(id, role, content) =>
      s.(transcript := Append(s.transcript, [Row(id, role, content, s.clock)], [None]))
    case Accept(text, id) =>
      var m := s.memory.value;
      s.(events := s.events + [Queued(text, Some(id), s.clock)],
         memory := Some(m.(queue := m.queue + [text], pending := m.pending + [text], ids := m.ids + [Some(id)],
                           slots := m.slots + [QueuedCount(s.events)])))
    case Take => WithMemory(s, s.memory.value.(queue := []))
    case Write(_, ids) =>
      var m := s.memory.value;
      s.(transcript := Append(s.transcript,
           seq(|ids|, i requires 0 <= i < |ids| => Row(ids[i], User, m.pending[i], s.clock)),
           seq(|ids|, i requires 0 <= i < |ids| => Some(m.slots[i]))),
         memory := Some(m.(mode := Writing(|ids|, 0))),
         exact := s.exact && |ids| <= Taken(m))
    case WriteFails => WithMemory(s, s.memory.value.(mode := Aborted(0, 0)))
    case Acknowledge =>
      var m := s.memory.value;
      var k := m.mode.acked;
      s.(events := s.events + [Delivered(m.pending[k], m.ids[k])],
         memory := Some(m.(mode := Writing(m.mode.count, k + 1))))
    case AcknowledgeFails =>
      var m := s.memory.value;
      WithMemory(s, m.(mode := Aborted(m.mode.count, m.mode.acked)))
    case Checkpointed =>
      var m := s.memory.value;
      var count := m.mode.count;
      WithMemory(s, Memory(m.queue, m.pending[count..], m.ids[count..], m.slots[count..], Running))
    case Close =>
      var m := s.memory.value;
      WithMemory(s, m.(mode := if Taken(m) < 0 then Broken else Ending(Taken(m))))
    case Report(ok) =>
      var m := s.memory.value;
      var k := m.mode.next;
      s.(events := if ok then s.events + [Undelivered(m.pending[k], m.ids[k])] else s.events,
         memory := Some(m.(mode := Ending(k + 1))))
    case Crash => s.(memory := None)
    case Restore => s.(memory := Rebuild(s))
  }

  ghost predicate Initial(s: State)
  {
    s.events == [] && s.transcript == Transcript([], []) && s.exact
    && s.memory == Some(Memory([], [], [], [], Running))
  }

  // ---- the invariant ----

  predicate Written(t: Transcript, k: nat)
  {
    Some(k) in t.origins
  }

  /** Accepted, not in the transcript and not acknowledged: what must not be lost. */
  predicate Wanted(t: Transcript, entries: seq<Entry>, k: nat)
  {
    k < |entries| && !entries[k].acked && !Written(t, k)
  }

  ghost predicate EntryInv(events: seq<Event>, clock: nat, entries: seq<Entry>)
  {
    && |entries| == QueuedCount(events)
    && (forall k | 0 <= k < |entries| :: Queued(entries[k].text, entries[k].id, entries[k].at) in events)
    && (forall k | 0 <= k < |entries| :: entries[k].id.Some? && entries[k].at <= clock)
    && (forall j, k | 0 <= j < k < |entries| :: entries[j].id != entries[k].id && entries[j].at <= entries[k].at)
  }

  predicate LooksDelivered(row: Row, entry: Entry)
  {
    row.role == User && row.content == entry.text && entry.at <= row.at
  }

  /** How many of the first `n` acceptances have this text. */
  function CountText(entries: seq<Entry>, n: nat, text: string): nat
    requires n <= |entries|
  {
    if n == 0 then 0 else CountText(entries, n - 1, text) + if entries[n - 1].text == text then 1 else 0
  }

  /** How many of the first `n` rows are deliveries with this text. */
  function CountRows(t: Transcript, n: nat, text: string): nat
    requires n <= |t.rows| == |t.origins|
  {
    if n == 0 then 0
    else CountRows(t, n - 1, text) + if t.origins[n - 1].Some? && t.rows[n - 1].content == text then 1 else 0
  }

  /** How many of the pending messages from `first` up to `n` have this text. */
  function CountPending(pending: seq<string>, first: nat, n: nat, text: string): nat
    requires first <= n <= |pending|
    decreases n
  {
    if n == first then 0 else CountPending(pending, first, n - 1, text) + if pending[n - 1] == text then 1 else 0
  }

  /** A delivery row has no more equal rows before it than its acceptance has equal ones. */
  ghost predicate RowRanked(t: Transcript, entries: seq<Entry>, r: nat)
    requires r < |t.rows| == |t.origins|
  {
    t.origins[r].Some? ==>
      t.origins[r].value < |entries|
      && CountRows(t, r, t.rows[r].content) <= CountText(entries, t.origins[r].value, t.rows[r].content)
  }

  /** Rows written for the inbox match their acceptance and are not ahead of it; any other row
      matches no acceptance. */
  ghost predicate RowInv(t: Transcript, clock: nat, entries: seq<Entry>)
  {
    && |t.rows| == |t.origins|
    && (forall q, r | 0 <= q < r < |t.rows| :: t.rows[q].id != t.rows[r].id)
    && (forall r | 0 <= r < |t.rows| && t.origins[r].Some? ::
          t.origins[r].value < |entries| && LooksDelivered(t.rows[r], entries[t.origins[r].value]))
    && (forall r: nat | r < |t.rows| :: RowRanked(t, entries, r))
    && (forall r, k | 0 <= r < |t.rows| && t.origins[r].None? && 0 <= k < |entries| ::
         !LooksDelivered(t.rows[r], entries[k]))
    && (forall r | 0 <= r < |t.rows| :: t.rows[r].at <= clock)
  }

  /** Everything written was accepted before everything still wanted, and an acknowledged
      message is in the transcript or was reported undelivered. */
  ghost predicate FrontInv(events: seq<Event>, t: Transcript, entries: seq<Entry>)
  {
    && (forall j: nat, k: nat | Written(t, j) && Wanted(t, entries, k) :: j < k)
    && (forall k: nat | k < |entries| && entries[k].acked && !Written(t, k) ::
          Undelivered(entries[k].text, entries[k].id) in events)
  }

  /** How many of the pending messages are already in the transcript. */
  function Done(m: Memory): nat
  {
    match m.mode
    case Writing(count, _) => count
    case Aborted(count, _) => count
    case _ => 0
  }

  /** How many of the pending messages are already acknowledged. */
  function Acked(m: Memory): nat
  {
    match m.mode
    case Writing(_, acked) => acked
    case Aborted(_, acked) => acked
    case _ => 0
  }

  /** Each pending message has room for a row behind the rows of its text and behind the
      pending messages of its text before it. */
  ghost predicate SlotRanked(t: Transcript, entries: seq<Entry>, m: Memory, i: nat)
    requires |t.rows| == |t.origins| && i < |m.slots| == |m.pending| && Below(m.slots, |entries|)
  {
    Done(m) <= i ==>
      CountRows(t, |t.rows|, m.pending[i]) + CountPending(m.pending, Done(m), i, m.pending[i])
      <= CountText(entries, m.slots[i], m.pending[i])
  }

  /** The pending messages are acceptances, in order. */
  ghost predicate SlotsMatch(entries: seq<Entry>, m: Memory)
  {
    && |m.pending| == |m.ids| == |m.slots|
    && Increasing(m.slots) && Below(m.slots, |entries|)
    && (forall i | 0 <= i < |m.slots| ::
          entries[m.slots[i]].text == m.pending[i] && entries[m.slots[i]].id == m.ids[i])
  }

  /** The first pending messages are in the transcript, the others are open, and nothing wanted
      is missing among them. */
  ghost predicate SlotsOpen(t: Transcript, entries: seq<Entry>, m: Memory)
    requires Below(m.slots, |entries|)
  {
    && Done(m) <= |m.slots|
    && (forall i | 0 <= i < Done(m) :: Written(t, m.slots[i]))
    && (forall i | Done(m) <= i < |m.slots| :: !entries[m.slots[i]].acked)
    && (forall k: nat | Wanted(t, entries, k) :: k in m.slots[Done(m)..])
  }

  ghost predicate MemoryInv(t: Transcript, entries: seq<Entry>, m: Memory)
    requires |t.rows| == |t.origins|
  {
    && SlotsMatch(entries, m)
    && (!IsClosed(m.mode) ==>
          SlotsOpen(t, entries, m) && forall i: nat | i < |m.slots| :: SlotRanked(t, entries, m, i))
  }

  ghost predicate Inv(s: State)
  {
    match Recovered(s.events)
    case None => true
    case Some(entries) =>
      && EntryInv(s.events, s.clock, entries) && RowInv(s.transcript, s.clock, entries)
      && FrontInv(s.events, s.transcript, entries)
      && (s.memory.Some? ==> MemoryInv(s.transcript, entries, s.memory.value))
  }

  /** Of the pending messages exactly the first are acknowledged. */
  ghost predicate AckedPrefix(entries: seq<Entry>, slots: seq<nat>, n: nat)
  {
    && Below(slots, |entries|) && n <= |slots|
    && forall i | 0 <= i < |slots| :: entries[slots[i]].acked <==> i < n
  }

  /** While the inbox is open its log can be read back, and says which pending messages are
      acknowledged. */
  ghost predicate ReadInv(s: State)
  {
    s.memory.Some? && !IsClosed(s.memory.value.mode) ==>
      && Recovered(s.events).Some?
      && AckedPrefix(Recovered(s.events).value, s.memory.value.slots, Acked(s.memory.value))
  }

  /** The accounting that holds while every count is exact: the queue is the end of the
      pending messages, and what will be acknowledged next has not been acknowledged. */
  ghost predicate ExactInv(s: State)
  {
    s.exact ==>
      && Recovered(s.events).Some?
      && (s.memory.Some? ==>
            var m, entries := s.memory.value, Recovered(s.events).value;
            && !m.mode.Broken?
            && |m.pending| == |m.ids| == |m.slots| && Below(m.slots, |entries|)
            && 0 <= Taken(m) && m.queue == m.pending[Taken(m)..] && Done(m) <= Taken(m)
            && (m.mode.Writing? ==>
                  m.mode.acked <= m.mode.count
                  && forall i | m.mode.acked <= i < |m.slots| :: !entries[m.slots[i]].acked)
            && (m.mode.Ending? ==>
                  Taken(m) <= m.mode.next <= |m.slots|
                  && forall i | m.mode.next <= i < |m.slots| :: !entries[m.slots[i]].acked))
  }
}
