/** The bounded window of a child run's event log, as a function of the whole log. */
module EventWindow {
  import opened Arithmetic

  datatype Event = Event(sequence: int, kind: string, payload: string, createdAt: int)

  datatype Bounds = Bounds(maxCount: int, maxBytes: int)

  function Size(e: Event): nat
  {
    |e.kind| + |e.payload|
  }

  function Bytes(events: seq<Event>): nat
  {
    if events == [] then 0 else Size(events[0]) + Bytes(events[1..])
  }

  predicate Within(b: Bounds, events: seq<Event>)
  {
    |events| <= b.maxCount && Bytes(events) <= b.maxBytes
  }

  /** How many of the oldest events have to go. */
  function Start(b: Bounds, log: seq<Event>): (start: nat)
    ensures start <= |log| && (log != [] ==> start < |log|)
  {
    if |log| <= 1 || Within(b, log) then 0 else 1 + Start(b, log[1..])
  }

  function Window(b: Bounds, log: seq<Event>): seq<Event>
  {
    log[Start(b, log)..]
  }

  lemma {:induction false} BytesAppend(events: seq<Event>, e: Event)
    ensures Bytes(events + [e]) == Bytes(events) + Size(e)
  {
    if events == [] {
      assert [] + [e] == [e];
    } else {
      assert (events + [e])[1..] == events[1..] + [e];
      BytesAppend(events[1..], e);
    }
  }

  lemma {:induction false} BytesSuffix(events: seq<Event>, m: nat)
    requires m <= |events|
    ensures Bytes(events[m..]) <= Bytes(events)
  {
    if m == 0 {
      assert events[0..] == events;
    } else {
      assert events[m..] == events[1..][m - 1..];
      BytesSuffix(events[1..], m - 1);
    }
  }

  /** The window is the longest suffix within both bounds, or just the newest event. */
  lemma {:induction false} WindowIsLongest(b: Bounds, log: seq<Event>, m: nat)
    requires m <= |log|
    ensures Within(b, Window(b, log)) || |Window(b, log)| <= 1
    ensures Within(b, log[m..]) ==> |log[m..]| <= |Window(b, log)|
  {
    if |log| <= 1 || Within(b, log) {
      assert log[0..] == log;
    } else {
      assert Window(b, log) == Window(b, log[1..]);
      WindowIsLongest(b, log[1..], if m == 0 then 0 else m - 1);
      if m == 0 { assert log[0..] == log; } else { assert log[m..] == log[1..][m - 1..]; }
    }
  }

  /** Evicting after each append reaches the same window as evicting once from the whole log. */
  lemma {:induction false} StartAppend(b: Bounds, log: seq<Event>, e: Event)
    ensures Start(b, log + [e]) == Start(b, log) + Start(b, Window(b, log) + [e])
    ensures Window(b, log + [e]) == Window(b, Window(b, log) + [e])
  {
    if |log| <= 1 || Within(b, log) {
      assert Window(b, log) == log;
    } else {
      BytesAppend(log, e);
      assert (log + [e])[1..] == log[1..] + [e];
      assert Window(b, log) == Window(b, log[1..]);
      StartAppend(b, log[1..], e);
    }
  }

  /** A log cut no deeper than its window starts has the same window. */
  lemma {:induction false} SuffixHasSameWindow(b: Bounds, log: seq<Event>, m: nat)
    requires m <= Start(b, log)
    ensures Window(b, log[m..]) == Window(b, log)
  {
    if m == 0 {
      assert log[0..] == log;
    } else {
      assert log[m..] == log[1..][m - 1..];
      SuffixHasSameWindow(b, log[1..], m - 1);
      assert Window(b, log) == Window(b, log[1..]);
    }
  }

  /** The window holds at most `maxCount` events, so the last `maxCount` determine it. */
  lemma {:induction false} WindowNeedsOnlyTail(b: Bounds, log: seq<Event>)
    requires b.maxCount >= 1
    ensures |log| - b.maxCount <= Start(b, log)
  {
    if !(|log| <= 1 || Within(b, log)) { WindowNeedsOnlyTail(b, log[1..]); }
  }

  // ---- readers ----

  /** Event `i` of the log carries sequence `i + 1`. */
  ghost predicate Contiguous(log: seq<Event>)
  {
    forall i | 0 <= i < |log| :: log[i].sequence == i + 1
  }

  datatype ReadResult = ReadResult(events: seq<Event>, next: int, dropped: int)

  /** What a read at `cursor` returns of a log whose first `kept` events are gone. */
  function ReadFrom(log: seq<Event>, kept: nat, cursor: int, maxEvents: int): ReadResult
    requires kept <= |log|
  {
    var start := Max(cursor, kept);
    var available := Max(0, |log| - start);
    var count := if maxEvents > 0 then Min(maxEvents, available) else available;
    ReadResult(if start <= |log| then log[start..start + count] else [], start + count, start - cursor)
  }

  function ReadAt(b: Bounds, log: seq<Event>, cursor: int, maxEvents: int): ReadResult
  {
    ReadFrom(log, Start(b, log), cursor, maxEvents)
  }

  /** The same read computed from the retained events alone: where in them it starts and how
      many it takes. */
  function Offset(retained: nat, total: int, cursor: int): (offset: nat)
    ensures offset <= retained
  {
    var first := total - retained;
    Min(Max(cursor, first) - first, retained)
  }

  function Count(retained: nat, total: int, cursor: int, maxEvents: int): (count: nat)
    ensures Offset(retained, total, cursor) + count <= retained
  {
    var available := retained - Offset(retained, total, cursor);
    if maxEvents > 0 then Min(maxEvents, available) else available
  }

  lemma RetainedReadIsLogRead(log: seq<Event>, kept: nat, cursor: int, maxEvents: int)
    requires kept <= |log|
    ensures var retained := log[kept..];
            var offset, count := Offset(|retained|, |log|, cursor), Count(|retained|, |log|, cursor, maxEvents);
            ReadFrom(log, kept, cursor, maxEvents)
            == ReadResult(retained[offset..offset + count], Max(cursor, kept) + count, Max(cursor, kept) - cursor)
  {
    SliceOfSuffix(log, kept, Offset(|log| - kept, |log|, cursor), Count(|log| - kept, |log|, cursor, maxEvents));
  }

  lemma SliceOfSuffix(log: seq<Event>, kept: nat, offset: nat, count: nat)
    requires kept + offset + count <= |log|
    ensures log[kept..][offset..offset + count] == log[kept + offset..kept + offset + count]
  {
  }

  /** A reader following a log that grows: its cursor, what it was given, what it missed. */
  datatype Reader = Reader(log: seq<Event>, cursor: int, seen: seq<Event>, dropped: int)

  datatype Step = Grow(e: Event) | Read(maxEvents: int)

  function Apply(b: Bounds, r: Reader, step: Step): Reader
  {
    match step
    case Grow(e) => r.(log := r.log + [e])
    case Read(maxEvents) =>
      var got := ReadAt(b, r.log, r.cursor, maxEvents);
      r.(cursor := got.next, seen := r.seen + got.events, dropped := r.dropped + got.dropped)
  }

  datatype Run = Begin(r: Reader) | Then(before: Run, step: Step, r: Reader)

  ghost predicate Valid(b: Bounds, run: Run)
  {
    match run
    case Begin(r) => Contiguous(r.log) && r.seen == [] && r.dropped == 0
    case Then(before, step, r) =>
      Valid(b, before) && r == Apply(b, before.r, step) && (step.Grow? ==> step.e.sequence == |before.r.log| + 1)
  }

  function First(run: Run): Reader
  {
    match run case Begin(r) => r case Then(before, _, _) => First(before)
  }

  /** What a reader was given are log events, in log order, none twice, none from before its
      first cursor or from its cursor on. */
  ghost predicate InOrder(log: seq<Event>, seen: seq<Event>, from0: int, cursor: int)
  {
    && (forall i | 0 <= i < |seen| :: from0 < seen[i].sequence <= cursor && 1 <= seen[i].sequence <= |log|
                                      && seen[i] == log[seen[i].sequence - 1])
    && (forall i, j | 0 <= i < j < |seen| :: seen[i].sequence < seen[j].sequence)
  }

  /** A slice from the cursor on joins what was seen. */
  lemma SliceJoins(log: seq<Event>, seen: seq<Event>, from0: int, cursor: int, start: nat, end: nat)
    requires Contiguous(log) && InOrder(log, seen, from0, cursor)
    requires from0 <= cursor <= start <= end <= |log|
    ensures InOrder(log, seen + log[start..end], from0, end)
  {
  }

  lemma GrowKeepsOrder(log: seq<Event>, e: Event, seen: seq<Event>, from0: int, cursor: int)
    requires Contiguous(log) && e.sequence == |log| + 1 && InOrder(log, seen, from0, cursor)
    ensures Contiguous(log + [e]) && InOrder(log + [e], seen, from0, cursor)
  {
  }

  lemma ReadKeepsOrder(b: Bounds, r: Reader, maxEvents: int, from0: int)
    requires Contiguous(r.log) && from0 <= r.cursor && InOrder(r.log, r.seen, from0, r.cursor)
    ensures var r' := Apply(b, r, Read(maxEvents));
            && r.cursor <= r'.cursor && InOrder(r'.log, r'.seen, from0, r'.cursor)
            && r'.cursor - r.cursor == |r'.seen| - |r.seen| + (r'.dropped - r.dropped)
  {
    var start, got := Max(r.cursor, Start(b, r.log)), ReadAt(b, r.log, r.cursor, maxEvents);
    ReadIsSlice(b, r.log, r.cursor, maxEvents);
    if start <= |r.log| {
      SliceJoins(r.log, r.seen, from0, r.cursor, start, got.next);
    } else {
      NothingJoins(r.log, r.seen, from0, r.cursor, got.next);
    }
  }

  /** A read gives the slice from the cursor, or from the first retained event, up to where it
      resumes; behind the end of the log it gives nothing. */
  lemma ReadIsSlice(b: Bounds, log: seq<Event>, cursor: int, maxEvents: int)
    ensures var start, got := Max(cursor, Start(b, log)), ReadAt(b, log, cursor, maxEvents);
            && cursor <= start <= got.next && got.next == cursor + |got.events| + got.dropped
            && (if start <= |log| then got.next <= |log| && got.events == log[start..got.next] else got.events == [])
  {
  }

  /** A read takes all the retained events from its cursor on, or as many of them as it asks for. */
  lemma ReadTakesWhatIsLeft(b: Bounds, log: seq<Event>, cursor: int, maxEvents: int)
    ensures var got, left := ReadAt(b, log, cursor, maxEvents), |log| - Max(cursor, Start(b, log));
            && (left <= 0 ==> got.events == [])
            && (left > 0 && 0 < maxEvents < left ==> |got.events| == maxEvents)
            && (left > 0 && !(0 < maxEvents < left) ==> |got.events| == left && got.next == |log|)
            && (cursor >= Start(b, log) ==> got.dropped == 0)
  {
    ReadIsSlice(b, log, cursor, maxEvents);
  }

  lemma NothingJoins(log: seq<Event>, seen: seq<Event>, from0: int, cursor: int, next: int)
    requires InOrder(log, seen, from0, cursor) && cursor <= next
    ensures seen + [] == seen && InOrder(log, seen, from0, next)
  {
  }

  /** Over every run of growth and reads, the reader sees log slices in order with nothing
      repeated, and its cursor grew by what it was given and what it missed. */
  lemma {:induction false} ReaderSeesLogInOrder(b: Bounds, run: Run)
    requires Valid(b, run)
    ensures Contiguous(run.r.log) && First(run).cursor <= run.r.cursor
    ensures InOrder(run.r.log, run.r.seen, First(run).cursor, run.r.cursor)
    ensures run.r.cursor - First(run).cursor == |run.r.seen| + run.r.dropped
  {
    match run
    case Begin(_) =>
    case Then(before, step, _) =>
      ReaderSeesLogInOrder(b, before);
      match step
      case Grow(e) => GrowKeepsOrder(before.r.log, e, before.r.seen, First(run).cursor, before.r.cursor);
      case Read(maxEvents) => ReadKeepsOrder(b, before.r, maxEvents, First(run).cursor);
  }

  /** Every event from `from0` up to the cursor that is still in the window was given. */
  ghost predicate NothingMissed(b: Bounds, log: seq<Event>, seen: seq<Event>, from0: int, cursor: int)
  {
    forall i | 0 <= i < |log| && Start(b, log) <= i && from0 <= i < cursor :: log[i] in seen
  }

  lemma GrowMissesNothing(b: Bounds, log: seq<Event>, e: Event, seen: seq<Event>, from0: int, cursor: int)
    requires NothingMissed(b, log, seen, from0, cursor) && cursor <= Max(from0, |log|)
    ensures NothingMissed(b, log + [e], seen, from0, cursor)
  {
    StartAppend(b, log, e);
  }

  lemma ReadMissesNothing(b: Bounds, r: Reader, maxEvents: int, from0: int)
    requires NothingMissed(b, r.log, r.seen, from0, r.cursor)
    ensures var r' := Apply(b, r, Read(maxEvents)); NothingMissed(b, r'.log, r'.seen, from0, r'.cursor)
  {
    var got, start := ReadAt(b, r.log, r.cursor, maxEvents), Max(r.cursor, Start(b, r.log));
    ReadIsSlice(b, r.log, r.cursor, maxEvents);
    forall i | 0 <= i < |r.log| && Start(b, r.log) <= i && from0 <= i < got.next
      ensures r.log[i] in r.seen + got.events
    {
      if i >= r.cursor { assert got.events[i - start] == r.log[i]; }
    }
  }

  /** In every run a reader has been given every event behind its first cursor and before its cursor
      that is still retained: it misses only what was evicted. */
  lemma {:induction false} RetainedIsNeverMissed(b: Bounds, run: Run)
    requires Valid(b, run)
    ensures NothingMissed(b, run.r.log, run.r.seen, First(run).cursor, run.r.cursor)
    ensures run.r.cursor <= Max(First(run).cursor, |run.r.log|)
  {
    match run
    case Begin(_) =>
    case Then(before, step, _) =>
      RetainedIsNeverMissed(b, before);
      match step
      case Grow(e) => GrowMissesNothing(b, before.r.log, e, before.r.seen, First(run).cursor, before.r.cursor);
      case Read(maxEvents) =>
        ReadMissesNothing(b, before.r, maxEvents, First(run).cursor);
        ReadIsSlice(b, before.r.log, before.r.cursor, maxEvents);
  }
}
