/** The in-memory event buffer of a child run and its refresh from the durable log. */
module EventBufferObject {
  import opened Arithmetic
  import opened Options
  import opened EventWindow

  /** What is read off the window of a log is what is read off the log. */
  lemma TakenIsLogRead(b: Bounds, log: seq<Event>, cursor: int, maxEvents: int, result: seq<Event>, next: int,
                       dropped: int)
    requires var events := Window(b, log);
             var offset, count := Offset(|events|, |log|, cursor), Count(|events|, |log|, cursor, maxEvents);
             && result == events[offset..offset + count]
             && dropped == Max(cursor, |log| - |events|) - cursor && next == cursor + dropped + |result|
    ensures ReadResult(result, next, dropped) == ReadAt(b, log, cursor, maxEvents)
  {
    RetainedReadIsLogRead(log, Start(b, log), cursor, maxEvents);
  }

  class EventBuffer {
    const maxCount: int
    const maxBytes: int
    var events: seq<Event>
    var byteLen: int
    var total: int
    /** Every event the buffer stands for, evicted ones included. */
    ghost var log: seq<Event>

    ghost function Bound(): Bounds
    {
      Bounds(maxCount, maxBytes)
    }

    ghost predicate Valid()
      reads this
    {
      && (if log == [] then total == 0 else total == log[|log| - 1].sequence)
      && events == Window(Bound(), log) && byteLen == Bytes(events)
    }

    constructor (maxCount: int, maxBytes: int)
      ensures Valid() && log == [] && this.maxCount == maxCount && this.maxBytes == maxBytes
    {
      this.maxCount, this.maxBytes := maxCount, maxBytes;
      events, byteLen, total, log := [], 0, 0, [];
    }

    /** Drop the oldest events until the bounds hold or one event is left. */
    method Evict()
      requires byteLen == Bytes(events)
      modifies `events, `byteLen
      ensures events == Window(Bound(), old(events)) && byteLen == Bytes(events)
    {
      while |events| > 1 && (|events| > maxCount || byteLen > maxBytes)
        invariant byteLen == Bytes(events) && Window(Bound(), events) == Window(Bound(), old(events))
        decreases |events|
      {
        byteLen := byteLen - (|events[0].kind| + |events[0].payload|);
        events := events[1..];
      }
      assert events[0..] == events;
    }

    /** Add one event at the end and evict from the front. */
    method Push(event: Event)
      requires Valid() && event.sequence > total && event.sequence > 0
      modifies this
      ensures Valid() && log == old(log) + [event] && total == event.sequence
    {
      StartAppend(Bound(), log, event);
      BytesAppend(events, event);
      log, total := log + [event], event.sequence;
      events := events + [event];
      byteLen := byteLen + |event.kind| + |event.payload|;
      Evict();
    }

    method Append(kind: string, payload: string, now: int) returns (event: Event)
      requires Valid() && total >= 0
      modifies this
      ensures Valid() && event == Event(old(total) + 1, kind, payload, now)
      ensures log == old(log) + [event] && total == old(total) + 1
      ensures old(Contiguous(log)) ==> Contiguous(log)
    {
      event := Event(total + 1, kind, payload, now);
      Push(event);
    }

    /** Keep a durable event; one that is not newer than what was seen is ignored. */
    method AppendStored(event: Event)
      requires Valid() && total >= 0
      modifies this
      ensures Valid() && total >= 0
      ensures event.sequence <= old(total) ==> log == old(log) && total == old(total)
      ensures event.sequence > old(total) ==> log == old(log) + [event] && total == event.sequence
    {
      if event.sequence <= total {
        return;
      }
      Push(event);
    }

    /** The read itself, on what is retained. */
    method Take(cursor: int, maxEvents: int) returns (result: seq<Event>, next: int, dropped: int)
      ensures var offset, count := Offset(|events|, total, cursor), Count(|events|, total, cursor, maxEvents);
              result == events[offset..offset + count]
      ensures dropped == Max(cursor, total - |events|) - cursor && next == cursor + dropped + |result|
    {
      var first := total - |events|;
      var at := cursor;
      dropped := 0;
      if at < first {
        dropped := first - at;
        at := first;
      }
      var offset := Min(at - first, |events|);
      var count := |events| - offset;
      if maxEvents > 0 && count > maxEvents {
        count := maxEvents;
      }
      result := events[offset..offset + count];
      next := at + |result|;
    }

    /** Up to `maxEvents` events from `cursor` on, where to resume, and how many were lost. */
    method Read(cursor: int, maxEvents: int) returns (result: seq<Event>, next: int, dropped: int)
      requires Valid()
      // A log numbered from one on without gaps has as many events as its last sequence.
      ensures total == |log| ==> ReadResult(result, next, dropped) == ReadAt(Bound(), log, cursor, maxEvents)
      // With gaps the retained events are taken to be the last numbers before the total.
      ensures var offset, count := Offset(|events|, total, cursor), Count(|events|, total, cursor, maxEvents);
              result == events[offset..offset + count] && dropped == Max(cursor, total - |events|) - cursor
      ensures next == cursor + dropped + |result| && dropped >= 0
      // All retained events from the cursor on, or as many of them as were asked for.
      ensures var left := Max(0, total - Max(cursor, total - |events|));
              |result| == if 0 < maxEvents < left then maxEvents else left
    {
      result, next, dropped := Take(cursor, maxEvents);
      if total == |log| {
        TakenIsLogRead(Bound(), log, cursor, maxEvents, result, next, dropped);
      }
    }

    /** Take over a rebuilt window, unless it is behind. */
    method ReplaceStoredWindow(retained: EventBuffer, ghost whole: seq<Event>)
      requires Valid() && retained != this && retained.Valid() && retained.Bound() == Bound()
      requires Window(Bound(), whole) == retained.events
      requires if whole == [] then retained.total == 0 else retained.total == whole[|whole| - 1].sequence
      modifies this
      ensures Valid() && total >= old(total)
      ensures retained.total < old(total) ==> log == old(log) && total == old(total) && events == old(events)
      ensures retained.total >= old(total) ==> log == whole && total == retained.total && events == retained.events
    {
      if retained.total < total {
        return;
      }
      events, byteLen, total, log := retained.events, retained.byteLen, retained.total, whole;
    }
  }

  // ---- rebuilding the window from the store ----

  /** What the store answers for the page behind a cursor; reading fails behind any other. */
  type Pages = map<nat, seq<Event>>

  function PageBehind(pages: Pages, cursor: nat): Option<seq<Event>>
  {
    if cursor in pages then Some(pages[cursor]) else None
  }

  datatype RefreshResult = Refreshed | ReadFailed | Conflict | Incomplete

  ghost predicate InLog(event: Event, log: seq<Event>)
  {
    1 <= event.sequence <= |log| ==> event == log[event.sequence - 1]
  }

  ghost predicate FromLog(page: seq<Event>, log: seq<Event>)
  {
    forall i | 0 <= i < |page| :: InLog(page[i], log)
  }

  /** Pages hold events of the log. */
  ghost predicate Genuine(pages: Pages, log: seq<Event>)
  {
    forall cursor | cursor in pages :: FromLog(pages[cursor], log)
  }

  /** The page's events carry the numbers behind the cursor. */
  ghost predicate Follows(page: seq<Event>, cursor: nat)
  {
    forall i | 0 <= i < |page| :: page[i].sequence == cursor + i + 1
  }

  ghost predicate PromptPage(page: Option<seq<Event>>, cursor: nat)
  {
    page.Some? && page.value != [] && Follows(page.value, cursor)
  }

  /** Every page behind a cursor below `count` can be read and holds the next events, at least one. */
  ghost predicate Prompt(pages: Pages, count: nat)
  {
    forall cursor: nat | cursor < count :: PromptPage(PageBehind(pages, cursor), cursor)
  }

  /** The rebuilt buffer stands for the log from `start` up to `cursor`. */
  ghost predicate Rebuilt(b: EventBuffer, log: seq<Event>, start: nat, cursor: nat)
    reads b
  {
    && b.Valid() && start <= cursor <= |log| && b.log == log[start..cursor]
    && b.total == if start == cursor then 0 else cursor
  }

  datatype Seen = Kept | Newer | Gap

  /** Take over one event of a page if it is the one behind the cursor. */
  method AbsorbOne(retained: EventBuffer, event: Event, count: nat, cursor: nat, ghost start: nat,
                   ghost log: seq<Event>)
    returns (seen: Seen)
    requires Rebuilt(retained, log, start, cursor) && cursor <= count <= |log| && InLog(event, log)
    modifies retained
    ensures seen == if event.sequence > count then Newer else if event.sequence != cursor + 1 then Gap else Kept
    ensures seen.Kept? ==> cursor < count
    ensures Rebuilt(retained, log, start, if seen.Kept? then cursor + 1 else cursor)
  {
    if event.sequence > count {
      return Newer;
    }
    if event.sequence != cursor + 1 {
      return Gap;
    }
    retained.AppendStored(event);
    assert log[start..cursor] + [event] == log[start..cursor + 1];
    seen := Kept;
  }

  /** Take one page over; stop at events newer than `count`. */
  method Absorb(retained: EventBuffer, page: seq<Event>, count: nat, cursor: nat, ghost start: nat,
                ghost log: seq<Event>)
    returns (cursor': nat, conflict: bool)
    requires FromLog(page, log) && cursor < count <= |log|
    requires Rebuilt(retained, log, start, cursor)
    modifies retained
    ensures Rebuilt(retained, log, start, cursor') && cursor <= cursor' <= count
    ensures page != [] && Follows(page, cursor) ==> !conflict && cursor' > cursor
  {
    cursor', conflict := cursor, false;
    ghost var follows := Follows(page, cursor);
    for i := 0 to |page|
      invariant Rebuilt(retained, log, start, cursor') && cursor <= cursor' <= count
      invariant follows ==> cursor' == cursor + i
    {
      var event := page[i];
      assert follows ==> event.sequence == cursor' + 1;
      var seen := AbsorbOne(retained, event, count, cursor', start, log);
      if !seen.Kept? {
        conflict := seen.Gap?;
        return;
      }
      cursor' := cursor' + 1;
    }
  }

  /** The last `maxCount` events give the window of the whole log. */
  lemma TailGivesWindow(b: Bounds, log: seq<Event>, count: nat, start: nat)
    requires b.maxCount >= 1 && count <= |log| && start == Max(0, count - b.maxCount)
    ensures start <= count && Window(b, log[start..count]) == Window(b, log[..count])
  {
    WindowNeedsOnlyTail(b, log[..count]);
    SuffixHasSameWindow(b, log[..count], start);
    assert log[..count][start..] == log[start..count];
  }

  /** Read the page behind the cursor and take it over; fails if that is impossible or gets no further. */
  method AbsorbNext(retained: EventBuffer, pages: Pages, count: nat, cursor: nat, ghost start: nat,
                    ghost log: seq<Event>)
    returns (r: RefreshResult, next: nat)
    requires Genuine(pages, log) && cursor < count <= |log|
    requires Rebuilt(retained, log, start, cursor)
    modifies retained
    ensures Rebuilt(retained, log, start, next) && cursor <= next <= count
    ensures r.Refreshed? ==> cursor < next
    ensures Prompt(pages, count) ==> r.Refreshed?
  {
    var page := PageBehind(pages, cursor);
    PageIs(pages, log, count, cursor);
    if page.None? {
      return ReadFailed, cursor;
    }
    var next', conflict := Absorb(retained, page.value, count, cursor, start, log);
    r, next := if conflict then Conflict else if next' == cursor then Incomplete else Refreshed, next';
  }

  lemma PageIs(pages: Pages, log: seq<Event>, count: nat, cursor: nat)
    requires Genuine(pages, log) && cursor < count
    ensures PageBehind(pages, cursor).Some? ==> FromLog(PageBehind(pages, cursor).value, log)
    ensures Prompt(pages, count) ==> PromptPage(PageBehind(pages, cursor), cursor)
  {
  }

  /** Page by page up to `count`. */
  method AbsorbAll(retained: EventBuffer, pages: Pages, start: nat, count: nat, ghost log: seq<Event>)
    returns (r: RefreshResult)
    requires Genuine(pages, log) && start <= count <= |log| && Rebuilt(retained, log, start, start)
    modifies retained
    ensures r.Refreshed? ==> Rebuilt(retained, log, start, count)
    ensures Prompt(pages, count) ==> r.Refreshed?
  {
    var cursor := start;
    r := Refreshed;
    while cursor < count
      invariant start <= cursor <= count && Rebuilt(retained, log, start, cursor)
      decreases count - cursor
    {
      r, cursor := AbsorbNext(retained, pages, count, cursor, start, log);
      if !r.Refreshed? {
        return;
      }
    }
    r := Refreshed;
  }

  lemma FreshIsRebuilt(b: EventBuffer, log: seq<Event>, start: nat)
    requires b.Valid() && b.log == [] && start <= |log|
    ensures Rebuilt(b, log, start, start)
  {
  }

  /** Read the store from `start` up to `count` into a fresh buffer. */
  method Rebuild(maxCount: int, maxBytes: int, start: nat, count: nat, pages: Pages, ghost log: seq<Event>)
    returns (r: RefreshResult, retained: EventBuffer)
    requires Genuine(pages, log) && start <= count <= |log|
    ensures fresh(retained) && retained.maxCount == maxCount && retained.maxBytes == maxBytes
    ensures r.Refreshed? ==> Rebuilt(retained, log, start, count)
    ensures Prompt(pages, count) ==> r.Refreshed?
  {
    retained := new EventBuffer(maxCount, maxBytes);
    FreshIsRebuilt(retained, log, start);
    r := AbsorbAll(retained, pages, start, count, log);
  }

  /** Rebuild the window from the store's tail and take it over. */
  method RefreshChildPhaseEvents(buffer: EventBuffer, stored: Option<nat>, pages: Pages, ghost log: seq<Event>)
    returns (r: RefreshResult)
    requires buffer.Valid() && buffer.maxCount > 0
    requires Contiguous(log) && Genuine(pages, log) && (stored.Some? ==> stored.value <= |log|)
    modifies buffer
    ensures buffer.Valid() && buffer.total >= old(buffer.total)
    // Full replay of the log up to the count, unless the buffer is already past it.
    ensures r.Refreshed? ==> stored.Some?
    ensures r.Refreshed? && stored.value >= old(buffer.total) ==>
              && buffer.log == log[..stored.value] && buffer.total == stored.value
              && buffer.events == Window(buffer.Bound(), log[..stored.value])
    ensures !r.Refreshed? || stored.value < old(buffer.total) ==>
              buffer.log == old(buffer.log) && buffer.total == old(buffer.total) && buffer.events == old(buffer.events)
    ensures stored.Some? && Prompt(pages, stored.value) ==> r.Refreshed?
  {
    if stored.None? {
      return ReadFailed;
    }
    var count := stored.value;
    var start: nat := Max(0, count - buffer.maxCount);
    var read, retained := Rebuild(buffer.maxCount, buffer.maxBytes, start, count, pages, log);
    r := read;
    if r.Refreshed? {
      TailGivesWindow(buffer.Bound(), log, count, start);
      buffer.ReplaceStoredWindow(retained, log[..count]);
    }
  }
}
