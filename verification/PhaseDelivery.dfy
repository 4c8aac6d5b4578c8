/** Committed phase events of a child run: reading them back from the store and publishing
    them, each once and in order, over attempts that may fail anywhere. */
module PhaseDelivery {
  import opened FiniteSets
  import opened Options

  datatype Input = Input(id: nat, kind: string, payload: string)

  /** A stored event: what was written, and the sequence the store gave it. */
  datatype Stored = Stored(sequence: int, input: Input)

  /** One page of stored events behind a cursor. */
  datatype Page = Page(items: seq<Stored>, next: int, hasMore: bool)

  type Pages = int -> Option<Page>

  datatype ReadResult = Found(events: seq<Stored>) | ReadError | Conflict | Missing

  // ---- reading the phase's events back ----

  /** The inputs by id; a repeated id keeps its last input. */
  function Wanted(inputs: seq<Input>): map<nat, Input>
  {
    if inputs == [] then map[] else Wanted(inputs[..|inputs| - 1])[inputs[|inputs| - 1].id := inputs[|inputs| - 1]]
  }

  lemma {:induction false} WantedHolds(inputs: seq<Input>, i: nat)
    requires i < |inputs|
    ensures inputs[i].id in Wanted(inputs) && Wanted(inputs)[inputs[i].id].id == inputs[i].id
    ensures (forall j | i < j < |inputs| :: inputs[j].id != inputs[i].id) ==> Wanted(inputs)[inputs[i].id] == inputs[i]
  {
    var front := inputs[..|inputs| - 1];
    if i < |front| { WantedHolds(front, i); }
  }

  lemma {:induction false} WantedKeys(inputs: seq<Input>, id: nat)
    requires id in Wanted(inputs)
    ensures Wanted(inputs)[id].id == id && Wanted(inputs)[id] in inputs
  {
    var front, last := inputs[..|inputs| - 1], inputs[|inputs| - 1];
    if id != last.id { WantedKeys(front, id); }
  }

  /** What has been matched so far is wanted, and stored as wanted. */
  ghost predicate Agrees(matched: map<nat, Stored>, wanted: map<nat, Input>)
  {
    matched.Keys <= wanted.Keys && forall id | id in matched :: matched[id].input == wanted[id]
  }

  /** Match one page against what is wanted; fail on a stored event that differs. */
  method MatchPage(items: seq<Stored>, wanted: map<nat, Input>, matched: map<nat, Stored>)
    returns (ok: bool, matched': map<nat, Stored>)
    requires forall id | id in wanted :: wanted[id].id == id
    requires Agrees(matched, wanted)
    ensures ok <==> forall i | 0 <= i < |items| && items[i].input.id in wanted ::
                      items[i].input == wanted[items[i].input.id]
    ensures Agrees(matched', wanted)
    ensures forall id | id in matched' :: (id in matched && matched'[id] == matched[id]) || matched'[id] in items
    ensures ok ==>
              forall id ::
                id in matched' <==>
                  id in matched || (id in wanted && exists i | 0 <= i < |items| :: items[i].input.id == id)
  {
    matched' := matched;
    for k := 0 to |items|
      invariant forall i | 0 <= i < k && items[i].input.id in wanted :: items[i].input == wanted[items[i].input.id]
      invariant Agrees(matched', wanted)
      invariant forall id | id in matched' :: (id in matched && matched'[id] == matched[id]) || matched'[id] in items
      invariant forall id ::
                  id in matched' <==>
                    id in matched || (id in wanted && exists i | 0 <= i < k :: items[i].input.id == id)
    {
      var event := items[k];
      if event.input.id !in wanted {
        continue;
      }
      var input := wanted[event.input.id];
      if event.input.kind != input.kind || event.input.payload != input.payload {
        return false, matched';
      }
      matched' := matched'[event.input.id := event];
    }
    ok := true;
  }

  lemma SameSizeSameKeys(matched: map<nat, Stored>, wanted: map<nat, Input>)
    requires Agrees(matched, wanted) && |matched| == |wanted|
    ensures matched.Keys == wanted.Keys
  {
    assert |matched.Keys| == |wanted.Keys|;
    SubsetSize(matched.Keys, wanted.Keys);
  }

  /** The store pages through its log, in order and without gaps. */
  ghost predicate Paging(pages: Pages, log: seq<Stored>)
  {
    forall c: nat | c <= |log| ::
      && pages(c).Some? && c <= pages(c).value.next <= |log|
      && pages(c).value.items == log[c..pages(c).value.next]
      && (pages(c).value.hasMore <==> pages(c).value.next < |log|)
      && (c < |log| ==> pages(c).value.next > c)
  }

  /** Every wanted event is in the log behind the cursor, and is there as it is wanted. */
  ghost predicate Committed(inputs: seq<Input>, log: seq<Stored>, cursor: nat)
    requires cursor <= |log|
  {
    && (forall id | id in Wanted(inputs) :: exists i | cursor <= i < |log| :: log[i].input.id == id)
    && (forall i | cursor <= i < |log| && log[i].input.id in Wanted(inputs) ::
         log[i].input == Wanted(inputs)[log[i].input.id])
  }

  ghost predicate InSomePage(pages: Pages, event: Stored)
  {
    exists c: int :: pages(c).Some? && event in pages(c).value.items
  }

  /** Every wanted event the log holds between the two cursors has been matched. */
  ghost predicate ReadUpTo(log: seq<Stored>, first: int, cursor: int, wanted: map<nat, Input>,
                           matched: map<nat, Stored>)
  {
    && 0 <= first <= cursor <= |log|
    && forall i | first <= i < cursor && log[i].input.id in wanted :: log[i].input.id in matched
  }

  lemma PageReadsOn(log: seq<Stored>, first: int, cursor: int, next: int, wanted: map<nat, Input>,
                    matched: map<nat, Stored>, matched': map<nat, Stored>)
    requires ReadUpTo(log, first, cursor, wanted, matched) && cursor <= next <= |log|
    requires forall id :: id in matched' <==>
               id in matched
                   || (id in wanted && exists i | 0 <= i < |log[cursor..next]| :: log[cursor..next][i].input.id == id)
    ensures ReadUpTo(log, first, next, wanted, matched')
  {
    forall i | first <= i < next && log[i].input.id in wanted ensures log[i].input.id in matched' {
      if i >= cursor { assert log[cursor..next][i - cursor].input.id == log[i].input.id; }
    }
  }

  lemma AgreesSize(matched: map<nat, Stored>, wanted: map<nat, Input>)
    requires Agrees(matched, wanted)
    ensures |matched| <= |wanted|
  {
    assert |matched.Keys| <= |wanted.Keys| by { SubsetSize(matched.Keys, wanted.Keys); }
  }

  /** A store that pages its log and holds every wanted event. */
  ghost predicate Holding(inputs: seq<Input>, pages: Pages, log: seq<Stored>, first: int)
  {
    0 <= first <= |log| && Paging(pages, log) && Committed(inputs, log, first)
  }

  /** Its pages agree with what is wanted. */
  lemma HoldingPageAgrees(inputs: seq<Input>, pages: Pages, log: seq<Stored>, first: int, cursor: int)
    requires Holding(inputs, pages, log, first) && first <= cursor <= |log|
    ensures pages(cursor).Some? && cursor <= pages(cursor).value.next <= |log|
    ensures pages(cursor).value.items == log[cursor..pages(cursor).value.next]
    ensures var items := pages(cursor).value.items;
            forall i | 0 <= i < |items| && items[i].input.id in Wanted(inputs) ::
                  items[i].input == Wanted(inputs)[items[i].input.id]
    ensures pages(cursor).value.hasMore || pages(cursor).value.next == |log|
    ensures cursor < |log| ==> pages(cursor).value.next > cursor
  {
    var page := pages(cursor).value;
    forall i | 0 <= i < |page.items| && page.items[i].input.id in Wanted(inputs)
      ensures page.items[i].input == Wanted(inputs)[page.items[i].input.id]
    {
      assert page.items[i] == log[cursor + i];
    }
  }

  /** Once the whole log is read, everything is matched. */
  lemma AllRead(inputs: seq<Input>, log: seq<Stored>, first: nat, matched: map<nat, Stored>)
    requires first <= |log| && Committed(inputs, log, first) && Agrees(matched, Wanted(inputs))
    requires ReadUpTo(log, first, |log|, Wanted(inputs), matched)
    ensures |matched| == |Wanted(inputs)|
  {
    forall id | id in Wanted(inputs) ensures id in matched {
      var i :| first <= i < |log| && log[i].input.id == id;
      assert log[i].input.id in matched;
    }
    assert matched.Keys == Wanted(inputs).Keys;
    assert |matched| == |matched.Keys| && |Wanted(inputs)| == |Wanted(inputs).Keys|;
  }

  ghost predicate AllFromPages(pages: Pages, matched: map<nat, Stored>)
  {
    forall id | id in matched :: InSomePage(pages, matched[id])
  }

  lemma PageIsAPage(pages: Pages, cursor: int, matched: map<nat, Stored>, matched': map<nat, Stored>)
    requires pages(cursor).Some? && AllFromPages(pages, matched)
    requires forall id | id in matched' ::
               (id in matched && matched'[id] == matched[id]) || matched'[id] in pages(cursor).value.items
    ensures AllFromPages(pages, matched')
  {
  }

  /** Match one page more. */
  method MatchNext(inputs: seq<Input>, wanted: map<nat, Input>, first: int, cursor: int, page: Page,
                   matched: map<nat, Stored>, ghost pages: Pages, ghost log: seq<Stored>)
    returns (ok: bool, matched': map<nat, Stored>)
    requires wanted == Wanted(inputs) && pages(cursor) == Some(page)
    requires Agrees(matched, wanted) && AllFromPages(pages, matched)
    requires Holding(inputs, pages, log, first) ==> ReadUpTo(log, first, cursor, wanted, matched)
    ensures Agrees(matched', wanted) && AllFromPages(pages, matched')
    ensures Holding(inputs, pages, log, first) ==> ok && ReadUpTo(log, first, page.next, wanted, matched')
    ensures Holding(inputs, pages, log, first) && |matched'| < |wanted| ==> page.hasMore && page.next > cursor
  {
    forall id | id in wanted ensures wanted[id].id == id { WantedKeys(inputs, id); }
    ok, matched' := MatchPage(page.items, wanted, matched);
    PageIsAPage(pages, cursor, matched, matched');
    if Holding(inputs, pages, log, first) {
      HoldingPageAgrees(inputs, pages, log, first, cursor);
      PageReadsOn(log, first, cursor, page.next, wanted, matched, matched');
      if page.next == |log| { AllRead(inputs, log, first, matched'); }
    }
  }

  /** Read pages until every wanted event is matched. The store's cursors do not run past `last`. */
  method MatchAll(inputs: seq<Input>, wanted: map<nat, Input>, first: int, pages: Pages, ghost last: int,
                  ghost log: seq<Stored>)
    returns (r: Option<ReadResult>, matched: map<nat, Stored>)
    requires wanted == Wanted(inputs)
    requires forall c: int | pages(c).Some? && pages(c).value.hasMore :: pages(c).value.next <= last
    ensures r.Some? ==> !r.value.Found?
    ensures r.None? ==> Agrees(matched, wanted) && matched.Keys == wanted.Keys && AllFromPages(pages, matched)
    ensures Holding(inputs, pages, log, first) ==> r.None?
  {
    matched := map[];
    r := None;
    var cursor := first;
    while |matched| < |wanted|
      invariant Agrees(matched, wanted) && AllFromPages(pages, matched)
      invariant Holding(inputs, pages, log, first) ==> ReadUpTo(log, first, cursor, wanted, matched)
      decreases last - cursor
    {
      var answer := pages(cursor);
      if answer.None? {
        if Holding(inputs, pages, log, first) { HoldingPageAgrees(inputs, pages, log, first, cursor); }
        return Some(ReadError), matched;
      }
      var page := answer.value;
      var ok, matched' := MatchNext(inputs, wanted, first, cursor, page, matched, pages, log);
      matched := matched';
      if !ok {
        return Some(Conflict), matched;
      }
      if |matched| == |wanted| {
        break;
      }
      AgreesSize(matched, wanted);
      if !page.hasMore || page.next <= cursor {
        return Some(Missing), matched;
      }
      cursor := page.next;
    }
    AgreesSize(matched, wanted);
    SameSizeSameKeys(matched, wanted);
  }

  /** The phase's events, read back from the store in the phase's order. */
  method ReadChildPhaseEvents(inputs: seq<Input>, first: int, pages: Pages, ghost last: int, ghost log: seq<Stored>)
    returns (r: ReadResult)
    requires forall c: int | pages(c).Some? && pages(c).value.hasMore :: pages(c).value.next <= last
    // Exactly the wanted events, each read from the store.
    ensures r.Found? ==> |r.events| == |inputs|
    ensures r.Found? ==> forall i | 0 <= i < |inputs| ::
              && inputs[i].id in Wanted(inputs) && r.events[i].input == Wanted(inputs)[inputs[i].id]
              && InSomePage(pages, r.events[i])
    // An input whose id no later one has is found as it is.
    ensures r.Found? ==> forall i | 0 <= i < |inputs| ::
              && r.events[i].input.id == inputs[i].id
              && ((forall j | i < j < |inputs| :: inputs[j].id != inputs[i].id) ==> r.events[i].input == inputs[i])
    // A store that pages its log and holds them all never makes it fail.
    ensures Holding(inputs, pages, log, first) ==> r.Found?
  {
    var wanted := Wanted(inputs);
    var failure, matched := MatchAll(inputs, wanted, first, pages, last, log);
    if failure.Some? {
      return failure.value;
    }
    var events: seq<Stored> := [];
    for k := 0 to |inputs|
      invariant |events| == k
      invariant forall i | 0 <= i < k ::
                  inputs[i].id in wanted && events[i].input == wanted[inputs[i].id] && InSomePage(pages, events[i])
      invariant forall i | 0 <= i < k ::
                  && wanted[inputs[i].id].id == inputs[i].id
                  && ((forall j | i < j < |inputs| :: inputs[j].id != inputs[i].id) ==>
                       wanted[inputs[i].id] == inputs[i])
    {
      WantedHolds(inputs, k);
      events := events + [matched[inputs[k].id]];
    }
    r := Found(events);
  }

  // ---- publishing ----

  /** What the sink does with one event of one attempt. */
  datatype Answer = Published | Cancelled | SinkFailed

  /** Continue after what is already published; stop at the first event that fails. */
  function Attempt(published: seq<Stored>, events: seq<Stored>, answers: nat -> Answer): (r: (seq<Stored>, bool))
    decreases |events| - |published|
  {
    if |published| >= |events| then (published, true)
    else if answers(|published|) != Published then (published, false)
    else Attempt(published + [events[|published|]], events, answers)
  }

  /** The first event from `from` on that the sink does not take, or the end. */
  ghost function FirstRefusal(answers: nat -> Answer, from: nat, end: nat): (stop: nat)
    ensures from <= stop && (from <= end ==> stop <= end)
    ensures forall i: nat | from <= i < stop :: answers(i) == Published
    ensures stop < end ==> answers(stop) != Published
    ensures end <= from ==> stop == from
    decreases end - from
  {
    if from < end && answers(from) == Published then FirstRefusal(answers, from + 1, end) else from
  }

  /** What one attempt must do, in terms of the sink's answers alone: publish the missing events up to
      the first the sink does not take, and succeed exactly when it takes them all. */
  ghost predicate IsAttempt(published: seq<Stored>, events: seq<Stored>, answers: nat -> Answer,
                            published': seq<Stored>, ok: bool)
  {
    var stop := FirstRefusal(answers, |published|, |events|);
    && published' == (if |published| < |events| then published + events[|published|..stop] else published)
    && (ok <==> stop >= |events|)
  }

  lemma {:induction false} AttemptStopsAtFirstRefusal(published: seq<Stored>, events: seq<Stored>,
                                                      answers: nat -> Answer)
    ensures var r := Attempt(published, events, answers); IsAttempt(published, events, answers, r.0, r.1)
    decreases |events| - |published|
  {
    if |published| < |events| && answers(|published|) == Published {
      AttemptStopsAtFirstRefusal(published + [events[|published|]], events, answers);
    }
  }

  /** One attempt extends a prefix to a prefix, and succeeds exactly when it publishes all. */
  lemma {:induction false} AttemptExtendsPrefix(published: seq<Stored>, events: seq<Stored>, answers: nat -> Answer)
    requires published <= events
    ensures var r := Attempt(published, events, answers);
            published <= r.0 <= events && (r.1 <==> r.0 == events)
    decreases |events| - |published|
  {
    if |published| < |events| && answers(|published|) == Published {
      assert published + [events[|published|]] == events[..|published| + 1];
      AttemptExtendsPrefix(published + [events[|published|]], events, answers);
    }
  }

  function Attempts(published: seq<Stored>, events: seq<Stored>, tries: seq<nat -> Answer>): seq<Stored>
    decreases |tries|
  {
    if tries == [] then published else Attempts(Attempt(published, events, tries[0]).0, events, tries[1..])
  }

  /** After any attempts, failing anywhere, the published events are a prefix of the phase's
      order, none twice; and what one attempt published no later one takes back. */
  lemma {:induction false} AttemptsPublishPrefix(published: seq<Stored>, events: seq<Stored>, tries: seq<nat -> Answer>)
    requires published <= events
    ensures published <= Attempts(published, events, tries) <= events
    decreases |tries|
  {
    if tries != [] {
      AttemptExtendsPrefix(published, events, tries[0]);
      AttemptsPublishPrefix(Attempt(published, events, tries[0]).0, events, tries[1..]);
    }
  }

  /** Once the sink takes everything in one attempt, every event of the phase is out. */
  lemma {:induction false} WillingSinkGetsAll(published: seq<Stored>, events: seq<Stored>, tries: seq<nat -> Answer>,
                                              k: nat)
    requires published <= events && k < |tries| && forall i: nat | i < |events| :: tries[k](i) == Published
    ensures Attempts(published, events, tries) == events
    decreases |tries|
  {
    var r := Attempt(published, events, tries[0]);
    AttemptExtendsPrefix(published, events, tries[0]);
    AttemptsPublishPrefix(r.0, events, tries[1..]);
    if k > 0 {
      WillingSinkGetsAll(r.0, events, tries[1..], k - 1);
    } else {
      AttemptStopsAtFirstRefusal(published, events, tries[0]);
    }
  }

  class Scope {
    /** How many events of each phase went out. */
    var deliveries: map<nat, nat>
    /** The events that went out for each phase, in order. */
    ghost var published: map<nat, seq<Stored>>

    ghost predicate Valid()
      reads this
    {
      deliveries.Keys == published.Keys && forall a | a in deliveries :: deliveries[a] == |published[a]|
    }

    ghost function Out(activity: nat): seq<Stored>
      reads this
    {
      if activity in published then published[activity] else []
    }

    constructor ()
      ensures Valid() && published == map[]
    {
      deliveries, published := map[], map[];
    }

    /** One delivery attempt; `refreshed` says whether the event window could be refreshed. */
    method Deliver(activity: nat, events: seq<Stored>, refreshed: bool, answers: nat -> Answer) returns (ok: bool)
      requires Valid()
      modifies this
      ensures Valid()
      ensures !refreshed ==> !ok && published == old(published)
      ensures refreshed ==> && (Out(activity), ok) == Attempt(old(Out(activity)), events, answers)
                            && IsAttempt(old(Out(activity)), events, answers, Out(activity), ok)
      ensures forall a | a != activity :: Out(a) == old(Out(a))
    {
      if !refreshed {
        return false;
      }
      AttemptStopsAtFirstRefusal(Out(activity), events, answers);
      var count := if activity in deliveries then deliveries[activity] else 0;
      while count < |events|
        invariant Valid() && count == |Out(activity)|
        invariant Attempt(Out(activity), events, answers) == Attempt(old(Out(activity)), events, answers)
        invariant forall a | a != activity :: Out(a) == old(Out(a))
      {
        if answers(count) != Published {
          return false;
        }
        published := published[activity := Out(activity) + [events[count]]];
        count := count + 1;
        deliveries := deliveries[activity := count];
      }
      ok := true;
    }
  }
}
