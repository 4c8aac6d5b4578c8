/** What greedy matching of acceptances with transcript rows really computes: among messages
    of equal text, the first acceptances get the rows, whoever they were written for. */
module InboxRanks {
  import opened Options
  import opened Inbox
  import opened InboxRecovery
  import opened InboxProtocol

  lemma {:induction false} CountTextGrows(entries: seq<Entry>, m: nat, n: nat, text: string)
    requires m <= n <= |entries|
    ensures CountText(entries, m, text) <= CountText(entries, n, text)
    ensures m < n && entries[m].text == text ==> CountText(entries, m, text) < CountText(entries, n, text)
    decreases n
  {
    if m < n { CountTextGrows(entries, m, n - 1, text); }
  }

  lemma {:induction false} CountRowsGrows(t: Transcript, m: nat, n: nat, text: string)
    requires m <= n <= |t.rows| == |t.origins|
    ensures CountRows(t, m, text) <= CountRows(t, n, text)
    ensures m < n && t.origins[m].Some? && t.rows[m].content == text ==>
              CountRows(t, m, text) < CountRows(t, n, text)
    decreases n
  {
    if m < n { CountRowsGrows(t, m, n - 1, text); }
  }

  /** Rows written for acceptances before `w` are no more than those acceptances. */
  lemma {:induction false} RowsAreBounded(t: Transcript, clock: nat, entries: seq<Entry>, n: nat, w: nat, text: string)
    requires RowInv(t, clock, entries) && n <= |t.rows| && w <= |entries|
    requires forall r | 0 <= r < n && t.origins[r].Some? :: t.origins[r].value < w
    ensures CountRows(t, n, text) <= CountText(entries, w, text)
  {
    if n > 0 {
      if t.origins[n - 1].Some? && t.rows[n - 1].content == text {
        assert RowRanked(t, entries, n - 1);
        CountTextGrows(entries, t.origins[n - 1].value, w, text);
      } else {
        RowsAreBounded(t, clock, entries, n - 1, w, text);
      }
    }
  }

  /** The delivery row that has exactly `rank` equal ones before it. */
  lemma {:induction false} RowOfRank(t: Transcript, n: nat, text: string, rank: nat) returns (r: nat)
    requires n <= |t.rows| == |t.origins| && rank < CountRows(t, n, text)
    ensures r < n && t.origins[r].Some? && t.rows[r].content == text && CountRows(t, r, text) == rank
  {
    if rank < CountRows(t, n - 1, text) {
      r := RowOfRank(t, n - 1, text, rank);
    } else {
      r := n - 1;
    }
  }

  /** After `n` entries exactly those rows are used that have fewer equal rows before them
      than there were equal entries. */
  ghost predicate UsedByRank(t: Transcript, entries: seq<Entry>, n: nat, used: set<nat>)
    requires n <= |entries| && |t.rows| == |t.origins|
  {
    forall r | 0 <= r < |t.rows| :: t.rows[r].id in used <==> TakenBefore(t, entries, n, r)
  }

  ghost predicate TakenBefore(t: Transcript, entries: seq<Entry>, n: nat, r: nat)
    requires n <= |entries| && r < |t.rows| == |t.origins|
  {
    t.origins[r].Some? && CountRows(t, r, t.rows[r].content) < CountText(entries, n, t.rows[r].content)
  }

  ghost predicate Matched(t: Transcript, entries: seq<Entry>, k: nat)
    requires k < |entries| && |t.rows| == |t.origins|
  {
    CountText(entries, k, entries[k].text) < CountRows(t, |t.rows|, entries[k].text)
  }

  ghost predicate TimesInOrder(entries: seq<Entry>)
  {
    forall j, k | 0 <= j <= k < |entries| :: entries[j].at <= entries[k].at
  }

  /** The row at an entry's own rank was written for it or for a later one. */
  lemma RowOfOwnRankIsLater(t: Transcript, clock: nat, entries: seq<Entry>, n: nat, r: nat)
    requires RowInv(t, clock, entries) && n < |entries| && r < |t.rows| && t.origins[r].Some?
    requires CountRows(t, r, entries[n].text) == CountText(entries, n, entries[n].text)
    requires t.rows[r].content == entries[n].text
    ensures n <= t.origins[r].value < |entries|
  {
    assert RowRanked(t, entries, r);
    var w := t.origins[r].value;
    if w < n { CountTextGrows(entries, w, n, entries[n].text); }
  }

  /** Rows before the one at an entry's own rank are used up or do not fit it. */
  lemma EarlierRowsAreTaken(
    t: Transcript, clock: nat, entries: seq<Entry>, n: nat, used: set<nat>, r: nat, q: nat)
    requires RowInv(t, clock, entries) && n < |entries| && q < r <= |t.rows|
    requires UsedByRank(t, entries, n, used)
    requires CountRows(t, r, entries[n].text) <= CountText(entries, n, entries[n].text)
    ensures !Checkpoints(t.rows[q], entries[n], used)
  {
    CountRowsGrows(t, q, r, entries[n].text);
    assert t.origins[q].None? ==> !LooksDelivered(t.rows[q], entries[n]);
  }

  /** An entry with rows left to take gets the one of its own rank. */
  lemma MatchesRowOfRank(t: Transcript, clock: nat, entries: seq<Entry>, n: nat, used: set<nat>) returns (r: nat)
    requires TimesInOrder(entries) && RowInv(t, clock, entries) && n < |entries|
    requires UsedByRank(t, entries, n, used) && Matched(t, entries, n)
    ensures r < |t.rows| && t.origins[r].Some? && t.rows[r].content == entries[n].text
    ensures CountRows(t, r, entries[n].text) == CountText(entries, n, entries[n].text)
    ensures MatchingRow(t.rows, entries[n], used, 0) == Some(r)
  {
    r := RowOfRank(t, |t.rows|, entries[n].text, CountText(entries, n, entries[n].text));
    RowOfOwnRankIsLater(t, clock, entries, n, r);
    assert LooksDelivered(t.rows[r], entries[t.origins[r].value]);
    FirstOfRank(t, clock, entries, n, used, r);
  }

  lemma FirstMatch(rows: seq<Row>, entry: Entry, used: set<nat>, r: nat)
    requires r < |rows| && Checkpoints(rows[r], entry, used)
    requires forall q: nat | q < r :: !Checkpoints(rows[q], entry, used)
    ensures MatchingRow(rows, entry, used, 0) == Some(r)
  {
  }

  lemma FirstOfRank(t: Transcript, clock: nat, entries: seq<Entry>, n: nat, used: set<nat>, r: nat)
    requires RowInv(t, clock, entries) && n < |entries| && UsedByRank(t, entries, n, used)
    requires r < |t.rows| && LooksDelivered(t.rows[r], entries[n])
    requires CountRows(t, r, entries[n].text) == CountText(entries, n, entries[n].text)
    ensures MatchingRow(t.rows, entries[n], used, 0) == Some(r)
  {
    assert Checkpoints(t.rows[r], entries[n], used) by { assert !TakenBefore(t, entries, n, r); }
    forall q: nat | q < r ensures !Checkpoints(t.rows[q], entries[n], used) {
      EarlierRowsAreTaken(t, clock, entries, n, used, r, q);
    }
    FirstMatch(t.rows, entries[n], used, r);
  }

  lemma NoRowLeft(t: Transcript, clock: nat, entries: seq<Entry>, n: nat, used: set<nat>)
    requires RowInv(t, clock, entries) && n < |entries|
    requires UsedByRank(t, entries, n, used) && !Matched(t, entries, n)
    ensures MatchingRow(t.rows, entries[n], used, 0) == None
  {
    forall q: nat | q < |t.rows| ensures !Checkpoints(t.rows[q], entries[n], used) {
      EarlierRowsAreTaken(t, clock, entries, n, used, |t.rows|, q);
    }
  }

  /** One more entry takes at most the row of its own rank. */
  lemma TakenStep(t: Transcript, entries: seq<Entry>, n: nat, r: nat)
    requires n < |entries| && r < |t.rows| == |t.origins|
    ensures TakenBefore(t, entries, n + 1, r)
       <==> || TakenBefore(t, entries, n, r)
            || (&& t.origins[r].Some? && t.rows[r].content == entries[n].text
                && CountRows(t, r, entries[n].text) == CountText(entries, n, entries[n].text))
  {
  }

  lemma UsedStep(t: Transcript, clock: nat, entries: seq<Entry>, n: nat, used: set<nat>)
    requires TimesInOrder(entries) && RowInv(t, clock, entries) && n < |entries|
    requires UsedByRank(t, entries, n, used)
    ensures var row := MatchingRow(t.rows, entries[n], used, 0);
            && (row.Some? <==> Matched(t, entries, n))
            && UsedByRank(t, entries, n + 1, if row.Some? then used + {t.rows[row.value].id} else used)
  {
    var text := entries[n].text;
    if Matched(t, entries, n) {
      var m := MatchesRowOfRank(t, clock, entries, n, used);
      forall r | 0 <= r < |t.rows|
        ensures t.rows[r].id in used + {t.rows[m].id} <==> TakenBefore(t, entries, n + 1, r)
      {
        TakenStep(t, entries, n, r);
        if r < m { CountRowsGrows(t, r, m, text); }
        if m < r { CountRowsGrows(t, m, r, text); }
      }
    } else {
      NoRowLeft(t, clock, entries, n, used);
      forall r | 0 <= r < |t.rows| ensures t.rows[r].id in used <==> TakenBefore(t, entries, n + 1, r) {
        TakenStep(t, entries, n, r);
        CountRowsGrows(t, r, |t.rows|, text);
      }
    }
  }

  /** The rows used once entry `n` has been looked at too. */
  function UsedAfter(t: Transcript, entry: Entry, used: set<nat>): set<nat>
  {
    var row := MatchingRow(t.rows, entry, used, 0);
    if row.Some? then used + {t.rows[row.value].id} else used
  }

  /** One more entry carries the description on. */
  ghost predicate Carries(t: Transcript, entries: seq<Entry>, n: nat, used: set<nat>)
    requires |t.rows| == |t.origins|
  {
    n < |entries| && UsedByRank(t, entries, n, used) ==> UsedByRank(t, entries, n + 1, UsedAfter(t, entries[n], used))
  }

  lemma EveryEntryCarries(t: Transcript, clock: nat, entries: seq<Entry>)
    requires TimesInOrder(entries) && RowInv(t, clock, entries)
    ensures forall n: nat, used: set<nat> :: Carries(t, entries, n, used)
  {
    forall n: nat, used: set<nat> ensures Carries(t, entries, n, used) {
      if n < |entries| && UsedByRank(t, entries, n, used) { UsedStep(t, clock, entries, n, used); }
    }
  }

  lemma NothingUsed(t: Transcript, entries: seq<Entry>)
    requires |t.rows| == |t.origins|
    ensures UsedByRank(t, entries, 0, {})
  {
  }

  lemma {:induction false} CarriedByRank(t: Transcript, entries: seq<Entry>, n: nat)
    requires |t.rows| == |t.origins| && n <= |entries| && forall k: nat, used: set<nat> :: Carries(t, entries, k, used)
    ensures UsedByRank(t, entries, n, After(entries, t.rows, n).used)
  {
    if n == 0 {
      NothingUsed(t, entries);
    } else {
      CarriedByRank(t, entries, n - 1);
      assert Carries(t, entries, n - 1, After(entries, t.rows, n - 1).used);
    }
  }

  lemma RowsUsedByRank(t: Transcript, clock: nat, entries: seq<Entry>, n: nat)
    requires TimesInOrder(entries) && RowInv(t, clock, entries) && n <= |entries|
    ensures UsedByRank(t, entries, n, After(entries, t.rows, n).used)
  {
    EveryEntryCarries(t, clock, entries);
    CarriedByRank(t, entries, n);
  }

  /** The loop matches the entry exactly when a row of its text is left at its rank. */
  ghost predicate MatchedByRank(t: Transcript, entries: seq<Entry>, n: nat)
    requires |t.rows| == |t.origins|
  {
    n < |entries| ==>
      (MatchingRow(t.rows, entries[n], After(entries, t.rows, n).used, 0).Some? <==> Matched(t, entries, n))
  }

  lemma GreedyMatchesByRank(t: Transcript, clock: nat, entries: seq<Entry>)
    requires TimesInOrder(entries) && RowInv(t, clock, entries)
    ensures forall n: nat :: MatchedByRank(t, entries, n)
  {
    forall n: nat ensures MatchedByRank(t, entries, n) {
      if n < |entries| {
        RowsUsedByRank(t, clock, entries, n);
        UsedStep(t, clock, entries, n, After(entries, t.rows, n).used);
      }
    }
  }

  lemma {:induction false} QueuedByRank(t: Transcript, entries: seq<Entry>, n: nat, k: nat)
    requires |t.rows| == |t.origins| && n <= |entries| && forall m: nat :: MatchedByRank(t, entries, m)
    ensures k in After(entries, t.rows, n).queued <==> k < n && !entries[k].acked && !Matched(t, entries, k)
  {
    if n > 0 {
      QueuedByRank(t, entries, n - 1, k);
      assert MatchedByRank(t, entries, n - 1);
    }
  }

  /** A message in the transcript without its acknowledgement whose row goes to an earlier
      acceptance of the same text. */
  ghost predicate Stolen(t: Transcript, entries: seq<Entry>, k: nat)
    requires |t.rows| == |t.origins|
  {
    k < |entries| && !entries[k].acked && Written(t, k) && !Matched(t, entries, k)
  }

  ghost predicate RowStolen(s: State)
  {
    && Recovered(s.events).Some? && |s.transcript.rows| == |s.transcript.origins|
    && exists k: nat :: Stolen(s.transcript, Recovered(s.events).value, k)
  }

  /** What a restore queues: everything wanted, and whatever had its row stolen. */
  lemma RestoredIsWantedOrStolen(t: Transcript, events: seq<Event>, clock: nat, entries: seq<Entry>, k: nat)
    requires EntryInv(events, clock, entries) && RowInv(t, clock, entries) && FrontInv(events, t, entries)
    ensures k in Restored(entries, t.rows) <==> Wanted(t, entries, k) || Stolen(t, entries, k)
  {
    GreedyMatchesByRank(t, clock, entries);
    QueuedByRank(t, entries, |entries|, k);
    if Wanted(t, entries, k) {
      forall r | 0 <= r < |t.rows| && t.origins[r].Some? ensures t.origins[r].value < k {
        assert Written(t, t.origins[r].value);
      }
      RowsAreBounded(t, clock, entries, |t.rows|, k, entries[k].text);
    }
  }

  // ---- how many different acceptances the rows are for ----

  /** How many of the first `m` acceptances have this text and are in the set. */
  function CountIn(entries: seq<Entry>, m: nat, text: string, chosen: set<nat>): nat
    requires m <= |entries|
  {
    if m == 0 then 0
    else CountIn(entries, m - 1, text, chosen) + if entries[m - 1].text == text && m - 1 in chosen then 1 else 0
  }

  /** One more acceptance in the set counts once. */
  lemma {:induction false} CountInAdd(entries: seq<Entry>, m: nat, text: string, chosen: set<nat>, v: nat)
    requires m <= |entries| && v !in chosen
    ensures CountIn(entries, m, text, chosen + {v})
         == CountIn(entries, m, text, chosen) + if v < m && entries[v].text == text then 1 else 0
  {
    if m > 0 { CountInAdd(entries, m - 1, text, chosen, v); }
  }

  lemma {:induction false} CountInNone(entries: seq<Entry>, m: nat, text: string)
    requires m <= |entries|
    ensures CountIn(entries, m, text, {}) == 0
  {
    if m > 0 { CountInNone(entries, m - 1, text); }
  }

  /** The acceptances the first `n` rows were written for. */
  function Origins(t: Transcript, n: nat): set<nat>
    requires n <= |t.origins|
  {
    if n == 0 then {} else Origins(t, n - 1) + if t.origins[n - 1].Some? then {t.origins[n - 1].value} else {}
  }

  lemma {:induction false} OriginsAre(t: Transcript, n: nat, k: nat)
    requires n <= |t.origins|
    ensures k in Origins(t, n) <==> exists r | 0 <= r < n :: t.origins[r] == Some(k)
  {
    if n > 0 { OriginsAre(t, n - 1, k); }
  }

  ghost predicate OriginsIncrease(t: Transcript)
  {
    forall q, r | 0 <= q < r < |t.origins| && t.origins[q].Some? && t.origins[r].Some? ::
      t.origins[q].value < t.origins[r].value
  }

  /** There are at least as many rows of a text as acceptances they are for, and exactly as many
      when no acceptance was written twice. */
  lemma {:induction false} RowsCountOrigins(t: Transcript, clock: nat, entries: seq<Entry>, n: nat, text: string)
    requires RowInv(t, clock, entries) && n <= |t.rows|
    ensures CountIn(entries, |entries|, text, Origins(t, n)) <= CountRows(t, n, text)
    ensures OriginsIncrease(t) ==> CountIn(entries, |entries|, text, Origins(t, n)) == CountRows(t, n, text)
  {
    if n == 0 {
      CountInNone(entries, |entries|, text);
    } else {
      RowsCountOrigins(t, clock, entries, n - 1, text);
      if t.origins[n - 1].Some? {
        var v, before := t.origins[n - 1].value, Origins(t, n - 1);
        OriginsAre(t, n - 1, v);
        if v in before {
          assert before + {v} == before;
        } else {
          CountInAdd(entries, |entries|, text, before, v);
        }
      } else {
        assert Origins(t, n - 1) + {} == Origins(t, n - 1);
      }
    }
  }

  /** If every acceptance of a text up to `n` is in the set, they are all counted. */
  lemma {:induction false} CountInAll(entries: seq<Entry>, n: nat, m: nat, text: string, chosen: set<nat>)
    requires n <= m <= |entries| && forall j: nat | j < n && entries[j].text == text :: j in chosen
    ensures CountText(entries, n, text) <= CountIn(entries, m, text, chosen)
    decreases m
  {
    if n < m {
      CountInAll(entries, n, m - 1, text, chosen);
    } else if m > 0 {
      CountInAll(entries, n - 1, m - 1, text, chosen);
    }
  }

  /** No row is stolen from a message unless an equal one before it was reported undelivered. */
  lemma StolenOnlyAfterUndelivered(t: Transcript, events: seq<Event>, clock: nat, entries: seq<Entry>, k: nat)
    requires RowInv(t, clock, entries) && FrontInv(events, t, entries) && Stolen(t, entries, k)
    ensures exists j: nat :: && j < k && entries[j].text == entries[k].text && !Written(t, j)
                             && Undelivered(entries[j].text, entries[j].id) in events
  {
    var text, chosen := entries[k].text, Origins(t, |t.rows|);
    forall j: nat ensures j in chosen <==> Written(t, j) { OriginsAre(t, |t.rows|, j); }
    if forall j: nat | j < k && entries[j].text == text :: Written(t, j) {
      CountInAll(entries, k + 1, |entries|, text, chosen);
      RowsCountOrigins(t, clock, entries, |t.rows|, text);
      assert false;
    } else {
      var j: nat :| j < k && entries[j].text == text && !Written(t, j);
      assert !Wanted(t, entries, j);
    }
  }
}
