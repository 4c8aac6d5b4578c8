/** The stored summaries of one conversation: each supersedes the one before and covers
    the next stretch of history rows. */
module SummaryChain {
  import opened Options
  import opened Reconstruction

  datatype Compaction = Compaction(
    id: nat, fromId: nat, toId: nat, fromSequence: int, toSequence: int,
    directFrom: int, directTo: int, summary: string, sourceCount: int, supersedes: Option<nat>)

  /** What the compactor remembers of the newest summary. */
  datatype Head = Head(id: nat, fromId: nat, fromSequence: int, sourceCount: int)

  function HeadOf(c: Compaction): Head
  {
    Head(c.id, c.fromId, c.fromSequence, c.sourceCount)
  }

  /** The row a compaction of the first `n` units stores. */
  function CompactionInput(plan: Plan, active: Option<Head>, n: nat, text: string, id: nat): Compaction
    requires 1 <= n <= |plan.units|
  {
    var first, last, count := plan.units[0], plan.units[n - 1], MessageCount(plan.units, n);
    var input := Compaction(id, first.fromId, last.toId, first.fromSequence, last.toSequence,
                            first.fromSequence, last.toSequence, text, count, None);
    match active
    case None => input
    case Some(head) => input.(fromId := head.fromId, fromSequence := head.fromSequence,
                              sourceCount := count + head.sourceCount, supersedes := Some(head.id))
  }

  // ---- the current summary, as the query defines it ----

  ghost predicate Superseded(chain: seq<Compaction>, c: Compaction)
  {
    exists newer | newer in chain :: newer.supersedes == Some(c.id)
  }

  predicate Precedes(a: Compaction, b: Compaction)
  {
    a.toSequence > b.toSequence || (a.toSequence == b.toSequence && a.id >= b.id)
  }

  /** `head` is what the query returns: first among the rows nothing supersedes. */
  ghost predicate ActiveHead(chain: seq<Compaction>, head: Option<Compaction>)
  {
    match head
    case None => forall c | c in chain :: Superseded(chain, c)
    case Some(c) =>
      && c in chain && !Superseded(chain, c)
      && forall other | other in chain && !Superseded(chain, other) :: Precedes(c, other)
  }

  // ---- the store's own checks ----

  function Filter(p: Row -> bool, rows: seq<Row>): seq<Row>
  {
    if rows == [] then []
    else Filter(p, rows[..|rows| - 1]) + (if p(rows[|rows| - 1]) then [rows[|rows| - 1]] else [])
  }

  function After(rows: seq<Row>, sequence: int): seq<Row>
  {
    Filter((r: Row) => r.sequence > sequence, rows)
  }

  function Between(rows: seq<Row>, first: int, last: int): seq<Row>
  {
    Filter((r: Row) => first <= r.sequence <= last, rows)
  }

  predicate InDirect(c: Compaction, row: Row)
  {
    c.directFrom <= row.sequence <= c.directTo
  }

  /** The rows of a range that no stopped process left behind. */
  function CompleteBetween(rows: seq<Row>, first: int, last: int): seq<Row>
  {
    Filter((r: Row) => first <= r.sequence <= last && !r.incomplete, rows)
  }

  predicate Bounded(input: Compaction)
  {
    0 < input.fromSequence <= input.directFrom <= input.directTo <= input.toSequence
  }

  ghost predicate Unassigned(chain: seq<Compaction>, row: Row)
  {
    forall c | c in chain :: !InDirect(c, row)
  }

  /** Whether a child's store takes `input` as the next summary after `head`. It looks at
      complete rows only. */
  ghost predicate ChildStoreAccepts(rows: seq<Row>, chain: seq<Compaction>, head: Option<Compaction>, input: Compaction)
  {
    var priorCount := if head.Some? then head.value.sourceCount else 0;
    var after := if head.Some? then head.value.toSequence else 0;
    var covered := CompleteBetween(rows, input.directFrom, input.directTo);
    && Bounded(input) && input.sourceCount > 0 && input.directTo == input.toSequence
    && (match head
        case None => input.supersedes == None && input.directFrom == input.fromSequence
        case Some(h) => && input.supersedes == Some(h.id) && input.fromId == h.fromId
                        && input.fromSequence == h.fromSequence && input.directFrom > h.toSequence)
    && (forall r | r in rows && !r.incomplete :: !(after < r.sequence < input.directFrom))
    && covered != [] && |covered| == input.sourceCount - priorCount
    && covered[0].sequence == input.directFrom
    && covered[|covered| - 1].sequence == input.directTo && covered[|covered| - 1].id == input.toId
    && (priorCount == 0 ==> covered[0].id == input.fromId)
    && forall r | r in covered :: Unassigned(chain, r)
  }

  /** A session's store only wants one complete row that no summary has yet. */
  ghost predicate SessionStoreAccepts(rows: seq<Row>, chain: seq<Compaction>, input: Compaction)
  {
    Bounded(input) && exists r | r in rows && InDirect(input, r) :: !r.incomplete && Unassigned(chain, r)
  }

  ghost predicate StoreAccepts(
    kind: Kind, rows: seq<Row>, chain: seq<Compaction>, head: Option<Compaction>, input: Compaction)
  {
    match kind
    case Child => ChildStoreAccepts(rows, chain, head, input)
    case Session => SessionStoreAccepts(rows, chain, input)
  }

  /** What the store's answer turns out to depend on: the rows `input` covers by itself. */
  ghost predicate RangeAcceptable(kind: Kind, rows: seq<Row>, input: Compaction)
  {
    match kind
    case Child => forall r | r in rows && InDirect(input, r) :: !r.incomplete
    case Session => exists r | r in rows && InDirect(input, r) :: !r.incomplete
  }

  // ---- what a chain of commits looks like ----

  /** Rows are numbered from one up, in order, and their ids differ. */
  ghost predicate Ordered(rows: seq<Row>)
  {
    && (forall i | 0 <= i < |rows| :: rows[i].sequence > 0)
    && (forall i, j | 0 <= i < j < |rows| :: rows[i].sequence < rows[j].sequence)
    && (forall i, j | 0 <= i < j < |rows| :: rows[i].id != rows[j].id)
  }

  /** Summary `k` covers, by itself, the rows from `cuts[k]` up to `cuts[k + 1]`, and with
      the ones it supersedes all rows before `cuts[k + 1]`. */
  ghost predicate Link(rows: seq<Row>, chain: seq<Compaction>, cuts: seq<nat>, k: nat)
    requires k < |chain| && |cuts| == |chain| + 1
  {
    var c := chain[k];
    && cuts[k] < cuts[k + 1] <= |rows|
    && c.directFrom == rows[cuts[k]].sequence
    && c.directTo == rows[cuts[k + 1] - 1].sequence == c.toSequence && c.toId == rows[cuts[k + 1] - 1].id
    && c.fromSequence == rows[0].sequence && c.fromId == rows[0].id
    && c.sourceCount == cuts[k + 1]
    && c.supersedes == (if k == 0 then None else Some(chain[k - 1].id))
  }

  ghost predicate Tiles(rows: seq<Row>, chain: seq<Compaction>, cuts: seq<nat>)
  {
    && |cuts| == |chain| + 1 && cuts[0] == 0
    && (forall k: nat | k < |chain| :: Link(rows, chain, cuts, k))
    && (forall i, j | 0 <= i < j < |chain| :: chain[i].id != chain[j].id)
  }

  /** Every summary covers at least one row more. */
  lemma {:induction false} CutsCount(rows: seq<Row>, chain: seq<Compaction>, cuts: seq<nat>, k: nat)
    requires Tiles(rows, chain, cuts) && k < |cuts|
    ensures k <= cuts[k] <= |rows|
  {
    if k > 0 {
      CutsCount(rows, chain, cuts, k - 1);
      assert Link(rows, chain, cuts, k - 1);
    }
  }

  lemma {:induction false} CutsIncrease(rows: seq<Row>, chain: seq<Compaction>, cuts: seq<nat>, i: nat, j: nat)
    requires Tiles(rows, chain, cuts) && i < j < |cuts|
    ensures cuts[i] < cuts[j] <= |rows|
    decreases j
  {
    assert Link(rows, chain, cuts, j - 1);
    if i < j - 1 { CutsIncrease(rows, chain, cuts, i, j - 1); }
  }

  /** A direct range holds exactly the rows between its two cuts. */
  lemma DirectRangeIsSlice(rows: seq<Row>, chain: seq<Compaction>, cuts: seq<nat>, k: nat, i: nat)
    requires Ordered(rows) && Tiles(rows, chain, cuts) && k < |chain| && i < |rows|
    ensures InDirect(chain[k], rows[i]) <==> cuts[k] <= i < cuts[k + 1]
  {
    assert Link(rows, chain, cuts, k);
  }

  lemma {:induction false} SomeCutHolds(rows: seq<Row>, chain: seq<Compaction>, cuts: seq<nat>, i: nat, n: nat)
    returns (k: nat)
    requires Tiles(rows, chain, cuts) && n <= |chain| && i < cuts[n]
    ensures k < n && cuts[k] <= i < cuts[k + 1]
    decreases n
  {
    if i >= cuts[n - 1] { k := n - 1; } else { k := SomeCutHolds(rows, chain, cuts, i, n - 1); }
  }

  ghost predicate InSome(chain: seq<Compaction>, row: Row)
  {
    exists k: nat | k < |chain| :: InDirect(chain[k], row)
  }

  /** A row lies in some direct range exactly when it is covered. */
  lemma DirectRangesCover(rows: seq<Row>, chain: seq<Compaction>, cuts: seq<nat>, i: nat)
    requires Ordered(rows) && Tiles(rows, chain, cuts) && i < |rows|
    ensures InSome(chain, rows[i]) <==> i < cuts[|chain|]
  {
    if i < cuts[|chain|] {
      var k := SomeCutHolds(rows, chain, cuts, i, |chain|);
      DirectRangeIsSlice(rows, chain, cuts, k, i);
    }
    if k: nat :| k < |chain| && InDirect(chain[k], rows[i]) {
      DirectRangeIsSlice(rows, chain, cuts, k, i);
      if k + 1 < |chain| { CutsIncrease(rows, chain, cuts, k + 1, |chain|); }
    }
  }

  /** No row lies in two direct ranges. */
  lemma DirectRangesAreDisjoint(rows: seq<Row>, chain: seq<Compaction>, cuts: seq<nat>, j: nat, k: nat, i: nat)
    requires Ordered(rows) && Tiles(rows, chain, cuts) && j < k < |chain| && i < |rows|
    ensures !(InDirect(chain[j], rows[i]) && InDirect(chain[k], rows[i]))
  {
    DirectRangeIsSlice(rows, chain, cuts, j, i);
    DirectRangeIsSlice(rows, chain, cuts, k, i);
    if j + 1 < k { CutsIncrease(rows, chain, cuts, j + 1, k); }
  }

  /** Some direct range holds a row exactly when it is among the first `covered`. */
  ghost predicate CoverExactly(rows: seq<Row>, chain: seq<Compaction>, covered: nat)
  {
    forall i: nat | i < |rows| :: InSome(chain, rows[i]) <==> i < covered
  }

  ghost predicate Disjoint(rows: seq<Row>, chain: seq<Compaction>)
  {
    forall j: nat, k: nat, i: nat | j < k < |chain| && i < |rows| ::
      !(InDirect(chain[j], rows[i]) && InDirect(chain[k], rows[i]))
  }

  lemma TilesAreExact(rows: seq<Row>, chain: seq<Compaction>, cuts: seq<nat>)
    requires Ordered(rows) && Tiles(rows, chain, cuts)
    ensures CoverExactly(rows, chain, cuts[|chain|]) && Disjoint(rows, chain)
  {
    forall i: nat | i < |rows|
      ensures InSome(chain, rows[i]) <==> i < cuts[|chain|]
    {
      DirectRangesCover(rows, chain, cuts, i);
    }
    forall j: nat, k: nat, i: nat | j < k < |chain| && i < |rows|
      ensures !(InDirect(chain[j], rows[i]) && InDirect(chain[k], rows[i]))
    {
      DirectRangesAreDisjoint(rows, chain, cuts, j, k, i);
    }
  }

  /** Consecutive direct ranges meet: one ends at the row before the next begins. */
  lemma DirectRangesAreConsecutive(rows: seq<Row>, chain: seq<Compaction>, cuts: seq<nat>, k: nat)
    requires Ordered(rows) && Tiles(rows, chain, cuts) && k + 1 < |chain|
    ensures chain[k].directTo < chain[k + 1].directFrom
    ensures forall r | r in rows :: !(chain[k].directTo < r.sequence < chain[k + 1].directFrom)
  {
    assert Link(rows, chain, cuts, k) && Link(rows, chain, cuts, k + 1);
  }

  lemma {:induction false} FilterSlice(p: Row -> bool, rows: seq<Row>, a: nat, b: nat)
    requires a <= b <= |rows| && forall i | 0 <= i < |rows| :: p(rows[i]) <==> a <= i < b
    ensures Filter(p, rows) == rows[a..b]
  {
    if rows != [] {
      var n := |rows| - 1;
      var front := rows[..n];
      var a', b' := if a < n then a else n, if b < n then b else n;
      FilterSlice(p, front, a', b');
      assert p(rows[n]) <==> a <= n < b;
      assert rows[a..b] == front[a'..b'] + if a <= n < b then [rows[n]] else [];
    }
  }

  /** The head's range holds exactly the covered rows, and its count is their number. */
  ghost predicate HeadSpans(rows: seq<Row>, head: Compaction, covered: nat)
  {
    && covered <= |rows| && head.sourceCount == covered
    && Between(rows, head.fromSequence, head.toSequence) == rows[..covered]
  }

  lemma HeadCountsItsRows(rows: seq<Row>, chain: seq<Compaction>, cuts: seq<nat>)
    requires Ordered(rows) && Tiles(rows, chain, cuts) && chain != []
    ensures HeadSpans(rows, chain[|chain| - 1], cuts[|chain|])
  {
    var head := chain[|chain| - 1];
    assert Link(rows, chain, cuts, |chain| - 1);
    FilterSlice((r: Row) => head.fromSequence <= r.sequence <= head.toSequence, rows, 0, cuts[|chain|]);
  }

  lemma OnlyLastIsUnsuperseded(rows: seq<Row>, chain: seq<Compaction>, cuts: seq<nat>, k: nat)
    requires Tiles(rows, chain, cuts) && k < |chain|
    ensures Superseded(chain, chain[k]) <==> k + 1 < |chain|
  {
    if k + 1 < |chain| {
      assert Link(rows, chain, cuts, k + 1);
      assert chain[k + 1] in chain;
    }
    forall newer | newer in chain && newer.supersedes == Some(chain[k].id) ensures k + 1 < |chain| {
      var j :| 0 <= j < |chain| && chain[j] == newer;
      assert Link(rows, chain, cuts, j);
    }
  }

  /** The query always finds the newest summary, and nothing else. */
  lemma QueryFindsLast(rows: seq<Row>, chain: seq<Compaction>, cuts: seq<nat>, head: Option<Compaction>)
    requires Tiles(rows, chain, cuts)
    ensures ActiveHead(chain, head) <==> head == (if chain == [] then None else Some(chain[|chain| - 1]))
  {
    forall k: nat | k < |chain| ensures Superseded(chain, chain[k]) <==> k + 1 < |chain| {
      OnlyLastIsUnsuperseded(rows, chain, cuts, k);
    }
    if chain != [] { assert chain[|chain| - 1] in chain; }
  }

  /** The history read after the head is what no summary covers. */
  lemma HistoryAfterHead(rows: seq<Row>, chain: seq<Compaction>, cuts: seq<nat>)
    requires Ordered(rows) && Tiles(rows, chain, cuts)
    ensures cuts[|chain|] <= |rows|
    ensures After(rows, if chain == [] then 0 else chain[|chain| - 1].toSequence) == rows[cuts[|chain|]..]
  {
    var after := if chain == [] then 0 else chain[|chain| - 1].toSequence;
    if chain != [] { assert Link(rows, chain, cuts, |chain| - 1); }
    FilterSlice((r: Row) => r.sequence > after, rows, cuts[|chain|], |rows|);
  }

  /** A row behind the last cut is in no direct range. */
  lemma UncoveredIsUnassigned(rows: seq<Row>, chain: seq<Compaction>, cuts: seq<nat>, i: nat, c: Compaction)
    requires Ordered(rows) && Tiles(rows, chain, cuts) && cuts[|chain|] <= i < |rows| && c in chain
    ensures !InDirect(c, rows[i])
  {
    var k: nat :| k < |chain| && chain[k] == c;
    DirectRangeIsSlice(rows, chain, cuts, k, i);
    if k + 1 < |chain| { CutsIncrease(rows, chain, cuts, k + 1, |chain|); }
  }

  /** The rows the store finds in the range a new link covers by itself. */
  lemma LinkCovers(rows: seq<Row>, chain: seq<Compaction>, cuts: seq<nat>, k: nat)
    requires Ordered(rows) && k < |chain| && |cuts| == |chain| + 1 && Link(rows, chain, cuts, k)
    ensures Between(rows, chain[k].directFrom, chain[k].directTo) == rows[cuts[k]..cuts[k + 1]]
  {
    var c := chain[k];
    FilterSlice((r: Row) => c.directFrom <= r.sequence <= c.directTo, rows, cuts[k], cuts[k + 1]);
  }

  lemma {:induction false} FilterKeepsAll(p: Row -> bool, q: Row -> bool, rows: seq<Row>)
    requires forall r | r in rows :: p(r) <==> q(r)
    ensures Filter(p, rows) == Filter(q, rows)
  {
    if rows != [] {
      assert rows[|rows| - 1] in rows;
      FilterKeepsAll(p, q, rows[..|rows| - 1]);
    }
  }

  /** A stricter filter keeps no more, and fewer when it drops a row the other keeps. */
  lemma {:induction false} FilterDrops(p: Row -> bool, q: Row -> bool, rows: seq<Row>)
    requires forall r | r in rows && p(r) :: q(r)
    ensures |Filter(p, rows)| <= |Filter(q, rows)|
    ensures (exists r | r in rows :: q(r) && !p(r)) ==> |Filter(p, rows)| < |Filter(q, rows)|
  {
    if rows != [] {
      assert rows == rows[..|rows| - 1] + [rows[|rows| - 1]];
      FilterDrops(p, q, rows[..|rows| - 1]);
    }
  }

  /** The complete rows of a range are all of it, or fewer when one of them is incomplete. */
  lemma CompleteRange(rows: seq<Row>, c: Compaction)
    ensures var all, complete := Between(rows, c.directFrom, c.directTo),
            CompleteBetween(rows, c.directFrom, c.directTo);
            if RangeAcceptable(Child, rows, c) then complete == all else |complete| < |all|
  {
    var inside := (r: Row) => c.directFrom <= r.sequence <= c.directTo;
    var complete := (r: Row) => c.directFrom <= r.sequence <= c.directTo && !r.incomplete;
    if RangeAcceptable(Child, rows, c) {
      forall r | r in rows ensures complete(r) <==> inside(r) { assert InDirect(c, r) <==> inside(r); }
      FilterKeepsAll(complete, inside, rows);
    } else {
      var r :| r in rows && InDirect(c, r) && r.incomplete;
      assert inside(r) && !complete(r);
      FilterDrops(complete, inside, rows);
    }
  }

  /** Rows that link on to the chain belong to no summary yet. */
  lemma LinkIsUnassigned(rows: seq<Row>, chain: seq<Compaction>, cuts: seq<nat>, cut: nat, r: Row)
    requires Ordered(rows) && Tiles(rows, chain, cuts) && cuts[|chain|] <= cut <= |rows|
    requires r in rows[cuts[|chain|]..cut]
    ensures Unassigned(chain, r)
  {
    var after := cuts[|chain|];
    var i :| 0 <= i < cut - after && rows[after..cut][i] == r;
    forall d | d in chain ensures !InDirect(d, r) {
      UncoveredIsUnassigned(rows, chain, cuts, after + i, d);
    }
  }

  /** Everything a child's store checks besides completeness holds of a row that links on. */
  lemma LinkPassesChecks(rows: seq<Row>, chain: seq<Compaction>, cuts: seq<nat>, cut: nat, c: Compaction,
                         head: Option<Compaction>)
    requires Ordered(rows) && Tiles(rows, chain, cuts) && ActiveHead(chain, head)
    requires Link(rows, chain + [c], cuts + [cut], |chain|)
    requires CompleteBetween(rows, c.directFrom, c.directTo) == Between(rows, c.directFrom, c.directTo)
    ensures ChildStoreAccepts(rows, chain, head, c)
  {
    var after := cuts[|chain|];
    assert CompleteBetween(rows, c.directFrom, c.directTo) == rows[after..cut] by {
      LinkCovers(rows, chain + [c], cuts + [cut], |chain|);
    }
    assert head == (if chain == [] then None else Some(chain[|chain| - 1])) by {
      QueryFindsLast(rows, chain, cuts, head);
    }
    if chain != [] { assert Link(rows, chain, cuts, |chain| - 1); }
    forall r | r in rows[after..cut] ensures Unassigned(chain, r) {
      LinkIsUnassigned(rows, chain, cuts, cut, r);
    }
  }

  /** With fewer complete rows than rows, the count differs. */
  lemma LinkCountDiffers(rows: seq<Row>, chain: seq<Compaction>, cuts: seq<nat>, cut: nat, c: Compaction,
                         head: Option<Compaction>)
    requires Ordered(rows) && Tiles(rows, chain, cuts) && ActiveHead(chain, head)
    requires Link(rows, chain + [c], cuts + [cut], |chain|)
    requires |CompleteBetween(rows, c.directFrom, c.directTo)| < |Between(rows, c.directFrom, c.directTo)|
    ensures !ChildStoreAccepts(rows, chain, head, c)
  {
    LinkCovers(rows, chain + [c], cuts + [cut], |chain|);
    QueryFindsLast(rows, chain, cuts, head);
    if chain != [] { assert Link(rows, chain, cuts, |chain| - 1); }
  }

  lemma SessionAcceptsLink(rows: seq<Row>, chain: seq<Compaction>, cuts: seq<nat>, cut: nat, c: Compaction)
    requires Ordered(rows) && Tiles(rows, chain, cuts) && Link(rows, chain + [c], cuts + [cut], |chain|)
    ensures SessionStoreAccepts(rows, chain, c) <==> RangeAcceptable(Session, rows, c)
  {
    forall r | r in rows && InDirect(c, r) ensures Unassigned(chain, r) {
      var i :| 0 <= i < |rows| && rows[i] == r;
      assert r == rows[cuts[|chain|]..cut][i - cuts[|chain|]];
      LinkIsUnassigned(rows, chain, cuts, cut, r);
    }
  }

  /** Of a row that links on to the chain, a child's store accepts exactly those that cover no
      incomplete row, and a session's store exactly those that cover some complete one. */
  lemma StoreAcceptsLink(
    kind: Kind, rows: seq<Row>, chain: seq<Compaction>, cuts: seq<nat>, cut: nat, c: Compaction,
        head: Option<Compaction>)
    requires Ordered(rows) && Tiles(rows, chain, cuts) && ActiveHead(chain, head)
    requires Link(rows, chain + [c], cuts + [cut], |chain|)
    ensures StoreAccepts(kind, rows, chain, head, c) <==> RangeAcceptable(kind, rows, c)
  {
    if kind.Session? {
      SessionAcceptsLink(rows, chain, cuts, cut, c);
    } else {
      CompleteRange(rows, c);
      if RangeAcceptable(Child, rows, c) {
        LinkPassesChecks(rows, chain, cuts, cut, c, head);
      } else {
        LinkCountDiffers(rows, chain, cuts, cut, c, head);
      }
    }
  }
}
