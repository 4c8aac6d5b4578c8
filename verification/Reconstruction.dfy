/** The reconstruction plan: durable history rows grouped into indivisible units, and where
    those units sit in an assembled prompt. */
module Reconstruction {
  import opened Conversation
  import opened Options

  /** A prompt message: an assistant message carries tool calls, a tool result answers one. */
  datatype Message = Message(role: Role, text: string, calls: set<nat>, answers: Option<nat>)

  /** A stored message. `incomplete` marks what a stopped process left behind; it stays part of
      the history. */
  datatype Row = Row(id: nat, sequence: int, turn: nat, message: Message, incomplete: bool)

  /** What a history query may hand over. */
  datatype Stored = Missing | UnknownRole | Known(row: Row)

  /** A session unit belongs to its turn; a child has no turns, so a unit is its own. */
  datatype Kind = Session | Child

  datatype Unit = Unit(fromId: nat, toId: nat, fromSequence: int, toSequence: int, turn: nat, roles: seq<Role>)

  datatype Plan = Plan(lead: nat, hasSummary: bool, units: seq<Unit>)

  datatype BuildResult = Built(plan: Plan) | NilMessage | BadRole

  // ---- building units ----

  function NewUnit(kind: Kind, row: Row): Unit
  {
    Unit(row.id, row.id, row.sequence, row.sequence, if kind.Session? then row.turn else row.id, [row.message.role])
  }

  function Extended(unit: Unit, row: Row): Unit
  {
    unit.(toId := row.id, toSequence := row.sequence, roles := unit.roles + [row.message.role])
  }

  /** Add one row: a tool result joins the open unit, anything else starts a new one. */
  function AddRow(kind: Kind, units: seq<Unit>, row: Row): seq<Unit>
  {
    if row.message.role == Tool && units != []
    then units[|units| - 1 := Extended(units[|units| - 1], row)]
    else units + [NewUnit(kind, row)]
  }

  function Units(kind: Kind, rows: seq<Row>): seq<Unit>
  {
    if rows == [] then [] else AddRow(kind, Units(kind, rows[..|rows| - 1]), rows[|rows| - 1])
  }

  lemma UnitsAppend(kind: Kind, rows: seq<Row>, row: Row)
    ensures Units(kind, rows + [row]) == AddRow(kind, Units(kind, rows), row)
  {
    assert (rows + [row])[..|rows|] == rows;
  }

  /** The rows of a history that holds no missing row and no unknown role. */
  ghost function Rows(stored: seq<Stored>): seq<Row>
    requires forall i | 0 <= i < |stored| :: stored[i].Known?
  {
    seq(|stored|, i requires 0 <= i < |stored| => stored[i].row)
  }

  method BuildReconstructionPlan(kind: Kind, lead: nat, hasSummary: bool, stored: seq<Stored>) returns (r: BuildResult)
    ensures r.Built? <==> forall i | 0 <= i < |stored| :: stored[i].Known?
    ensures r.Built? ==> r.plan == Plan(lead, hasSummary, Units(kind, Rows(stored)))
    ensures !r.Built? ==> exists i | 0 <= i < |stored| ::
              && (forall j | 0 <= j < i :: stored[j].Known?)
              && (if r.NilMessage? then stored[i].Missing? else stored[i].UnknownRole?)
  {
    var units: seq<Unit> := [];
    for k := 0 to |stored|
      invariant forall i | 0 <= i < k :: stored[i].Known?
      invariant units == Units(kind, Rows(stored[..k]))
    {
      if stored[k].Missing? {
        return NilMessage;
      }
      if stored[k].UnknownRole? {
        return BadRole;
      }
      var row := stored[k].row;
      assert Rows(stored[..k + 1]) == Rows(stored[..k]) + [row];
      UnitsAppend(kind, Rows(stored[..k]), row);
      if row.message.role == Tool && |units| > 0 {
        var unit := units[|units| - 1];
        var roles := unit.roles + [row.message.role];
        units := units[|units| - 1 := unit.(toId := row.id, toSequence := row.sequence, roles := roles)];
        continue;
      }
      units := units + [NewUnit(kind, row)];
    }
    assert stored[..|stored|] == stored;
    r := Built(Plan(lead, hasSummary, units));
  }

  // ---- what a plan says ----

  /** How many assembled messages the first `n` units cover. */
  function MessageCount(units: seq<Unit>, n: nat): nat
    requires n <= |units|
  {
    if n == 0 then 0 else MessageCount(units, n - 1) + |units[n - 1].roles|
  }

  function Total(units: seq<Unit>): nat
  {
    MessageCount(units, |units|)
  }

  /** Unit `u` is exactly the rows from index `start` on. */
  ghost predicate Covers(kind: Kind, u: Unit, rows: seq<Row>, start: nat)
  {
    var end := start + |u.roles|;
    && start < end <= |rows|
    && u.fromId == rows[start].id && u.fromSequence == rows[start].sequence
    && u.toId == rows[end - 1].id && u.toSequence == rows[end - 1].sequence
    && u.turn == (if kind.Session? then rows[start].turn else rows[start].id)
    && (forall i | 0 <= i < |u.roles| :: u.roles[i] == rows[start + i].message.role)
    && (forall i | start < i < end :: rows[i].message.role == Tool)
  }

  ghost predicate CoversAt(kind: Kind, units: seq<Unit>, rows: seq<Row>, k: nat)
    requires k < |units|
  {
    && Covers(kind, units[k], rows, MessageCount(units, k))
    && (k > 0 ==> units[k].roles[0] != Tool)
  }

  /** The units cut the rows into consecutive pieces, and only the first may open on a tool result. */
  ghost predicate Partitions(kind: Kind, units: seq<Unit>, rows: seq<Row>)
  {
    && Total(units) == |rows|
    && forall k: nat | k < |units| :: CoversAt(kind, units, rows, k)
  }

  lemma {:induction false} CountPrefix(units: seq<Unit>, units': seq<Unit>, n: nat)
    requires n <= |units| && n <= |units'| && forall k | 0 <= k < n :: |units[k].roles| == |units'[k].roles|
    ensures MessageCount(units, n) == MessageCount(units', n)
  {
    if n > 0 { CountPrefix(units, units', n - 1); }
  }

  lemma {:induction false} CountGrows(units: seq<Unit>, m: nat, n: nat)
    requires m <= n <= |units|
    ensures MessageCount(units, m) <= MessageCount(units, n)
    ensures m < n ==> MessageCount(units, m) + |units[m].roles| <= MessageCount(units, n)
    decreases n
  {
    if m < n { CountGrows(units, m, n - 1); }
  }

  /** Rows added behind a unit do not change what it covers. */
  lemma CoversGrows(kind: Kind, u: Unit, rows: seq<Row>, row: Row, start: nat)
    requires Covers(kind, u, rows, start)
    ensures Covers(kind, u, rows + [row], start)
  {
  }

  /** A tool result right behind a unit joins it. */
  lemma CoversExtends(kind: Kind, u: Unit, rows: seq<Row>, row: Row, start: nat)
    requires Covers(kind, u, rows, start) && start + |u.roles| == |rows| && row.message.role == Tool
    ensures Covers(kind, Extended(u, row), rows + [row], start)
  {
  }

  lemma NewUnitPartitions(kind: Kind, units: seq<Unit>, rows: seq<Row>, row: Row)
    requires Partitions(kind, units, rows) && (row.message.role != Tool || units == [])
    ensures Partitions(kind, units + [NewUnit(kind, row)], rows + [row])
  {
    var units' := units + [NewUnit(kind, row)];
    forall k: nat | k < |units'| ensures CoversAt(kind, units', rows + [row], k) {
      CountPrefix(units, units', k);
      if k < |units| {
        assert CoversAt(kind, units, rows, k);
        CoversGrows(kind, units[k], rows, row, MessageCount(units, k));
      }
    }
    CountPrefix(units, units', |units|);
    assert Total(units') == MessageCount(units', |units|) + 1;
  }

  lemma ExtendedPartitions(kind: Kind, units: seq<Unit>, rows: seq<Row>, row: Row)
    requires Partitions(kind, units, rows) && row.message.role == Tool && units != []
    ensures Partitions(kind, units[|units| - 1 := Extended(units[|units| - 1], row)], rows + [row])
  {
    var last := |units| - 1;
    var units' := units[last := Extended(units[last], row)];
    assert CoversAt(kind, units, rows, last);
    forall k: nat | k < |units'| ensures CoversAt(kind, units', rows + [row], k) {
      CountPrefix(units, units', k);
      if k < last {
        assert CoversAt(kind, units, rows, k);
        CoversGrows(kind, units[k], rows, row, MessageCount(units, k));
      } else {
        CoversExtends(kind, units[k], rows, row, MessageCount(units, k));
      }
    }
    CountPrefix(units, units', last);
  }

  lemma {:induction false} UnitsPartition(kind: Kind, rows: seq<Row>)
    ensures Partitions(kind, Units(kind, rows), rows)
  {
    if rows != [] {
      var front := rows[..|rows| - 1];
      UnitsPartition(kind, front);
      var units, row := Units(kind, front), rows[|rows| - 1];
      assert rows == front + [row];
      if row.message.role == Tool && units != [] {
        ExtendedPartitions(kind, units, front, row);
      } else {
        NewUnitPartitions(kind, units, front, row);
      }
    }
  }

  // ---- coverable units ----

  /** The units that stay raw: the newest turn, however long. */
  function Coverable(units: seq<Unit>, bound: nat): (count: nat)
    requires bound <= |units|
    ensures count <= bound
    ensures forall k | count <= k < bound :: units[k].turn == units[|units| - 1].turn
    ensures count > 0 ==> units[count - 1].turn != units[|units| - 1].turn
  {
    if bound > 0 && units[bound - 1].turn == units[|units| - 1].turn then Coverable(units, bound - 1) else bound
  }

  method CoverableUnits(units: seq<Unit>) returns (count: nat)
    ensures count == Coverable(units, |units|)
    ensures units != [] ==> count < |units|
  {
    if |units| == 0 {
      return 0;
    }
    var newest := units[|units| - 1].turn;
    count := |units|;
    while count > 0 && units[count - 1].turn == newest
      invariant count <= |units|
      invariant Coverable(units, count) == Coverable(units, |units|)
    {
      count := count - 1;
    }
  }

  lemma {:induction false} CoverableAt(units: seq<Unit>, bound: nat, count: nat)
    requires count <= bound <= |units| && forall k | count <= k < bound :: units[k].turn == units[|units| - 1].turn
    requires count > 0 ==> units[count - 1].turn != units[|units| - 1].turn
    ensures Coverable(units, bound) == count
  {
    if count < bound { CoverableAt(units, bound - 1, count); }
  }

  /** Covering units takes exactly as many off what can still be covered. */
  lemma CoveringLeavesTheRest(units: seq<Unit>, n: nat)
    requires n <= Coverable(units, |units|) && units != []
    ensures n < |units| && Coverable(units[n..], |units| - n) == Coverable(units, |units|) - n
  {
    var count := Coverable(units, |units|);
    var left := units[n..];
    assert left[|left| - 1] == units[|units| - 1];
    forall k | count - n <= k < |left| ensures left[k].turn == left[|left| - 1].turn {
      assert left[k] == units[n + k];
    }
    if count - n > 0 { assert left[count - n - 1] == units[count - 1]; }
    CoverableAt(left, |left|, count - n);
  }

  /** In a child plan every unit is its own turn, so exactly the last one stays raw. */
  lemma ChildLeavesLastUnitRaw(rows: seq<Row>)
    requires forall i, j | 0 <= i < j < |rows| :: rows[i].id != rows[j].id
    requires rows != []
    ensures var units := Units(Child, rows);
            units != [] && Coverable(units, |units|) == |units| - 1
  {
    var units := Units(Child, rows);
    UnitsPartition(Child, rows);
    assert units != [];
    if |units| > 1 {
      assert CoversAt(Child, units, rows, |units| - 2);
      assert CoversAt(Child, units, rows, |units| - 1);
    }
    CoverableAt(units, |units|, |units| - 1);
  }

  // ---- verifying and advancing a plan ----

  /** The unit's roles sit in the transcript from `index` on. */
  ghost predicate Matches(messages: seq<Message>, index: nat, unit: Unit)
  {
    && index + |unit.roles| <= |messages|
    && forall i | 0 <= i < |unit.roles| :: messages[index + i].role == unit.roles[i]
  }

  ghost predicate MatchesAt(plan: Plan, messages: seq<Message>, k: nat)
    requires k < |plan.units|
  {
    Matches(messages, plan.lead + MessageCount(plan.units, k), plan.units[k])
  }

  ghost predicate Verifies(plan: Plan, messages: seq<Message>)
  {
    && !(plan.hasSummary && plan.lead == 0)
    && forall k: nat | k < |plan.units| :: MatchesAt(plan, messages, k)
  }

  method VerifyUnitRoles(messages: seq<Message>, index: nat, unit: Unit) returns (ok: bool)
    requires index + |unit.roles| <= |messages|
    ensures ok <==> Matches(messages, index, unit)
  {
    for offset := 0 to |unit.roles|
      invariant forall i | 0 <= i < offset :: messages[index + i].role == unit.roles[i]
    {
      if messages[index + offset].role != unit.roles[offset] {
        return false;
      }
    }
    return true;
  }

  /** Check every unit in turn; stop at the first that does not match. */
  method Verify(plan: Plan, messages: seq<Message>) returns (ok: bool)
    ensures ok <==> Verifies(plan, messages)
  {
    if plan.hasSummary && plan.lead == 0 {
      return false;
    }
    var index := plan.lead;
    for k := 0 to |plan.units|
      invariant index == plan.lead + MessageCount(plan.units, k)
      invariant forall j: nat | j < k :: MatchesAt(plan, messages, j)
    {
      var unit := plan.units[k];
      if index + |unit.roles| > |messages| {
        assert !MatchesAt(plan, messages, k);
        return false;
      }
      var matches := VerifyUnitRoles(messages, index, unit);
      assert matches <==> MatchesAt(plan, messages, k);
      if !matches {
        return false;
      }
      index := index + |unit.roles|;
    }
    ok := true;
  }

  lemma {:induction false} CountSuffix(units: seq<Unit>, n: nat, k: nat)
    requires n + k <= |units|
    ensures MessageCount(units, n + k) == MessageCount(units, n) + MessageCount(units[n..], k)
  {
    if k > 0 { CountSuffix(units, n, k - 1); }
  }

  function SummaryStart(plan: Plan): int
  {
    if plan.hasSummary then plan.lead - 1 else plan.lead
  }

  function Advance(plan: Plan, n: nat): Plan
    requires n <= |plan.units| && SummaryStart(plan) >= 0
  {
    Plan(SummaryStart(plan) + 1, true, plan.units[n..])
  }

  /** The transcript with the first `n` units, and any summary before them, replaced by one message. */
  function ReplacePrefix(plan: Plan, messages: seq<Message>, n: nat, summary: Message): seq<Message>
    requires n <= |plan.units| && 0 <= SummaryStart(plan)
    requires plan.lead + MessageCount(plan.units, n) <= |messages|
  {
    messages[..SummaryStart(plan)] + [summary] + messages[plan.lead + MessageCount(plan.units, n)..]
  }

  /** What a verified plan covers lies inside the transcript. */
  lemma CoveredIsInside(plan: Plan, messages: seq<Message>, n: nat)
    requires Verifies(plan, messages) && n <= |plan.units| && plan.units != []
    ensures SummaryStart(plan) >= 0 && plan.lead + MessageCount(plan.units, n) <= |messages|
  {
    var last := |plan.units| - 1;
    assert MatchesAt(plan, messages, last);
    CountGrows(plan.units, n, |plan.units|);
  }

  /** A verified plan, advanced, verifies against the rewritten transcript. */
  lemma AdvanceVerifies(plan: Plan, messages: seq<Message>, n: nat, summary: Message)
    requires Verifies(plan, messages) && n <= |plan.units| && plan.units != []
    ensures SummaryStart(plan) >= 0 && plan.lead + MessageCount(plan.units, n) <= |messages|
    ensures Verifies(Advance(plan, n), ReplacePrefix(plan, messages, n, summary))
  {
    CoveredIsInside(plan, messages, n);
    var left := plan.units[n..];
    var rewritten := ReplacePrefix(plan, messages, n, summary);
    var shift := plan.lead + MessageCount(plan.units, n) - (SummaryStart(plan) + 1);
    forall k: nat | k < |left|
      ensures MatchesAt(Advance(plan, n), rewritten, k)
    {
      CountSuffix(plan.units, n, k);
      var index := SummaryStart(plan) + 1 + MessageCount(left, k);
      assert MatchesAt(plan, messages, n + k);
      forall i | 0 <= i < |left[k].roles| ensures rewritten[index + i].role == left[k].roles[i] {
        assert rewritten[index + i] == messages[index + shift + i];
      }
    }
  }

  /** One row more, seen from a unit boundary. */
  lemma AddRowSuffix(kind: Kind, units: seq<Unit>, n: nat, row: Row)
    requires n < |units|
    ensures |AddRow(kind, units, row)| >= n
    ensures AddRow(kind, units, row)[n..] == AddRow(kind, units[n..], row)
  {
    assert units[n..][|units| - n - 1] == units[|units| - 1];
  }

  /** Rebuilding the plan from the rows after a unit boundary gives the advanced units: a
      refresh from the store and advancing in place agree. */
  lemma {:induction false} RebuildEqualsAdvance(kind: Kind, rows: seq<Row>, n: nat)
    requires n < |Units(kind, rows)|
    ensures MessageCount(Units(kind, rows), n) <= |rows|
    ensures Units(kind, rows[MessageCount(Units(kind, rows), n)..]) == Units(kind, rows)[n..]
    decreases |rows|
  {
    var front, last := rows[..|rows| - 1], rows[|rows| - 1];
    var before, units := Units(kind, front), Units(kind, rows);
    assert units == AddRow(kind, before, last);
    CountPrefix(units, before, n);
    var cut := MessageCount(units, n);
    if n == |before| {
      UnitsPartition(kind, front);
      assert rows[cut..] == [last];
      assert [last][..0] == [];
    } else {
      RebuildEqualsAdvance(kind, front, n);
      assert rows[cut..] == front[cut..] + [last];
      UnitsAppend(kind, front[cut..], last);
      AddRowSuffix(kind, before, n, last);
    }
  }
}
