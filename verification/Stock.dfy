/** Stock rows and the four operations on them (inventory/service.py), as functions of the
    rows. `reserved` counts units promised to unpaid orders, `quantity` what exists. */
module Stock {
  import opened Prelude
  import opened Lines

  datatype Row = Row(quantity: int, reserved: int) {
    function Available(): int {
      quantity - reserved
    }

    predicate Sound() {
      0 <= reserved <= quantity
    }
  }

  type Rows = map<VariantId, Row>

  datatype Movement = Movement(variantId: VariantId, delta: int, reason: string, note: Option<string>)

  datatype Op =
    | Reserve(variantId: VariantId, quantity: int)
    | Release(variantId: VariantId, quantity: int)
    | Commit(variantId: VariantId, quantity: int)
    | Adjust(variantId: VariantId, delta: int, reason: string, note: Option<string>)

  // ----- one operation -----

  /** Effect of an operation on the row of its variant; None is a missing row. */
  function ApplyOne(row: Option<Row>, op: Op): Result<Option<Row>> {
    match op
    case Reserve(_, q) =>
      if q <= 0 then Err(InvalidQuantity)
      else if row.None? || row.value.Available() < q then Err(InsufficientStock)
      else Ok(Some(row.value.(reserved := row.value.reserved + q)))
    case Release(_, q) =>
      if q <= 0 then Ok(row)
      else if row.None? then Err(NoStockRecord)
      else Ok(Some(row.value.(reserved := Max(0, row.value.reserved - q))))
    case Commit(_, q) =>
      if q <= 0 then Ok(row)
      else if row.None? then Err(NoStockRecord)
      else Ok(Some(Row(Max(0, row.value.quantity - q), Max(0, row.value.reserved - q))))
    case Adjust(_, delta, _, _) =>
      var item := if row.None? then Row(0, 0) else row.value;
      if item.quantity + delta < item.reserved then Err(InsufficientStock)
      else Ok(Some(item.(quantity := Max(0, item.quantity + delta))))
  }

  function Get(rows: Rows, v: VariantId): Option<Row> {
    if v in rows then Some(rows[v]) else None
  }

  function Put(rows: Rows, v: VariantId, row: Option<Row>): Rows {
    if row.None? then rows else rows[v := row.value]
  }

  function Apply(rows: Rows, op: Op): Result<Rows> {
    var row :- ApplyOne(Get(rows, op.variantId), op);
    Ok(Put(rows, op.variantId, row))
  }

  /** The ledger entry an accepted operation appends. */
  function Entries(op: Op): seq<Movement> {
    match op
    case Reserve(v, q) => [Movement(v, q, "reserve", None)]
    case Release(v, q) => if q <= 0 then [] else [Movement(v, -q, "release", None)]
    case Commit(v, q) => if q <= 0 then [] else [Movement(v, -q, "commit", None)]
    case Adjust(v, delta, reason, note) => [Movement(v, delta, reason, note)]
  }

  // ----- a transaction's operations, one after the other -----

  function ApplyAll(rows: Rows, ops: seq<Op>): Result<Rows> {
    if ops == [] then Ok(rows)
    else
      var before :- ApplyAll(rows, ops[..|ops| - 1]);
      Apply(before, ops[|ops| - 1])
  }

  function EntriesOfAll(ops: seq<Op>): seq<Movement> {
    if ops == [] then [] else EntriesOfAll(ops[..|ops| - 1]) + Entries(ops[|ops| - 1])
  }

  function ReserveOps(lines: seq<LineInput>): (ops: seq<Op>)
    ensures |ops| == |lines|
  {
    seq(|lines|, i requires 0 <= i < |lines| => Reserve(lines[i].variantId, lines[i].quantity))
  }

  function ReleaseOps(lines: seq<LineInput>): (ops: seq<Op>)
    ensures |ops| == |lines|
  {
    seq(|lines|, i requires 0 <= i < |lines| => Release(lines[i].variantId, lines[i].quantity))
  }

  function CommitOps(lines: seq<LineInput>): (ops: seq<Op>)
    ensures |ops| == |lines|
  {
    seq(|lines|, i requires 0 <= i < |lines| => Commit(lines[i].variantId, lines[i].quantity))
  }

  lemma {:induction false} ApplyAllStops(rows: Rows, ops: seq<Op>, i: nat)
    requires i <= |ops| && ApplyAll(rows, ops[..i]).Err?
    ensures ApplyAll(rows, ops) == Err(ApplyAll(rows, ops[..i]).error)
  {
    if i < |ops| {
      assert ops[..|ops| - 1][..i] == ops[..i];
      ApplyAllStops(rows, ops[..|ops| - 1], i);
    } else {
      assert ops[..i] == ops;
    }
  }

  // ----- soundness of rows -----

  ghost predicate SoundRows(rows: Rows) {
    forall v :: v in rows ==> rows[v].Sound()
  }

  lemma {:induction false} ApplyAllKeepsSound(rows: Rows, ops: seq<Op>)
    requires SoundRows(rows) && ApplyAll(rows, ops).Ok?
    ensures SoundRows(ApplyAll(rows, ops).value)
    ensures rows.Keys <= ApplyAll(rows, ops).value.Keys
  {
    if ops != [] {
      ApplyAllKeepsSound(rows, ops[..|ops| - 1]);
    }
  }

  // ----- what the three order loops compute -----

  /** Reserving succeeds exactly when the total demand per variant is available. */
  predicate CanReserve(rows: Rows, lines: seq<LineInput>) {
    forall i :: 0 <= i < |lines| ==>
      lines[i].quantity > 0 && lines[i].variantId in rows
      && Demand(lines, lines[i].variantId) <= rows[lines[i].variantId].Available()
  }

  function Reserved(rows: Rows, lines: seq<LineInput>): Rows {
    map v | v in rows :: rows[v].(reserved := rows[v].reserved + Demand(lines, v))
  }

  /** The row-by-row loop of checkout, from whatever order its lines come in. */
  lemma {:induction false} ReserveAllExact(rows: Rows, lines: seq<LineInput>)
    ensures ApplyAll(rows, ReserveOps(lines)).Ok? <==> CanReserve(rows, lines)
    ensures CanReserve(rows, lines) ==> ApplyAll(rows, ReserveOps(lines)) == Ok(Reserved(rows, lines))
    ensures ApplyAll(rows, ReserveOps(lines)).Err? ==>
      ApplyAll(rows, ReserveOps(lines)).error in {InsufficientStock, InvalidQuantity}
  {
    if lines == [] {
      assert Reserved(rows, lines) == rows;
    } else {
      var n := |lines| - 1;
      var last := lines[n];
      ReserveAllExact(rows, lines[..n]);
      assert ReserveOps(lines)[..n] == ReserveOps(lines[..n]);
      CanReserveSnoc(rows, lines);
      if CanReserve(rows, lines[..n]) {
        ReservedSnoc(rows, lines);
      }
    }
  }

  lemma ReservedSnoc(rows: Rows, lines: seq<LineInput>)
    requires lines != []
    ensures var n, last := |lines| - 1, lines[|lines| - 1];
            var r := Apply(Reserved(rows, lines[..n]), Reserve(last.variantId, last.quantity));
      if last.quantity > 0 && last.variantId in rows
         && Demand(lines[..n], last.variantId) + last.quantity <= rows[last.variantId].Available()
      then r == Ok(Reserved(rows, lines))
      else r.Err? && r.error in {InsufficientStock, InvalidQuantity}
  {
    var n, last := |lines| - 1, lines[|lines| - 1];
    if last.quantity > 0 && last.variantId in rows {
      assert Reserved(rows, lines) == Reserved(rows, lines[..n])[last.variantId := Reserved(rows, lines)[last.variantId]];
    }
  }

  lemma CanReserveSnoc(rows: Rows, lines: seq<LineInput>)
    requires lines != []
    ensures var n, last := |lines| - 1, lines[|lines| - 1];
      CanReserve(rows, lines) <==>
        CanReserve(rows, lines[..n]) && last.quantity > 0 && last.variantId in rows
        && Demand(lines[..n], last.variantId) + last.quantity <= rows[last.variantId].Available()
  {
    var n, last := |lines| - 1, lines[|lines| - 1];
    if CanReserve(rows, lines) {
      forall i | 0 <= i < n
        ensures lines[..n][i].quantity > 0 && lines[..n][i].variantId in rows
        ensures Demand(lines[..n], lines[..n][i].variantId) <= rows[lines[..n][i].variantId].Available()
      {
        assert lines[..n][i] == lines[i];
        DemandPrefix(lines, n, lines[i].variantId);
      }
    }
    if CanReserve(rows, lines[..n]) && last.quantity > 0 && last.variantId in rows
       && Demand(lines[..n], last.variantId) + last.quantity <= rows[last.variantId].Available() {
      forall i | 0 <= i < |lines|
        ensures lines[i].quantity > 0 && lines[i].variantId in rows
        ensures Demand(lines, lines[i].variantId) <= rows[lines[i].variantId].Available()
      {
        if i < n {
          assert lines[..n][i] == lines[i];
        }
      }
    }
  }

  /** Two baskets that ask for the same units reserve alike. */
  lemma ReserveByDemand(rows: Rows, a: seq<LineInput>, b: seq<LineInput>)
    requires AllPositive(a) && AllPositive(b) && SameDemand(a, b)
    ensures CanReserve(rows, a) <==> CanReserve(rows, b)
    ensures Reserved(rows, a) == Reserved(rows, b)
  {
    CanReserveFollows(rows, a, b);
    CanReserveFollows(rows, b, a);
    assert forall v :: v in rows ==> Demand(a, v) == Demand(b, v);
  }

  lemma CanReserveFollows(rows: Rows, a: seq<LineInput>, b: seq<LineInput>)
    requires AllPositive(a) && AllPositive(b) && SameDemand(a, b)
    ensures CanReserve(rows, a) ==> CanReserve(rows, b)
  {
    forall i | 0 <= i < |b| && CanReserve(rows, a)
      ensures b[i].variantId in rows && Demand(b, b[i].variantId) <= rows[b[i].variantId].Available()
    {
      var v := b[i].variantId;
      assert Mentions(b, v);
      DemandMentioned(b, v);
      assert Demand(a, v) == Demand(b, v);
      DemandMentioned(a, v);
    }
  }

  predicate AllStocked(rows: Rows, lines: seq<LineInput>) {
    forall i :: 0 <= i < |lines| && lines[i].quantity > 0 ==> lines[i].variantId in rows
  }

  function Released(rows: Rows, lines: seq<LineInput>): Rows {
    map v | v in rows ::
      if Demand(lines, v) == 0 then rows[v]
      else rows[v].(reserved := Max(0, rows[v].reserved - Demand(lines, v)))
  }

  function Committed(rows: Rows, lines: seq<LineInput>): Rows {
    map v | v in rows :: CommitFrom(rows[v], Demand(lines, v))
  }

  function CommitFrom(row: Row, units: nat): Row {
    if units == 0 then row else Row(Max(0, row.quantity - units), Max(0, row.reserved - units))
  }

  lemma {:induction false} ReleaseAllExact(rows: Rows, lines: seq<LineInput>)
    ensures ApplyAll(rows, ReleaseOps(lines)) == if AllStocked(rows, lines) then Ok(Released(rows, lines)) else Err(NoStockRecord)
  {
    if lines == [] {
      assert Released(rows, lines) == rows;
    } else {
      var n := |lines| - 1;
      ReleaseAllExact(rows, lines[..n]);
      assert ReleaseOps(lines)[..n] == ReleaseOps(lines[..n]);
      AllStockedSnoc(rows, lines);
      if AllStocked(rows, lines) {
        ReleasedSnoc(rows, lines);
      }
    }
  }

  lemma ReleasedSnoc(rows: Rows, lines: seq<LineInput>)
    requires lines != [] && (lines[|lines| - 1].quantity > 0 ==> lines[|lines| - 1].variantId in rows)
    ensures Apply(Released(rows, lines[..|lines| - 1]), Release(lines[|lines| - 1].variantId, lines[|lines| - 1].quantity)) == Ok(Released(rows, lines))
  {
    var n, last := |lines| - 1, lines[|lines| - 1];
    if last.quantity > 0 {
      assert Released(rows, lines) == Released(rows, lines[..n])[last.variantId := Released(rows, lines)[last.variantId]];
    } else {
      var before := Released(rows, lines[..n]);
      assert Released(rows, lines) == before;
      assert last.variantId in before ==> before[last.variantId := before[last.variantId]] == before;
    }
  }

  lemma {:induction false} CommitAllExact(rows: Rows, lines: seq<LineInput>)
    ensures ApplyAll(rows, CommitOps(lines)) == if AllStocked(rows, lines) then Ok(Committed(rows, lines)) else Err(NoStockRecord)
  {
    if lines == [] {
      assert Committed(rows, lines) == rows;
    } else {
      var n := |lines| - 1;
      CommitAllExact(rows, lines[..n]);
      assert CommitOps(lines)[..n] == CommitOps(lines[..n]);
      AllStockedSnoc(rows, lines);
      if AllStocked(rows, lines) {
        CommittedSnoc(rows, lines);
      }
    }
  }

  lemma CommittedSnoc(rows: Rows, lines: seq<LineInput>)
    requires lines != [] && (lines[|lines| - 1].quantity > 0 ==> lines[|lines| - 1].variantId in rows)
    ensures Apply(Committed(rows, lines[..|lines| - 1]), Commit(lines[|lines| - 1].variantId, lines[|lines| - 1].quantity)) == Ok(Committed(rows, lines))
  {
    var n, last := |lines| - 1, lines[|lines| - 1];
    var before := Committed(rows, lines[..n]);
    if last.quantity > 0 {
      CommittedRows(rows, lines);
      CommitTwice(rows[last.variantId], Demand(lines[..n], last.variantId), last.quantity);
      assert Committed(rows, lines) == before[last.variantId := Committed(rows, lines)[last.variantId]];
    } else {
      assert Committed(rows, lines) == before;
      assert last.variantId in before ==> before[last.variantId := before[last.variantId]] == before;
    }
  }

  /** The last line changes the row of its own variant only. */
  lemma CommittedRows(rows: Rows, lines: seq<LineInput>)
    requires lines != []
    ensures forall v :: v in rows && v != lines[|lines| - 1].variantId ==>
      Committed(rows, lines)[v] == Committed(rows, lines[..|lines| - 1])[v]
  {
  }

  /** Committing in two steps clamps like committing at once. */
  lemma CommitTwice(row: Row, a: nat, b: nat)
    requires b > 0
    ensures CommitFrom(CommitFrom(row, a), b) == CommitFrom(row, a + b)
  {
  }

  lemma AllStockedSnoc(rows: Rows, lines: seq<LineInput>)
    requires lines != []
    ensures var n, last := |lines| - 1, lines[|lines| - 1];
      AllStocked(rows, lines) <==> AllStocked(rows, lines[..n]) && (last.quantity > 0 ==> last.variantId in rows)
  {
    var n := |lines| - 1;
    assert forall i :: 0 <= i < n ==> lines[..n][i] == lines[i];
  }

  /** While a promise is covered, no clamp acts at any line of its release or commit: the row
      that line i meets still holds at least the line's units. */
  lemma ReleaseNeverClamps(rows: Rows, lines: seq<LineInput>, i: nat)
    requires AllStocked(rows, lines) && i < |lines| && lines[i].quantity > 0
    requires Demand(lines, lines[i].variantId) <= rows[lines[i].variantId].reserved
    ensures var met := ApplyAll(rows, ReleaseOps(lines[..i]));
      met.Ok? && lines[i].variantId in met.value && met.value[lines[i].variantId].reserved >= lines[i].quantity
  {
    assert forall j :: 0 <= j < i ==> lines[..i][j] == lines[j];
    ReleaseAllExact(rows, lines[..i]);
    DemandThrough(lines, i);
  }

  lemma CommitNeverClamps(rows: Rows, lines: seq<LineInput>, i: nat)
    requires SoundRows(rows) && AllStocked(rows, lines) && i < |lines| && lines[i].quantity > 0
    requires Demand(lines, lines[i].variantId) <= rows[lines[i].variantId].reserved
    ensures var met := ApplyAll(rows, CommitOps(lines[..i]));
      met.Ok? && lines[i].variantId in met.value
      && met.value[lines[i].variantId].quantity >= met.value[lines[i].variantId].reserved >= lines[i].quantity
  {
    assert forall j :: 0 <= j < i ==> lines[..i][j] == lines[j];
    CommitAllExact(rows, lines[..i]);
    DemandThrough(lines, i);
  }

  lemma DemandThrough(lines: seq<LineInput>, i: nat)
    requires i < |lines| && lines[i].quantity > 0
    ensures Demand(lines[..i], lines[i].variantId) + lines[i].quantity <= Demand(lines, lines[i].variantId)
  {
    DemandPrefix(lines, i + 1, lines[i].variantId);
    DemandSnoc(lines[..i], lines[i], lines[i].variantId);
    assert lines[..i] + [lines[i]] == lines[..i + 1];
  }

  // ----- what the ledger adds up to -----

  const LIFECYCLE_REASONS := {"reserve", "release", "commit"}

  function LedgerReserved(ledger: seq<Movement>, v: VariantId): int {
    if ledger == [] then 0
    else
      var m := ledger[|ledger| - 1];
      LedgerReserved(ledger[..|ledger| - 1], v)
      + if m.variantId == v && m.reason in LIFECYCLE_REASONS then m.delta else 0
  }

  /** Physical movements: adjustments and commits. */
  function LedgerQuantity(ledger: seq<Movement>, v: VariantId): int {
    if ledger == [] then 0
    else
      var m := ledger[|ledger| - 1];
      LedgerQuantity(ledger[..|ledger| - 1], v)
      + if m.variantId == v && m.reason !in {"reserve", "release"} then m.delta else 0
  }

  lemma {:induction false} LedgerConcat(a: seq<Movement>, b: seq<Movement>, v: VariantId)
    ensures LedgerReserved(a + b, v) == LedgerReserved(a, v) + LedgerReserved(b, v)
    ensures LedgerQuantity(a + b, v) == LedgerQuantity(a, v) + LedgerQuantity(b, v)
  {
    if b == [] {
      assert a + b == a;
    } else {
      var n := |b| - 1;
      assert (a + b)[..|a + b| - 1] == a + b[..n];
      LedgerConcat(a, b[..n], v);
    }
  }

  lemma LedgerOfEntries(op: Op, v: VariantId)
    ensures op.Reserve? ==> LedgerReserved(Entries(op), v) == (if op.variantId == v then op.quantity else 0) && LedgerQuantity(Entries(op), v) == 0
    ensures op.Release? ==> LedgerReserved(Entries(op), v) == -(if op.variantId == v then Max(0, op.quantity) else 0) && LedgerQuantity(Entries(op), v) == 0
    ensures op.Commit? ==> LedgerReserved(Entries(op), v) == LedgerQuantity(Entries(op), v) == -(if op.variantId == v then Max(0, op.quantity) else 0)
    ensures op.Adjust? && op.reason !in LIFECYCLE_REASONS ==>
      LedgerReserved(Entries(op), v) == 0 && LedgerQuantity(Entries(op), v) == if op.variantId == v then op.delta else 0
  {
    var e := Entries(op);
    if |e| == 1 {
      assert e[..0] == [];
    }
  }

  // What the entries of an order's three loops add up to.

  lemma {:induction false} LedgerOfReserve(lines: seq<LineInput>, v: VariantId)
    requires AllPositive(lines)
    ensures LedgerReserved(EntriesOfAll(ReserveOps(lines)), v) == Demand(lines, v)
    ensures LedgerQuantity(EntriesOfAll(ReserveOps(lines)), v) == 0
  {
    if lines != [] {
      var n := |lines| - 1;
      LedgerOfReserve(lines[..n], v);
      assert ReserveOps(lines)[..n] == ReserveOps(lines[..n]);
      LedgerConcat(EntriesOfAll(ReserveOps(lines[..n])), Entries(ReserveOps(lines)[n]), v);
      LedgerOfEntries(ReserveOps(lines)[n], v);
    }
  }

  lemma {:induction false} LedgerOfRelease(lines: seq<LineInput>, v: VariantId)
    requires AllPositive(lines)
    ensures LedgerReserved(EntriesOfAll(ReleaseOps(lines)), v) == 0 - Demand(lines, v)
    ensures LedgerQuantity(EntriesOfAll(ReleaseOps(lines)), v) == 0
  {
    if lines != [] {
      var n := |lines| - 1;
      LedgerOfRelease(lines[..n], v);
      assert ReleaseOps(lines)[..n] == ReleaseOps(lines[..n]);
      LedgerConcat(EntriesOfAll(ReleaseOps(lines[..n])), Entries(ReleaseOps(lines)[n]), v);
      LedgerOfEntries(ReleaseOps(lines)[n], v);
    }
  }

  lemma {:induction false} LedgerOfCommit(lines: seq<LineInput>, v: VariantId)
    requires AllPositive(lines)
    ensures LedgerReserved(EntriesOfAll(CommitOps(lines)), v) == 0 - Demand(lines, v)
    ensures LedgerQuantity(EntriesOfAll(CommitOps(lines)), v) == 0 - Demand(lines, v)
  {
    if lines != [] {
      var n := |lines| - 1;
      LedgerOfCommit(lines[..n], v);
      assert CommitOps(lines)[..n] == CommitOps(lines[..n]);
      LedgerConcat(EntriesOfAll(CommitOps(lines[..n])), Entries(CommitOps(lines)[n]), v);
      LedgerOfEntries(CommitOps(lines)[n], v);
    }
  }
}
