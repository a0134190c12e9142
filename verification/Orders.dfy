/** The order aggregate and its status machine (order/models.py, order/state_machine.py). */
module Orders {
  import opened Prelude
  import opened Decimals
  import opened Lines

  datatype OrderStatus = Draft | AwaitingPayment | Paid | Fulfilled | Completed | Cancelled | Refunded

  function AllowedTransitions(current: OrderStatus): set<OrderStatus> {
    match current
    case Draft => {AwaitingPayment, OrderStatus.Cancelled}
    case AwaitingPayment => {Paid, OrderStatus.Cancelled}
    case Paid => {Fulfilled, Refunded}
    case Fulfilled => {Completed, Refunded}
    case Completed => {Refunded}
    case Cancelled => {}
    case Refunded => {}
  }

  /** Statuses an order has once its payment was taken. */
  const SETTLED := {Paid, Fulfilled, Completed, Refunded}

  type Uuid = nat

  /** What an order froze at checkout, apart from its lines. */
  datatype OrderHead = OrderHead(
    id: Uuid, number: string, region: string, currency: string, email: string, address: string,
    subtotal: Dec, shippingFee: Dec, tax: Dec, total: Dec, key: Option<string>)

  datatype OrderLine = OrderLine(
    variantId: Option<VariantId>, productName: string, variantLabel: Option<string>, sku: string,
    unitPrice: Dec, quantity: int, lineTotal: Dec, currency: string)

  datatype OrderEvent = OrderEvent(from: Option<OrderStatus>, to: OrderStatus, note: Option<string>)

  datatype OrderRow = OrderRow(head: OrderHead, lines: seq<OrderLine>, status: OrderStatus, events: seq<OrderEvent>)

  /** The stock an order asks for: its lines that still name a variant. */
  function Inputs(lines: seq<OrderLine>): seq<LineInput> {
    if lines == [] then []
    else
      var last := lines[|lines| - 1];
      Inputs(lines[..|lines| - 1]) + if last.variantId.None? then [] else [LineInput(last.variantId.value, last.quantity)]
  }

  /** One status change, recorded as an event. */
  function Transitioned(row: OrderRow, target: OrderStatus, note: Option<string>): Result<OrderRow> {
    if target !in AllowedTransitions(row.status) then Err(InvalidStatusTransition)
    else Ok(row.(status := target, events := row.events + [OrderEvent(Some(row.status), target, note)]))
  }

  /** The life cycle: submitted or cancelled as a draft, paid or cancelled unpaid, then fulfilled and
      completed, and refunded from any settled status but refunded itself. */
  ghost predicate MayBecome(from: OrderStatus, to: OrderStatus) {
    (to == AwaitingPayment && from == Draft)
    || (to == Paid && from == AwaitingPayment)
    || (to == OrderStatus.Cancelled && (from == Draft || from == AwaitingPayment))
    || (to == Fulfilled && from == Paid)
    || (to == Completed && from == Fulfilled)
    || (to == Refunded && (from == Paid || from == Fulfilled || from == Completed))
  }

  /** A status change is accepted exactly along the life cycle; it keeps what the order records and
      appends one event with its note. */
  lemma TransitionMeans(row: OrderRow, target: OrderStatus, note: Option<string>)
    ensures Transitioned(row, target, note)
         == if MayBecome(row.status, target)
            then Ok(OrderRow(row.head, row.lines, target, row.events + [OrderEvent(Some(row.status), target, note)]))
            else Err(InvalidStatusTransition)
  {
  }

  class Order {
    const head: OrderHead
    var lines: seq<OrderLine>
    var status: OrderStatus
    var events: seq<OrderEvent>

    constructor (head: OrderHead)
      ensures Row() == OrderRow(head, [], Draft, [])
    {
      this.head := head;
      lines, status, events := [], Draft, [];
    }

    constructor Load(row: OrderRow)
      ensures Row() == row
    {
      head, lines, status, events := row.head, row.lines, row.status, row.events;
    }

    function Row(): OrderRow
      reads this
    {
      OrderRow(head, lines, status, events)
    }

    method AppendLine(line: OrderLine)
      modifies this`lines
      ensures Row() == old(Row()).(lines := old(lines) + [line])
    {
      lines := lines + [line];
    }

    method Transition(target: OrderStatus, note: Option<string>) returns (r: Result<()>)
      modifies this`status, this`events
      ensures match Transitioned(old(Row()), target, note)
              case Ok(row) => r == Ok(()) && Row() == row
              case Err(e) => r == Err(e) && Row() == old(Row())
      ensures r == if MayBecome(old(status), target) then Ok(()) else Err(InvalidStatusTransition)
      ensures r.Ok? ==> status == target && events == old(events) + [OrderEvent(Some(old(status)), target, note)]
    {
      if target !in AllowedTransitions(status) {
        return Err(InvalidStatusTransition);
      }
      var previous := status;
      status := target;
      events := events + [OrderEvent(Some(previous), target, note)];
      return Ok(());
    }
  }

  // ----- the event log is a true history -----

  /** The log starts when the draft is submitted, every event continues the previous one by an
      allowed step, and the last one explains the current status. */
  ghost predicate TrueHistory(row: OrderRow) {
    && row.events != []
    && row.events[0].from == Some(Draft) && row.events[0].to == AwaitingPayment
    && (forall i :: 0 <= i < |row.events| ==>
          row.events[i].from.Some? && row.events[i].to in AllowedTransitions(row.events[i].from.value))
    && (forall i :: 0 < i < |row.events| ==> row.events[i].from == Some(row.events[i - 1].to))
    && row.events[|row.events| - 1].to == row.status
  }

  lemma TransitionKeepsHistory(row: OrderRow, target: OrderStatus, note: Option<string>)
    requires TrueHistory(row) && Transitioned(row, target, note).Ok?
    ensures TrueHistory(Transitioned(row, target, note).value)
  {
  }

  /** How many steps an order can still take at most. */
  function Rank(s: OrderStatus): nat {
    match s
    case Draft => 5
    case AwaitingPayment => 4
    case Paid => 3
    case Fulfilled => 2
    case Completed => 1
    case Cancelled => 0
    case Refunded => 0
  }

  /** Every allowed step lowers the rank: no status is ever left and reached again. */
  lemma StepLowersRank(current: OrderStatus, target: OrderStatus)
    requires target in AllowedTransitions(current)
    ensures Rank(target) < Rank(current)
  {
  }

  lemma {:induction false} RanksFall(row: OrderRow, i: nat, j: nat)
    requires TrueHistory(row) && i < j < |row.events|
    ensures Rank(row.events[j].to) + (j - i) <= Rank(row.events[i].to)
  {
    StepLowersRank(row.events[j].from.value, row.events[j].to);
    if i < j - 1 {
      RanksFall(row, i, j - 1);
    }
  }

  /** No status repeats in a log, and it has at most five events. */
  lemma HistoryIsShort(row: OrderRow)
    requires TrueHistory(row)
    ensures |row.events| <= 5
    ensures forall i, j :: 0 <= i < j < |row.events| ==> row.events[i].to != row.events[j].to
  {
    if |row.events| > 1 {
      RanksFall(row, 0, |row.events| - 1);
    }
    forall i, j | 0 <= i < j < |row.events|
      ensures row.events[i].to != row.events[j].to
    {
      RanksFall(row, i, j);
    }
  }

  /** An order that is refunded was paid before. */
  lemma {:induction false} SettledWasPaid(row: OrderRow, i: nat)
    requires TrueHistory(row) && i < |row.events| && row.events[i].to in SETTLED
    ensures exists j :: 0 <= j <= i && row.events[j].to == Paid
  {
    if row.events[i].to != Paid {
      SettledWasPaid(row, i - 1);
    }
  }

  /** An unpaid order has exactly the event of its checkout. */
  lemma AwaitingHasOneEvent(row: OrderRow)
    requires TrueHistory(row) && row.status == AwaitingPayment
    ensures |row.events| == 1
  {
    if |row.events| > 1 {
      RanksFall(row, 0, |row.events| - 1);
    }
  }

  // ----- order lines as stock demand -----

  lemma InputsSnoc(lines: seq<OrderLine>, l: OrderLine)
    ensures Inputs(lines + [l]) == Inputs(lines) + if l.variantId.None? then [] else [LineInput(l.variantId.value, l.quantity)]
  {
    assert (lines + [l])[..|lines|] == lines;
  }

  // ----- names shown to operators -----

  const BY_NAME: seq<OrderStatus> := [AwaitingPayment, OrderStatus.Cancelled, Completed, Draft, Fulfilled, Paid, Refunded]

  function Name(s: OrderStatus): string {
    match s
    case Draft => "draft"
    case AwaitingPayment => "awaiting_payment"
    case Paid => "paid"
    case Fulfilled => "fulfilled"
    case Completed => "completed"
    case Cancelled => "cancelled"
    case Refunded => "refunded"
  }

  function NamesAmong(allowed: set<OrderStatus>, candidates: seq<OrderStatus>): seq<string> {
    if candidates == [] then []
    else (if candidates[0] in allowed then [Name(candidates[0])] else []) + NamesAmong(allowed, candidates[1..])
  }

  function AllowedTargets(current: OrderStatus): seq<string> {
    NamesAmong(AllowedTransitions(current), BY_NAME)
  }

  lemma {:induction false} NamesAmongExact(allowed: set<OrderStatus>, candidates: seq<OrderStatus>, name: string)
    ensures name in NamesAmong(allowed, candidates)
        <==> exists i :: 0 <= i < |candidates| && candidates[i] in allowed && Name(candidates[i]) == name
  {
    if candidates != [] {
      NamesAmongExact(allowed, candidates[1..], name);
      if name in NamesAmong(allowed, candidates[1..]) {
        var i :| 0 <= i < |candidates[1..]| && candidates[1..][i] in allowed && Name(candidates[1..][i]) == name;
        assert candidates[i + 1] in allowed && Name(candidates[i + 1]) == name;
      }
      if i :| 0 < i < |candidates| && candidates[i] in allowed && Name(candidates[i]) == name {
        assert candidates[1..][i - 1] in allowed;
      }
    }
  }

  /** Operators are offered exactly the transitions that would be accepted. */
  lemma TargetsAreAccepted(row: OrderRow, target: OrderStatus, note: Option<string>)
    ensures Name(target) in AllowedTargets(row.status) <==> Transitioned(row, target, note).Ok?
    ensures Name(target) in AllowedTargets(row.status) <==> MayBecome(row.status, target)
  {
    TransitionMeans(row, target, note);
    NamesAmongExact(AllowedTransitions(row.status), BY_NAME, Name(target));
    NamesDistinct();
    var i := match target
      case AwaitingPayment => 0 case Cancelled => 1 case Completed => 2 case Draft => 3
      case Fulfilled => 4 case Paid => 5 case Refunded => 6;
    assert BY_NAME[i] == target;
  }

  /** Lexicographic order, as strings are sorted. */
  predicate Before(a: string, b: string) {
    b != "" && (a == "" || a[0] < b[0] || (a[0] == b[0] && Before(a[1..], b[1..])))
  }

  lemma NamesAmongNext(allowed: set<OrderStatus>, candidates: seq<OrderStatus>)
    requires candidates != []
    ensures NamesAmong(allowed, candidates)
         == (if candidates[0] in allowed then [Name(candidates[0])] else []) + NamesAmong(allowed, candidates[1..])
  {
  }

  ghost predicate SortedByName(candidates: seq<OrderStatus>) {
    forall k, l :: 0 <= k < l < |candidates| ==> Before(Name(candidates[k]), Name(candidates[l]))
  }

  lemma HeadIsBefore(allowed: set<OrderStatus>, candidates: seq<OrderStatus>, name: string)
    requires candidates != [] && SortedByName(candidates) && name in NamesAmong(allowed, candidates[1..])
    ensures Before(Name(candidates[0]), name)
  {
    NamesAmongExact(allowed, candidates[1..], name);
    var k :| 0 <= k < |candidates[1..]| && Name(candidates[1..][k]) == name;
    assert candidates[1..][k] == candidates[k + 1];
  }

  /** Names taken from a sorted list are sorted. */
  lemma {:induction false} NamesAmongSorted(allowed: set<OrderStatus>, candidates: seq<OrderStatus>, names: seq<string>, i: nat, j: nat)
    requires SortedByName(candidates) && names == NamesAmong(allowed, candidates) && i < j < |names|
    ensures Before(names[i], names[j])
  {
    var rest := NamesAmong(allowed, candidates[1..]);
    NamesAmongNext(allowed, candidates);
    assert SortedByName(candidates[1..]);
    if candidates[0] !in allowed {
      NamesAmongSorted(allowed, candidates[1..], rest, i, j);
    } else if i > 0 {
      NamesAmongSorted(allowed, candidates[1..], rest, i - 1, j - 1);
    } else {
      HeadIsBefore(allowed, candidates, rest[j - 1]);
    }
  }

  lemma FirstLetterDecides(a: string, b: string)
    requires a != "" && b != "" && a[0] < b[0]
    ensures Before(a, b)
  {
  }

  lemma StatusesAreSorted(k: nat, l: nat)
    requires k < l < |BY_NAME|
    ensures Before(Name(BY_NAME[k]), Name(BY_NAME[l]))
  {
    if k == 1 && l == 2 {
      FirstLetterDecides("ancelled", "ompleted");
      assert "cancelled"[1..] == "ancelled" && "completed"[1..] == "ompleted";
    } else {
      FirstLetterDecides(Name(BY_NAME[k]), Name(BY_NAME[l]));
    }
  }

  lemma StatusesSorted()
    ensures SortedByName(BY_NAME)
  {
    forall k, l | 0 <= k < l < |BY_NAME|
      ensures Before(Name(BY_NAME[k]), Name(BY_NAME[l]))
    {
      StatusesAreSorted(k, l);
    }
  }

  /** They are offered sorted by name. */
  lemma TargetsAreSorted(s: OrderStatus, i: nat, j: nat)
    requires i < j < |AllowedTargets(s)|
    ensures Before(AllowedTargets(s)[i], AllowedTargets(s)[j])
  {
    StatusesSorted();
    NamesAmongSorted(AllowedTransitions(s), BY_NAME, AllowedTargets(s), i, j);
  }

  /** The names are the stored codes of the statuses. */
  lemma StatusCodes()
    ensures Name(Draft) == "draft" && Name(AwaitingPayment) == "awaiting_payment" && Name(Paid) == "paid"
    ensures Name(Fulfilled) == "fulfilled" && Name(Completed) == "completed"
    ensures Name(OrderStatus.Cancelled) == "cancelled" && Name(Refunded) == "refunded"
  {
  }

  lemma NamesDistinct()
    ensures forall s, t :: Name(s) == Name(t) ==> s == t
  {
    forall s, t: OrderStatus | Name(s) == Name(t)
      ensures s == t
    {
      assert |Name(s)| == |Name(t)| && Name(s)[0] == Name(t)[0] && Name(s)[|Name(s)| - 1] == Name(t)[|Name(t)| - 1];
    }
  }
}
