/** Stock transactions interleaved step by step under row locks (inventory/repository.py): a
    transaction locks a row when it first touches it, works on its private copy, and holds every
    lock until it commits or is dropped. */
module RowLocks {
  import opened Prelude
  import opened Lines
  import opened Stock

  /** Failed: an operation was refused. Killed: dropped from outside, as a deadlock victim is. */
  datatype Phase = Running | Done | Failed | Killed

  /** A transaction's private rows and the movements it recorded are not visible to others. */
  datatype Tx = Tx(script: seq<Op>, pc: nat, own: Rows, recorded: seq<Movement>, held: set<VariantId>, phase: Phase)

  /** The committed rows and ledger, the transactions, and the order in which they committed. */
  datatype World = World(rows: Rows, ledger: seq<Movement>, txs: seq<Tx>, order: seq<nat>)

  datatype Event = Acquire(tx: nat) | Execute(tx: nat) | Finish(tx: nat) | Kill(tx: nat)

  /** Operations on nothing return or raise before they reach the row. */
  predicate NeedsLock(op: Op) {
    op.Adjust? || op.quantity > 0
  }

  function Start(script: seq<Op>): Tx {
    Tx(script, 0, map[], [], {}, Running)
  }

  function Ended(tx: Tx, phase: Phase): Tx {
    tx.(own := map[], recorded := [], held := {}, phase := phase)
  }

  predicate Free(w: World, v: VariantId) {
    forall t :: 0 <= t < |w.txs| ==> v !in w.txs[t].held
  }

  predicate Enabled(w: World, e: Event) {
    e.tx < |w.txs| && w.txs[e.tx].phase == Running &&
    var tx := w.txs[e.tx];
    match e
    case Acquire(_) => tx.pc < |tx.script| && NeedsLock(tx.script[tx.pc]) && Free(w, tx.script[tx.pc].variantId)
    case Execute(_) => tx.pc < |tx.script| && (NeedsLock(tx.script[tx.pc]) ==> tx.script[tx.pc].variantId in tx.held)
    case Finish(_) => tx.pc == |tx.script|
    case Kill(_) => true
  }

  /** The locked row as it is committed at that moment becomes the private copy. */
  function Locked(tx: Tx, rows: Rows, v: VariantId): Tx {
    tx.(held := tx.held + {v}, own := Put(tx.own, v, Get(rows, v)))
  }

  function Executed(tx: Tx): Tx
    requires tx.pc < |tx.script|
  {
    var op := tx.script[tx.pc];
    match ApplyOne(Get(tx.own, op.variantId), op)
    case Ok(row) => tx.(own := Put(tx.own, op.variantId, row), recorded := tx.recorded + Entries(op), pc := tx.pc + 1)
    case Err(_) => Ended(tx, Failed)
  }

  function After(w: World, e: Event): World
    requires Enabled(w, e)
  {
    var tx := w.txs[e.tx];
    match e
    case Acquire(t) => w.(txs := w.txs[t := Locked(tx, w.rows, tx.script[tx.pc].variantId)])
    case Execute(t) => w.(txs := w.txs[t := Executed(tx)])
    case Finish(t) => World(w.rows + tx.own, w.ledger + tx.recorded, w.txs[t := Ended(tx, Done)], w.order + [t])
    case Kill(t) => w.(txs := w.txs[t := Ended(tx, Killed)])
  }

  // ----- runs -----

  ghost predicate Starts(w: World, rows: Rows, scripts: seq<seq<Op>>) {
    w.rows == rows && w.ledger == [] && w.order == [] && |w.txs| == |scripts|
    && forall t :: 0 <= t < |scripts| ==> w.txs[t] == Start(scripts[t])
  }

  /** Some interleaving of enabled events leads from w to z. */
  ghost predicate Reaches(w: World, z: World, events: seq<Event>)
    decreases |events|
  {
    if events == [] then z == w
    else Enabled(w, events[0]) && Reaches(After(w, events[0]), z, events[1..])
  }

  /** The committed transactions, one at a time in commit order. */
  function Serially(rows: Rows, scripts: seq<seq<Op>>, order: seq<nat>): Result<Rows>
    requires forall k :: 0 <= k < |order| ==> order[k] < |scripts|
  {
    if order == [] then Ok(rows)
    else
      var before :- Serially(rows, scripts, order[..|order| - 1]);
      ApplyAll(before, scripts[order[|order| - 1]])
  }

  /** The ledger entries of the committed transactions, in commit order. */
  function SerialEntries(scripts: seq<seq<Op>>, order: seq<nat>): seq<Movement>
    requires forall k :: 0 <= k < |order| ==> order[k] < |scripts|
  {
    if order == [] then []
    else SerialEntries(scripts, order[..|order| - 1]) + EntriesOfAll(scripts[order[|order| - 1]])
  }

  // ----- the invariant -----

  /** Every row the transaction worked on so far is locked by it, its private copy stays within
      its locks, and its steps so far, run on the rows committed now, give exactly the copy. */
  ghost predicate Isolated(tx: Tx, rows: Rows) {
    && tx.pc <= |tx.script|
    && tx.own.Keys <= tx.held
    && (forall v :: v in tx.held && v !in tx.own ==> v !in rows)
    && (forall k :: 0 <= k < tx.pc && NeedsLock(tx.script[k]) ==> tx.script[k].variantId in tx.held)
    && ApplyAll(rows, tx.script[..tx.pc]) == Ok(rows + tx.own)
    && tx.recorded == EntriesOfAll(tx.script[..tx.pc])
  }

  ghost predicate LockInvariant(w: World) {
    && (forall t :: 0 <= t < |w.txs| && w.txs[t].phase == Running ==> Isolated(w.txs[t], w.rows))
    && (forall t :: 0 <= t < |w.txs| && w.txs[t].phase != Running ==> w.txs[t].held == {})
    && (forall s, t :: 0 <= s < |w.txs| && 0 <= t < |w.txs| && s != t ==> w.txs[s].held !! w.txs[t].held)
  }

  ghost predicate SerialSoFar(w: World, rows: Rows, scripts: seq<seq<Op>>) {
    && |w.txs| == |scripts|
    && (forall t :: 0 <= t < |scripts| ==> w.txs[t].script == scripts[t])
    && (forall k :: 0 <= k < |w.order| ==> w.order[k] < |scripts|)
    && Serially(rows, scripts, w.order) == Ok(w.rows)
    && w.ledger == SerialEntries(scripts, w.order)
  }

  /** The commit order lists exactly the transactions that committed, each of them once. */
  ghost predicate ListsCommitted(w: World) {
    && (forall t: nat :: t in w.order <==> t < |w.txs| && w.txs[t].phase == Done)
    && (forall k, l :: 0 <= k < l < |w.order| ==> w.order[k] != w.order[l])
  }

  /** Operations depend on the rows they lock and change nothing else. */
  lemma {:induction false} Frame(rows: Rows, other: Rows, ops: seq<Op>, locks: set<VariantId>)
    requires forall k :: 0 <= k < |ops| && NeedsLock(ops[k]) ==> ops[k].variantId in locks
    requires forall v :: v in locks ==> Get(rows, v) == Get(other, v)
    requires ApplyAll(rows, ops).Ok?
    ensures ApplyAll(other, ops).Ok?
    ensures forall v :: v in locks ==> Get(ApplyAll(other, ops).value, v) == Get(ApplyAll(rows, ops).value, v)
    ensures forall v :: v !in locks ==> Get(ApplyAll(other, ops).value, v) == Get(other, v)
  {
    if ops != [] {
      var n := |ops| - 1;
      Frame(rows, other, ops[..n], locks);
      FrameOne(ApplyAll(rows, ops[..n]).value, ApplyAll(other, ops[..n]).value, ops[n], locks);
    }
  }

  lemma FrameOne(rows: Rows, other: Rows, op: Op, locks: set<VariantId>)
    requires NeedsLock(op) ==> op.variantId in locks
    requires forall v :: v in locks ==> Get(rows, v) == Get(other, v)
    requires Apply(rows, op).Ok?
    ensures Apply(other, op).Ok?
    ensures forall v :: v in locks ==> Get(Apply(other, op).value, v) == Get(Apply(rows, op).value, v)
    ensures forall v :: v !in locks ==> Get(Apply(other, op).value, v) == Get(other, v)
  {
  }

  lemma SameRows(a: Rows, b: Rows)
    requires forall v: VariantId :: Get(a, v) == Get(b, v)
    ensures a == b
  {
    forall v: VariantId
      ensures v in a <==> v in b
      ensures v in a ==> a[v] == b[v]
    {
      assert Get(a, v) == Get(b, v);
    }
  }

  /** Another transaction's commit, on rows this one does not hold, leaves it isolated. */
  lemma IsolatedFromCommit(tx: Tx, rows: Rows, written: Rows)
    requires Isolated(tx, rows) && written.Keys !! tx.held
    ensures Isolated(tx, rows + written)
  {
    var after := rows + written;
    var ops := tx.script[..tx.pc];
    Frame(rows, after, ops, tx.held);
    var result := ApplyAll(after, ops).value;
    forall v: VariantId
      ensures Get(result, v) == Get(after + tx.own, v)
    {
      if v in tx.held {
        assert Get(result, v) == Get(rows + tx.own, v);
      }
    }
    SameRows(result, after + tx.own);
  }

  lemma LockingKeepsIsolated(tx: Tx, rows: Rows, v: VariantId)
    requires Isolated(tx, rows) && v !in tx.held
    ensures Isolated(Locked(tx, rows, v), rows)
  {
    assert rows + Locked(tx, rows, v).own == rows + tx.own;
  }

  lemma ExecutingKeepsIsolated(tx: Tx, rows: Rows)
    requires Isolated(tx, rows) && tx.pc < |tx.script|
    requires NeedsLock(tx.script[tx.pc]) ==> tx.script[tx.pc].variantId in tx.held
    ensures Executed(tx).phase != Failed ==> Isolated(Executed(tx), rows)
  {
    assert tx.script[..tx.pc + 1][..tx.pc] == tx.script[..tx.pc];
    if Executed(tx).phase != Failed {
      PrivateStep(tx, rows);
    }
  }

  /** The private copy of a locked row is the row the transaction has worked on. */
  lemma PrivateRow(tx: Tx, rows: Rows, v: VariantId)
    requires Isolated(tx, rows) && v in tx.held
    ensures Get(tx.own, v) == Get(rows + tx.own, v)
  {
  }

  /** The next operation does to the private copy what it would do to the committed rows. */
  lemma PrivateStep(tx: Tx, rows: Rows)
    requires Isolated(tx, rows) && tx.pc < |tx.script| && Executed(tx).phase != Failed
    requires NeedsLock(tx.script[tx.pc]) ==> tx.script[tx.pc].variantId in tx.held
    ensures Apply(rows + tx.own, tx.script[tx.pc]) == Ok(rows + Executed(tx).own)
    ensures Executed(tx).own.Keys <= tx.held && tx.own.Keys <= Executed(tx).own.Keys
  {
    var op := tx.script[tx.pc];
    var next := Executed(tx);
    if NeedsLock(op) {
      PrivateRow(tx, rows, op.variantId);
      assert Put(rows + tx.own, op.variantId, Get(next.own, op.variantId)) == rows + next.own;
    } else {
      assert next.own == tx.own;
      assert Put(rows + tx.own, op.variantId, Get(rows + tx.own, op.variantId)) == rows + tx.own;
    }
  }

  lemma StartIsIsolated(script: seq<Op>, rows: Rows)
    ensures Isolated(Start(script), rows)
  {
    assert rows + map[] == rows;
  }

  lemma AcquireKeepsInvariant(w: World, t: nat)
    requires LockInvariant(w) && Enabled(w, Acquire(t))
    ensures LockInvariant(After(w, Acquire(t)))
  {
    var tx := w.txs[t];
    LockingKeepsIsolated(tx, w.rows, tx.script[tx.pc].variantId);
  }

  lemma ExecuteKeepsInvariant(w: World, t: nat)
    requires LockInvariant(w) && Enabled(w, Execute(t))
    ensures LockInvariant(After(w, Execute(t)))
  {
    ExecutingKeepsIsolated(w.txs[t], w.rows);
  }

  lemma FinishKeepsInvariant(w: World, t: nat)
    requires LockInvariant(w) && Enabled(w, Finish(t))
    ensures LockInvariant(After(w, Finish(t)))
  {
    forall s | 0 <= s < |w.txs| && s != t && w.txs[s].phase == Running
      ensures Isolated(w.txs[s], w.rows + w.txs[t].own)
    {
      IsolatedFromCommit(w.txs[s], w.rows, w.txs[t].own);
    }
  }

  lemma StepKeepsInvariant(w: World, e: Event)
    requires LockInvariant(w) && Enabled(w, e)
    ensures LockInvariant(After(w, e))
  {
    match e
    case Acquire(t) => AcquireKeepsInvariant(w, t);
    case Execute(t) => ExecuteKeepsInvariant(w, t);
    case Finish(t) => FinishKeepsInvariant(w, t);
    case Kill(t) =>
  }

  /** A commit is the serial effect of its whole script on the rows committed before it. */
  lemma StepKeepsSerial(w: World, e: Event, rows: Rows, scripts: seq<seq<Op>>)
    requires LockInvariant(w) && Enabled(w, e) && SerialSoFar(w, rows, scripts)
    ensures SerialSoFar(After(w, e), rows, scripts)
  {
    if e.Finish? {
      var tx := w.txs[e.tx];
      assert tx.script[..tx.pc] == tx.script;
      assert (w.order + [e.tx])[..|w.order|] == w.order;
    }
  }

  lemma StepKeepsListed(w: World, e: Event)
    requires Enabled(w, e) && ListsCommitted(w)
    ensures ListsCommitted(After(w, e))
  {
    forall t: nat
      ensures t in After(w, e).order <==> t < |w.txs| && After(w, e).txs[t].phase == Done
    {
      assert t in w.order <==> t < |w.txs| && w.txs[t].phase == Done;
    }
  }

  lemma StartInvariant(w: World, rows: Rows, scripts: seq<seq<Op>>)
    requires Starts(w, rows, scripts)
    ensures LockInvariant(w) && SerialSoFar(w, rows, scripts) && ListsCommitted(w)
  {
    forall t | 0 <= t < |scripts|
      ensures Isolated(w.txs[t], w.rows)
    {
      StartIsIsolated(scripts[t], rows);
    }
  }

  lemma {:induction false} RunKeepsInvariant(w: World, z: World, events: seq<Event>, rows: Rows, scripts: seq<seq<Op>>)
    requires LockInvariant(w) && SerialSoFar(w, rows, scripts) && ListsCommitted(w) && Reaches(w, z, events)
    ensures LockInvariant(z) && SerialSoFar(z, rows, scripts) && ListsCommitted(z)
    decreases |events|
  {
    if events != [] {
      StepKeepsInvariant(w, events[0]);
      StepKeepsSerial(w, events[0], rows, scripts);
      StepKeepsListed(w, events[0]);
      RunKeepsInvariant(After(w, events[0]), z, events[1..], rows, scripts);
    }
  }

  /** Under every interleaving, the committed rows and ledger are those of the committed
      transactions, each run once, one at a time in commit order. */
  lemma InterleavingIsSerial(w: World, z: World, events: seq<Event>, rows: Rows, scripts: seq<seq<Op>>)
    requires Starts(w, rows, scripts) && Reaches(w, z, events)
    ensures (forall k :: 0 <= k < |z.order| ==> z.order[k] < |scripts|)
         && Serially(rows, scripts, z.order) == Ok(z.rows)
         && z.ledger == SerialEntries(scripts, z.order)
    ensures ListsCommitted(z)
  {
    StartInvariant(w, rows, scripts);
    RunKeepsInvariant(w, z, events, rows, scripts);
  }

  lemma {:induction false} SerialKeepsSound(rows: Rows, scripts: seq<seq<Op>>, order: seq<nat>)
    requires forall k :: 0 <= k < |order| ==> order[k] < |scripts|
    requires SoundRows(rows) && Serially(rows, scripts, order).Ok?
    ensures SoundRows(Serially(rows, scripts, order).value)
  {
    if order != [] {
      var n := |order| - 1;
      SerialKeepsSound(rows, scripts, order[..n]);
      ApplyAllKeepsSound(Serially(rows, scripts, order[..n]).value, scripts[order[n]]);
    }
  }

  /** No interleaving of any transactions ever oversells. */
  lemma NeverOversold(w: World, z: World, events: seq<Event>, rows: Rows, scripts: seq<seq<Op>>)
    requires Starts(w, rows, scripts) && Reaches(w, z, events) && SoundRows(rows)
    ensures forall v :: v in z.rows ==> 0 <= z.rows[v].reserved <= z.rows[v].quantity
  {
    InterleavingIsSerial(w, z, events, rows, scripts);
    SerialKeepsSound(rows, scripts, z.order);
  }

  // ----- what the locks do not forbid -----

  /** An operation is refused exactly when the script so far and it fail on the rows committed at
      that moment; the transaction then ends as refused, and otherwise goes on. */
  lemma FailureIsSerial(w: World, t: nat)
    requires LockInvariant(w) && Enabled(w, Execute(t))
    ensures var tx, next := w.txs[t], After(w, Execute(t)).txs[t];
      if ApplyAll(w.rows, tx.script[..tx.pc + 1]).Ok? then next.phase == Running && next.pc == tx.pc + 1
      else next.phase == Failed && ApplyAll(w.rows, tx.script).Err?
  {
    var tx := w.txs[t];
    var op := tx.script[tx.pc];
    if NeedsLock(op) {
      PrivateRow(tx, w.rows, op.variantId);
    }
    assert tx.script[..tx.pc + 1][..tx.pc] == tx.script[..tx.pc];
    if ApplyAll(w.rows, tx.script[..tx.pc + 1]).Err? {
      ApplyAllStops(w.rows, tx.script, tx.pc + 1);
    }
  }

  lemma {:induction false} ReachesOn(w: World, m: World, z: World, a: seq<Event>, b: seq<Event>)
    requires Reaches(w, m, a) && Reaches(m, z, b)
    ensures Reaches(w, z, a + b)
    decreases |a|
  {
    if a == [] {
      assert a + b == b;
    } else {
      ReachesOn(After(w, a[0]), m, z, a[1..], b);
      assert (a + b)[1..] == a[1..] + b;
    }
  }

  ghost predicate OnlyHolder(w: World, t: nat) {
    forall s :: 0 <= s < |w.txs| && s != t ==> w.txs[s].held == {}
  }

  /** The world after transaction t ran alone: it committed if its script succeeds on the committed
      rows, and was refused otherwise. */
  ghost predicate RanAlone(w: World, z: World, t: nat) {
    && t < |w.txs| == |z.txs|
    && (forall s :: 0 <= s < |w.txs| && s != t ==> z.txs[s] == w.txs[s])
    && if ApplyAll(w.rows, w.txs[t].script).Ok? then z.txs[t].phase == Done && z.order == w.order + [t]
       else z.txs[t].phase == Failed && z.order == w.order
  }

  /** A transaction that nobody blocks can run to its end. */
  lemma {:induction false} Solo(w: World, t: nat) returns (events: seq<Event>, z: World)
    requires LockInvariant(w) && t < |w.txs| && w.txs[t].phase == Running && OnlyHolder(w, t)
    ensures Reaches(w, z, events) && RanAlone(w, z, t)
    decreases |w.txs[t].script| - w.txs[t].pc, |ToLock(w.txs[t])|
  {
    var tx := w.txs[t];
    var rest;
    if tx.pc == |tx.script| {
      events, z := [Finish(t)], After(w, Finish(t));
      assert events[1..] == [] && tx.script[..tx.pc] == tx.script;
    } else if NeedsLock(tx.script[tx.pc]) && tx.script[tx.pc].variantId !in tx.held {
      AcquireKeepsInvariant(w, t);
      FewerToLock(tx, tx.pc, w.rows);
      rest, z := Solo(After(w, Acquire(t)), t);
      events := [Acquire(t)] + rest;
      assert events[1..] == rest;
    } else {
      ExecuteKeepsInvariant(w, t);
      FailureIsSerial(w, t);
      if Executed(tx).phase == Failed {
        events, z := [Execute(t)], After(w, Execute(t));
        assert events[1..] == [];
      } else {
        rest, z := Solo(After(w, Execute(t)), t);
        events := [Execute(t)] + rest;
        assert events[1..] == rest;
      }
    }
  }

  function ToLock(tx: Tx): set<nat> {
    set i | 0 <= i < |tx.script| && tx.script[i].variantId !in tx.held
  }

  lemma FewerToLock(tx: Tx, i: nat, rows: Rows)
    requires i < |tx.script| && tx.script[i].variantId !in tx.held
    ensures |ToLock(Locked(tx, rows, tx.script[i].variantId))| < |ToLock(tx)|
  {
    var a, b := ToLock(Locked(tx, rows, tx.script[i].variantId)), ToLock(tx);
    assert a <= b - {i} && i in b;
    SubsetSize(a, b - {i});
  }

  lemma {:induction false} SubsetSize(a: set<nat>, b: set<nat>)
    requires a <= b
    ensures |a| <= |b|
  {
    if a != {} {
      var x :| x in a;
      SubsetSize(a - {x}, b - {x});
    }
  }

  /** The transactions listed so far committed, and no other has started. */
  ghost predicate Untouched(w: World, scripts: seq<seq<Op>>, order: seq<nat>) {
    && w.order == order && |w.txs| == |scripts|
    && forall t :: 0 <= t < |scripts| ==> if t in order then w.txs[t].phase == Done else w.txs[t] == Start(scripts[t])
  }

  lemma UntouchedNext(m: World, z: World, scripts: seq<seq<Op>>, order: seq<nat>, t: nat)
    requires Untouched(m, scripts, order) && t < |scripts| && |z.txs| == |scripts| && z.order == order + [t]
    requires z.txs[t].phase == Done && forall s :: 0 <= s < |scripts| && s != t ==> z.txs[s] == m.txs[s]
    ensures Untouched(z, scripts, order + [t])
  {
  }

  lemma CommitNext(w: World, m: World, first: seq<Event>, rows: Rows, scripts: seq<seq<Op>>, t: nat) returns (events: seq<Event>, z: World)
    requires Starts(w, rows, scripts) && Reaches(w, m, first) && Untouched(m, scripts, m.order)
    requires t < |scripts| && t !in m.order && ApplyAll(m.rows, scripts[t]).Ok?
    ensures Reaches(w, z, events) && Untouched(z, scripts, m.order + [t])
  {
    StartInvariant(w, rows, scripts);
    RunKeepsInvariant(w, m, first, rows, scripts);
    var second;
    second, z := Solo(m, t);
    ReachesOn(w, m, z, first, second);
    events := first + second;
    UntouchedNext(m, z, scripts, m.order, t);
  }

  /** Each transaction of the order exists, and none is listed twice. */
  ghost predicate EachOnce(order: seq<nat>, count: nat) {
    (forall k :: 0 <= k < |order| ==> order[k] < count) && forall k, l :: 0 <= k < l < |order| ==> order[k] != order[l]
  }

  lemma EachOnceBefore(order: seq<nat>, count: nat)
    requires order != [] && EachOnce(order, count)
    ensures var n := |order| - 1;
      EachOnce(order[..n], count) && order[n] < count && order[n] !in order[..n] && order[..n] + [order[n]] == order
  {
  }

  /** The locks forbid no serial order: whatever transactions succeed one after the other, some
      interleaving commits exactly them, in that order. */
  lemma {:induction false} EveryOrderHappens(rows: Rows, scripts: seq<seq<Op>>, order: seq<nat>)
    returns (w: World, events: seq<Event>, z: World)
    requires EachOnce(order, |scripts|) && Serially(rows, scripts, order).Ok?
    ensures Starts(w, rows, scripts) && Reaches(w, z, events) && z.order == order
    ensures Ok(z.rows) == Serially(rows, scripts, order) && Untouched(z, scripts, order)
  {
    if order == [] {
      w := World(rows, [], seq(|scripts|, i requires 0 <= i < |scripts| => Start(scripts[i])), []);
      events, z := [], w;
    } else {
      var n := |order| - 1;
      var first, m;
      EachOnceBefore(order, |scripts|);
      w, first, m := EveryOrderHappens(rows, scripts, order[..n]);
      events, z := CommitNext(w, m, first, rows, scripts, order[n]);
      InterleavingIsSerial(w, z, events, rows, scripts);
    }
  }

  /** The first n transactions ended by themselves, and the others have not started. */
  ghost predicate AllEnded(w: World, n: nat) {
    && (forall t :: 0 <= t < |w.txs| && t < n ==> w.txs[t].phase == Done || w.txs[t].phase == Failed)
    && (forall t :: n <= t < |w.txs| ==> w.txs[t].phase == Running && w.txs[t].held == {})
  }

  lemma OneMoreEnded(m: World, z: World, n: nat)
    requires AllEnded(m, n) && RanAlone(m, z, n)
    ensures AllEnded(z, n + 1)
  {
  }

  lemma NextCanRun(m: World, n: nat)
    requires LockInvariant(m) && AllEnded(m, n) && n < |m.txs|
    ensures m.txs[n].phase == Running && OnlyHolder(m, n)
  {
  }

  /** Any transactions can all end by themselves, committed or refused. */
  lemma {:induction false} AllCanEnd(rows: Rows, scripts: seq<seq<Op>>, n: nat) returns (w: World, events: seq<Event>, z: World)
    requires n <= |scripts|
    ensures Starts(w, rows, scripts) && Reaches(w, z, events) && |z.txs| == |scripts| && AllEnded(z, n)
  {
    if n == 0 {
      w := World(rows, [], seq(|scripts|, i requires 0 <= i < |scripts| => Start(scripts[i])), []);
      events, z := [], w;
    } else {
      var first, m, second;
      w, first, m := AllCanEnd(rows, scripts, n - 1);
      StartInvariant(w, rows, scripts);
      RunKeepsInvariant(w, m, first, rows, scripts);
      NextCanRun(m, n - 1);
      second, z := Solo(m, n - 1);
      OneMoreEnded(m, z, n - 1);
      ReachesOn(w, m, z, first, second);
      events := first + second;
    }
  }

  // ----- baskets competing for stock -----

  /** Every transaction reserves the lines of a basket, as a checkout does. */
  ghost predicate ReservesBaskets(scripts: seq<seq<Op>>, baskets: seq<seq<LineInput>>) {
    |scripts| == |baskets| && forall t :: 0 <= t < |baskets| ==> scripts[t] == ReserveOps(baskets[t])
  }

  /** Units of v in the baskets that committed. */
  function CommittedDemand(baskets: seq<seq<LineInput>>, order: seq<nat>, v: VariantId): nat
    requires forall k :: 0 <= k < |order| ==> order[k] < |baskets|
  {
    if order == [] then 0
    else CommittedDemand(baskets, order[..|order| - 1], v) + Demand(baskets[order[|order| - 1]], v)
  }

  lemma {:induction false} SerialReservations(rows: Rows, scripts: seq<seq<Op>>, baskets: seq<seq<LineInput>>, order: seq<nat>, after: Rows)
    requires ReservesBaskets(scripts, baskets) && forall k :: 0 <= k < |order| ==> order[k] < |scripts|
    requires Serially(rows, scripts, order) == Ok(after)
    ensures after.Keys == rows.Keys
    ensures forall v :: v in rows ==>
      after[v] == rows[v].(reserved := rows[v].reserved + CommittedDemand(baskets, order, v))
  {
    if order != [] {
      var n := |order| - 1;
      var before := Serially(rows, scripts, order[..n]).value;
      SerialReservations(rows, scripts, baskets, order[..n], before);
      ReserveAllExact(before, baskets[order[n]]);
    }
  }

  /** The ledger of the committed baskets adds up to their units. */
  lemma {:induction false} SerialLedger(rows: Rows, scripts: seq<seq<Op>>, baskets: seq<seq<LineInput>>, order: seq<nat>, v: VariantId)
    requires ReservesBaskets(scripts, baskets) && forall k :: 0 <= k < |order| ==> order[k] < |scripts|
    requires Serially(rows, scripts, order).Ok?
    ensures LedgerReserved(SerialEntries(scripts, order), v) == CommittedDemand(baskets, order, v)
  {
    if order != [] {
      var n := |order| - 1;
      SerialLedger(rows, scripts, baskets, order[..n], v);
      ReserveAllExact(Serially(rows, scripts, order[..n]).value, baskets[order[n]]);
      LedgerOfReserve(baskets[order[n]], v);
      LedgerConcat(SerialEntries(scripts, order[..n]), EntriesOfAll(scripts[order[n]]), v);
    }
  }

  /** However checkouts interleave, what is reserved at the end is what was reserved before plus
      the committed baskets, as the ledger records them, and together these never ask for more than
      was available. */
  lemma CommittedBasketsFit(w: World, z: World, events: seq<Event>, rows: Rows, scripts: seq<seq<Op>>, baskets: seq<seq<LineInput>>)
    requires Starts(w, rows, scripts) && Reaches(w, z, events) && SoundRows(rows) && ReservesBaskets(scripts, baskets)
    ensures forall k :: 0 <= k < |z.order| ==> z.order[k] < |baskets|
    ensures z.rows.Keys == rows.Keys
    ensures forall v :: v in rows ==>
      z.rows[v] == rows[v].(reserved := rows[v].reserved + CommittedDemand(baskets, z.order, v))
      && CommittedDemand(baskets, z.order, v) <= rows[v].Available()
    ensures forall v: VariantId :: LedgerReserved(z.ledger, v) == CommittedDemand(baskets, z.order, v)
  {
    InterleavingIsSerial(w, z, events, rows, scripts);
    forall v: VariantId
      ensures LedgerReserved(z.ledger, v) == CommittedDemand(baskets, z.order, v)
    {
      SerialLedger(rows, scripts, baskets, z.order, v);
    }
    SerialReservations(rows, scripts, baskets, z.order, z.rows);
    NeverOversold(w, z, events, rows, scripts);
  }

  // ----- competing for single units -----

  function DoneCount(txs: seq<Tx>): nat {
    if txs == [] then 0 else DoneCount(txs[..|txs| - 1]) + if txs[|txs| - 1].phase == Done then 1 else 0
  }

  lemma {:induction false} DoneCountUpdate(txs: seq<Tx>, t: nat, tx: Tx)
    requires t < |txs| && txs[t].phase == Running
    ensures DoneCount(txs[t := tx]) == DoneCount(txs) + if tx.phase == Done then 1 else 0
  {
    var n := |txs| - 1;
    if t < n {
      DoneCountUpdate(txs[..n], t, tx);
      assert txs[t := tx][..n] == txs[..n][t := tx];
    } else {
      assert txs[t := tx][..n] == txs[..n];
    }
  }

  lemma {:induction false} DoneCountBounds(txs: seq<Tx>)
    ensures DoneCount(txs) <= |txs|
    ensures (forall t :: 0 <= t < |txs| ==> txs[t].phase == Done) ==> DoneCount(txs) == |txs|
  {
    if txs != [] {
      DoneCountBounds(txs[..|txs| - 1]);
    }
  }

  /** Every transaction reserves one unit of v. */
  ghost predicate SingleUnits(scripts: seq<seq<Op>>, v: VariantId) {
    forall t :: 0 <= t < |scripts| ==> scripts[t] == [Reserve(v, 1)]
  }

  /** The counts of a race: commits so far are what was reserved, and a refusal means that
      nothing is left. */
  ghost predicate RaceCounts(w: World, v: VariantId, start: Row) {
    && v in w.rows
    && w.rows[v] == start.(reserved := start.reserved + |w.order|)
    && |w.order| == DoneCount(w.txs)
    && ((exists t :: 0 <= t < |w.txs| && w.txs[t].phase == Failed) ==> w.rows[v].Available() <= 0)
  }

  lemma OneUnit(rows: Rows, v: VariantId)
    ensures ApplyAll(rows, [Reserve(v, 1)]) == Apply(rows, Reserve(v, 1))
  {
    assert [Reserve(v, 1)][..0] == [];
  }

  lemma StepKeepsCounts(w: World, e: Event, v: VariantId, start: Row, rows: Rows, scripts: seq<seq<Op>>)
    requires LockInvariant(w) && Enabled(w, e) && SerialSoFar(w, rows, scripts)
    requires SingleUnits(scripts, v) && RaceCounts(w, v, start)
    ensures RaceCounts(After(w, e), v, start)
  {
    DoneCountUpdate(w.txs, e.tx, After(w, e).txs[e.tx]);
    if e.Execute? {
      RefusalMeansNothingLeft(w, e.tx, v, scripts);
    } else if e.Finish? {
      CommitCounts(w, e.tx, v, rows, scripts);
    }
  }

  lemma RefusalMeansNothingLeft(w: World, t: nat, v: VariantId, scripts: seq<seq<Op>>)
    requires LockInvariant(w) && Enabled(w, Execute(t)) && SingleUnits(scripts, v) && v in w.rows
    requires t < |scripts| && w.txs[t].script == scripts[t]
    ensures Executed(w.txs[t]).phase == Failed ==> w.rows[v].Available() <= 0
    ensures Executed(w.txs[t]).phase != Done
  {
    PrivateRow(w.txs[t], w.rows, v);
    assert w.txs[t].script == [Reserve(v, 1)] && w.txs[t].script[..0] == [];
  }

  lemma CommitCounts(w: World, t: nat, v: VariantId, rows: Rows, scripts: seq<seq<Op>>)
    requires LockInvariant(w) && Enabled(w, Finish(t)) && SingleUnits(scripts, v) && v in w.rows
    requires t < |scripts| && w.txs[t].script == scripts[t]
    ensures var after := w.rows + w.txs[t].own;
      v in after && after[v] == w.rows[v].(reserved := w.rows[v].reserved + 1) && w.rows[v].Available() >= 1
  {
    var tx := w.txs[t];
    assert tx.script == [Reserve(v, 1)] && tx.script[..tx.pc] == tx.script;
    OneUnit(w.rows, v);
  }

  lemma {:induction false} RunKeepsCounts(w: World, z: World, events: seq<Event>, v: VariantId, start: Row, rows: Rows, scripts: seq<seq<Op>>)
    requires LockInvariant(w) && SerialSoFar(w, rows, scripts) && Reaches(w, z, events)
    requires SingleUnits(scripts, v) && RaceCounts(w, v, start)
    ensures RaceCounts(z, v, start)
    decreases |events|
  {
    if events != [] {
      StepKeepsInvariant(w, events[0]);
      StepKeepsSerial(w, events[0], rows, scripts);
      StepKeepsCounts(w, events[0], v, start, rows, scripts);
      RunKeepsCounts(After(w, events[0]), z, events[1..], v, start, rows, scripts);
    }
  }

  lemma {:induction false} NoneDoneAtStart(txs: seq<Tx>)
    requires forall t :: 0 <= t < |txs| ==> txs[t].phase == Running
    ensures DoneCount(txs) == 0
  {
    if txs != [] {
      NoneDoneAtStart(txs[..|txs| - 1]);
    }
  }

  /** When any number of transactions race for single units of one variant and all of them end by
      themselves, exactly as many succeed as there were units available. */
  lemma ExactlyAvailableSucceed(w: World, z: World, events: seq<Event>, rows: Rows, scripts: seq<seq<Op>>, v: VariantId)
    requires Starts(w, rows, scripts) && Reaches(w, z, events) && SingleUnits(scripts, v)
    requires SoundRows(rows) && v in rows
    requires forall t :: 0 <= t < |z.txs| ==> z.txs[t].phase == Done || z.txs[t].phase == Failed
    ensures |z.order| == if |scripts| <= rows[v].Available() then |scripts| else rows[v].Available()
    ensures v in z.rows && z.rows[v] == rows[v].(reserved := rows[v].reserved + |z.order|)
  {
    StartInvariant(w, rows, scripts);
    NoneDoneAtStart(w.txs);
    RunKeepsCounts(w, z, events, v, rows[v], rows, scripts);
    RunKeepsInvariant(w, z, events, rows, scripts);
    NeverOversold(w, z, events, rows, scripts);
    RaceEnds(z, v, rows[v]);
  }

  lemma RaceEnds(z: World, v: VariantId, start: Row)
    requires RaceCounts(z, v, start) && z.rows[v].Available() >= 0
    requires forall t :: 0 <= t < |z.txs| ==> z.txs[t].phase == Done || z.txs[t].phase == Failed
    ensures |z.order| == if |z.txs| <= start.Available() then |z.txs| else start.Available()
  {
    DoneCountBounds(z.txs);
    if forall t :: 0 <= t < |z.txs| ==> z.txs[t].phase != Failed {
      assert DoneCount(z.txs) == |z.txs|;
    } else {
      assert z.rows[v].Available() <= 0;
    }
  }
}
