/** The first-come first-served gate around file-system calls (sandbox-fs-guard.cjs): at most
    `limit` callers inside, and a leaving caller hands its slot to the longest-waiting one. */
module Gate {
  import opened Prelude

  type Caller = nat

  datatype GateState = GateState(active: int, waiting: seq<Caller>)

  function Acquired(g: GateState, limit: nat, who: Caller): GateState {
    if g.active < limit then g.(active := g.active + 1) else g.(waiting := g.waiting + [who])
  }

  /** The slot goes to the head of the queue; only without one is it given up. */
  function Left(g: GateState): GateState {
    if g.waiting != [] then g.(waiting := g.waiting[1..]) else g.(active := g.active - 1)
  }

  class FifoGate {
    const limit: nat
    var active: int
    var waiting: seq<Caller>

    constructor (limit: nat)
      ensures this.limit == limit && AsState() == GateState(0, [])
    {
      this.limit, active, waiting := limit, 0, [];
    }

    function AsState(): GateState
      reads this
    {
      GateState(active, waiting)
    }

    method Acquire(who: Caller) returns (entered: bool)
      modifies this
      ensures AsState() == Acquired(old(AsState()), limit, who)
      ensures entered <==> old(active) < limit
    {
      if active < limit {
        active := active + 1;
        return true;
      }
      waiting := waiting + [who];
      return false;
    }

    method Release() returns (woken: Option<Caller>)
      modifies this
      ensures AsState() == Left(old(AsState()))
      ensures woken == if old(waiting) != [] then Some(old(waiting)[0]) else None
    {
      if waiting != [] {
        woken := Some(waiting[0]);
        waiting := waiting[1..];
      } else {
        active := active - 1;
        woken := None;
      }
    }
  }

  // ----- any interleaving of calls and completions -----

  /** The gate, the callers inside, and everyone who asked and who was let in, in order. */
  datatype World = World(gate: GateState, holders: set<Caller>, asked: seq<Caller>, granted: seq<Caller>)

  /** A completion covers every way a wrapped call can end, since the release is in `finally`. */
  datatype Event = Call(who: Caller) | Complete(who: Caller)

  const INITIAL := World(GateState(0, []), {}, [], [])

  predicate Enabled(w: World, e: Event) {
    match e
    case Call(who) => who !in w.asked
    case Complete(who) => who in w.holders
  }

  function Admit(w: World, gate: GateState, who: Caller): World {
    w.(gate := gate, holders := w.holders + {who}, granted := w.granted + [who])
  }

  function After(w: World, limit: nat, e: Event): World {
    match e
    case Call(who) =>
      var asking := w.(asked := w.asked + [who]);
      var gate := Acquired(w.gate, limit, who);
      if w.gate.active < limit then Admit(asking, gate, who) else asking.(gate := gate)
    case Complete(who) =>
      var leaving := w.(holders := w.holders - {who});
      var gate := Left(w.gate);
      if w.gate.waiting != [] then Admit(leaving, gate, w.gate.waiting[0]) else leaving.(gate := gate)
  }

  ghost predicate Distinct(s: seq<Caller>) {
    forall i, j :: 0 <= i < j < |s| ==> s[i] != s[j]
  }

  /** `active` counts the slot holders, a queue forms only when every slot is taken, and slots
      were granted in exactly the order they were asked for. */
  ghost predicate GateInvariant(w: World, limit: nat) {
    && w.gate.active == |w.holders| <= limit
    && (w.gate.waiting != [] ==> w.gate.active == limit)
    && w.asked == w.granted + w.gate.waiting
    && Distinct(w.asked)
    && (forall h :: h in w.holders ==> h in w.granted)
  }

  lemma CallKeepsInvariant(w: World, limit: nat, who: Caller)
    requires GateInvariant(w, limit) && who !in w.asked
    ensures GateInvariant(After(w, limit, Call(who)), limit)
  {
    assert forall h :: h in w.granted ==> h in w.asked;
    if w.gate.active < limit {
      assert w.gate.waiting == [];
      assert w.granted + [] == w.granted;
    } else {
      assert (w.granted + w.gate.waiting) + [who] == w.granted + (w.gate.waiting + [who]);
    }
  }

  lemma CompleteKeepsInvariant(w: World, limit: nat, who: Caller)
    requires GateInvariant(w, limit) && who in w.holders
    ensures GateInvariant(After(w, limit, Complete(who)), limit)
  {
    if w.gate.waiting != [] {
      var next := w.gate.waiting[0];
      assert w.asked[|w.granted|] == next;
      forall i | 0 <= i < |w.granted|
        ensures w.granted[i] != next
      {
        assert w.asked[i] == w.granted[i];
      }
      assert w.granted + w.gate.waiting == (w.granted + [next]) + w.gate.waiting[1..];
    }
  }

  ghost predicate Runs(w: World, limit: nat, events: seq<Event>, z: World)
    decreases |events|
  {
    if events == [] then z == w
    else Enabled(w, events[0]) && Runs(After(w, limit, events[0]), limit, events[1..], z)
  }

  lemma StepKeepsInvariant(w: World, limit: nat, e: Event)
    requires GateInvariant(w, limit) && Enabled(w, e)
    ensures GateInvariant(After(w, limit, e), limit)
  {
    match e
    case Call(who) => CallKeepsInvariant(w, limit, who);
    case Complete(who) => CompleteKeepsInvariant(w, limit, who);
  }

  lemma {:induction false} RunKeepsInvariant(w: World, limit: nat, events: seq<Event>, z: World)
    requires GateInvariant(w, limit) && Runs(w, limit, events, z)
    ensures GateInvariant(z, limit)
    decreases |events|
  {
    if events != [] {
      StepKeepsInvariant(w, limit, events[0]);
      RunKeepsInvariant(After(w, limit, events[0]), limit, events[1..], z);
    }
  }

  /** Under every interleaving: at most `limit` holders, counted by `active`, no idle slot while
      someone waits, and grants in the order of the requests. */
  lemma GateIsFairAndBounded(limit: nat, events: seq<Event>, z: World)
    requires Runs(INITIAL, limit, events, z)
    ensures z.gate.active == |z.holders| <= limit
    ensures z.gate.waiting != [] ==> |z.holders| == limit
    ensures |z.granted| <= |z.asked| && z.granted == z.asked[..|z.granted|] && z.gate.waiting == z.asked[|z.granted|..]
  {
    RunKeepsInvariant(INITIAL, limit, events, z);
  }

  // ----- a burst of calls -----

  lemma {:induction false} RunsOn(w: World, limit: nat, a: seq<Event>, m: World, e: Event)
    requires Runs(w, limit, a, m) && Enabled(m, e)
    ensures Runs(w, limit, a + [e], After(m, limit, e))
    decreases |a|
  {
    if a == [] {
      assert [e][1..] == [];
      assert Runs(m, limit, [e], After(m, limit, e));
      assert a + [e] == [e];
    } else {
      RunsOn(After(w, limit, a[0]), limit, a[1..], m, e);
      assert (a + [e])[1..] == a[1..] + [e];
    }
  }

  /** After these callers asked and nobody left: the first `limit` of them are inside. */
  ghost predicate Served(w: World, limit: nat, callers: seq<Caller>) {
    && w.asked == callers && w.granted == callers[..if |callers| <= limit then |callers| else limit]
    && forall c :: c in w.granted <==> c in w.holders
  }

  lemma OneMoreServed(w: World, limit: nat, callers: seq<Caller>, who: Caller)
    requires GateInvariant(w, limit) && Served(w, limit, callers) && who !in callers
    ensures Enabled(w, Call(who)) && Served(After(w, limit, Call(who)), limit, callers + [who])
  {
    GrantedAreHolders(w, limit);
  }

  /** Any callers may ask one after the other; the first `limit` of them enter at once, and the
      others wait in the order they asked. */
  lemma {:induction false} BurstIsServed(limit: nat, callers: seq<Caller>) returns (events: seq<Event>, z: World)
    requires Distinct(callers)
    ensures Runs(INITIAL, limit, events, z) && z.asked == callers
    ensures z.granted == callers[..if |callers| <= limit then |callers| else limit]
    ensures Served(z, limit, callers)
  {
    if callers == [] {
      events, z := [], INITIAL;
    } else {
      var n := |callers| - 1;
      var before, w;
      before, w := BurstIsServed(limit, callers[..n]);
      RunKeepsInvariant(INITIAL, limit, before, w);
      OneMoreServed(w, limit, callers[..n], callers[n]);
      events, z := before + [Call(callers[n])], After(w, limit, Call(callers[n]));
      RunsOn(INITIAL, limit, before, w, Call(callers[n]));
      assert callers == callers[..n] + [callers[n]];
    }
  }

  /** While nobody has left, the active count is that of the grants. */
  lemma GrantedAreHolders(w: World, limit: nat)
    requires GateInvariant(w, limit) && forall c :: c in w.granted <==> c in w.holders
    ensures w.gate.active == |w.granted|
  {
    assert forall i, j :: 0 <= i < j < |w.granted| ==> w.asked[i] == w.granted[i] && w.asked[j] == w.granted[j];
    DistinctCount(w.granted, w.holders);
  }

  lemma {:induction false} DistinctCount(s: seq<Caller>, elements: set<Caller>)
    requires Distinct(s) && forall c :: c in s <==> c in elements
    ensures |s| == |elements|
  {
    if s != [] {
      var n := |s| - 1;
      assert forall c :: c in s[..n] <==> c in elements - {s[n]};
      DistinctCount(s[..n], elements - {s[n]});
    } else {
      assert elements == {};
    }
  }

  // ----- nobody waits forever -----

  function Completions(events: seq<Event>): nat {
    if events == [] then 0 else Completions(events[1..]) + if events[0].Complete? then 1 else 0
  }

  /** How many are inside or in the queue. */
  function Load(w: World): nat {
    |w.holders| + |w.gate.waiting|
  }

  lemma StepLoad(w: World, limit: nat, e: Event)
    requires GateInvariant(w, limit) && Enabled(w, e)
    ensures Load(After(w, limit, e)) == if e.Complete? then Load(w) - 1 else Load(w) + 1
  {
    StepKeepsInvariant(w, limit, e);
  }

  /** As long as anyone is inside or waiting, some holder can complete. */
  lemma SomeoneIsInside(w: World, limit: nat)
    requires GateInvariant(w, limit) && limit >= 1 && Load(w) > 0
    ensures exists who :: who in w.holders && Enabled(w, Complete(who))
  {
    assert w.holders != {};
    var who :| who in w.holders;
    assert Enabled(w, Complete(who));
  }

  lemma {:induction false} RunLoad(w: World, limit: nat, events: seq<Event>, z: World)
    requires GateInvariant(w, limit) && Runs(w, limit, events, z)
    ensures Load(z) + 2 * Completions(events) == Load(w) + |events|
    decreases |events|
  {
    if events != [] {
      StepLoad(w, limit, events[0]);
      StepKeepsInvariant(w, limit, events[0]);
      RunLoad(After(w, limit, events[0]), limit, events[1..], z);
    }
  }

  /** When no one new arrives, the gate empties after exactly as many completions as it has
      holders and waiters, whichever holders complete first; by then everyone was let in. */
  lemma GateDrains(limit: nat, before: seq<Event>, w: World, events: seq<Event>, z: World)
    requires Runs(INITIAL, limit, before, w) && Runs(w, limit, events, z)
    requires Completions(events) == |events| == Load(w)
    ensures z.gate == GateState(0, []) && z.granted == z.asked
  {
    RunKeepsInvariant(INITIAL, limit, before, w);
    RunKeepsInvariant(w, limit, events, z);
    RunLoad(w, limit, events, z);
    assert Load(z) == 0;
    assert z.holders == {};
  }

  /** A run that lets holders complete, one after the other, until nobody is left. */
  lemma {:induction false} SomeDrain(w: World, limit: nat) returns (events: seq<Event>, z: World)
    requires GateInvariant(w, limit) && limit >= 1
    ensures Runs(w, limit, events, z) && Completions(events) == |events| == Load(w)
    decreases Load(w)
  {
    if Load(w) == 0 {
      events, z := [], w;
    } else {
      SomeoneIsInside(w, limit);
      var who :| who in w.holders && Enabled(w, Complete(who));
      StepLoad(w, limit, Complete(who));
      StepKeepsInvariant(w, limit, Complete(who));
      var rest;
      rest, z := SomeDrain(After(w, limit, Complete(who)), limit);
      events := [Complete(who)] + rest;
      assert events[1..] == rest;
    }
  }

  /** A run of completions alone, after which the gate is at zero and everyone was let in. */
  ghost predicate DrainsTo(w: World, limit: nat, events: seq<Event>, z: World) {
    Runs(w, limit, events, z) && Completions(events) == |events|
    && z.gate == GateState(0, []) && z.granted == z.asked == w.asked
  }

  /** With at least one slot, no reachable state of the gate is stuck: completions alone can bring
      it back to zero, with everyone let in. */
  lemma GateCanDrain(limit: nat, before: seq<Event>, w: World)
    requires limit >= 1 && Runs(INITIAL, limit, before, w)
    ensures exists events, z :: DrainsTo(w, limit, events, z)
  {
    RunKeepsInvariant(INITIAL, limit, before, w);
    var events, z := SomeDrain(w, limit);
    GateDrains(limit, before, w, events, z);
    CompletionsAskNothing(w, limit, events, z);
    assert DrainsTo(w, limit, events, z);
  }

  lemma {:induction false} CompletionsAskNothing(w: World, limit: nat, events: seq<Event>, z: World)
    requires Runs(w, limit, events, z) && Completions(events) == |events|
    ensures z.asked == w.asked
    decreases |events|
  {
    if events != [] {
      CompletionsAtMost(events[1..]);
      CompletionsAskNothing(After(w, limit, events[0]), limit, events[1..], z);
    }
  }

  lemma {:induction false} CompletionsAtMost(events: seq<Event>)
    ensures Completions(events) <= |events|
  {
    if events != [] {
      CompletionsAtMost(events[1..]);
    }
  }

  lemma StepGrants(w: World, limit: nat, e: Event)
    ensures After(w, limit, e).granted == w.granted
         || (|After(w, limit, e).granted| == |w.granted| + 1 && w.granted <= After(w, limit, e).granted)
    ensures w.asked <= After(w, limit, e).asked
    ensures e.Complete? && w.gate.waiting != [] ==> |After(w, limit, e).granted| == |w.granted| + 1
  {
  }

  lemma {:induction false} RunGrants(w: World, limit: nat, events: seq<Event>, z: World, k: nat)
    requires GateInvariant(w, limit) && Runs(w, limit, events, z)
    requires k < |w.asked| && k < |w.granted| + Completions(events)
    ensures w.asked <= z.asked && k < |z.granted|
    decreases |events|
  {
    if events != [] {
      var next := After(w, limit, events[0]);
      StepGrants(w, limit, events[0]);
      StepKeepsInvariant(w, limit, events[0]);
      if k < |w.granted| {
        GrantsStay(next, limit, events[1..], z);
      } else {
        RunGrants(next, limit, events[1..], z, k);
      }
    }
  }

  lemma {:induction false} GrantsStay(w: World, limit: nat, events: seq<Event>, z: World)
    requires GateInvariant(w, limit) && Runs(w, limit, events, z)
    ensures |w.granted| <= |z.granted| && w.asked <= z.asked
    decreases |events|
  {
    if events != [] {
      StepGrants(w, limit, events[0]);
      StepKeepsInvariant(w, limit, events[0]);
      GrantsStay(After(w, limit, events[0]), limit, events[1..], z);
    }
  }

  /** The waiter at position k is let in by the time k + 1 holders completed, no matter who else
      arrives meanwhile. */
  lemma BoundedWaiting(limit: nat, before: seq<Event>, w: World, events: seq<Event>, z: World, k: nat)
    requires Runs(INITIAL, limit, before, w) && Runs(w, limit, events, z)
    requires k < |w.gate.waiting| && Completions(events) > k
    ensures w.gate.waiting[k] in z.granted
  {
    RunKeepsInvariant(INITIAL, limit, before, w);
    RunKeepsInvariant(w, limit, events, z);
    var place := |w.granted| + k;
    assert w.asked[place] == w.gate.waiting[k];
    RunGrants(w, limit, events, z, place);
    assert z.asked[place] == z.granted[place];
  }
}
