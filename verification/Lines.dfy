/** Order quantities per variant: what a list of lines asks for. */
module Lines {

  type VariantId = nat

  datatype LineInput = LineInput(variantId: VariantId, quantity: int)

  /** Units of v that the lines ask for. Quantities that are not positive ask for nothing. */
  function Demand(lines: seq<LineInput>, v: VariantId): nat {
    if lines == [] then 0
    else
      var last := lines[|lines| - 1];
      Demand(lines[..|lines| - 1], v) + if last.variantId == v && last.quantity > 0 then last.quantity else 0
  }

  predicate AllPositive(lines: seq<LineInput>) {
    forall i :: 0 <= i < |lines| ==> lines[i].quantity > 0
  }

  predicate Mentions(lines: seq<LineInput>, v: VariantId) {
    exists i :: 0 <= i < |lines| && lines[i].variantId == v
  }

  ghost predicate SameDemand(a: seq<LineInput>, b: seq<LineInput>) {
    forall v: VariantId :: Demand(a, v) == Demand(b, v)
  }

  lemma DemandSnoc(lines: seq<LineInput>, l: LineInput, v: VariantId)
    ensures Demand(lines + [l], v) == Demand(lines, v) + if l.variantId == v && l.quantity > 0 then l.quantity else 0
  {
    assert (lines + [l])[..|lines|] == lines;
  }

  lemma {:induction false} DemandPrefix(lines: seq<LineInput>, i: nat, v: VariantId)
    requires i <= |lines|
    ensures Demand(lines[..i], v) <= Demand(lines, v)
  {
    if i < |lines| {
      DemandPrefix(lines[..|lines| - 1], i, v);
      assert lines[..|lines| - 1][..i] == lines[..i];
    } else {
      assert lines[..i] == lines;
    }
  }

  lemma {:induction false} DemandAtLeast(lines: seq<LineInput>, i: nat)
    requires i < |lines|
    ensures Demand(lines, lines[i].variantId) >= lines[i].quantity
  {
    if i < |lines| - 1 {
      DemandAtLeast(lines[..|lines| - 1], i);
    }
  }

  /** Only a mentioned variant is in demand. */
  lemma {:induction false} DemandMentioned(lines: seq<LineInput>, v: VariantId)
    ensures Demand(lines, v) > 0 ==> Mentions(lines, v)
    ensures AllPositive(lines) && Mentions(lines, v) ==> Demand(lines, v) > 0
  {
    if lines != [] {
      var n := |lines| - 1;
      DemandMentioned(lines[..n], v);
      if Mentions(lines, v) {
        var i :| 0 <= i < |lines| && lines[i].variantId == v;
        if i < n {
          assert lines[..n][i].variantId == v;
        }
      }
      if Mentions(lines[..n], v) {
        var i :| 0 <= i < n && lines[..n][i].variantId == v;
        assert lines[i].variantId == v;
      }
      if Demand(lines, v) > 0 && Demand(lines[..n], v) == 0 {
        assert lines[n].variantId == v;
      }
    }
  }

  function Without(lines: seq<LineInput>, v: VariantId): (r: seq<LineInput>)
    ensures |r| <= |lines|
    ensures AllPositive(lines) ==> AllPositive(r)
  {
    if lines == [] then []
    else
      var n := |lines| - 1;
      if lines[n].variantId == v then Without(lines[..n], v) else Without(lines[..n], v) + [lines[n]]
  }

  lemma {:induction false} DemandWithout(lines: seq<LineInput>, v: VariantId, u: VariantId)
    ensures Demand(Without(lines, v), u) == if u == v then 0 else Demand(lines, u)
  {
    if lines != [] {
      var n := |lines| - 1;
      DemandWithout(lines[..n], v, u);
      DemandSnoc(Without(lines[..n], v), lines[n], u);
    }
  }

  // ----- sums over lines that depend only on the demand -----

  function LineWeight(price: VariantId -> int, l: LineInput): int {
    price(l.variantId) * l.quantity
  }

  function Weigh(price: VariantId -> int, lines: seq<LineInput>): int {
    if lines == [] then 0
    else Weigh(price, lines[..|lines| - 1]) + LineWeight(price, lines[|lines| - 1])
  }

  lemma WeighSnoc(price: VariantId -> int, lines: seq<LineInput>, l: LineInput)
    ensures Weigh(price, lines + [l]) == Weigh(price, lines) + LineWeight(price, l)
  {
    assert (lines + [l])[..|lines|] == lines;
  }

  lemma {:induction false} WeighSplit(price: VariantId -> int, lines: seq<LineInput>, v: VariantId)
    requires AllPositive(lines)
    ensures Weigh(price, lines) == price(v) * Demand(lines, v) + Weigh(price, Without(lines, v))
  {
    if lines != [] {
      var n := |lines| - 1;
      WeighSplit(price, lines[..n], v);
      if lines[n].variantId == v {
        Distribute(price(v), Demand(lines[..n], v), lines[n].quantity);
      } else {
        WeighSnoc(price, Without(lines[..n], v), lines[n]);
      }
    }
  }

  lemma Distribute(x: int, a: int, b: int)
    ensures x * (a + b) == x * a + x * b
  {
  }

  /** Lists that ask for the same units weigh the same, however their lines are ordered,
      split or merged. */
  lemma {:induction false} WeighByDemand(price: VariantId -> int, a: seq<LineInput>, b: seq<LineInput>)
    requires AllPositive(a) && AllPositive(b) && SameDemand(a, b)
    ensures Weigh(price, a) == Weigh(price, b)
    decreases |a|
  {
    if a == [] {
      if b != [] {
        var v := b[0].variantId;
        assert Demand(a, v) == Demand(b, v);
        DemandAtLeast(b, 0);
      }
    } else {
      var v := a[|a| - 1].variantId;
      WeighSplit(price, a, v);
      WeighSplit(price, b, v);
      forall u: VariantId
        ensures Demand(Without(a, v), u) == Demand(Without(b, v), u)
      {
        DemandWithout(a, v, u);
        DemandWithout(b, v, u);
      }
      WeighByDemand(price, Without(a, v), Without(b, v));
    }
  }

  /** Lists that ask for more of every variant weigh more, at prices that are not negative. */
  lemma {:induction false} WeighGrows(price: VariantId -> int, a: seq<LineInput>, b: seq<LineInput>)
    requires AllPositive(a) && AllPositive(b)
    requires forall v: VariantId :: price(v) >= 0
    requires forall v: VariantId :: Demand(a, v) <= Demand(b, v)
    ensures Weigh(price, a) <= Weigh(price, b)
    decreases |b|
  {
    if b == [] {
      if a != [] {
        var v := a[0].variantId;
        assert Demand(a, v) <= Demand(b, v);
        DemandAtLeast(a, 0);
      }
    } else {
      var v := b[|b| - 1].variantId;
      WeighSplit(price, a, v);
      WeighSplit(price, b, v);
      forall u: VariantId
        ensures Demand(Without(a, v), u) <= Demand(Without(b, v), u)
      {
        DemandWithout(a, v, u);
        DemandWithout(b, v, u);
      }
      WeighMonotone(price(v), Demand(a, v), Demand(b, v));
      WeighGrows(price, Without(a, v), Without(b, v));
    }
  }

  lemma WeighMonotone(x: nat, m: int, n: int)
    requires m <= n
    ensures x * m <= x * n
  {
  }
}
