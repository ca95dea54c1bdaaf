/**
 * The interleaved weighted round robin of roundrobin_weighted.rs.
 *
 * A cursor (i, cw) walks the items cyclically; cw is a threshold that starts at
 * the largest weight and drops by the gcd of the weights on every lap. An item is
 * handed out when its weight reaches the threshold. `Balancer` is the value of all
 * fields, `RoundRobinWeighted` the object that updates them in place.
 */
module RoundRobin {
  import opened Divisibility
  import opened Endpoints
  import opened Options

  datatype Balancer = Balancer(
    items: seq<Endpoint>,
    n: int,
    gcd: int,
    maxWeight: int,
    i: int,
    cw: int
  )

  /** The derived default value: note that i starts at 0 here and at -1 after `remove_all`. */
  const DEFAULT := Balancer([], 0, 0, 0, 0, 0)

  // ----- Greatest common divisor ---------------------------------------------------

  ghost predicate IsGcdOfTwo(g: int, x: int, y: int) {
    && g > 0 && Divides(g, x) && Divides(g, y)
    && forall d :: d > 0 && Divides(d, x) && Divides(d, y) ==> Divides(d, g)
  }

  function Euclid(x: int, y: int): (g: int)
    requires x > 0 && y > 0
    ensures IsGcdOfTwo(g, x, y)
    decreases y
  {
    var t := x % y;
    EuclidStep(x, y);
    if t > 0 then Euclid(y, t) else y
  }

  /** Replacing (x, y) by (y, x % y) keeps the common divisors. */
  lemma EuclidStep(x: int, y: int)
    requires x > 0 && y > 0
    ensures forall d :: d > 0 && Divides(d, y) ==> (Divides(d, x) <==> Divides(d, x % y))
  {
    var q, r := x / y, x % y;
    assert x == r + q * y;
    forall d | d > 0 && Divides(d, y)
      ensures Divides(d, x) <==> Divides(d, r)
    {
      SameDivisor(d, x, y, q, r);
    }
  }

  lemma SameDivisor(d: int, x: int, y: int, q: int, r: int)
    requires d > 0 && Divides(d, y) && x == r + q * y
    ensures Divides(d, x) <==> Divides(d, r)
  {
    hide Divides;
    assert x + (-q) * y == r;
    if Divides(d, x) {
      Combination(d, x, y, -q);
    }
    if Divides(d, r) {
      Combination(d, r, y, q);
    }
  }

  /** The remainder loop of `gcd`. */
  method Gcd(x: int, y: int) returns (g: int)
    requires x > 0 && y > 0
    ensures g == Euclid(x, y)
  {
    var a, b := x, y;
    while true
      invariant a > 0 && b > 0 && Euclid(a, b) == Euclid(x, y)
      decreases b
    {
      var t := a % b;
      if t > 0 {
        a, b := b, t;
      } else {
        return b;
      }
    }
  }

  // ----- Invariant ------------------------------------------------------------------

  ghost predicate CommonDivisor(d: int, items: seq<Endpoint>) {
    d > 0 && forall j | 0 <= j < |items| && items[j].weight > 0 :: Divides(d, items[j].weight)
  }

  /** g is the greatest common divisor of the positive weights. */
  ghost predicate IsGcd(g: int, items: seq<Endpoint>) {
    && CommonDivisor(g, items)
    && forall d :: CommonDivisor(d, items) ==> Divides(d, g)
  }

  predicate IsMax(m: int, items: seq<Endpoint>) {
    && (forall j | 0 <= j < |items| :: items[j].weight <= m)
    && exists j | 0 <= j < |items| :: items[j].weight == m
  }

  /** What n, gcd and maxWeight say about the items; weights of zero or less are ignored. */
  ghost predicate Config(b: Balancer) {
    && b.n == |b.items|
    && DistinctNames(b.items)
    && b.gcd >= 0
    && (b.gcd == 0 ==> b.maxWeight == 0 && forall j | 0 <= j < |b.items| :: b.items[j].weight <= 0)
    && (b.gcd > 0 ==> b.maxWeight > 0 && IsGcd(b.gcd, b.items) && IsMax(b.maxWeight, b.items))
  }

  /** A cursor that the loop of `next` can be at, before or after any of its iterations. */
  ghost predicate Spinning(b: Balancer) {
    && Config(b)
    && -1 <= b.i
    && (b.gcd == 0 ==> b.cw == 0 && (b.i < b.n || b.i == 0))
    && (b.gcd > 0 ==>
          || (b.i == -1 && b.cw == 0)
          || (b.i < b.n && 0 <= b.i && 0 < b.cw <= b.maxWeight && Divides(b.gcd, b.cw)))
  }

  /** The item under the cursor reaches the threshold. */
  predicate Emits(b: Balancer) {
    0 <= b.i < |b.items| && b.items[b.i].weight >= b.cw
  }

  /** What holds between calls: a started cursor rests on an item it has just handed out. */
  ghost predicate Valid(b: Balancer) {
    Spinning(b) && (b.gcd > 0 && b.i >= 0 ==> Emits(b))
  }

  // ----- Operations -----------------------------------------------------------------

  function WithEndpoint(b: Balancer, e: Endpoint): (r: Balancer)
    requires b.gcd >= 0
  {
    if HasName(b.items, e.name) then b
    else
      var items, n := b.items + [e], b.n + 1;
      if e.weight > 0 && b.gcd == 0 then
        Balancer(items, n, e.weight, e.weight, -1, 0)
      else if e.weight > 0 then
        b.(items := items, n := n, gcd := Euclid(b.gcd, e.weight),
           maxWeight := if b.maxWeight < e.weight then e.weight else b.maxWeight)
      else
        b.(items := items, n := n)
  }

  function Emptied(b: Balancer): Balancer {
    Balancer([], 0, 0, 0, -1, 0)
  }

  /** One iteration of the loop of `next`: advance i, and at i == 0 lower the threshold. */
  function Tick(b: Balancer): (r: Balancer)
    requires Spinning(b) && b.n >= 1
    ensures Spinning(r)
    ensures r == b.(i := r.i, cw := r.cw)
    ensures r.i == (if b.i + 1 >= b.n then 0 else b.i + 1)
    ensures b.gcd > 0 ==> 0 <= r.i && 0 < r.cw
  {
    CyclicStep(b.i, b.n);
    TickThreshold(b);
    var i := (b.i + 1) % b.n;
    if i != 0 then b.(i := i)
    else b.(i := 0, cw := if b.cw - b.gcd <= 0 then b.maxWeight else b.cw - b.gcd)
  }

  lemma TickThreshold(b: Balancer)
    requires Spinning(b)
    ensures b.gcd > 0 ==> Divides(b.gcd, b.maxWeight)
    ensures b.gcd > 0 && b.i >= 0 ==> Divides(b.gcd, b.cw - b.gcd)
  {
    if b.gcd > 0 && b.i >= 0 {
      Multiple(b.gcd, 1);
      Sum(b.gcd, b.cw, b.gcd);
    }
  }

  /** The loop stops on an item at the threshold, or with nothing when every weight is <= 0. */
  predicate Halts(b: Balancer) {
    Emits(b) || (b.i == 0 && b.cw == 0)
  }

  ghost function Heaviest(items: seq<Endpoint>, m: int): (j: int)
    requires IsMax(m, items)
    ensures 0 <= j < |items| && items[j].weight == m
  {
    var j :| 0 <= j < |items| && items[j].weight == m;
    j
  }

  /** Cyclic distance from the cursor to a position where the loop is sure to stop. */
  ghost function Distance(b: Balancer): (d: nat)
    requires Spinning(b) && b.n >= 1
    ensures 1 <= d <= b.n
  {
    var t := if b.gcd > 0 then Heaviest(b.items, b.maxWeight) else 0;
    if b.i < t then t - b.i else t - b.i + b.n
  }

  /** The number of loop iterations of one call of `next`: never more than n. */
  ghost function Iterations(b: Balancer): (k: nat)
    requires Spinning(b) && b.n >= 1
    ensures 1 <= k <= Distance(b) <= b.n
    decreases Distance(b)
  {
    if Halts(Tick(b)) then 1 else 1 + Iterations(Tick(b))
  }

  /** The cursor at the end of the loop of `next`. */
  function Spin(b: Balancer): (r: Balancer)
    requires Spinning(b) && b.n >= 1
    ensures Valid(r) && Halts(r)
    ensures r == b.(i := r.i, cw := r.cw)
    ensures b.gcd > 0 ==> Emits(r)
    decreases Distance(b)
  {
    var t := Tick(b);
    if Halts(t) then t else Spin(t)
  }

  lemma {:induction false} SpinUnfolds(b: Balancer)
    requires Spinning(b) && b.n >= 1
    ensures Spin(b) == if Halts(Tick(b)) then Tick(b) else Spin(Tick(b))
    ensures !Halts(Tick(b)) ==> Distance(Tick(b)) < Distance(b)
    ensures Iterations(b) == if Halts(Tick(b)) then 1 else 1 + Iterations(Tick(b))
  {
  }

  function NextChoice(b: Balancer): (r: (Balancer, Option<Endpoint>))
    requires Valid(b)
    ensures Valid(r.0)
    ensures r.1.Some? ==> r.1.value in b.items
    ensures r.1.None? <==> b.n == 0 || (b.n >= 2 && r.0.i == 0 && r.0.cw == 0)
    ensures b.n <= 1 ==> r.0 == b
    ensures b.n >= 2 && r.1.Some? ==> 0 <= r.0.i < |b.items| && r.1.value == b.items[r.0.i]
    ensures b.gcd > 0 ==> r.1.Some?
    ensures b.gcd > 0 && b.n >= 2 ==> r.1.value.weight > 0
  {
    if b.n == 0 then (b, None)
    else if b.n == 1 then (b, Some(b.items[0]))
    else
      var t := Spin(b);
      (t, if t.i == 0 && t.cw == 0 then None else Some(t.items[t.i]))
  }

  // ----- One call -------------------------------------------------------------------

  /** j is the first index from `from` on whose weight reaches the level. */
  predicate FirstDue(items: seq<Endpoint>, from: int, level: int, j: int) {
    && 0 <= from <= j < |items| && items[j].weight >= level
    && forall k | from <= k < j :: items[k].weight < level
  }

  /** The level of the next lap: one gcd lower, or the largest weight again. */
  function NextLevel(b: Balancer): int {
    if b.i == -1 || b.cw <= b.gcd then b.maxWeight else b.cw - b.gcd
  }

  /**
   * Where a call goes: to the next item on this lap whose weight reaches the threshold, or else to
   * the first on the next lap.
   */
  lemma {:induction false} SpinGoesToDue(b: Balancer)
    requires Spinning(b) && b.n >= 1 && b.gcd > 0
    ensures var r := Spin(b);
            if b.i >= 0 && exists k | b.i < k < |b.items| :: b.items[k].weight >= b.cw
            then r.cw == b.cw && FirstDue(b.items, b.i + 1, b.cw, r.i)
            else r.cw == NextLevel(b) && FirstDue(b.items, 0, NextLevel(b), r.i)
    decreases Distance(b)
  {
    hide Spin, Distance, Spinning, Tick;
    var t := Tick(b);
    SpinUnfolds(b);
    var h := TickMoves(b);
    if !Halts(t) {
      SpinGoesToDue(t);
    }
  }

  lemma TickMoves(b: Balancer) returns (h: int)
    requires Spinning(b) && b.n >= 1 && b.gcd > 0
    ensures var t := Tick(b);
            && t.i == (if b.i + 1 >= b.n then 0 else b.i + 1) && t.cw == (if t.i == 0 then NextLevel(b) else b.cw)
            && b.n == |b.items| && -1 <= b.i < b.n && t.cw > 0
            && 0 <= h < |b.items| && b.items[h].weight >= t.cw
  {
    hide IsGcd, DistinctNames, Divides;
    h := Heaviest(b.items, b.maxWeight);
  }

  /** Without positive weights: the next item of weight zero, or nothing at the end of the lap. */
  lemma {:induction false} IdleSpin(b: Balancer)
    requires Spinning(b) && b.n >= 1 && b.gcd == 0
    ensures var r := Spin(b);
            if b.i >= 0 && exists k | b.i < k < |b.items| :: b.items[k].weight >= 0
            then r.cw == 0 && FirstDue(b.items, b.i + 1, 0, r.i)
            else r.cw == 0 && r.i == 0
    decreases Distance(b)
  {
    var t := Tick(b);
    SpinUnfolds(b);
    hide Spin, Distance, DistinctNames;
    if !Halts(t) {
      IdleSpin(t);
    }
  }

  /**
   * A call from every state with two or more items, stated on the weights alone: it returns the first
   * item after the cursor that reaches the threshold; else, one level lower (or back at the largest
   * weight), the first item that reaches that; and without positive weights the next item of weight
   * zero, or nothing when the lap is over.
   */
  lemma NextGoesToDue(b: Balancer)
    requires Valid(b) && b.n >= 2
    ensures var (r, e) := NextChoice(b);
            var onLap := b.i >= 0 && exists k | b.i < k < |b.items| :: b.items[k].weight >= b.cw;
            if onLap then r.cw == b.cw && FirstDue(b.items, b.i + 1, b.cw, r.i) && e == Some(b.items[r.i])
            else if b.gcd == 0 then r.i == 0 && r.cw == 0 && e == None
            else r.cw == NextLevel(b) && FirstDue(b.items, 0, r.cw, r.i) && e == Some(b.items[r.i])
  {
    if b.gcd > 0 {
      SpinGoesToDue(b);
    } else {
      IdleSpin(b);
    }
    hide Spin, IsGcd, DistinctNames, Divides, FirstDue;
  }

  // ----- Every run ------------------------------------------------------------------

  datatype Op = OpAdd(e: Endpoint) | OpNext | OpRemoveAll

  lemma GcdOfAppended(b: Balancer, e: Endpoint)
    requires Config(b) && b.gcd > 0 && e.weight > 0
    ensures IsGcd(Euclid(b.gcd, e.weight), b.items + [e])
  {
    var g, items := Euclid(b.gcd, e.weight), b.items + [e];
    forall j | 0 <= j < |items| && items[j].weight > 0
      ensures Divides(g, items[j].weight)
    {
      if j < |b.items| {
        assert items[j] == b.items[j];
        Transitive(g, b.gcd, b.items[j].weight);
      }
    }
    forall d | CommonDivisor(d, items)
      ensures Divides(d, g)
    {
      assert Divides(d, items[|b.items|].weight);
      forall j | 0 <= j < |b.items| && b.items[j].weight > 0
        ensures Divides(d, b.items[j].weight)
      {
        assert items[j] == b.items[j];
      }
      assert CommonDivisor(d, b.items);
    }
  }

  lemma MaxOfAppended(b: Balancer, e: Endpoint)
    requires Config(b) && b.gcd > 0
    ensures IsMax(if b.maxWeight < e.weight then e.weight else b.maxWeight, b.items + [e])
  {
    var items := b.items + [e];
    assert items[Heaviest(b.items, b.maxWeight)].weight == b.maxWeight;
    assert items[|b.items|] == e;
  }

  lemma NamesStayDistinct(items: seq<Endpoint>, e: Endpoint)
    requires DistinctNames(items) && !HasName(items, e.name)
    ensures DistinctNames(items + [e])
  {
  }

  /** Adding to a balancer that has seen no positive weight yet. */
  lemma AddToIdle(b: Balancer, e: Endpoint)
    requires Valid(b) && b.gcd == 0 && !HasName(b.items, e.name)
    ensures Valid(WithEndpoint(b, e))
  {
    var r := WithEndpoint(b, e);
    NamesStayDistinct(b.items, e);
    assert forall j | 0 <= j < |b.items| :: r.items[j] == b.items[j];
    assert r.items[|b.items|] == e;
    if e.weight > 0 {
      Multiple(e.weight, 1);
      assert forall d :: CommonDivisor(d, r.items) ==> Divides(d, r.items[|b.items|].weight);
      assert IsGcd(e.weight, r.items);
    }
  }

  lemma AddKeepsConfig(b: Balancer, e: Endpoint)
    requires Config(b) && b.gcd > 0 && !HasName(b.items, e.name)
    ensures Config(WithEndpoint(b, e))
  {
    hide DistinctNames, HasName, IsMax, IsGcd, Euclid;
    NamesStayDistinct(b.items, e);
    MaxOfAppended(b, e);
    if e.weight > 0 {
      GcdOfAppended(b, e);
    } else {
      GcdUnchanged(b, e);
    }
  }

  lemma GcdUnchanged(b: Balancer, e: Endpoint)
    requires IsGcd(b.gcd, b.items) && e.weight <= 0
    ensures IsGcd(b.gcd, b.items + [e])
  {
    SameDivisors(b.items, e);
  }

  /**
   * What `add` does to the items and the cursor: a known name changes nothing, the first positive
   * weight starts a fresh cursor, and any other endpoint leaves the cursor where it is.
   */
  ghost predicate Added(b: Balancer, e: Endpoint, r: Balancer) {
    && (HasName(b.items, e.name) ==> r == b)
    && (!HasName(b.items, e.name) ==>
          && r.items == b.items + [e] && r.n == b.n + 1
          && (b.gcd == 0 < e.weight ==> r.i == -1 && r.cw == 0)
          && (b.gcd > 0 || e.weight <= 0 ==> r.i == b.i && r.cw == b.cw))
  }

  lemma AddKeepsValid(b: Balancer, e: Endpoint)
    requires Valid(b)
    ensures Valid(WithEndpoint(b, e)) && Added(b, e, WithEndpoint(b, e))
  {
    if !HasName(b.items, e.name) {
      if b.gcd == 0 {
        AddToIdle(b, e);
      } else {
        AddKeepsConfig(b, e);
        var r := WithEndpoint(b, e);
        hide Config, HasName;
        if b.i >= 0 && e.weight > 0 {
          Transitive(r.gcd, b.gcd, b.cw);
        }
      }
    }
  }

  lemma SameDivisors(items: seq<Endpoint>, e: Endpoint)
    requires e.weight <= 0
    ensures forall d :: CommonDivisor(d, items + [e]) <==> CommonDivisor(d, items)
  {
    forall d
      ensures CommonDivisor(d, items + [e]) <==> CommonDivisor(d, items)
    {
      assert forall j | 0 <= j < |items| :: (items + [e])[j] == items[j];
    }
  }

  function Apply(b: Balancer, op: Op): (r: Balancer)
    requires Valid(b)
    ensures Valid(r)
  {
    match op
    case OpAdd(e) => AddKeepsValid(b, e); WithEndpoint(b, e)
    case OpNext => NextChoice(b).0
    case OpRemoveAll => Emptied(b)
  }

  /** The balancer after a whole run, from the default value. */
  function Run(ops: seq<Op>): (r: Balancer)
    ensures Valid(r)
  {
    if ops == [] then DEFAULT else Apply(Run(ops[..|ops| - 1]), ops[|ops| - 1])
  }

  /** The endpoints a run leaves: the first of each name since the last `remove_all`, in order. */
  function Kept(ops: seq<Op>): seq<Endpoint> {
    if ops == [] then []
    else
      var before := Kept(ops[..|ops| - 1]);
      match ops[|ops| - 1]
      case OpAdd(e) => if HasName(before, e.name) then before else before + [e]
      case OpNext => before
      case OpRemoveAll => []
  }

  lemma {:induction false} RunKeepsEndpoints(ops: seq<Op>)
    ensures Run(ops).items == Kept(ops)
    decreases |ops|
  {
    hide Valid, Spin;
    if ops != [] {
      RunKeepsEndpoints(ops[..|ops| - 1]);
    }
  }

  // ----- The object -----------------------------------------------------------------

  class RoundRobinWeighted {
    var items: seq<Endpoint>
    var n: int
    var gcd: int
    var maxWeight: int
    var i: int
    var cw: int

    ghost function View(): Balancer
      reads this
    {
      Balancer(items, n, gcd, maxWeight, i, cw)
    }

    constructor ()
      ensures View() == DEFAULT && items == [] && n == gcd == maxWeight == i == cw == 0
    {
      items, n, gcd, maxWeight, i, cw := [], 0, 0, 0, 0, 0;
    }

    method Add(endpoint: Endpoint)
      requires Valid(View())
      modifies this
      ensures Valid(View()) && View() == WithEndpoint(old(View()), endpoint)
      ensures Added(old(View()), endpoint, View())
    {
      AddKeepsValid(View(), endpoint);
      var exists_ := ItemExists(items, endpoint.name);
      if exists_ {
        return;
      }
      var weight := endpoint.weight;
      if weight > 0 {
        if gcd == 0 {
          gcd, maxWeight, i, cw := weight, weight, -1, 0;
        } else {
          gcd := Gcd(gcd, weight);
          if maxWeight < weight {
            maxWeight := weight;
          }
        }
      }
      items := items + [endpoint];
      n := n + 1;
    }

    /** The loop makes at most n iterations. */
    method Next() returns (r: Option<Endpoint>, ghost iterations: nat)
      requires Valid(View())
      modifies this`i, this`cw
      ensures Valid(View()) && (View(), r) == NextChoice(old(View()))
      ensures iterations == if n < 2 then 0 else Iterations(old(View()))
      ensures iterations <= n
    {
      hide Spin, Iterations, Distance, IsGcd, IsMax, DistinctNames;
      iterations := 0;
      if n == 0 {
        r := None;
        return;
      }
      if n == 1 {
        r := Some(items[0]);
        return;
      }
      while true
        invariant Spinning(View()) && Spin(View()) == Spin(old(View()))
        invariant iterations + Iterations(View()) == Iterations(old(View()))
        invariant View().items == old(items) && n == old(n)
        decreases Distance(View())
      {
        SpinUnfolds(View());
        var exhausted := Turn();
        iterations := iterations + 1;
        if exhausted {
          r := None;
          return;
        }
        if items[i].weight >= cw {
          r := Some(items[i]);
          return;
        }
      }
    }

    /** The part of the loop body that moves the cursor; true when no weight is positive. */
    method Turn() returns (exhausted: bool)
      requires Spinning(View()) && n >= 2
      modifies this`i, this`cw
      ensures View() == Tick(old(View()))
      ensures exhausted <==> i == 0 && cw == 0
    {
      CyclicStep(i, n);
      i := (i + 1) % n;
      if i == 0 {
        cw := cw - gcd;
        if cw <= 0 {
          cw := maxWeight;
          if cw == 0 {
            return true;
          }
        }
      }
      return false;
    }

    method RemoveAll()
      modifies this
      ensures Valid(View()) && View() == Emptied(old(View()))
      ensures items == [] && n == gcd == maxWeight == cw == 0 && i == -1
    {
      items, n, gcd, maxWeight, i, cw := [], 0, 0, 0, -1, 0;
    }
  }
}
