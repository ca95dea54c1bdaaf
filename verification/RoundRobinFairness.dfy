/**
 * Exact fairness of the weighted round robin: dividing weights and threshold by the gcd
 * maps the balancer onto the wheel, call by call, in every reachable state.
 */
module RoundRobinFairness {
  import opened Divisibility
  import opened Endpoints
  import opened Options
  import opened RoundRobin
  import W = Wheel

  /** At least two items, at least one of positive weight. */
  ghost predicate Turning(b: Balancer) {
    Spinning(b) && b.n >= 2 && b.gcd > 0
  }

  // ----- The wheel of a balancer ----------------------------------------------------

  /** How often a weight is due in a cycle; weights of zero or less are never due. */
  function Quota(weight: int, g: int): int
    requires g > 0
  {
    if weight <= 0 then 0 else weight / g
  }

  function Quotas(items: seq<Endpoint>, g: int): (q: seq<int>)
    requires g > 0
    ensures |q| == |items|
  {
    seq(|items|, k requires 0 <= k < |items| => Quota(items[k].weight, g))
  }

  /** Dividing two multiples of g by g keeps their order. */
  lemma DivisionKeepsOrder(g: int, x: int, y: int)
    requires g > 0 && Divides(g, x) && Divides(g, y)
    ensures x <= y <==> x / g <= y / g
    ensures x < y ==> x / g < y / g
  {
    assert x == g * (x / g) && y == g * (y / g);
    assert x / g <= y / g ==> g * (x / g) <= g * (y / g);
    assert x / g >= y / g ==> g * (x / g) >= g * (y / g);
  }

  lemma ThresholdIsMultiple(b: Balancer)
    requires Turning(b)
    ensures Divides(b.gcd, b.maxWeight) && Divides(b.gcd, 0) && Divides(b.gcd, b.gcd)
    ensures b.maxWeight / b.gcd >= 1 && b.gcd / b.gcd == 1 && 0 / b.gcd == 0
    ensures b.i >= 0 ==> 1 <= b.cw / b.gcd <= b.maxWeight / b.gcd
    ensures b.i >= 0 ==> (b.cw / b.gcd == 1 <==> b.cw - b.gcd <= 0)
    ensures b.i >= 0 ==> (b.cw - b.gcd) / b.gcd == b.cw / b.gcd - 1
  {
    TickThreshold(b);
    Multiple(b.gcd, 0);
    Multiple(b.gcd, 1);
    DivisionKeepsOrder(b.gcd, 0, b.maxWeight);
    if b.i >= 0 {
      DivisionKeepsOrder(b.gcd, 0, b.cw);
      DivisionKeepsOrder(b.gcd, b.cw, b.maxWeight);
      DivisionKeepsOrder(b.gcd, b.cw, b.gcd);
      Multiple(b.gcd, b.cw / b.gcd - 1);
      assert b.cw - b.gcd == b.gcd * (b.cw / b.gcd - 1);
    }
  }

  lemma QuotaRange(b: Balancer, k: int)
    requires Turning(b) && 0 <= k < b.n
    ensures 0 <= Quota(b.items[k].weight, b.gcd) <= b.maxWeight / b.gcd
    ensures b.items[k].weight > 0 ==> b.items[k].weight == b.gcd * Quota(b.items[k].weight, b.gcd)
    ensures b.items[k].weight == b.maxWeight ==>
              Quota(b.items[k].weight, b.gcd) == b.maxWeight / b.gcd
    ensures b.i >= 0 ==>
              (Quota(b.items[k].weight, b.gcd) >= b.cw / b.gcd <==> b.items[k].weight >= b.cw)
  {
    var w := b.items[k].weight;
    ThresholdIsMultiple(b);
    if w > 0 {
      DivisionKeepsOrder(b.gcd, w, b.maxWeight);
      DivisionKeepsOrder(b.gcd, 0, w);
      if b.i >= 0 {
        DivisionKeepsOrder(b.gcd, b.cw, w);
      }
    }
  }

  /** A fresh cursor (-1, 0) behaves like the home cursor (n - 1, gcd). */
  ghost function WheelOf(b: Balancer): (w: W.Wheel)
    requires Turning(b)
    ensures W.Valid(w) && |w.q| == |b.items|
  {
    ThresholdIsMultiple(b);
    assert forall k | 0 <= k < b.n ::
        0 <= Quota(b.items[k].weight, b.gcd) <= b.maxWeight / b.gcd by {
      forall k | 0 <= k < b.n
        ensures 0 <= Quota(b.items[k].weight, b.gcd) <= b.maxWeight / b.gcd
      {
        QuotaRange(b, k);
      }
    }
    var h := Heaviest(b.items, b.maxWeight);
    QuotaRange(b, h);
    W.Wheel(Quotas(b.items, b.gcd), b.maxWeight / b.gcd, h,
            if b.i == -1 then b.n - 1 else b.i,
            if b.i == -1 then 1 else b.cw / b.gcd)
  }

  lemma TickOnWheel(b: Balancer)
    requires Turning(b)
    ensures WheelOf(Tick(b)) == W.Tick(WheelOf(b))
    ensures Halts(Tick(b)) <==> W.Emits(W.Tick(WheelOf(b)))
  {
    var t := Tick(b);
    ThresholdIsMultiple(b);
    ThresholdIsMultiple(t);
    QuotaRange(t, t.i);
  }

  lemma {:induction false} SpinOnWheel(b: Balancer)
    requires Turning(b)
    ensures WheelOf(Spin(b)) == W.Spin(WheelOf(b))
    ensures Spin(b).i == W.Spin(WheelOf(b)).i
    decreases Distance(b)
  {
    TickOnWheel(b);
    SpinUnfolds(b);
    hide Tick, W.Tick, WheelOf, Spinning;
    if !Halts(Tick(b)) {
      SpinOnWheel(Tick(b));
    }
  }

  // ----- Calls ----------------------------------------------------------------------

  /** The endpoints returned by c consecutive calls of `next`. */
  ghost function Calls(b: Balancer, c: nat): (s: seq<Endpoint>)
    requires Turning(b) && Valid(b)
    ensures |s| == c
    decreases c
  {
    if c == 0 then [] else
      var r := NextChoice(b);
      [r.1.value] + Calls(r.0, c - 1)
  }

  lemma NextIsSpin(b: Balancer)
    requires Turning(b) && Valid(b)
    ensures Turning(Spin(b)) && Valid(Spin(b))
    ensures 0 <= Spin(b).i < |b.items| && Spin(b).items == b.items
    ensures NextChoice(b) == (Spin(b), Some(b.items[Spin(b).i]))
  {
  }

  ghost function AtIndices(items: seq<Endpoint>, s: seq<int>): seq<Endpoint>
    requires forall j | 0 <= j < |s| :: 0 <= s[j] < |items|
  {
    seq(|s|, j requires 0 <= j < |s| => items[s[j]])
  }

  lemma AtIndicesConcat(items: seq<Endpoint>, s: seq<int>, t: seq<int>)
    requires forall j | 0 <= j < |s| :: 0 <= s[j] < |items|
    requires forall j | 0 <= j < |t| :: 0 <= t[j] < |items|
    ensures forall j | 0 <= j < |s + t| :: 0 <= (s + t)[j] < |items|
    ensures AtIndices(items, s + t) == AtIndices(items, s) + AtIndices(items, t)
  {
  }

  lemma {:induction false} CallsOnWheel(b: Balancer, c: nat)
    requires Turning(b) && Valid(b)
    ensures Calls(b, c) == AtIndices(b.items, W.Calls(WheelOf(b), c))
    decreases c
  {
    hide Spinning, Valid, Spin, WheelOf, NextChoice, W.Spin, W.Valid, AtIndices;
    if c == 0 {
      NoIndices(b.items);
    } else {
      SpinOnWheel(b);
      NextIsSpin(b);
      CallsOnWheel(Spin(b), c - 1);
      OneIndex(b.items, Spin(b).i);
      AtIndicesConcat(b.items, [Spin(b).i], W.Calls(WheelOf(Spin(b)), c - 1));
    }
  }

  lemma {:induction false} CountByIndex(items: seq<Endpoint>, s: seq<int>, k: int)
    requires DistinctNames(items) && 0 <= k < |items|
    requires forall j | 0 <= j < |s| :: 0 <= s[j] < |items|
    ensures multiset(AtIndices(items, s))[items[k]] == multiset(s)[k]
    decreases |s|
  {
    if s != [] {
      var rest := s[1..];
      CountByIndex(items, rest, k);
      assert s == [s[0]] + rest;
      assert AtIndices(items, s) == [items[s[0]]] + AtIndices(items, rest);
      assert items[s[0]] == items[k] <==> s[0] == k;
    }
  }

  // ----- Fairness -------------------------------------------------------------------

  /** The weights that count: negative ones are as good as zero. */
  ghost function PositiveWeight(items: seq<Endpoint>): nat {
    if items == [] then 0 else
      var w := items[|items| - 1].weight;
      PositiveWeight(items[..|items| - 1]) + if w > 0 then w else 0
  }

  lemma {:induction false} SumOfQuotas(items: seq<Endpoint>, g: int)
    requires CommonDivisor(g, items)
    ensures g * W.Sum(Quotas(items, g)) == PositiveWeight(items)
    decreases |items|
  {
    if items != [] {
      var init, w := items[..|items| - 1], items[|items| - 1].weight;
      SumOfQuotas(init, g);
      assert Quotas(items, g)[..|items| - 1] == Quotas(init, g);
      assert g * (W.Sum(Quotas(init, g)) + Quota(w, g)) ==
             g * W.Sum(Quotas(init, g)) + g * Quota(w, g);
    }
  }

  /** The length of a cycle in calls. */
  ghost function CycleCalls(b: Balancer): nat {
    if b.gcd <= 0 then 0 else PositiveWeight(b.items) / b.gcd
  }

  lemma CycleCallsIsSum(b: Balancer)
    requires Turning(b)
    ensures CycleCalls(b) == W.Sum(WheelOf(b).q)
    ensures b.gcd * CycleCalls(b) == PositiveWeight(b.items)
  {
    SumOfQuotas(b.items, b.gcd);
    Multiple(b.gcd, W.Sum(WheelOf(b).q));
  }

  /** The next (sum of weights) / gcd calls return endpoint k exactly weight_k / gcd times. */
  lemma CycleIsFair(b: Balancer, k: int)
    requires Turning(b) && Valid(b) && 0 <= k < b.n
    ensures multiset(Calls(b, CycleCalls(b)))[b.items[k]] == Quota(b.items[k].weight, b.gcd)
  {
    CycleCallsIsSum(b);
    CallsOnWheel(b, CycleCalls(b));
    CountByIndex(b.items, W.Calls(WheelOf(b), CycleCalls(b)), k);
    W.CycleIsFair(WheelOf(b), k);
  }

  /** The calls repeat with the period of a cycle. */
  lemma CallsArePeriodic(b: Balancer, c: nat)
    requires Turning(b) && Valid(b)
    ensures Calls(b, CycleCalls(b) + c) == Calls(b, CycleCalls(b)) + Calls(b, c)
  {
    hide *;
    var p := CycleCalls(b);
    CycleCallsIsSum(b);
    W.CallsArePeriodic(WheelOf(b), c);
    CallsOnWheel(b, p + c);
    CallsOnWheel(b, p);
    CallsOnWheel(b, c);
    AtIndicesConcat(b.items, W.Calls(WheelOf(b), p), W.Calls(WheelOf(b), c));
  }

  ghost function AfterCalls(b: Balancer, c: nat): (r: Balancer)
    requires Turning(b) && Valid(b)
    ensures Turning(r) && Valid(r) && r == b.(i := r.i, cw := r.cw)
    decreases c
  {
    if c == 0 then b else AfterCalls(NextChoice(b).0, c - 1)
  }

  lemma {:induction false} CallsAdd(b: Balancer, c: nat, d: nat)
    requires Turning(b) && Valid(b)
    ensures Calls(b, c + d) == Calls(b, c) + Calls(AfterCalls(b, c), d)
    decreases c
  {
    hide NextChoice, Turning, Valid, Spin;
    if c > 0 {
      var r := NextChoice(b);
      NextIsSpin(b);
      CallsAdd(r.0, c - 1, d);
      Regroup([r.1.value], Calls(r.0, c - 1), Calls(AfterCalls(r.0, c - 1), d));
    }
  }

  lemma Regroup(x: seq<Endpoint>, y: seq<Endpoint>, z: seq<Endpoint>)
    ensures x + (y + z) == (x + y) + z
  {
  }

  /** A window of one cycle is the calls of a cycle from the state that the calls before it leave. */
  lemma WindowIsCycle(b: Balancer, a: nat)
    requires Turning(b) && Valid(b)
    ensures var r := AfterCalls(b, a);
            && r.items == b.items && r.n == b.n && r.gcd == b.gcd && CycleCalls(r) == CycleCalls(b)
            && Calls(b, a + CycleCalls(b))[a..] == Calls(r, CycleCalls(r))
  {
    hide Turning, Valid, Calls, PositiveWeight;
    CallsAdd(b, a, CycleCalls(b));
  }

  lemma WindowIsFair(b: Balancer, a: nat, k: int)
    requires Turning(b) && Valid(b) && 0 <= k < b.n
    ensures b.gcd * CycleCalls(b) == PositiveWeight(b.items)
    ensures var window := Calls(b, a + CycleCalls(b))[a..];
            && (b.items[k].weight > 0 ==>
                  b.gcd * multiset(window)[b.items[k]] == b.items[k].weight)
            && (b.items[k].weight <= 0 ==> b.items[k] !in window)
  {
    hide Turning, Valid, Calls, CycleCalls, AfterCalls, Quota;
    QuotaRange(b, k);
    NoQuota(b, k);
    CycleCallsIsSum(b);
    WindowIsCycle(b, a);
    CycleIsFair(AfterCalls(b, a), k);
    var window := Calls(b, a + CycleCalls(b))[a..];
    assert b.items[k] in window <==> multiset(window)[b.items[k]] > 0;
  }

  lemma NoQuota(b: Balancer, k: int)
    requires Turning(b) && 0 <= k < b.n
    ensures k < |b.items| && b.gcd > 0
    ensures b.items[k].weight <= 0 ==> Quota(b.items[k].weight, b.gcd) == 0
  {
  }

  /**
   * Fairness of every window of every run: after any operations and any number a of
   * further calls, the next (sum of weights) / gcd calls give endpoint k weight_k / gcd turns.
   */
  lemma EveryWindowIsFair(ops: seq<Op>, a: nat, k: int)
    requires Run(ops).n >= 2 && Run(ops).gcd > 0 && 0 <= k < Run(ops).n
    ensures var b := Run(ops);
            var window := Calls(b, a + CycleCalls(b))[a..];
            && b.gcd * CycleCalls(b) == PositiveWeight(b.items)
            && (b.items[k].weight > 0 ==>
                  b.gcd * multiset(window)[b.items[k]] == b.items[k].weight)
            && (b.items[k].weight <= 0 ==> b.items[k] !in window)
  {
    hide Run, Calls, CycleCalls, Spinning;
    WindowIsFair(Run(ops), a, k);
  }

  // ----- The schedule ---------------------------------------------------------------

  /** The items whose weight reaches the level, in order. */
  ghost function AtLevel(items: seq<Endpoint>, level: int): seq<Endpoint> {
    if items == [] then [] else
      var e := items[|items| - 1];
      AtLevel(items[..|items| - 1], level) + if e.weight >= level then [e] else []
  }

  /** The levels from the given one down to zero in steps of g, one after the other. */
  ghost function Schedule(items: seq<Endpoint>, level: int, g: int): seq<Endpoint>
    requires g > 0
    decreases level
  {
    if level <= 0 then [] else AtLevel(items, level) + Schedule(items, level - g, g)
  }

  /** No call of `next` since the balancer was last emptied. */
  predicate Fresh(ops: seq<Op>) {
    ops == [] || match ops[|ops| - 1]
                 case OpAdd(_) => Fresh(ops[..|ops| - 1])
                 case OpNext => false
                 case OpRemoveAll => true
  }

  /** The first positive weight sets the cursor before the first item, and later ones leave it there. */
  lemma {:induction false} FreshCursor(ops: seq<Op>)
    requires Fresh(ops)
    ensures Run(ops).gcd > 0 ==> Run(ops).i == -1 && Run(ops).cw == 0
    decreases |ops|
  {
    hide Valid, Spin, WithEndpoint;
    if ops != [] && ops[|ops| - 1].OpAdd? {
      FreshCursor(ops[..|ops| - 1]);
      AddKeepsFresh(Run(ops[..|ops| - 1]), ops[|ops| - 1].e);
    }
  }

  lemma AddKeepsFresh(b: Balancer, e: Endpoint)
    requires Valid(b) && (b.gcd > 0 ==> b.i == -1 && b.cw == 0)
    ensures WithEndpoint(b, e).gcd > 0 ==> WithEndpoint(b, e).i == -1 && WithEndpoint(b, e).cw == 0
  {
    hide IsGcd, IsMax, DistinctNames;
  }

  lemma {:induction false} DueAtLevel(items: seq<Endpoint>, g: int, level: int, n: nat)
    requires CommonDivisor(g, items) && n <= |items| && level >= 1
    ensures forall j | 0 <= j < |W.DueAt(Quotas(items, g), level, n)| ::
              0 <= W.DueAt(Quotas(items, g), level, n)[j] < |items|
    ensures AtIndices(items, W.DueAt(Quotas(items, g), level, n)) == AtLevel(items[..n], g * level)
    decreases n
  {
    if n > 0 {
      DueAtLevel(items, g, level, n - 1);
      assert items[..n][..n - 1] == items[..n - 1];
      QuotaReaches(items[n - 1].weight, g, level);
      hide AtIndices, Quota;
      var due := W.DueAt(Quotas(items, g), level, n - 1);
      var last := if Quotas(items, g)[n - 1] >= level then [n - 1] else [];
      AtIndicesConcat(items, due, last);
      OneIndex(items, n - 1);
    }
  }

  lemma OneIndex(items: seq<Endpoint>, k: int)
    requires 0 <= k < |items|
    ensures AtIndices(items, [k]) == [items[k]] && AtIndices(items, []) == []
  {
  }

  lemma QuotaReaches(weight: int, g: int, level: int)
    requires g > 0 && level >= 1 && (weight > 0 ==> Divides(g, weight))
    ensures Quota(weight, g) >= level <==> weight >= g * level
  {
    if weight > 0 {
      var q := weight / g;
      assert weight == g * q;
      assert q >= level ==> g * q >= g * level;
      assert q < level ==> g * (q + 1) <= g * level;
    } else {
      assert g * level >= 1;
    }
  }

  lemma {:induction false} LevelsAreSchedule(items: seq<Endpoint>, g: int, top: nat, m: nat)
    requires g > 0 && CommonDivisor(g, items) && m <= top
    ensures forall j | 0 <= j < |W.Levels(Quotas(items, g), top, m)| ::
              0 <= W.Levels(Quotas(items, g), top, m)[j] < |items|
    ensures AtIndices(items, W.Levels(Quotas(items, g), top, m)) + Schedule(items, g * (top - m), g)
         == Schedule(items, g * top, g)
    decreases m
  {
    hide AtIndices, Quotas, CommonDivisor, Schedule, AtLevel;
    if m == 0 {
      NoIndices(items);
    } else {
      LevelsAreSchedule(items, g, top, m - 1);
      var level := top - m + 1;
      DueIsAtLevel(items, g, level);
      ScheduleStep(items, g, level);
      var q := Quotas(items, g);
      hide W.DueAt;
      AtIndicesConcat(items, W.Levels(q, top, m - 1), W.DueAt(q, level, |items|));
      Regroup(AtIndices(items, W.Levels(q, top, m - 1)), AtLevel(items, g * level), Schedule(items, g * (level - 1), g));
    }
  }

  lemma DueIsAtLevel(items: seq<Endpoint>, g: int, level: int)
    requires g > 0 && CommonDivisor(g, items) && level >= 1
    ensures var due := W.DueAt(Quotas(items, g), level, |items|);
            && (forall j | 0 <= j < |due| :: 0 <= due[j] < |items|)
            && AtIndices(items, due) == AtLevel(items, g * level)
  {
    hide AtIndices, AtLevel, CommonDivisor;
    DueAtLevel(items, g, level, |items|);
    assert items[..|items|] == items;
  }

  lemma NoIndices(items: seq<Endpoint>)
    ensures AtIndices(items, []) == []
  {
  }

  lemma ScheduleStep(items: seq<Endpoint>, g: int, level: int)
    requires g > 0 && level >= 1
    ensures Schedule(items, g * level, g) == AtLevel(items, g * level) + Schedule(items, g * (level - 1), g)
  {
    assert g * level == g * (level - 1) + g;
    assert g * (level - 1) >= 0;
  }

  /** From a fresh cursor, a cycle of calls is the schedule by levels. */
  lemma FreshSchedule(b: Balancer)
    requires Turning(b) && Valid(b) && b.i == -1
    ensures Calls(b, CycleCalls(b)) == Schedule(b.items, b.maxWeight, b.gcd)
  {
    hide Turning, Valid, Schedule, Calls, CycleCalls, WheelOf, AtIndices, Quotas, CommonDivisor;
    CycleCallsIsSum(b);
    CallsOnWheel(b, CycleCalls(b));
    var top := FreshWheel(b);
    W.HomeSchedule(WheelOf(b));
    LevelsAreSchedule(b.items, b.gcd, top, top);
    NoLevels(b.items, b.gcd);
    var order := W.Levels(Quotas(b.items, b.gcd), top, top);
    assert AtIndices(b.items, order) + [] == AtIndices(b.items, order);
  }

  /** The wheel of a fresh cursor is at home. */
  lemma FreshWheel(b: Balancer) returns (top: nat)
    requires Turning(b) && b.i == -1
    ensures b.gcd > 0 && CommonDivisor(b.gcd, b.items) && b.maxWeight == b.gcd * top && b.gcd * (top - top) == 0
    ensures var w := WheelOf(b);
            W.Valid(w) && w == W.Home(w) && w.top == top && w.q == Quotas(b.items, b.gcd)
  {
    ThresholdIsMultiple(b);
    top := b.maxWeight / b.gcd;
  }

  lemma NoLevels(items: seq<Endpoint>, g: int)
    requires g > 0
    ensures Schedule(items, 0, g) == []
  {
  }

  lemma SameGcd(g: int, h: int, items: seq<Endpoint>)
    requires IsGcd(g, items) && IsGcd(h, items)
    ensures g == h
  {
    assert g == h * (g / h) && h == g * (h / g);
    assert g / h >= 1 && h / g >= 1;
  }

  /** The next c calls return these endpoints. */
  ghost predicate CallsReturn(b: Balancer, c: nat, s: seq<Endpoint>) {
    Turning(b) && Valid(b) && Calls(b, c) == s
  }

  /**
   * The schedule of a balancer that has been filled and not yet asked, from the endpoints it was
   * given alone: with m the largest weight, g the greatest common divisor of the positive ones and
   * g * c their sum, the first c calls go through the levels m, m - g, .., g, and at each return the
   * endpoints whose weight reaches the level, in the order they were added.
   */
  lemma FirstCycleIsSchedule(ops: seq<Op>, m: int, g: int, c: nat)
    requires Fresh(ops) && |Kept(ops)| >= 2
    requires m > 0 && IsMax(m, Kept(ops)) && g > 0 && IsGcd(g, Kept(ops)) && g * c == PositiveWeight(Kept(ops))
    ensures CallsReturn(Run(ops), c, Schedule(Kept(ops), m, g))
  {
    hide Run, Kept, Fresh, IsMax, IsGcd, Schedule, Calls, PositiveWeight, CycleCalls;
    var b := Run(ops);
    RunKeepsEndpoints(ops);
    FreshCursor(ops);
    SameConfig(b, m, g);
    CycleCallsIsSum(b);
    Cancel(g, c, CycleCalls(b));
    FreshSchedule(b);
  }

  lemma Cancel(g: int, x: int, y: int)
    requires g > 0 && g * x == g * y
    ensures x == y
  {
    assert x < y ==> g * (y - x) >= 1;
    assert x > y ==> g * (x - y) >= 1;
  }

  lemma SameConfig(b: Balancer, m: int, g: int)
    requires Valid(b) && m > 0 && IsMax(m, b.items) && IsGcd(g, b.items)
    ensures b.gcd == g && b.maxWeight == m && b.n == |b.items|
  {
    var h := Heaviest(b.items, m);
    assert b.items[h].weight > 0;
    SameGcd(b.gcd, g, b.items);
    var k := Heaviest(b.items, b.maxWeight);
  }
}
