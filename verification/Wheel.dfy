/**
 * The schedule behind the weighted round robin, with every weight divided by the gcd.
 *
 * Item k is due q[k] times a cycle; the cursor is an item i and a level in 1 .. top, and
 * item i is handed out when q[i] reaches the level. The proofs count loop iterations
 * ("ticks") first: from the home cursor (n - 1, 1) a cycle of n * top ticks hands out item
 * k exactly q[k] times and comes home; every cursor lies on that cycle; and c calls are the
 * ticks up to the c-th hand-out.
 */
module Wheel {

  datatype Wheel = Wheel(q: seq<int>, top: int, heaviest: int, i: int, level: int)

  ghost predicate Valid(w: Wheel) {
    && w.top >= 1
    && (forall k | 0 <= k < |w.q| :: 0 <= w.q[k] <= w.top)
    && 0 <= w.heaviest < |w.q| && w.q[w.heaviest] == w.top
    && 0 <= w.i < |w.q|
    && 1 <= w.level <= w.top
  }

  ghost predicate Emits(w: Wheel)
    requires 0 <= w.i < |w.q|
  {
    w.q[w.i] >= w.level
  }

  // ----- Ticks ----------------------------------------------------------------------

  ghost function Tick(w: Wheel): (r: Wheel)
    requires Valid(w)
    ensures Valid(r) && 0 <= r.i < |r.q| && r == w.(i := r.i, level := r.level)
  {
    if w.i + 1 < |w.q| then w.(i := w.i + 1)
    else w.(i := 0, level := if w.level == 1 then w.top else w.level - 1)
  }

  ghost function Ticks(w: Wheel, j: nat): (r: Wheel)
    requires Valid(w)
    ensures Valid(r) && r == w.(i := r.i, level := r.level)
    decreases j
  {
    if j == 0 then w else Ticks(Tick(w), j - 1)
  }

  ghost function Mark(w: Wheel, k: int): nat
    requires Valid(w)
  {
    if Emits(w) && w.i == k then 1 else 0
  }

  /** How often item k is handed out in j ticks. */
  ghost function Hits(w: Wheel, k: int, j: nat): nat
    requires Valid(w)
    decreases j
  {
    if j == 0 then 0 else Mark(Tick(w), k) + Hits(Tick(w), k, j - 1)
  }

  lemma {:induction false} TicksAdd(w: Wheel, k: int, j: nat, l: nat)
    requires Valid(w)
    ensures Ticks(w, j + l) == Ticks(Ticks(w, j), l)
    ensures Hits(w, k, j + l) == Hits(w, k, j) + Hits(Ticks(w, j), k, l)
    decreases j
  {
    hide Tick, Valid, Mark;
    if j > 0 {
      TicksAdd(Tick(w), k, j - 1, l);
    }
  }

  lemma FirstTick(w: Wheel, k: int, j: nat)
    requires Valid(w) && j > 0
    ensures Ticks(w, j) == Ticks(Tick(w), j - 1)
    ensures Hits(w, k, j) == Mark(Tick(w), k) + Hits(Tick(w), k, j - 1)
  {
    hide Tick, Valid, Mark;
  }

  /** Ticks that stay on one lap keep the level. */
  lemma {:induction false} Lap(w: Wheel, k: int, d: nat)
    requires Valid(w) && w.i + d < |w.q| && 0 <= k < |w.q|
    ensures Ticks(w, d) == w.(i := w.i + d)
    ensures Hits(w, k, d) == if w.i < k <= w.i + d && w.q[k] >= w.level then 1 else 0
    decreases d
  {
    if d > 0 {
      Lap(Tick(w), k, d - 1);
    }
  }

  lemma NextLap(w: Wheel)
    requires Valid(w) && w.i == |w.q| - 1
    ensures Tick(w) == w.(i := 0, level := if w.level == 1 then w.top else w.level - 1)
  {
  }

  /** A whole lap from the last item: each item is handed out once if it reaches the new level. */
  lemma Round(w: Wheel, k: int)
    requires Valid(w) && w.i == |w.q| - 1 && 0 <= k < |w.q|
    ensures var level := if w.level == 1 then w.top else w.level - 1;
            && Ticks(w, |w.q|) == w.(level := level)
            && Hits(w, k, |w.q|) == if w.q[k] >= level then 1 else 0
  {
    hide Ticks, Hits, Tick;
    FirstTick(w, k, |w.q|);
    NextLap(w);
    Lap(Tick(w), k, |w.q| - 1);
  }

  // ----- One cycle ------------------------------------------------------------------

  ghost function Home(w: Wheel): (r: Wheel)
    requires Valid(w)
    ensures Valid(r)
  {
    w.(i := |w.q| - 1, level := 1)
  }

  /** After m laps from home the level is the m-th from the top. */
  lemma {:induction false} Rounds(w: Wheel, k: int, m: int)
    requires Valid(w) && 0 <= k < |w.q| && 1 <= m <= w.top
    ensures 0 <= |w.q| * m
    ensures Ticks(Home(w), |w.q| * m) == w.(i := |w.q| - 1, level := w.top - m + 1)
    ensures Hits(Home(w), k, |w.q| * m) == if m > w.top - w.q[k] then m - (w.top - w.q[k]) else 0
    decreases m
  {
    hide Tick, Ticks, Hits;
    if m == 1 {
      Round(Home(w), k);
    } else {
      Rounds(w, k, m - 1);
      var j := |w.q| * (m - 1);
      assert |w.q| * m == j + |w.q|;
      TicksAdd(Home(w), k, j, |w.q|);
      Round(Ticks(Home(w), j), k);
    }
  }

  ghost function CycleTicks(w: Wheel): (l: nat)
    requires Valid(w)
    ensures l > 0
  {
    |w.q| * w.top
  }

  /** Every cursor is some number of ticks from home. */
  lemma Located(w: Wheel) returns (j: nat)
    requires Valid(w)
    ensures Ticks(Home(w), j) == w
  {
    hide Tick, Ticks, Hits;
    var lap := Home(w);
    j := 0;
    NoTicks(lap);
    if w.level < w.top {
      Rounds(w, 0, w.top - w.level);
      j := |w.q| * (w.top - w.level);
      lap := w.(i := |w.q| - 1, level := w.level + 1);
    }
    TicksAdd(Home(w), 0, j, 1 + w.i);
    FirstTick(lap, 0, 1 + w.i);
    NextLap(lap);
    Lap(Tick(lap), 0, w.i);
    j := j + 1 + w.i;
  }

  lemma NoTicks(w: Wheel)
    requires Valid(w)
    ensures Ticks(w, 0) == w
  {
  }

  /** From every cursor, one cycle of ticks comes back and hands out each item as often as due. */
  lemma Cycle(w: Wheel, k: int)
    requires Valid(w) && 0 <= k < |w.q|
    ensures Ticks(w, CycleTicks(w)) == w
    ensures Hits(w, k, CycleTicks(w)) == w.q[k]
  {
    var l := CycleTicks(w);
    Rounds(w, k, w.top);
    var j := Located(w);
    TicksAdd(Home(w), k, j, l);
    TicksAdd(Home(w), k, l, j);
  }

  lemma CycleReturns(w: Wheel)
    requires Valid(w)
    ensures Ticks(w, CycleTicks(w)) == w
  {
    hide Ticks, CycleTicks, Tick;
    Cycle(w, 0);
  }

  // ----- Calls ----------------------------------------------------------------------

  /** Cyclic distance to an item that is due at every level. */
  ghost function Distance(w: Wheel): (d: nat)
    requires Valid(w)
    ensures 1 <= d <= |w.q|
  {
    if w.i < w.heaviest then w.heaviest - w.i else w.heaviest - w.i + |w.q|
  }

  lemma Nearer(w: Wheel)
    requires Valid(w) && !Emits(Tick(w))
    ensures Distance(Tick(w)) < Distance(w)
  {
  }

  /** The cursor after one call: the next hand-out. */
  ghost function Spin(w: Wheel): (r: Wheel)
    requires Valid(w)
    ensures Valid(r) && Emits(r) && r == w.(i := r.i, level := r.level)
    decreases Distance(w)
  {
    if Emits(Tick(w)) then Tick(w) else Spin(Tick(w))
  }

  /** The items handed out by c consecutive calls. */
  ghost function Calls(w: Wheel, c: nat): (s: seq<int>)
    requires Valid(w)
    ensures |s| == c && forall j | 0 <= j < c :: 0 <= s[j] < |w.q|
    decreases c
  {
    if c == 0 then [] else [Spin(w).i] + Calls(Spin(w), c - 1)
  }

  ghost function AfterCalls(w: Wheel, c: nat): (r: Wheel)
    requires Valid(w)
    ensures Valid(r) && r == w.(i := r.i, level := r.level)
    decreases c
  {
    if c == 0 then w else AfterCalls(Spin(w), c - 1)
  }

  lemma {:induction false} CallsAdd(w: Wheel, c: nat, d: nat)
    requires Valid(w)
    ensures Calls(w, c + d) == Calls(w, c) + Calls(AfterCalls(w, c), d)
    decreases c
  {
    hide Spin, Valid;
    if c > 0 {
      CallsAdd(Spin(w), c - 1, d);
      assert Calls(w, c + d) == [Spin(w).i] + (Calls(Spin(w), c - 1) + Calls(AfterCalls(w, c), d));
    }
  }

  /** All hand-outs in j ticks. */
  ghost function Total(w: Wheel, j: nat): nat
    requires Valid(w)
    decreases j
  {
    if j == 0 then 0 else (if Emits(Tick(w)) then 1 else 0) + Total(Tick(w), j - 1)
  }

  lemma {:induction false} TotalAdd(w: Wheel, j: nat, l: nat)
    requires Valid(w)
    ensures Total(w, j + l) == Total(w, j) + Total(Ticks(w, j), l)
    decreases j
  {
    hide Tick, Valid, Emits;
    if j > 0 {
      TotalAdd(Tick(w), j - 1, l);
    }
  }

  lemma {:induction false} TotalDominates(w: Wheel, k: int, j: nat)
    requires Valid(w)
    ensures Hits(w, k, j) <= Total(w, j)
    decreases j
  {
    hide Tick, Valid;
    if j > 0 {
      TotalDominates(Tick(w), k, j - 1);
    }
  }

  /** Ticks that hand out nothing do not change what the next call returns. */
  lemma {:induction false} SilentTicks(w: Wheel, j: nat)
    requires Valid(w) && Total(w, j) == 0
    ensures Spin(Ticks(w, j)) == Spin(w)
    decreases j
  {
    hide Tick;
    if j > 0 {
      SilentTicks(Tick(w), j - 1);
    }
  }

  /** One call is the ticks up to and including the next hand-out. */
  lemma {:induction false} CallTicks(w: Wheel, k: int) returns (j: nat)
    requires Valid(w)
    ensures 1 <= j && Ticks(w, j) == Spin(w)
    ensures Hits(w, k, j) == if Spin(w).i == k then 1 else 0
    ensures Total(w, j) == 1 && Total(w, j - 1) == 0
    decreases Distance(w)
  {
    hide Tick;
    var t := Tick(w);
    j := 1;
    if Emits(t) {
      assert Ticks(w, 1) == Ticks(t, 0);
      assert Hits(w, k, 1) == Mark(t, k) + Hits(t, k, 0);
      assert Total(w, 1) == 1 + Total(t, 0);
    } else {
      Nearer(w);
      var x := CallTicks(t, k);
      j := x + 1;
    }
  }

  /** c calls take some number of ticks, with the same hand-outs; the last tick is a hand-out. */
  lemma {:induction false} CallsTicks(w: Wheel, k: int, c: nat) returns (j: nat)
    requires Valid(w)
    ensures Ticks(w, j) == AfterCalls(w, c)
    ensures Hits(w, k, j) == multiset(Calls(w, c))[k]
    ensures Total(w, j) == c
    ensures if c == 0 then j == 0 else j > 0 && Total(w, j - 1) == c - 1
    decreases c
  {
    hide Tick, Spin, Valid, Emits;
    j := 0;
    if c > 0 {
      var x := CallTicks(w, k);
      var y := CallsTicks(Spin(w), k, c - 1);
      j := x + y;
      OneMoreCall(w, k, c, x, y);
    }
  }

  lemma OneMoreCall(w: Wheel, k: int, c: nat, x: nat, y: nat)
    requires Valid(w) && c > 0 && x > 0
    requires Ticks(w, x) == Spin(w) && Total(w, x) == 1 && Total(w, x - 1) == 0
    requires Hits(w, k, x) == if Spin(w).i == k then 1 else 0
    requires Ticks(Spin(w), y) == AfterCalls(Spin(w), c - 1)
    requires Hits(Spin(w), k, y) == multiset(Calls(Spin(w), c - 1))[k]
    requires Total(Spin(w), y) == c - 1
    requires if c == 1 then y == 0 else y > 0 && Total(Spin(w), y - 1) == c - 2
    ensures Ticks(w, x + y) == AfterCalls(w, c)
    ensures Hits(w, k, x + y) == multiset(Calls(w, c))[k]
    ensures Total(w, x + y) == c && Total(w, x + y - 1) == c - 1
  {
    hide Tick, Spin, Valid, Ticks, Hits, Total, Calls, AfterCalls;
    CallsHead(w, k, c);
    TicksAdd(w, k, x, y);
    TotalAdd(w, x, y);
    if c > 1 {
      TotalAdd(w, x, y - 1);
    }
  }

  lemma CallsHead(w: Wheel, k: int, c: nat)
    requires Valid(w) && c > 0
    ensures AfterCalls(w, c) == AfterCalls(Spin(w), c - 1)
    ensures multiset(Calls(w, c))[k] == multiset(Calls(Spin(w), c - 1))[k] + if Spin(w).i == k then 1 else 0
  {
    hide Spin, Valid;
    assert Calls(w, c) == [Spin(w).i] + Calls(Spin(w), c - 1);
  }

  // ----- Fairness -------------------------------------------------------------------

  ghost function Sum(q: seq<int>): int {
    if q == [] then 0 else Sum(q[..|q| - 1]) + q[|q| - 1]
  }

  /** The hand-outs of items 0 .. m - 1 in j ticks. */
  ghost function PartialTotal(w: Wheel, m: int, j: nat): int
    requires Valid(w) && 0 <= m <= |w.q|
    decreases m
  {
    if m == 0 then 0 else PartialTotal(w, m - 1, j) + Hits(w, m - 1, j)
  }

  lemma {:induction false} PartialTotalStep(w: Wheel, m: int, j: nat)
    requires Valid(w) && 0 <= m <= |w.q|
    ensures j == 0 ==> PartialTotal(w, m, j) == 0
    ensures j > 0 ==>
              PartialTotal(w, m, j) == PartialTotal(Tick(w), m, j - 1)
                                       + if Emits(Tick(w)) && Tick(w).i < m then 1 else 0
    decreases m
  {
    hide Tick, Valid;
    if m > 0 {
      PartialTotalStep(w, m - 1, j);
    }
  }

  lemma {:induction false} TotalIsPartialTotal(w: Wheel, j: nat)
    requires Valid(w)
    ensures Total(w, j) == PartialTotal(w, |w.q|, j)
    decreases j
  {
    hide Tick, Hits;
    PartialTotalStep(w, |w.q|, j);
    if j > 0 {
      TotalIsPartialTotal(Tick(w), j - 1);
    }
  }

  lemma {:induction false} CycleTotal(w: Wheel, m: int)
    requires Valid(w) && 0 <= m <= |w.q|
    ensures PartialTotal(w, m, CycleTicks(w)) == Sum(w.q[..m])
    decreases m
  {
    hide Tick, Hits, CycleTicks, Valid;
    if m > 0 {
      CycleTotal(w, m - 1);
      Cycle(w, m - 1);
      assert w.q[..m][..m - 1] == w.q[..m - 1];
    }
  }

  /** The calls of one cycle end within the ticks of one cycle, and the rest of those are silent. */
  lemma CycleEnds(w: Wheel, k: int) returns (c: nat, j: nat)
    requires Valid(w)
    ensures c == Sum(w.q)
    ensures j <= CycleTicks(w) && Ticks(w, j) == AfterCalls(w, c)
    ensures Hits(w, k, j) == multiset(Calls(w, c))[k]
    ensures Total(Ticks(w, j), CycleTicks(w) - j) == 0
  {
    hide *;
    var l := CycleTicks(w);
    TotalIsPartialTotal(w, l);
    CycleTotal(w, |w.q|);
    assert w.q[..|w.q|] == w.q;
    c := Total(w, l);
    j := CallsTicks(w, k, c);
    if j > l {
      TotalAdd(w, l, j - 1 - l);
    } else {
      TotalAdd(w, j, l - j);
    }
  }

  /** From every cursor, the next Sum(q) calls hand out item k exactly q[k] times. */
  lemma CycleIsFair(w: Wheel, k: int)
    requires Valid(w) && 0 <= k < |w.q|
    ensures Sum(w.q) >= 0
    ensures multiset(Calls(w, Sum(w.q)))[k] == w.q[k]
  {
    hide *;
    var _, j := CycleEnds(w, k);
    var l := CycleTicks(w);
    Cycle(w, k);
    TicksAdd(w, k, j, l - j);
    TotalDominates(Ticks(w, j), k, l - j);
  }

  lemma CallsFollowSpin(v: Wheel, w: Wheel, c: nat)
    requires Valid(v) && Valid(w) && Spin(v) == Spin(w)
    ensures Calls(v, c) == Calls(w, c)
  {
    hide Spin, Valid;
  }

  lemma Repeats(w: Wheel, p: nat, j: nat, c: nat)
    requires Valid(w) && j <= CycleTicks(w) && Ticks(w, j) == AfterCalls(w, p)
    requires Total(Ticks(w, j), CycleTicks(w) - j) == 0
    ensures Calls(w, p + c) == Calls(w, p) + Calls(w, c)
  {
    hide *;
    var l := CycleTicks(w) - j;
    TicksAdd(w, 0, j, l);
    CycleReturns(w);
    SilentTicks(Ticks(w, j), l);
    CallsAdd(w, p, c);
    CallsFollowSpin(Ticks(w, j), w, c);
  }

  /** The calls repeat with the period of a cycle. */
  lemma CallsArePeriodic(w: Wheel, c: nat)
    requires Valid(w)
    ensures Sum(w.q) >= 0
    ensures Calls(w, Sum(w.q) + c) == Calls(w, Sum(w.q)) + Calls(w, c)
  {
    hide *;
    var p, j := CycleEnds(w, 0);
    Repeats(w, p, j, c);
  }

  // ----- The schedule of a cycle ----------------------------------------------------

  /** The items handed out in j ticks, in order. */
  ghost function Emitted(w: Wheel, j: nat): seq<int>
    requires Valid(w)
    decreases j
  {
    if j == 0 then [] else (if Emits(Tick(w)) then [Tick(w).i] else []) + Emitted(Tick(w), j - 1)
  }

  /** The first n items, as far as they reach the level, in order. */
  ghost function DueAt(q: seq<int>, level: int, n: nat): seq<int>
    requires n <= |q|
  {
    if n == 0 then [] else DueAt(q, level, n - 1) + if q[n - 1] >= level then [n - 1] else []
  }

  /** The levels top, top - 1, .., top - m + 1, one after the other. */
  ghost function Levels(q: seq<int>, top: int, m: nat): seq<int> {
    if m == 0 then [] else Levels(q, top, m - 1) + DueAt(q, top - m + 1, |q|)
  }

  /** Calls return what ticks hand out. */
  lemma {:induction false} CallsAreEmitted(w: Wheel, j: nat)
    requires Valid(w)
    ensures Calls(w, Total(w, j)) == Emitted(w, j)
    decreases j
  {
    hide Tick, Valid;
    if j > 0 {
      CallsAreEmitted(Tick(w), j - 1);
      if !Emits(Tick(w)) {
        CallsFollowSpin(w, Tick(w), Total(w, j));
      }
    }
  }

  lemma {:induction false} EmittedAdd(w: Wheel, j: nat, l: nat)
    requires Valid(w)
    ensures Emitted(w, j + l) == Emitted(w, j) + Emitted(Ticks(w, j), l)
    decreases j
  {
    hide Tick, Valid, Emits;
    if j > 0 {
      EmittedAdd(Tick(w), j - 1, l);
    }
  }

  lemma {:induction false} EmittedOnLap(w: Wheel, d: nat)
    requires Valid(w) && w.i + d < |w.q|
    ensures DueAt(w.q, w.level, w.i + 1) + Emitted(w, d) == DueAt(w.q, w.level, w.i + 1 + d)
    decreases d
  {
    if d > 0 {
      EmittedOnLap(Tick(w), d - 1);
    }
  }

  /** A whole lap from the last item. */
  lemma EmittedInRound(w: Wheel)
    requires Valid(w) && w.i == |w.q| - 1
    ensures Emitted(w, |w.q|) == DueAt(w.q, if w.level == 1 then w.top else w.level - 1, |w.q|)
  {
    hide Tick, Emitted, DueAt;
    NextLap(w);
    FirstEmitted(w, |w.q|);
    EmittedOnLap(Tick(w), |w.q| - 1);
    FirstDue(w.q, Tick(w).level);
  }

  lemma FirstEmitted(w: Wheel, j: nat)
    requires Valid(w) && j > 0
    ensures Emitted(w, j) == (if Emits(Tick(w)) then [Tick(w).i] else []) + Emitted(Tick(w), j - 1)
  {
    hide Tick;
  }

  lemma FirstDue(q: seq<int>, level: int)
    requires q != []
    ensures DueAt(q, level, 1) == if q[0] >= level then [0] else []
  {
    assert DueAt(q, level, 1) == DueAt(q, level, 0) + if q[0] >= level then [0] else [];
  }

  lemma {:induction false} EmittedInRounds(w: Wheel, m: nat)
    requires Valid(w) && m <= w.top
    ensures 0 <= |w.q| * m
    ensures Emitted(Home(w), |w.q| * m) == Levels(w.q, w.top, m)
    decreases m
  {
    hide Tick, Ticks, Emitted;
    if m == 0 {
      NothingEmitted(Home(w));
    } else {
      EmittedInRounds(w, m - 1);
      var j := |w.q| * (m - 1);
      assert |w.q| * m == j + |w.q|;
      EmittedAdd(Home(w), j, |w.q|);
      if m == 1 {
        NoTicks(Home(w));
      } else {
        Rounds(w, 0, m - 1);
      }
      EmittedInRound(Ticks(Home(w), j));
    }
  }

  lemma NothingEmitted(w: Wheel)
    requires Valid(w)
    ensures Emitted(w, 0) == []
  {
  }

  /** From home, a cycle of calls goes through the levels from the top down, each in index order. */
  lemma HomeSchedule(w: Wheel)
    requires Valid(w) && w == Home(w)
    ensures Sum(w.q) >= 0
    ensures Calls(w, Sum(w.q)) == Levels(w.q, w.top, w.top)
  {
    hide *;
    var l := CycleTicks(w);
    TotalIsPartialTotal(w, l);
    CycleTotal(w, |w.q|);
    assert w.q[..|w.q|] == w.q;
    CallsAreEmitted(w, l);
    CycleTicksIs(w);
    EmittedInRounds(w, w.top);
  }

  lemma CycleTicksIs(w: Wheel)
    requires Valid(w)
    ensures w.top >= 0 && CycleTicks(w) == |w.q| * w.top
  {
  }
}
