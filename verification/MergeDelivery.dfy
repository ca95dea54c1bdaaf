/**
 * Which results a merge delivers in full, from the numbers of rows the shards have.
 */
module MergeDelivery {
  import opened MergeStream
  import opened MergeProgress
  import opened MergeTermination

  // ----- The arithmetic of whole runs -----------------------------------------------

  ghost predicate NoRows(rows: seq<nat>) {
    forall k | 0 <= k < |rows| :: rows[k] == 0
  }

  /**
   * Batch after batch, each broken off at its first break, no rows are left after at most n
   * batches. Only the numbers of rows and the poll counter matter.
   */
  ghost predicate DeliversIn(rows: seq<nat>, counter: nat, n: nat)
    decreases n
  {
    || NoRows(rows)
    || (n > 0 && exists r: nat ::
          BreaksFirst(rows, counter, r) && DeliversIn(RowsAfter(rows, r), CounterAfter(rows, counter, r), n - 1))
  }

  function Sum(rows: seq<nat>): nat {
    if rows == [] then 0 else Sum(rows[..|rows| - 1]) + rows[|rows| - 1]
  }

  lemma {:induction false} Shrinks(rows: seq<nat>, r: nat)
    requires r >= 1
    ensures Sum(RowsAfter(rows, r)) <= Sum(rows)
    ensures !NoRows(rows) ==> Sum(RowsAfter(rows, r)) < Sum(rows)
    decreases |rows|
  {
    if rows != [] {
      var init := rows[..|rows| - 1];
      Shrinks(init, r);
      assert RowsAfter(rows, r)[..|rows| - 1] == RowsAfter(init, r);
      assert !NoRows(rows) && rows[|rows| - 1] == 0 ==> !NoRows(init);
    }
  }

  /** A delivery takes at most one batch for every row. */
  lemma {:induction false} DeliversSoon(rows: seq<nat>, counter: nat, n: nat)
    requires DeliversIn(rows, counter, n)
    ensures DeliversIn(rows, counter, Sum(rows))
    decreases n
  {
    hide Breaks, RowsAfter, CounterAfter, Sum;
    if !NoRows(rows) {
      var r: nat :| BreaksFirst(rows, counter, r)
                    && DeliversIn(RowsAfter(rows, r), CounterAfter(rows, counter, r), n - 1);
      BreaksLate(rows, counter, r);
      Shrinks(rows, r);
      DeliversSoon(RowsAfter(rows, r), CounterAfter(rows, counter, r), n - 1);
      DeliversLater(RowsAfter(rows, r), CounterAfter(rows, counter, r), Sum(RowsAfter(rows, r)), Sum(rows) - 1);
    }
  }

  lemma BreaksLate(rows: seq<nat>, counter: nat, r: nat)
    requires Breaks(rows, counter, r)
    ensures r >= 1
  {
  }

  lemma {:induction false} DeliversLater(rows: seq<nat>, counter: nat, n: nat, more: nat)
    requires DeliversIn(rows, counter, n) && n <= more
    ensures DeliversIn(rows, counter, more)
    decreases n
  {
    hide BreaksFirst, RowsAfter, CounterAfter;
    if !NoRows(rows) {
      var r: nat :| BreaksFirst(rows, counter, r)
                    && DeliversIn(RowsAfter(rows, r), CounterAfter(rows, counter, r), n - 1);
      DeliversLater(RowsAfter(rows, r), CounterAfter(rows, counter, r), n - 1, more - 1);
    }
  }

  /** No rows are left in the end. */
  ghost predicate Delivers(rows: seq<nat>, counter: nat) {
    DeliversIn(rows, counter, Sum(rows))
  }

  // ----- Boundaries without rows ----------------------------------------------------

  /** The merge comes to a boundary with no rows left. */
  ghost predicate Delivered<T>(m: Merge<T>)
    requires WellFormed(m)
  {
    exists j: nat :: IsDelivered(Turns(m, j))
  }

  ghost predicate IsDelivered<T>(m: Merge<T>) {
    Boundary(m) && NoRows(RowsLeft(m))
  }

  lemma {:induction false} TurnsAdd<T>(m: Merge<T>, i: nat, j: nat)
    requires WellFormed(m)
    ensures Turns(Turns(m, i), j) == Turns(m, i + j)
    decreases j
  {
    hide Turn, WellFormed;
    if j > 0 {
      TurnsAdd(m, i, j - 1);
    }
  }

  lemma {:induction false} DeliversByBatches<T>(m: Merge<T>, n: nat) returns (j: nat)
    requires Orderly(m) && Boundary(m) && m.mode == Row && DeliversIn(RowsLeft(m), m.limitIdx, n)
    ensures IsDelivered(Turns(m, j))
    decreases n
  {
    hide Turn, RowsLeft, BreaksFirst, NoRows, RowsAfter, CounterAfter;
    j := 0;
    if !NoRows(RowsLeft(m)) {
      var rows, counter := RowsLeft(m), m.limitIdx;
      var r: nat :| BreaksFirst(rows, counter, r)
                    && DeliversIn(RowsAfter(rows, r), CounterAfter(rows, counter, r), n - 1);
      var i := BatchStopsAt(m, r);
      var rest := DeliversByBatches(Turns(m, i), n - 1);
      TurnsAdd(m, i, rest);
      j := i + rest;
    }
  }

  /** A quiet stretch that ends at a boundary has taken nothing. */
  lemma QuietToBoundary<T>(m: Merge<T>, j: nat)
    requires Orderly(m) && Boundary(m) && m.mode == Row && Quiet(m, j) && Boundary(Turns(m, j))
    ensures RowsLeft(Turns(m, j)) == RowsLeft(m)
  {
    hide Turn, Items, Quiet;
    SameSources(m, j);
    forall k | 0 <= k < |m.inner|
      ensures RowsLeft(Turns(m, j))[k] == RowsLeft(m)[k]
    {
      EmptyBufferMeansNothingTaken(m, j, k);
    }
  }

  lemma SameSources<T>(m: Merge<T>, j: nat)
    requires WellFormed(m)
    ensures |Turns(m, j).inner| == |m.inner|
  {
  }

  lemma {:induction false} BatchesDeliver<T>(m: Merge<T>, j: nat) returns (n: nat)
    requires Orderly(m) && Boundary(m) && m.mode == Row && IsDelivered(Turns(m, j))
    ensures DeliversIn(RowsLeft(m), m.limitIdx, n)
    decreases j
  {
    hide Turn, Turns, Quiet, RowsLeft, BreaksFirst, RowsAfter, CounterAfter, Orderly, Boundary, WellFormed, DeliversIn;
    OrderlyIsWellFormed(m);
    if Quiet(m, j) {
      QuietToBoundary(m, j);
      n := 0;
      NothingLeft(RowsLeft(m), m.limitIdx);
    } else {
      var next, rest, r := FirstBatch(m, j);
      n := BatchesDeliver(next, rest);
      BatchFirst(RowsLeft(m), m.limitIdx, r, n);
      n := n + 1;
    }
  }

  lemma FirstBatch<T>(m: Merge<T>, j: nat) returns (next: Merge<T>, rest: nat, r: nat)
    requires Orderly(m) && Boundary(m) && m.mode == Row && !Quiet(m, j)
    ensures Orderly(next) && Boundary(next) && next.mode == Row
    ensures rest < j && Turns(next, rest) == Turns(m, j)
    ensures BreaksFirst(RowsLeft(m), m.limitIdx, r) && RowsLeft(next) == RowsAfter(RowsLeft(m), r)
    ensures next.limitIdx == CounterAfter(RowsLeft(m), m.limitIdx, r)
  {
    hide Turn, Turns, Quiet, RowsLeft, BreaksFirst, RowsAfter, CounterAfter, Orderly, Boundary, WellFormed;
    OrderlyIsWellFormed(m);
    var i := NotQuiet(m, j);
    r := BatchLeaves(m, i);
    rest := j - (i + 1);
    TurnsAdd(m, i + 1, rest);
    next := Turns(m, i + 1);
  }

  lemma NotQuiet<T>(m: Merge<T>, j: nat) returns (i: nat)
    requires WellFormed(m) && !Quiet(m, j)
    ensures i < j && Quiet(m, i) && Completes(Turn(Turns(m, i)).1)
  {
    hide Turn;
    i :| i < j && Completes(Turn(Turns(m, i)).1);
    i := FirstCompletion(m, i);
  }

  lemma NothingLeft(rows: seq<nat>, counter: nat)
    requires NoRows(rows)
    ensures DeliversIn(rows, counter, 0)
  {
  }

  lemma BatchFirst(rows: seq<nat>, counter: nat, r: nat, n: nat)
    requires BreaksFirst(rows, counter, r)
    requires DeliversIn(RowsAfter(rows, r), CounterAfter(rows, counter, r), n)
    ensures DeliversIn(rows, counter, n + 1)
  {
  }

  /** From a boundary, which rows are delivered depends on the rows left and the poll counter alone. */
  lemma DeliveredIff<T>(m: Merge<T>)
    requires Orderly(m) && Boundary(m) && m.mode == Row
    ensures Delivered(m) <==> Delivers(RowsLeft(m), m.limitIdx)
  {
    hide Orderly, Boundary, RowsLeft, Turn, DeliversIn, IsDelivered;
    OrderlyIsWellFormed(m);
    if Delivered(m) {
      var j: nat :| IsDelivered(Turns(m, j));
      var n := BatchesDeliver(m, j);
      DeliversSoon(RowsLeft(m), m.limitIdx, n);
    }
    if Delivers(RowsLeft(m), m.limitIdx) {
      var j := DeliversByBatches(m, Sum(RowsLeft(m)));
    }
  }

  // ----- What has been returned -----------------------------------------------------

  /** The polls have returned everything that the sources had to say. */
  ghost predicate AllReturned<T>(inner: seq<seq<Event<T>>>, actions: seq<Action>)
    requires |inner| >= 1
  {
    forall k | 0 <= k < |inner| :: OfSource(Out(Exec(inner, actions)), k) == Items(inner[k])
  }

  lemma BoundaryReturns<T>(inner: seq<seq<Event<T>>>, actions: seq<Action>)
    requires |inner| >= 1 && Exec(inner, actions).m.buf == []
    ensures AllReturned(inner, actions) <==> NoRows(RowsLeft(Exec(inner, actions).m))
  {
    hide Exec, OfSource, Items, Out;
    var t := Exec(inner, actions);
    assert Out(t) + t.m.buf == Out(t);
    forall k | 0 <= k < |inner|
      ensures OfSource(Out(t), k) == Items(inner[k]) <==> RowsLeft(t.m)[k] == 0
    {
      NothingLost(inner, actions, k);
    }
  }

  /** A turn that returns a batch comes to a boundary. */
  lemma ReturningTurn<T>(t: Traced<T>)
    requires Orderly(t.m) && |t.polls| == |t.m.inner|
    ensures Boundary(Apply(t, TurnAction).m) || Out(Apply(t, TurnAction)) == Out(t)
  {
    TurnIsOrderly(t.m);
    hide Turn, Orderly;
  }

  /** If all is returned some time, then at some boundary. */
  lemma {:induction false} ReturnedAtBoundary<T>(inner: seq<seq<Event<T>>>, actions: seq<Action>, j: nat)
    requires |inner| >= 1 && SetsBetweenPolls(inner, actions) && Boundary(Exec(inner, actions).m)
    requires AllReturned(inner, actions + MoreTurns(j))
    ensures Delivered(Exec(inner, actions).m)
    decreases j
  {
    hide Exec, Turn, Apply, SetsBetweenPolls, OfSource, Items, RowsLeft, Out;
    var m := Exec(inner, actions).m;
    ExecMoreTurns(inner, actions, j);
    var t := Exec(inner, actions + MoreTurns(j));
    if Boundary(t.m) {
      BoundaryReturns(inner, actions + MoreTurns(j));
      assert IsDelivered(Turns(m, j));
    } else {
      assert j > 0;
      ExecMoreTurns(inner, actions, j - 1);
      RunsAreOrderly(inner, actions + MoreTurns(j - 1));
      ReturningTurn(Exec(inner, actions + MoreTurns(j - 1)));
      ReturnedAtBoundary(inner, actions, j - 1);
    }
  }

  /**
   * After every run that has come to a boundary in the row state: its polls will have returned
   * every item of every source if and only if the arithmetic of the numbers of rows left comes to an end.
   */
  lemma DeliveredInFullIff<T>(inner: seq<seq<Event<T>>>, actions: seq<Action>)
    requires |inner| >= 1 && SetsBetweenPolls(inner, actions)
    requires Boundary(Exec(inner, actions).m) && Exec(inner, actions).m.mode == Row
    ensures var m := Exec(inner, actions).m;
            (exists j: nat :: AllReturned(inner, actions + MoreTurns(j))) <==> Delivers(RowsLeft(m), m.limitIdx)
  {
    var m := Exec(inner, actions).m;
    RunsAreOrderly(inner, actions);
    DeliveredIff(m);
    hide Exec, Turn, SetsBetweenPolls, AllReturned, Delivers, RowsLeft, MoreTurns;
    if j: nat :| AllReturned(inner, actions + MoreTurns(j)) {
      ReturnedAtBoundary(inner, actions, j);
    }
    if Delivered(m) {
      var j: nat :| IsDelivered(Turns(m, j));
      ExecMoreTurns(inner, actions, j);
      BoundaryReturns(inner, actions + MoreTurns(j));
    }
  }

  // ----- Two families ---------------------------------------------------------------

  lemma {:induction false} OverdueOfEqual(rows: seq<nat>, c: nat, r: nat, n: nat)
    requires n <= |rows| && forall k | 0 <= k < |rows| :: rows[k] == c
    ensures Overdue(rows, r, 0, n) == n * Sat(r - c)
  {
    if n > 0 {
      OverdueOfEqual(rows, c, r, n - 1);
      assert n * Sat(r - c) == (n - 1) * Sat(r - c) + Sat(r - c);
    }
  }

  lemma Cancel(b: nat, x: int, y: int)
    requires b >= 1
    ensures b * x == b * y <==> x == y
  {
    assert x < y ==> b * (y - x) >= 1;
    assert x > y ==> b * (x - y) >= 1;
  }

  lemma EqualBreaks(rows: seq<nat>, c: nat, r: nat)
    requires rows != [] && forall k | 0 <= k < |rows| :: rows[k] == c
    ensures Breaks(rows, 0, r) <==> r == c + 1 || r == 100
    ensures Nones(rows, r) == |rows| <==> r == c + 1
  {
    OverdueOfEqual(rows, c, r, |rows|);
    hide Overdue;
    Cancel(|rows|, Sat(r - c), 1);
    Cancel(|rows|, r, 100);
  }

  /** Shards with equally many rows are always delivered in full. */
  lemma {:induction false} EqualShardsDeliver(rows: seq<nat>, c: nat)
    requires rows != [] && forall k | 0 <= k < |rows| :: rows[k] == c
    ensures Delivers(rows, 0)
    decreases c
  {
    hide Breaks, Nones, Sum;
    forall r: nat
      ensures Breaks(rows, 0, r) <==> r == c + 1 || r == 100
    {
      EqualBreaks(rows, c, r);
    }
    if c < 100 {
      assert BreaksFirst(rows, 0, c + 1);
      assert NoRows(RowsAfter(rows, c + 1));
      DeliversSoon(rows, 0, 1);
    } else {
      EqualBreaks(rows, c, 100);
      assert BreaksFirst(rows, 0, 100);
      EqualShardsDeliver(RowsAfter(rows, 100), c - 100);
      var n := Sum(RowsAfter(rows, 100));
      BatchFirst(rows, 0, 100, n);
      DeliversSoon(rows, 0, n + 1);
    }
  }

  /** The first break is the only way on. */
  lemma OnlyBreak(rows: seq<nat>, counter: nat, r: nat, n: nat)
    requires BreaksFirst(rows, counter, r) && DeliversIn(rows, counter, n) && !NoRows(rows)
    ensures n > 0 && DeliversIn(RowsAfter(rows, r), CounterAfter(rows, counter, r), n - 1)
  {
    hide Breaks, RowsAfter, CounterAfter;
    var q: nat :| BreaksFirst(rows, counter, q)
                  && DeliversIn(RowsAfter(rows, q), CounterAfter(rows, counter, q), n - 1);
    assert q == r;
  }

  /** Shards of 101 and 98 rows are not. */
  lemma SomeShardsDoNotDeliver()
    ensures !Delivers([101, 98], 0)
  {
    TwoSourcesBreak();
    hide Nones, RowsAfter, CounterAfter;
    var left: seq<nat>, rest: seq<nat> := [101, 98], [1, 0];
    assert left[0] == 101 && rest[0] == 1;
    assert !NoRows(left) && !NoRows(rest);
    assert forall r: nat :: !Breaks(rest, 200, r);
    hide Sum;
    if Delivers(left, 0) {
      OnlyBreak(left, 0, 100, Sum(left));
    }
  }
}
