/**
 * Exactly when a batch of rows completes, and a run after which one never does.
 */
module MergeTermination {
  import opened MergeStream
  import opened MergeProgress

  // ----- End-of-stream answers as a function of the rows left -----------------------

  function Sat(x: int): nat {
    if x > 0 then x else 0
  }

  /**
   * For sources with rows[k] rows left: how many "end of stream" answers the first n of them
   * have given after r rounds and the first i answers of the next round.
   */
  ghost function Overdue(rows: seq<nat>, r: nat, i: nat, n: nat): nat
    requires n <= |rows|
  {
    if n == 0 then 0 else
      Overdue(rows, r, i, n - 1) + Sat(r + (if n - 1 < i then 1 else 0) - rows[n - 1])
  }

  /** "End of stream" answers in the first r rounds. */
  ghost function Nones(rows: seq<nat>, r: nat): nat {
    Overdue(rows, r, 0, |rows|)
  }

  lemma {:induction false} OverdueStep(rows: seq<nat>, r: nat, i: nat, n: nat)
    requires i < |rows| && n <= |rows|
    ensures Overdue(rows, r, i + 1, n) ==
            Overdue(rows, r, i, n) + if i < n && rows[i] <= r then 1 else 0
  {
    if n > 0 {
      OverdueStep(rows, r, i, n - 1);
    }
  }

  lemma {:induction false} OverdueRound(rows: seq<nat>, r: nat, n: nat)
    requires n <= |rows|
    ensures Overdue(rows, r, |rows|, n) == Overdue(rows, r + 1, 0, n)
  {
    if n > 0 {
      OverdueRound(rows, r, n - 1);
    }
  }

  // ----- The middle of a batch ------------------------------------------------------

  ghost function RowsLeft<T>(m: Merge<T>): (rows: seq<nat>)
    ensures |rows| == |m.inner|
  {
    seq(|m.inner|, k requires 0 <= k < |m.inner| => |Items(m.inner[k])|)
  }

  /** The rows left, counting one more for the sources that have answered in the present round. */
  ghost function RoundRows<T>(m: Merge<T>): (rows: seq<nat>)
    ensures |rows| == |m.inner|
  {
    seq(|m.inner|, k requires 0 <= k < |m.inner| => |Items(m.inner[k])| + if k < m.idx then 1 else 0)
  }

  /**
   * r rounds after a round that started with `rows` rows left, `nones` ends of stream counted and
   * the poll counter at `start`; the batch did not complete in between.
   */
  ghost predicate InBatch<T>(m: Merge<T>, rows: seq<nat>, nones: nat, start: int, r: nat) {
    && WellFormed(m) && m.mode == Row && |rows| == m.baseLength
    && m.noneCount == nones + Overdue(rows, r, m.idx, |rows|)
    && m.limitIdx == start + m.baseLength * r + m.idx
    && (forall k | 0 <= k < |rows| ::
          |Items(m.inner[k])| == Sat(rows[k] - r - if k < m.idx then 1 else 0))
    && (forall q | 1 <= q <= r :: nones + Nones(rows, q) != m.baseLength)
  }

  lemma {:induction false} NoRounds(rows: seq<nat>, i: nat, n: nat)
    requires n <= |rows| && forall k | 0 <= k < i && k < |rows| :: rows[k] >= 1
    ensures Overdue(rows, 0, i, n) == 0
  {
    if n > 0 {
      NoRounds(rows, i, n - 1);
    }
  }

  lemma BatchStarts<T>(m: Merge<T>)
    requires WellFormed(m) && m.mode == Row
    ensures InBatch(m, RoundRows(m), m.noneCount, m.limitIdx - m.idx, 0)
    ensures Boundary(m) ==> RoundRows(m) == RowsLeft(m)
  {
    NoRounds(RoundRows(m), m.idx, m.baseLength);
  }

  /** The counters a turn decides on, once the source at idx has answered. */
  lemma GatherInBatch<T>(m: Merge<T>, rows: seq<nat>, nones: nat, start: int, r: nat)
    requires InBatch(m, rows, nones, start, r) && !IsPending(m)
    ensures var g := Gather(m);
            && g.idx == m.idx + 1 && g.baseLength == m.baseLength && g.limit == m.limit
            && g.noneCount == nones + Overdue(rows, r, m.idx + 1, |rows|)
            && g.limitIdx == start + m.baseLength * r + m.idx + 1
            && forall k | 0 <= k < |rows| ::
                 |Items(g.inner[k])| == Sat(rows[k] - r - if k < m.idx + 1 then 1 else 0)
  {
    OverdueStep(rows, r, m.idx, |rows|);
    assert |Items(m.inner[m.idx])| == Sat(rows[m.idx] - r);
    hide Overdue;
    forall k | 0 <= k < |rows|
      ensures |Items(Gather(m).inner[k])| == Sat(rows[k] - r - if k < m.idx + 1 then 1 else 0)
    {
      assert |Items(m.inner[k])| == Sat(rows[k] - r - if k < m.idx then 1 else 0);
    }
  }

  /** A turn that does not complete moves the batch on by at most one answer. */
  lemma TurnInBatch<T>(m: Merge<T>, rows: seq<nat>, nones: nat, start: int, r: nat) returns (q: nat)
    requires InBatch(m, rows, nones, start, r) && !Completes(Turn(m).1)
    ensures InBatch(Turn(m).0, rows, nones, start, q)
  {
    hide Overdue, Gather, Items, Nones;
    q := r;
    if IsPending(m) {
      forall k | 0 <= k < |rows|
        ensures |Items(Turn(m).0.inner[k])| == |Items(m.inner[k])|
      {
        SuspensionShape(m, k);
      }
    } else {
      GatherInBatch(m, rows, nones, start, r);
      TurnShape(m);
      if m.idx + 1 == m.baseLength {
        RoundsAdvance(rows, r, m.baseLength);
        q := r + 1;
      }
    }
  }

  lemma RoundsAdvance(rows: seq<nat>, r: nat, base: nat)
    ensures Overdue(rows, r, |rows|, |rows|) == Overdue(rows, r + 1, 0, |rows|) == Nones(rows, r + 1)
    ensures base * (r + 1) == base * r + base
  {
    OverdueRound(rows, r, |rows|);
  }

  /** A turn that completes a batch ran into the count of ends or into the limit. */
  lemma TurnEndsBatch<T>(m: Merge<T>, rows: seq<nat>, nones: nat, start: int, r: nat)
    requires InBatch(m, rows, nones, start, r) && !IsPending(m)
    ensures var (onCount, onLimit) :=
              (m.idx + 1 == m.baseLength && nones + Nones(rows, r + 1) == m.baseLength, m.limitIdx + 1 == m.limit);
            && (Completes(Turn(m).1) <==> onCount || onLimit)
            && (onCount ==> Turn(m).0.limitIdx == m.limitIdx + 1)
            && (!onCount && onLimit ==> Turn(m).0.limitIdx == 0)
  {
    GatherInBatch(m, rows, nones, start, r);
    RoundsAdvance(rows, r, m.baseLength);
    hide Gather, Overdue, Nones, Items;
  }

  /** None_count, limit_idx and the rows left, as functions of the rounds done. */
  lemma {:induction false} QuietInBatch<T>(m: Merge<T>, j: nat) returns (r: nat)
    requires WellFormed(m) && m.mode == Row && Quiet(m, j)
    ensures InBatch(Turns(m, j), RoundRows(m), m.noneCount, m.limitIdx - m.idx, r)
    ensures m.idx + Answers(m, j) == m.baseLength * r + Turns(m, j).idx
    decreases j
  {
    hide InBatch, Turn, RoundRows, Items, Completes;
    r := 0;
    if j == 0 {
      BatchStarts(m);
    } else {
      var q := QuietInBatch(m, j - 1);
      var before := Turns(m, j - 1);
      r := TurnInBatch(before, RoundRows(m), m.noneCount, m.limitIdx - m.idx, q);
      SameCount(before, RoundRows(m), m.noneCount, m.limitIdx - m.idx, q, r);
    }
  }

  /** One answer moves limitIdx by one, so it counts the answers. */
  lemma SameCount<T>(m: Merge<T>, rows: seq<nat>, nones: nat, start: int, q: nat, r: nat)
    requires InBatch(m, rows, nones, start, q) && !Completes(Turn(m).1) && InBatch(Turn(m).0, rows, nones, start, r)
    ensures m.baseLength * r + Turn(m).0.idx ==
            m.baseLength * q + m.idx + if IsPending(m) then 0 else 1
  {
    QuietTurn(m);
  }

  // ----- Progress -------------------------------------------------------------------

  /** A suspended source answers after finitely many turns. */
  lemma {:induction false} Resume<T>(m: Merge<T>, j: nat) returns (l: nat)
    requires WellFormed(m) && Quiet(m, j)
    ensures Quiet(m, l) && Answers(m, l) == Answers(m, j) && !IsPending(Turns(m, l))
    decreases |Turns(m, j).inner[Turns(m, j).idx]|
  {
    hide Gather, Finish;
    l := j;
    var r := Turns(m, j);
    if IsPending(r) {
      assert Turns(m, j + 1) == Turn(r).0;
      assert Quiet(m, j + 1);
      l := Resume(m, j + 1);
    }
  }

  /** A merge either completes a batch or goes on to get any number p of answers. */
  lemma {:induction false} Reach<T>(m: Merge<T>, p: nat) returns (j: nat)
    requires WellFormed(m)
    ensures Quiet(m, j) && Answers(m, j) <= p
    ensures Answers(m, j) == p || Completes(Turn(Turns(m, j)).1)
    decreases p
  {
    hide Turn;
    j := 0;
    if p > 0 {
      j := Reach(m, p - 1);
      if !Completes(Turn(Turns(m, j)).1) {
        var l := Resume(m, j);
        j := l;
        if !Completes(Turn(Turns(m, l)).1) {
          j := l + 1;
        }
      }
    }
  }

  ghost predicate BatchCompletes<T>(m: Merge<T>)
    requires WellFormed(m)
  {
    exists j: nat :: Completes(Turn(Turns(m, j)).1)
  }

  lemma {:induction false} FirstCompletion<T>(m: Merge<T>, j: nat) returns (i: nat)
    requires WellFormed(m) && Completes(Turn(Turns(m, j)).1)
    ensures i <= j && Quiet(m, i) && Completes(Turn(Turns(m, i)).1)
    decreases j
  {
    i := j;
    if l: nat :| l < j && Completes(Turn(Turns(m, l)).1) {
      i := FirstCompletion(m, l);
    }
  }

  /** After some number of rounds the ends of stream will have been counted exactly once per source. */
  ghost predicate CountMeets<T>(m: Merge<T>) {
    exists r: nat :: r >= 1 && m.noneCount + Nones(RoundRows(m), r) == m.baseLength
  }

  /**
   * From every state reached in the row state, at a boundary or in the middle of a batch, the batch
   * completes if and only if the poll counter is still below the limit, or after some number of
   * rounds the sources, taken with the rows they have left, will have answered "end of stream"
   * exactly as often as there are sources.
   */
  lemma BatchCompletesIff<T>(m: Merge<T>)
    requires Orderly(m) && m.mode == Row
    ensures BatchCompletes(m) <==> m.limitIdx < m.limit || CountMeets(m)
  {
    if m.limitIdx < m.limit {
      CompletesBelowLimit(m);
    } else {
      if CountMeets(m) {
        var r: nat :| r >= 1 && m.noneCount + Nones(RoundRows(m), r) == m.baseLength;
        CompletesOnCount(m, r);
      }
      if BatchCompletes(m) {
        CountFromCompletion(m);
      }
    }
  }

  lemma CompletesBelowLimit<T>(m: Merge<T>)
    requires Orderly(m) && m.mode == Row && m.limitIdx < m.limit
    ensures BatchCompletes(m)
  {
    var j := Reach(m, m.limit - m.limitIdx);
    if !Completes(Turn(Turns(m, j)).1) {
      QuietTurns(m, j);
    }
  }

  lemma CompletesOnCount<T>(m: Merge<T>, r: nat)
    requires WellFormed(m) && m.mode == Row
    requires r >= 1 && m.noneCount + Nones(RoundRows(m), r) == m.baseLength
    ensures BatchCompletes(m)
  {
    hide Turn, Nones, RoundRows, Quiet, Answers, InBatch;
    RoundsAreLong(m.baseLength, m.idx, r);
    var j := Reach(m, m.baseLength * r - m.idx);
    if !Completes(Turn(Turns(m, j)).1) {
      var q := QuietInBatch(m, j);
      RoundsDone(m.baseLength, q, Turns(m, j).idx, r);
      CountNotMet(Turns(m, j), RoundRows(m), m.noneCount, m.limitIdx - m.idx, q, r);
    }
  }

  lemma RoundsAreLong(base: nat, idx: nat, r: nat)
    requires idx < base && r >= 1
    ensures base * r - idx >= 1
  {
    assert base * r >= base;
  }

  lemma CountNotMet<T>(m: Merge<T>, rows: seq<nat>, nones: nat, start: int, r: nat, q: nat)
    requires InBatch(m, rows, nones, start, r) && 1 <= q <= r
    ensures nones + Nones(rows, q) != m.baseLength
  {
  }

  lemma RoundsDone(base: int, q: int, idx: int, r: int)
    requires 0 <= idx < base && base * q + idx == base * r
    ensures q == r
  {
    assert q < r ==> base * (q + 1) <= base * r;
    assert q > r ==> base * (r + 1) <= base * q;
  }

  lemma CountFromCompletion<T>(m: Merge<T>)
    requires WellFormed(m) && m.mode == Row && m.limitIdx >= m.limit
    requires BatchCompletes(m)
    ensures CountMeets(m)
  {
    hide Turn, Nones, RoundRows, Quiet, InBatch, Items;
    var j: nat :| Completes(Turn(Turns(m, j)).1);
    var i := FirstCompletion(m, j);
    var q := QuietInBatch(m, i);
    CompletingTurn(Turns(m, i));
    CounterInBatch(Turns(m, i), RoundRows(m), m.noneCount, m.limitIdx - m.idx, q, m.idx + Answers(m, i));
    TurnEndsBatch(Turns(m, i), RoundRows(m), m.noneCount, m.limitIdx - m.idx, q);
    assert m.noneCount + Nones(RoundRows(m), q + 1) == m.baseLength;
  }

  lemma CompletingTurn<T>(m: Merge<T>)
    requires WellFormed(m) && Completes(Turn(m).1)
    ensures !IsPending(m)
  {
  }

  lemma CounterInBatch<T>(m: Merge<T>, rows: seq<nat>, nones: nat, start: int, r: nat, done: nat)
    requires InBatch(m, rows, nones, start, r) && done == m.baseLength * r + m.idx
    ensures m.limitIdx == start + done && m.limit == m.baseLength * 100
  {
  }

  // ----- What a batch leaves --------------------------------------------------------

  /** A batch with these rows left and this poll counter at its start breaks off after r rounds. */
  ghost predicate Breaks(rows: seq<nat>, counter: nat, r: nat) {
    r >= 1 && (Nones(rows, r) == |rows| || counter + |rows| * r == |rows| * 100)
  }

  ghost predicate BreaksFirst(rows: seq<nat>, counter: nat, r: nat) {
    Breaks(rows, counter, r) && forall q: nat | q < r :: !Breaks(rows, counter, q)
  }

  function RowsAfter(rows: seq<nat>, r: nat): seq<nat> {
    seq(|rows|, k requires 0 <= k < |rows| => Sat(rows[k] - r))
  }

  /** The poll counter starts afresh only if the ends of stream did not stop the batch. */
  ghost function CounterAfter(rows: seq<nat>, counter: nat, r: nat): nat {
    if Nones(rows, r) == |rows| then counter + |rows| * r else 0
  }

  /** A batch from a boundary stops at the first round that breaks it, and leaves what is left then. */
  lemma BatchLeaves<T>(m: Merge<T>, i: nat) returns (r: nat)
    requires Orderly(m) && Boundary(m) && m.mode == Row && Quiet(m, i) && Completes(Turn(Turns(m, i)).1)
    ensures BreaksFirst(RowsLeft(m), m.limitIdx, r)
    ensures var n := Turns(m, i + 1);
            && Orderly(n) && Boundary(n) && RowsLeft(n) == RowsAfter(RowsLeft(m), r)
            && n.limitIdx == CounterAfter(RowsLeft(m), m.limitIdx, r)
  {
    hide Turn, InBatch, Orderly, RowsLeft, BreaksFirst, RowsAfter, CounterAfter, Quiet;
    OrderlyIsWellFormed(m);
    var q := BeforeLastTurn(m, i);
    LastTurn(Turns(m, i), RowsLeft(m), m.limitIdx, q);
    r := q + 1;
  }

  lemma BeforeLastTurn<T>(m: Merge<T>, i: nat) returns (q: nat)
    requires Orderly(m) && Boundary(m) && m.mode == Row && Quiet(m, i)
    ensures var x := Turns(m, i);
            && InBatch(x, RowsLeft(m), 0, m.limitIdx, q) && Orderly(x)
            && (m.limitIdx < x.limit ==> x.limitIdx < x.limit)
  {
    hide Turn, InBatch, Items, Quiet, Answers;
    q := QuietInBatch(m, i);
    BatchStarts(m);
    QuietTurns(m, i);
  }

  lemma LastTurn<T>(m: Merge<T>, rows: seq<nat>, start: nat, q: nat)
    requires InBatch(m, rows, 0, start, q) && Orderly(m) && (start < m.limit ==> m.limitIdx < m.limit)
    requires Completes(Turn(m).1)
    ensures BreaksFirst(rows, start, q + 1)
    ensures Orderly(Turn(m).0) && Boundary(Turn(m).0) && RowsLeft(Turn(m).0) == RowsAfter(rows, q + 1)
    ensures Turn(m).0.limitIdx == CounterAfter(rows, start, q + 1)
  {
    OrderlyCounter(m);
    CompletingTurn(m);
    TurnIsOrderly(m);
    hide Turn, InBatch, Orderly, RowsLeft, Breaks, RowsAfter, CounterAfter;
    LeftByLastTurn(m, rows, start, q);
    NoEarlierBreak(m, rows, start, q);
  }

  lemma OrderlyCounter<T>(m: Merge<T>)
    requires Orderly(m) && m.mode == Row
    ensures m.limitIdx + 1 == m.limit ==> m.idx + 1 == m.baseLength
  {
    CounterStep(m.baseLength, m.limitIdx, m.idx);
  }

  lemma LeftByLastTurn<T>(m: Merge<T>, rows: seq<nat>, start: nat, q: nat)
    requires InBatch(m, rows, 0, start, q) && !IsPending(m) && Completes(Turn(m).1)
    requires m.limitIdx + 1 == m.limit ==> m.idx + 1 == m.baseLength
    ensures m.idx + 1 == m.baseLength && Breaks(rows, start, q + 1)
    ensures RowsLeft(Turn(m).0) == RowsAfter(rows, q + 1)
    ensures Turn(m).0.limitIdx == CounterAfter(rows, start, q + 1)
  {
    hide Turn, Gather, Overdue, Items, Nones, IsPending;
    TurnEndsBatch(m, rows, 0, start, q);
    RoundsAdvance(rows, q, m.baseLength);
    RowsAfterRound(m, rows, start, q);
  }

  lemma RowsAfterRound<T>(m: Merge<T>, rows: seq<nat>, start: nat, q: nat)
    requires InBatch(m, rows, 0, start, q) && !IsPending(m) && m.idx + 1 == m.baseLength
    ensures RowsLeft(Turn(m).0) == RowsAfter(rows, q + 1)
  {
    hide Turn, Gather, Overdue, Items, Nones;
    GatherInBatch(m, rows, 0, start, q);
    TurnShape(m);
  }

  lemma NoEarlierBreak<T>(m: Merge<T>, rows: seq<nat>, start: nat, q: nat)
    requires InBatch(m, rows, 0, start, q) && (start < m.limit ==> m.limitIdx < m.limit)
    ensures forall p: nat | p <= q :: !Breaks(rows, start, p)
  {
    hide Overdue, Nones, Items;
    forall p: nat | p <= q
      ensures !Breaks(rows, start, p)
    {
      assert m.baseLength * p <= m.baseLength * q;
      assert p >= 1 ==> m.baseLength * p >= 1;
    }
  }

  /** Conversely, a round that breaks it first is where the batch stops. */
  lemma BatchStopsAt<T>(m: Merge<T>, r: nat) returns (j: nat)
    requires Orderly(m) && Boundary(m) && m.mode == Row && BreaksFirst(RowsLeft(m), m.limitIdx, r)
    ensures var n := Turns(m, j);
            && Orderly(n) && Boundary(n) && RowsLeft(n) == RowsAfter(RowsLeft(m), r)
            && n.limitIdx == CounterAfter(RowsLeft(m), m.limitIdx, r)
  {
    hide Turn, Nones, Items, RoundRows, RowsLeft;
    BatchStarts(m);
    if Nones(RowsLeft(m), r) == m.baseLength {
      CompletesOnCount(m, r);
    } else {
      assert m.baseLength * r >= 1;
      CompletesBelowLimit(m);
    }
    var l: nat :| Completes(Turn(Turns(m, l)).1);
    var i := FirstCompletion(m, l);
    var q := BatchLeaves(m, i);
    assert q == r;
    j := i + 1;
  }

  // ----- A run that gets stuck ------------------------------------------------------

  function Rows(n: nat): (s: seq<Event<int>>)
    ensures |s| == n && Items(s) == seq(n, _ => 0)
  {
    if n == 0 then [] else [Item(0)] + Rows(n - 1)
  }

  function MoreTurns(j: nat): seq<Action> {
    seq(j, _ => TurnAction)
  }

  lemma {:induction false} ExecMoreTurns<T>(inner: seq<seq<Event<T>>>, actions: seq<Action>, j: nat)
    requires |inner| >= 1 && SetsBetweenPolls(inner, actions)
    ensures SetsBetweenPolls(inner, actions + MoreTurns(j))
    ensures Exec(inner, actions + MoreTurns(j)).m == Turns(Exec(inner, actions).m, j)
    ensures j > 0 ==> Exec(inner, actions + MoreTurns(j)) == Apply(Exec(inner, actions + MoreTurns(j - 1)), TurnAction)
    decreases j
  {
    hide Turn, SetsBetweenPolls, Exec, Apply, MoreTurns;
    NextMoreTurns(actions, j);
    if j > 0 {
      var before := actions + MoreTurns(j - 1);
      ExecMoreTurns(inner, actions, j - 1);
      ExecTurn(inner, before);
      OneMoreTurn(inner, before);
    }
  }

  lemma NextMoreTurns(actions: seq<Action>, j: nat)
    ensures actions + MoreTurns(0) == actions
    ensures j > 0 ==> actions + MoreTurns(j) == actions + MoreTurns(j - 1) + [TurnAction]
  {
  }

  lemma ExecTurn<T>(inner: seq<seq<Event<T>>>, actions: seq<Action>)
    requires |inner| >= 1
    ensures Exec(inner, actions + [TurnAction]) == Apply(Exec(inner, actions), TurnAction)
    ensures Exec(inner, actions + [TurnAction]).m == Turn(Exec(inner, actions).m).0
  {
    hide Turn;
    assert (actions + [TurnAction])[..|actions|] == actions;
  }

  lemma SetRowFirst<T>(inner: seq<seq<Event<T>>>)
    requires |inner| >= 1
    ensures SetsBetweenPolls(inner, [SetState(Row)])
    ensures Exec(inner, [SetState(Row)]).m == Start(inner).(mode := Row)
  {
    assert Exec(inner, [SetState(Row)]) == Apply(Exec(inner, []), SetState(Row));
  }

  lemma OneMoreTurn<T>(inner: seq<seq<Event<T>>>, actions: seq<Action>)
    requires |inner| >= 1 && SetsBetweenPolls(inner, actions)
    ensures SetsBetweenPolls(inner, actions + [TurnAction])
  {
    var more := actions + [TurnAction];
    forall i | 0 <= i < |more| && more[i].SetState?
      ensures Boundary(Exec(inner, more[..i]).m)
    {
      assert more[..i] == actions[..i];
    }
  }

  /**
   * Two shards with 101 and 98 rows: the second runs dry two rounds before the limit, the
   * count of ends then stops the first batch exactly at the limit without resetting limitIdx,
   * and the next batch never completes although the first shard has a row left.
   */
  lemma SomeRunGetsStuck() returns (inner: seq<seq<Event<int>>>, actions: seq<Action>)
    ensures inner == [Rows(101), Rows(98)] && SetsBetweenPolls(inner, actions)
    ensures var m := Exec(inner, actions).m;
            Boundary(m) && m.mode == Row && RowsLeft(m) == [1, 0] && !BatchCompletes(m)
  {
    hide Turn, Exec, Items, SetsBetweenPolls, BatchCompletes, Orderly, Overdue;
    inner := [Rows(101), Rows(98)];
    SetRowFirst(inner);
    RunsAreOrderly(inner, [SetState(Row)]);
    var m := Start(inner).(mode := Row);
    assert RowsLeft(m) == [101, 98];
    TwoSourcesBreak();
    var j := BatchStopsAt(m, 100);
    ExecMoreTurns(inner, [SetState(Row)], j);
    actions := [SetState(Row)] + MoreTurns(j);
    BatchCompletesIff(Turns(m, j));
    BatchStarts(Turns(m, j));
  }

  /** The arithmetic of that run. */
  lemma TwoSourcesBreak()
    ensures BreaksFirst([101, 98], 0, 100)
    ensures RowsAfter([101, 98], 100) == [1, 0] && CounterAfter([101, 98], 0, 100) == 200
    ensures forall q: nat :: q >= 1 ==> Nones([1, 0], q) != 2
  {
    forall q: nat
      ensures Nones([101, 98], q) == Sat(q - 101) + Sat(q - 98)
      ensures Nones([1, 0], q) == Sat(q - 1) + Sat(q - 0)
    {
      TwoSources([101, 98], q);
      TwoSources([1, 0], q);
    }
    hide Nones;
  }

  lemma TwoSources(rows: seq<nat>, q: nat)
    requires |rows| == 2
    ensures Nones(rows, q) == Sat(q - rows[0]) + Sat(q - rows[1])
  {
    assert Overdue(rows, q, 0, 2) == Overdue(rows, q, 0, 1) + Sat(q - rows[1]);
    assert Overdue(rows, q, 0, 1) == Overdue(rows, q, 0, 0) + Sat(q - rows[0]);
  }
}
