/** The `MergeStream` object: `poll_next` as the loop the source runs, on fields it updates. */
module MergePoll {
  import opened Options
  import opened Divisibility
  import opened MergeStream
  import opened MergeProgress
  import opened MergeTermination

  /** The first n turns all go on. */
  ghost predicate Going<T>(m: Merge<T>, n: nat)
    requires WellFormed(m)
  {
    forall i: nat | i < n :: Turn(Turns(m, i)).1.Go?
  }

  /** The loop of `poll_next` leaves after finitely many turns. */
  ghost predicate Returns<T>(m: Merge<T>)
    requires WellFormed(m)
  {
    exists n: nat :: !Turn(Turns(m, n)).1.Go?
  }

  lemma {:induction false} HeaderTurns<T>(m: Merge<T>, j: nat)
    requires WellFormed(m) && m.mode != Row && Quiet(m, j)
    ensures Turns(m, j).idx == m.idx + Answers(m, j)
    decreases j
  {
    if j > 0 {
      HeaderTurns(m, j - 1);
      HeaderTurn(Turns(m, j - 1));
      hide Turn;
    }
  }

  lemma HeaderTurn<T>(m: Merge<T>)
    requires WellFormed(m) && m.mode != Row && !Completes(Turn(m).1)
    ensures Turn(m).0.idx == m.idx + if IsPending(m) then 0 else 1
  {
  }

  /** A poll returns in the header and column states, and whenever its batch will complete. */
  lemma PollReturns<T>(m: Merge<T>)
    requires Orderly(m) && (m.mode == Row ==> m.limitIdx < m.limit || BatchCompletes(m))
    ensures Returns(m)
  {
    if m.mode == Row {
      if m.limitIdx < m.limit {
        CompletesBelowLimit(m);
      }
      var j: nat :| Completes(Turn(Turns(m, j)).1);
    } else {
      var j := Reach(m, m.baseLength - m.idx);
      if !Completes(Turn(Turns(m, j)).1) {
        HeaderTurns(m, j);
      }
    }
  }

  // ----- Exactly when a poll returns ------------------------------------------------

  function Suspensions<T>(s: seq<Event<T>>): nat {
    if s == [] then 0 else Suspensions(s[1..]) + if s[0].Pending? then 1 else 0
  }

  lemma GoingTurn<T>(m: Merge<T>, k: nat)
    requires WellFormed(m) && k < |m.inner| && Turn(m).1.Go?
    ensures !IsPending(m) && Suspensions(Turn(m).0.inner[k]) == Suspensions(m.inner[k])
  {
    TurnShape(m);
  }

  /** Turns that go on get an answer each and pass no suspension. */
  lemma {:induction false} GoingTurns<T>(m: Merge<T>, j: nat, k: nat)
    requires WellFormed(m) && Going(m, j) && k < |m.inner|
    ensures Quiet(m, j) && Answers(m, j) == j
    ensures Suspensions(Turns(m, j).inner[k]) == Suspensions(m.inner[k])
    decreases j
  {
    hide Turn, Suspensions;
    if j > 0 {
      GoingTurns(m, j - 1, k);
      GoingTurn(Turns(m, j - 1), k);
      assert Turns(m, j) == Turn(Turns(m, j - 1)).0;
    }
  }

  lemma {:induction false} OnlySuspensions<T>(s: seq<Event<T>>)
    requires Items(s) == [] && Suspensions(s) > 0
    ensures s != [] && s[0].Pending?
  {
    assert s != [] && !s[0].Pending? ==> |Items(s)| >= 1;
  }

  lemma SamePlace(base: int, q: int, i: int, r: int, k: int)
    requires 0 <= i < base && 0 <= k < base && base * q + i == base * r + k
    ensures q == r && i == k
  {
    var d := r - q;
    assert base * d == i - k;
    assert d >= 1 ==> base * d >= base;
    assert d <= -1 ==> base * d <= -base;
  }

  /** Past its rows, a source has only its suspensions left. */
  lemma SuspendedAfterRows<T>(m: Merge<T>, rounds: nat, k: nat, j: nat)
    requires WellFormed(m) && m.mode == Row && k < |m.inner|
    requires Suspensions(m.inner[k]) > 0 && rounds > |Items(m.inner[k])| + 1
    requires m.idx + j == m.baseLength * rounds + k && Going(m, j)
    ensures Turn(Turns(m, j)).1.Suspended?
  {
    hide Turn, Items, Suspensions;
    GoingTurns(m, j, k);
    var r := QuietInBatch(m, j);
    SamePlace(m.baseLength, r, Turns(m, j).idx, rounds, k);
    assert RoundRows(m)[k] <= |Items(m.inner[k])| + 1;
    OnlySuspensions(Turns(m, j).inner[k]);
    SuspensionShape(Turns(m, j), k);
  }

  /** Some suspension is met, or the poll returns before. */
  lemma SuspensionEndsPoll<T>(m: Merge<T>, k: nat)
    requires WellFormed(m) && m.mode == Row && k < |m.inner| && Suspensions(m.inner[k]) > 0
    ensures Returns(m)
  {
    hide Turn;
    var rounds := |Items(m.inner[k])| + 2;
    RoundsAreLong(m.baseLength, m.idx, rounds);
    var j := m.baseLength * rounds + k - m.idx;
    if Going(m, j) {
      SuspendedAfterRows(m, rounds, k, j);
    }
  }

  lemma {:induction false} FirstStop<T>(m: Merge<T>, n: nat) returns (i: nat)
    requires WellFormed(m) && !Turn(Turns(m, n)).1.Go?
    ensures i <= n && Going(m, i) && !Turn(Turns(m, i)).1.Go?
    decreases n
  {
    i := n;
    if l: nat :| l < n && !Turn(Turns(m, l)).1.Go? {
      i := FirstStop(m, l);
    }
  }

  /**
   * In every state that runs reach, a poll returns if and only if the merge is not in the row state,
   * or the poll counter is below the limit, or the ends of stream will equal the number of sources
   * after some round, or some source has a suspension left to return on. Otherwise the loop never ends.
   */
  lemma PollReturnsIff<T>(m: Merge<T>)
    requires Orderly(m)
    ensures Returns(m) <==>
            || m.mode != Row
            || m.limitIdx < m.limit
            || CountMeets(m)
            || (exists k: nat :: k < |m.inner| && Suspensions(m.inner[k]) > 0)
  {
    hide Turn, CountMeets, Divides;
    if m.mode != Row {
      PollReturns(m);
    } else {
      BatchCompletesIff(m);
      if BatchCompletes(m) {
        PollReturns(m);
      }
      if k: nat :| k < |m.inner| && Suspensions(m.inner[k]) > 0 {
        SuspensionEndsPoll(m, k);
      }
      if Returns(m) && !BatchCompletes(m) {
        SomeSuspension(m);
      }
    }
  }

  lemma SomeSuspension<T>(m: Merge<T>)
    requires WellFormed(m) && Returns(m) && !BatchCompletes(m)
    ensures exists k: nat :: k < |m.inner| && Suspensions(m.inner[k]) > 0
  {
    var n: nat :| !Turn(Turns(m, n)).1.Go?;
    var i := FirstStop(m, n);
    var r := Turns(m, i);
    assert !Completes(Turn(r).1);
    assert IsPending(r) by {
      if !IsPending(r) {
        TurnShape(r);
      }
    }
    hide Turn;
    GoingTurns(m, i, r.idx);
    assert Suspensions(r.inner[r.idx]) > 0;
  }

  ghost predicate NeverSuspends<T>(m: Merge<T>) {
    forall k | 0 <= k < |m.inner| :: Suspensions(m.inner[k]) == 0
  }

  lemma TurnNeverSuspends<T>(m: Merge<T>)
    requires WellFormed(m) && NeverSuspends(m)
    ensures NeverSuspends(Turn(m).0)
  {
    assert Suspensions(m.inner[m.idx]) == 0;
    if !IsPending(m) {
      TurnShape(m);
    }
  }

  lemma {:induction false} RunNeverSuspends<T>(inner: seq<seq<Event<T>>>, actions: seq<Action>)
    requires |inner| >= 1 && forall k | 0 <= k < |inner| :: Suspensions(inner[k]) == 0
    ensures NeverSuspends(Exec(inner, actions).m)
    decreases |actions|
  {
    hide Turn, Suspensions;
    if actions != [] {
      var before := Exec(inner, actions[..|actions| - 1]);
      RunNeverSuspends(inner, actions[..|actions| - 1]);
      if actions[|actions| - 1].TurnAction? {
        TurnNeverSuspends(before.m);
      }
    }
  }

  lemma {:induction false} RowsNeverSuspend(n: nat)
    ensures Suspensions(Rows(n)) == 0
  {
    if n > 0 {
      RowsNeverSuspend(n - 1);
    }
  }

  /** A run of two shards after which `poll_next` never returns, with a row still to deliver. */
  lemma SomePollNeverReturns() returns (inner: seq<seq<Event<int>>>, actions: seq<Action>)
    ensures |inner| == 2 && SetsBetweenPolls(inner, actions)
    ensures var m := Exec(inner, actions).m; RowsLeft(m) == [1, 0] && !Returns(m)
  {
    inner, actions := SomeRunGetsStuck();
    RowsNeverSuspend(101);
    RowsNeverSuspend(98);
    RunNeverSuspends(inner, actions);
    RunsAreOrderly(inner, actions);
    hide Turn, Exec, Suspensions;
    BatchCompletesIff(Exec(inner, actions).m);
    PollReturnsIff(Exec(inner, actions).m);
  }

  // ----- What a poll returns --------------------------------------------------------

  /** The slots that n turns add, in order. */
  ghost function HeardIn<T>(m: Merge<T>, n: nat): seq<Slot<T>>
    requires WellFormed(m)
  {
    if n == 0 then [] else HeardIn(m, n - 1) + Heard(Turns(m, n - 1))
  }

  lemma {:induction false} GoingGathers<T>(m: Merge<T>, n: nat)
    requires WellFormed(m) && Going(m, n)
    ensures Turns(m, n).buf == m.buf + HeardIn(m, n)
    decreases n
  {
    hide Turn, Gather, Heard;
    if n > 0 {
      var before := Turns(m, n - 1);
      GoingGathers(m, n - 1);
      GoingTurn(before, 0);
      TurnShape(before);
      GatherAppends(before);
    }
  }

  /**
   * A poll of n turns that go on and one that does not: it leaves `after` and returns r. A batch is,
   * item by item, what was gathered before the poll and then what the turns of the poll have heard.
   */
  ghost predicate Polled<T>(m: Merge<T>, n: nat, after: Merge<T>, r: Outcome<T>)
    requires WellFormed(m)
  {
    && Going(m, n) && !r.Go? && Turn(Turns(m, n)) == (after, r)
    && (r.Batch? ==>
          var gathered := m.buf + HeardIn(m, n + 1);
          |r.items| == |gathered| && forall j | 0 <= j < |gathered| :: r.items[j] == gathered[j].data)
  }

  lemma PollGathers<T>(m: Merge<T>, n: nat, after: Merge<T>, r: Outcome<T>)
    requires WellFormed(m) && Going(m, n) && !r.Go? && Turn(Turns(m, n)) == (after, r)
    ensures Polled(m, n, after, r)
  {
    hide Turn, Gather, Heard;
    var last := Turns(m, n);
    GoingGathers(m, n);
    if r.Batch? {
      CompletingTurn(last);
      TurnShape(last);
      GatherAppends(last);
      assert m.buf + HeardIn(m, n) + Heard(last) == m.buf + (HeardIn(m, n) + Heard(last));
    }
  }

  ghost function Slots<T>(src: seq<nat>, buf: seq<Option<T>>): seq<Slot<T>>
    requires |src| == |buf|
  {
    seq(|buf|, j requires 0 <= j < |buf| => Slot(src[j], buf[j]))
  }

  class Merger<T> {
    var inner: seq<seq<Event<T>>>
    var idx: nat
    var buf: seq<Option<T>>
    ghost var src: seq<nat>
    var baseLength: nat
    var limit: nat
    var limitIdx: nat
    var noneCount: nat
    var mode: Mode

    ghost predicate Valid()
      reads this
    {
      |src| == |buf| && WellFormed(View())
    }

    ghost function View(): Merge<T>
      reads this
      requires |src| == |buf|
    {
      Merge(inner, idx, Slots(src, buf), baseLength, limit, limitIdx, noneCount, mode)
    }

    constructor (inner: seq<seq<Event<T>>>, baseLength: nat)
      requires baseLength == |inner| >= 1
      ensures Valid() && View() == Start(inner)
      ensures this.inner == inner && idx == limitIdx == noneCount == 0 && buf == [] && mode == Header
      ensures this.baseLength == baseLength && limit == baseLength * 100
    {
      this.inner, this.idx, this.buf, this.src := inner, 0, [], [];
      this.baseLength, this.limit := baseLength, baseLength * 100;
      this.limitIdx, this.noneCount, this.mode := 0, 0, Header;
    }

    method SetState(mode: Mode)
      requires Valid()
      modifies this`mode
      ensures Valid() && View() == old(View()).(mode := mode)
    {
      this.mode := mode;
    }

    /** Take the answer of the source at idx out of its script. */
    method PollSource() returns (suspended: bool, data: Option<T>)
      requires Valid()
      modifies this`inner
      ensures Valid() && suspended == IsPending(old(View()))
      ensures suspended ==> (View(), Suspended) == Turn(old(View()))
      ensures !suspended ==>
                var s := old(inner)[idx];
                && inner == old(inner)[idx := if s == [] then [] else s[1..]]
                && data == if s == [] then None else Some(s[0].value)
    {
      var s := inner[idx];
      if s == [] {
        inner := inner[idx := []];
        return false, None;
      }
      inner := inner[idx := s[1..]];
      if s[0].Pending? {
        return true, None;
      }
      return false, Some(s[0].value);
    }

    method Gathered(data: Option<T>)
      requires |src| == |buf| && idx < baseLength
      modifies this`idx, this`limitIdx, this`noneCount, this`buf, this`src
      ensures |src| == |buf| && idx == old(idx) + 1
      ensures if old(mode) != Row || data.Some?
              then Slots(src, buf) == old(Slots(src, buf)) + [Slot(old(idx), data)]
                   && noneCount == old(noneCount)
              else Slots(src, buf) == old(Slots(src, buf)) && noneCount == old(noneCount) + 1
      ensures limitIdx == old(limitIdx) + if mode == Row then 1 else 0
    {
      if mode != Row || data.Some? {
        buf, src := buf + [data], src + [idx];
      } else {
        noneCount := noneCount + 1;
      }
      idx := idx + 1;
      if mode == Row {
        limitIdx := limitIdx + 1;
      }
    }

    /** The counters at the end of an iteration: true when the loop breaks. */
    method Breaks() returns (done: bool)
      requires |src| == |buf| && idx <= baseLength
      modifies this`idx, this`limitIdx, this`noneCount
      ensures |src| == |buf|
      ensures idx == if old(idx) == baseLength then 0 else old(idx)
      ensures var wraps := old(idx) == baseLength;
              if mode != Row then
                done == wraps && limitIdx == old(limitIdx) && noneCount == old(noneCount)
              else if wraps && old(noneCount) == baseLength then
                done && limitIdx == old(limitIdx) && noneCount == 0
              else if old(limitIdx) == limit then
                done && limitIdx == 0 && noneCount == 0
              else
                !done && limitIdx == old(limitIdx) && noneCount == old(noneCount)
    {
      var wraps := idx == baseLength;
      if wraps {
        idx := 0;
      }
      if mode != Row {
        return wraps;
      }
      if wraps && noneCount == baseLength {
        noneCount := 0;
        return true;
      }
      if limitIdx == limit {
        limitIdx, noneCount := 0, 0;
        return true;
      }
      return false;
    }

    /** `poll_next`: suspended, a batch, or the end of the stream. */
    method PollNext() returns (r: Outcome<T>)
      requires Valid() && Returns(View())
      modifies this`inner, this`idx, this`limitIdx, this`noneCount, this`buf, this`src
      ensures Valid()
      ensures exists n: nat :: Polled(old(View()), n, View(), r)
    {
      hide Turn, Slots;
      ghost var start := View();
      ghost var bound: nat :| !Turn(Turns(start, bound)).1.Go?;
      ghost var n: nat := 0;
      while true
        invariant Valid() && View() == Turns(start, n) && Going(start, n)
        decreases bound - n
      {
        r := Iterate();
        if !r.Go? {
          PollGathers(start, n, View(), r);
          return;
        }
        n := n + 1;
      }
    }

    /** The body of the loop. */
    method Iterate() returns (o: Outcome<T>)
      requires Valid()
      modifies this`inner, this`idx, this`limitIdx, this`noneCount, this`buf, this`src
      ensures Valid() && (View(), o) == Turn(old(View()))
    {
      var suspended, data := PollSource();
      if suspended {
        return Suspended;
      }
      Gathered(data);
      assert View() == Gather(old(View()));
      var done := Breaks();
      if !done {
        return Go;
      }
      assert |Slots(src, buf)| == |buf|;
      if buf == [] {
        return End;
      }
      o := Batch(buf);
      assert Data(Slots(src, buf)) == buf;
      buf, src := [], [];
      assert Slots(src, buf) == [];
    }
  }
}
