/**
 * When the polls of a `MergeStream` complete, and what they leave behind.
 *
 * The loop counts "end of stream" answers over all rounds of a batch but stops only when
 * the count equals the number of sources at the end of a round; it otherwise relies on the
 * poll counter limitIdx hitting the limit exactly. A batch that starts with limitIdx at or
 * past the limit therefore completes only for some numbers of remaining rows.
 */
module MergeProgress {
  import opened Divisibility
  import opened MergeStream

  // ----- Boundaries -----------------------------------------------------------------

  ghost predicate Boundary<T>(m: Merge<T>) {
    m.idx == 0 && m.noneCount == 0 && m.buf == []
  }

  /** The invariant of runs that set the state only between completed polls. */
  ghost predicate Orderly<T>(m: Merge<T>) {
    && WellFormed(m)
    && (m.mode != Row ==> m.noneCount == 0 && |m.buf| == m.idx && Divides(m.baseLength, m.limitIdx))
    && (m.mode == Row ==>
          && Divides(m.baseLength, m.limitIdx - m.idx)
          && (m.buf == [] ==> m.noneCount == m.idx && forall k | 0 <= k < m.idx :: m.inner[k] == []))
  }

  lemma OrderlyIsWellFormed<T>(m: Merge<T>)
    requires Orderly(m)
    ensures WellFormed(m)
  {
  }

  lemma SmallMultiple(d: int, x: int)
    requires 0 <= x < d && Divides(d, x)
    ensures x == 0
  {
  }

  /** Advancing the poll counter and the cursor together keeps them congruent. */
  lemma CounterStep(base: int, limitIdx: int, idx: int)
    requires 0 <= idx < base && Divides(base, limitIdx - idx)
    ensures Divides(base, limitIdx + 1 - (if idx + 1 == base then 0 else idx + 1))
    ensures limitIdx + 1 == base * 100 ==> idx + 1 == base
  {
    Multiple(base, 1);
    Multiple(base, 100);
    if idx + 1 == base {
      Sum(base, limitIdx - idx, base);
    } else if limitIdx + 1 == base * 100 {
      Sum(base, base * 100, limitIdx - idx);
      SmallMultiple(base, idx + 1);
    }
  }

  /**
   * A turn keeps the counters in step; one that completes a poll stops at a round boundary
   * with everything cleared; the end of the stream is reported only when every source is
   * exhausted, and never outside the row state. Outside the row state a poll completes exactly with
   * the answer of the last source, and the counters of the row state stay.
   */
  lemma TurnIsOrderly<T>(m: Merge<T>)
    requires Orderly(m)
    ensures var (r, o) := Turn(m);
            && Orderly(r)
            && (o.Batch? || o.End? ==> Boundary(r))
            && (o.End? ==> m.mode == Row && forall k | 0 <= k < |r.inner| :: r.inner[k] == [])
            && (m.mode != Row ==> r.limitIdx == m.limitIdx && r.noneCount == m.noneCount)
            && (m.mode != Row && !IsPending(m) ==> (o.Batch? <==> m.idx + 1 == m.baseLength))
  {
    if !IsPending(m) {
      if m.mode == Row {
        CounterStep(m.baseLength, m.limitIdx, m.idx);
      }
      Multiple(m.baseLength, 0);
    }
  }

  ghost predicate SetsBetweenPolls<T>(inner: seq<seq<Event<T>>>, actions: seq<Action>)
    requires |inner| >= 1
  {
    forall i | 0 <= i < |actions| && actions[i].SetState? :: Boundary(Exec(inner, actions[..i]).m)
  }

  lemma {:induction false} RunsAreOrderly<T>(inner: seq<seq<Event<T>>>, actions: seq<Action>)
    requires |inner| >= 1 && SetsBetweenPolls(inner, actions)
    ensures Orderly(Exec(inner, actions).m)
    decreases |actions|
  {
    Multiple(|inner|, 0);
    if actions != [] {
      var init := actions[..|actions| - 1];
      forall i | 0 <= i < |init| && init[i].SetState?
        ensures Boundary(Exec(inner, init[..i]).m)
      {
        assert init[..i] == actions[..i];
      }
      RunsAreOrderly(inner, init);
      if actions[|actions| - 1].TurnAction? {
        TurnIsOrderly(Exec(inner, init).m);
      } else {
        assert Boundary(Exec(inner, actions[..|init|]).m);
      }
    }
  }

  // ----- Sequences of turns ---------------------------------------------------------

  ghost predicate Completes<T>(o: Outcome<T>) {
    o.Batch? || o.End?
  }

  ghost function Turns<T>(m: Merge<T>, j: nat): (r: Merge<T>)
    requires WellFormed(m)
    ensures WellFormed(r) && r.mode == m.mode && r.baseLength == m.baseLength
  {
    if j == 0 then m else Turn(Turns(m, j - 1)).0
  }

  /** None of the first j turns completes a poll. */
  ghost predicate Quiet<T>(m: Merge<T>, j: nat)
    requires WellFormed(m)
  {
    forall i: nat | i < j :: !Completes(Turn(Turns(m, i)).1)
  }

  /** The answers that sources give in the first j turns. */
  ghost function Answers<T>(m: Merge<T>, j: nat): nat
    requires WellFormed(m)
  {
    if j == 0 then 0 else Answers(m, j - 1) + if IsPending(Turns(m, j - 1)) then 0 else 1
  }

  lemma QuietTurn<T>(m: Merge<T>)
    requires WellFormed(m) && m.mode == Row && !Completes(Turn(m).1)
    ensures var (r, answers) := (Turn(m).0, if IsPending(m) then 0 else 1);
            && r.limitIdx == m.limitIdx + answers
            && |r.buf| + r.noneCount == |m.buf| + m.noneCount + answers
            && (m.limitIdx < m.limit ==> r.limitIdx < r.limit)
  {
  }

  lemma {:induction false} QuietTurns<T>(m: Merge<T>, j: nat)
    requires Orderly(m) && m.mode == Row && Quiet(m, j)
    ensures var r := Turns(m, j);
            && Orderly(r)
            && r.limitIdx == m.limitIdx + Answers(m, j)
            && |r.buf| + r.noneCount == |m.buf| + m.noneCount + Answers(m, j)
            && (m.limitIdx < m.limit ==> r.limitIdx < r.limit)
    decreases j
  {
    hide Turn, Completes;
    if j > 0 {
      QuietTurns(m, j - 1);
      TurnIsOrderly(Turns(m, j - 1));
      QuietTurn(Turns(m, j - 1));
    }
  }

  /**
   * From a boundary in the row state with limitIdx below the limit, a poll that completes has
   * asked for at most limit - limitIdx answers, so its batch has at most that many rows.
   */
  lemma BatchBound<T>(m: Merge<T>, j: nat)
    requires Orderly(m) && Boundary(m) && m.mode == Row && m.limitIdx < m.limit
    requires Quiet(m, j) && Completes(Turn(Turns(m, j)).1)
    ensures Answers(m, j + 1) <= m.limit - m.limitIdx
    ensures var o := Turn(Turns(m, j)).1; o.Batch? ==> |o.items| <= Answers(m, j + 1)
    ensures Boundary(Turns(m, j + 1))
  {
    QuietTurns(m, j);
    TurnIsOrderly(Turns(m, j));
  }

  /** A poll from a boundary that reports the end leaves, and found, every source exhausted. */
  lemma EndIsSound<T>(m: Merge<T>, j: nat)
    requires Orderly(m) && Boundary(m) && m.mode == Row
    requires Quiet(m, j) && Turn(Turns(m, j)).1.End?
    ensures forall k | 0 <= k < |m.inner| :: Items(m.inner[k]) == []
    ensures Answers(m, j + 1) == m.baseLength
  {
    hide Turn, Items, Completes, Quiet;
    QuietTurns(m, j);
    EndingTurn(Turns(m, j));
    forall k | 0 <= k < |m.inner|
      ensures Items(m.inner[k]) == []
    {
      EmptyBufferMeansNothingTaken(m, j, k);
    }
  }

  lemma EndingTurn<T>(m: Merge<T>)
    requires Orderly(m) && m.mode == Row && Turn(m).1.End?
    ensures m.buf == [] && m.noneCount == m.baseLength - 1 && !IsPending(m)
    ensures forall k | 0 <= k < |m.inner| :: Items(m.inner[k]) == []
  {
    TurnShape(m);
    TurnIsOrderly(m);
  }

  lemma NothingTaken<T>(m: Merge<T>, k: nat)
    requires WellFormed(m) && m.mode == Row && k < |m.inner|
    requires !Completes(Turn(m).1) && Turn(m).0.buf == []
    ensures m.buf == [] && Items(Turn(m).0.inner[k]) == Items(m.inner[k])
  {
    if IsPending(m) {
      SuspensionShape(m, k);
    } else {
      TurnShape(m);
      GatherAppends(m);
      HeardConserves(m, k);
    }
  }

  /** While the buffer is still empty no source has yielded an item. */
  lemma {:induction false} EmptyBufferMeansNothingTaken<T>(m: Merge<T>, j: nat, k: nat)
    requires Orderly(m) && Boundary(m) && m.mode == Row && k < |m.inner|
    requires Quiet(m, j) && Turns(m, j).buf == []
    ensures Items(Turns(m, j).inner[k]) == Items(m.inner[k])
    decreases j
  {
    hide Turn, Items, OfSource, Gather;
    if j > 0 {
      var r := Turns(m, j - 1);
      NothingTaken(r, k);
      EmptyBufferMeansNothingTaken(m, j - 1, k);
    }
  }

  /** With every source exhausted, a poll from a boundary ends the stream after one round. */
  lemma {:induction false} EndIsPrompt<T>(m: Merge<T>, j: nat)
    requires Orderly(m) && Boundary(m) && m.mode == Row && j < m.baseLength
    requires forall k | 0 <= k < |m.inner| :: m.inner[k] == []
    ensures Quiet(m, j) && Answers(m, j) == j
    ensures Turns(m, j) == m.(idx := j, noneCount := j, limitIdx := m.limitIdx + j)
    ensures j == m.baseLength - 1 ==> Turn(Turns(m, j)).1.End?
    decreases j
  {
    hide Turn, Divides;
    CounterStep(m.baseLength, m.limitIdx + j, j);
    ExhaustedTurn(m.(idx := j, noneCount := j, limitIdx := m.limitIdx + j));
    if j > 0 {
      CounterStep(m.baseLength, m.limitIdx + j - 1, j - 1);
      EndIsPrompt(m, j - 1);
      ExhaustedTurn(Turns(m, j - 1));
      assert Turns(m, j) == Turn(Turns(m, j - 1)).0;
    }
  }

  lemma ExhaustedTurn<T>(m: Merge<T>)
    requires WellFormed(m) && m.mode == Row && m.inner[m.idx] == [] && m.buf == []
    requires m.noneCount == m.idx && (m.idx + 1 < m.baseLength ==> m.limitIdx + 1 != m.limit)
    ensures var (r, o) := Turn(m);
            if m.idx + 1 == m.baseLength then o.End?
            else o.Go? && r == m.(idx := m.idx + 1, noneCount := m.noneCount + 1, limitIdx := m.limitIdx + 1)
  {
    assert m.inner[m.idx := []] == m.inner;
  }
}
