/**
 * The shard merge of client/codec.rs: `MergeStream` polls its sources in turn and
 * gathers their answers into batches.
 *
 * A source is the finite script of its future answers; an exhausted script answers
 * "end of stream" for ever, as a fused stream does. `Turn` is one iteration of the loop
 * of `poll_next`; a poll is the turns up to the first that does not go on.
 */
module MergeStream {
  import opened Options

  datatype Event<T> = Pending | Item(value: T)

  datatype Mode = Header | ColumnInfo | ColumnEof | Row

  /** A gathered answer, tagged with the source it came from; the tag is bookkeeping. */
  datatype Slot<T> = Slot(src: nat, data: Option<T>)

  datatype Outcome<T> = Go | Suspended | Batch(items: seq<Option<T>>) | End

  datatype Merge<T> = Merge(
    inner: seq<seq<Event<T>>>,
    idx: nat,
    buf: seq<Slot<T>>,
    baseLength: nat,
    limit: nat,
    limitIdx: nat,
    noneCount: nat,
    mode: Mode
  )

  /** `new`: one source per shard, and batches of at most 100 rounds. */
  function Start<T>(inner: seq<seq<Event<T>>>): Merge<T> {
    Merge(inner, 0, [], |inner|, |inner| * 100, 0, 0, Header)
  }

  predicate WellFormed<T>(m: Merge<T>) {
    m.idx < m.baseLength == |m.inner| && m.limit == m.baseLength * 100
  }

  function Data<T>(buf: seq<Slot<T>>): seq<Option<T>> {
    seq(|buf|, j requires 0 <= j < |buf| => buf[j].data)
  }

  // ----- One turn of the loop -------------------------------------------------------

  /** The end of a poll: an empty buffer reports the end of the stream. */
  function Finish<T>(m: Merge<T>): (Merge<T>, Outcome<T>) {
    if m.buf == [] then (m, End) else (m.(buf := []), Batch(Data(m.buf)))
  }

  /** The source at idx has answered; gather its answer and move on. */
  function Gather<T>(m: Merge<T>): Merge<T>
    requires WellFormed(m)
  {
    var s := m.inner[m.idx];
    var data := if s == [] || s[0].Pending? then None else Some(s[0].value);
    var m1 := m.(inner := m.inner[m.idx := if s == [] then [] else s[1..]], idx := m.idx + 1);
    if m.mode != Row then m1.(buf := m.buf + [Slot(m.idx, data)])
    else if data.Some? then m1.(limitIdx := m.limitIdx + 1, buf := m.buf + [Slot(m.idx, data)])
    else m1.(limitIdx := m.limitIdx + 1, noneCount := m.noneCount + 1)
  }

  predicate IsPending<T>(m: Merge<T>)
    requires WellFormed(m)
  {
    m.inner[m.idx] != [] && m.inner[m.idx][0].Pending?
  }

  function Turn<T>(m: Merge<T>): (r: (Merge<T>, Outcome<T>))
    requires WellFormed(m)
    ensures WellFormed(r.0) && r.0.mode == m.mode && r.0.baseLength == m.baseLength
  {
    if IsPending(m) then
      (m.(inner := m.inner[m.idx := m.inner[m.idx][1..]]), Suspended)
    else
      var g := Gather(m);
      var wraps := g.idx == g.baseLength;
      var h := if wraps then g.(idx := 0) else g;
      if m.mode != Row then
        if wraps then Finish(h) else (h, Go)
      else if wraps && h.noneCount == h.baseLength then
        Finish(h.(noneCount := 0))
      else if h.limitIdx == h.limit then
        Finish(h.(limitIdx := 0, noneCount := 0))
      else
        (h, Go)
  }

  /** What every turn that gets an answer does to the cursor, the scripts and the buffer. */
  lemma TurnShape<T>(m: Merge<T>)
    requires WellFormed(m) && !IsPending(m)
    ensures var (r, o) := Turn(m);
            && r.inner == Gather(m).inner && r.mode == m.mode
            && r.idx == (if m.idx + 1 == m.baseLength then 0 else m.idx + 1)
            && r.buf == (if o.Go? then Gather(m).buf else [])
            && !o.Suspended?
            && (o.Batch? ==> Gather(m).buf != [] && IsData(o.items, Gather(m).buf))
            && (o.End? ==> Gather(m).buf == [])
  {
  }

  /** The items are those of the slots, one by one. */
  ghost predicate IsData<T>(items: seq<Option<T>>, slots: seq<Slot<T>>) {
    |items| == |slots| && forall j | 0 <= j < |slots| :: items[j] == slots[j].data
  }

  /** The slot that an answered turn adds: rows only in the row state, everything in the others. */
  function Heard<T>(m: Merge<T>): seq<Slot<T>>
    requires WellFormed(m)
  {
    var s := m.inner[m.idx];
    if s != [] && s[0].Item? then [Slot(m.idx, Some(s[0].value))]
    else if s == [] && m.mode != Row then [Slot(m.idx, None)]
    else []
  }

  /** Answers are gathered at the end of the buffer. */
  lemma GatherAppends<T>(m: Merge<T>)
    requires WellFormed(m) && !IsPending(m)
    ensures Gather(m).buf == m.buf + Heard(m)
  {
  }

  // ----- Runs -----------------------------------------------------------------------

  datatype Action = TurnAction | SetState(mode: Mode)

  /** An answer of a source, with the state in which it was asked for. */
  datatype Answer<T> = Answer(mode: Mode, slot: Slot<T>)

  /**
   * A merge with its past: all that its polls have returned, item by item; the source each of those
   * came from; every answer of the sources, in order; and the number of answers of each source.
   */
  datatype Traced<T> = Traced(
    m: Merge<T>,
    returned: seq<Option<T>>,
    from: seq<nat>,
    answers: seq<Answer<T>>,
    polls: seq<nat>
  )

  /** The answer that a turn gets, if the source is ready. */
  function AnswerOf<T>(m: Merge<T>): Answer<T>
    requires WellFormed(m) && !IsPending(m)
  {
    var s := m.inner[m.idx];
    Answer(m.mode, Slot(m.idx, if s == [] then None else Some(s[0].value)))
  }

  function Sources<T>(slots: seq<Slot<T>>): (r: seq<nat>)
    ensures |r| == |slots|
  {
    seq(|slots|, j requires 0 <= j < |slots| => slots[j].src)
  }

  function Apply<T>(t: Traced<T>, a: Action): (r: Traced<T>)
    requires WellFormed(t.m) && |t.polls| == |t.m.inner|
    ensures WellFormed(r.m) && |r.polls| == |r.m.inner| == |t.m.inner|
  {
    match a
    case SetState(mode) => t.(m := t.m.(mode := mode))
    case TurnAction =>
      var (m, outcome) := Turn(t.m);
      if IsPending(t.m) then t.(m := m)
      else
        Traced(m,
               if outcome.Batch? then t.returned + outcome.items else t.returned,
               if outcome.Batch? then t.from + Sources(Gather(t.m).buf) else t.from,
               t.answers + [AnswerOf(t.m)],
               t.polls[t.m.idx := t.polls[t.m.idx] + 1])
  }

  function Exec<T>(inner: seq<seq<Event<T>>>, actions: seq<Action>): (r: Traced<T>)
    requires |inner| >= 1
    ensures WellFormed(r.m) && |r.polls| == |r.m.inner| == |inner|
  {
    if actions == [] then Traced(Start(inner), [], [], [], seq(|inner|, _ => 0))
    else Apply(Exec(inner, actions[..|actions| - 1]), actions[|actions| - 1])
  }

  /** What has been returned, with its sources. */
  ghost function Out<T>(t: Traced<T>): seq<Slot<T>> {
    Tagged(t.from, t.returned)
  }

  ghost function Tagged<T>(from: seq<nat>, items: seq<Option<T>>): seq<Slot<T>> {
    seq(|items|, j requires 0 <= j < |items| => Slot(if j < |from| then from[j] else 0, items[j]))
  }

  /** Returning the data of slots with their sources is returning the slots. */
  lemma TaggedAppend<T>(from: seq<nat>, items: seq<Option<T>>, data: seq<Option<T>>, slots: seq<Slot<T>>)
    requires |from| == |items| && IsData(data, slots)
    ensures Tagged(from + Sources(slots), items + data) == Tagged(from, items) + slots
  {
  }

  /** What a turn adds to what has been returned or is buffered is what it has heard. */
  lemma TurnReturns<T>(t: Traced<T>)
    requires WellFormed(t.m) && |t.polls| == |t.m.inner| && |t.from| == |t.returned|
    ensures var r := Apply(t, TurnAction);
            && |r.from| == |r.returned|
            && Out(r) + r.m.buf == Out(t) + t.m.buf + (if IsPending(t.m) then [] else Heard(t.m))
  {
    hide Turn, Gather;
    if IsPending(t.m) {
      SuspensionShape(t.m, 0);
    } else {
      TurnShape(t.m);
      GatherAppends(t.m);
      var (m, o) := Turn(t.m);
      if o.Batch? {
        TaggedAppend(t.from, t.returned, o.items, Gather(t.m).buf);
      }
    }
  }

  // ----- Conservation ---------------------------------------------------------------

  /** What a script still has to say, suspensions aside. */
  function Items<T>(s: seq<Event<T>>): seq<T> {
    if s == [] then [] else (if s[0].Pending? then [] else [s[0].value]) + Items(s[1..])
  }

  /** The items gathered from source k, in order. */
  function OfSource<T>(slots: seq<Slot<T>>, k: nat): seq<T> {
    if slots == [] then [] else
      var last := slots[|slots| - 1];
      OfSource(slots[..|slots| - 1], k)
      + if last.src == k && last.data.Some? then [last.data.value] else []
  }

  lemma {:induction false} OfSourceConcat<T>(a: seq<Slot<T>>, b: seq<Slot<T>>, k: nat)
    ensures OfSource(a + b, k) == OfSource(a, k) + OfSource(b, k)
    decreases |b|
  {
    if b == [] {
      assert a + b == a;
    } else {
      OfSourceConcat(a, b[..|b| - 1], k);
      assert (a + b)[..|a + b| - 1] == a + b[..|b| - 1];
    }
  }

  lemma HeardConserves<T>(m: Merge<T>, k: nat)
    requires WellFormed(m) && !IsPending(m) && k < |m.inner|
    ensures OfSource(Heard(m), k) + Items(Gather(m).inner[k]) == Items(m.inner[k])
  {
    var s := m.inner[m.idx];
    if s != [] {
      assert Items(s) == [s[0].value] + Items(s[1..]);
    }
    assert Heard(m) != [] ==> Heard(m)[..0] == [];
  }

  lemma SuspensionShape<T>(m: Merge<T>, k: nat)
    requires WellFormed(m) && IsPending(m) && k < |m.inner|
    ensures Turn(m) == (m.(inner := Turn(m).0.inner), Suspended)
    ensures Items(Turn(m).0.inner[k]) == Items(m.inner[k])
  {
  }

  lemma NoSlots<T>(k: nat)
    ensures OfSource<T>([], k) == []
  {
  }

  /** What source k has given and what it still has to give, before and after a turn. */
  lemma TurnConserves<T>(t: Traced<T>, k: nat)
    requires WellFormed(t.m) && |t.polls| == |t.m.inner| && |t.from| == |t.returned| && k < |t.m.inner|
    ensures var r := Apply(t, TurnAction);
            && |r.from| == |r.returned|
            && OfSource(Out(r) + r.m.buf, k) + Items(r.m.inner[k])
               == OfSource(Out(t) + t.m.buf, k) + Items(t.m.inner[k])
  {
    hide Turn, Gather, OfSource, Items, Out, Heard;
    TurnReturns(t);
    if IsPending(t.m) {
      SuspensionShape(t.m, k);
      assert Out(t) + t.m.buf + [] == Out(t) + t.m.buf;
    } else {
      TurnShape(t.m);
      HeardConserves(t.m, k);
      HeardFollows(Out(t) + t.m.buf, Heard(t.m), Items(Gather(t.m).inner[k]), k);
    }
  }

  lemma HeardFollows<T>(past: seq<Slot<T>>, heard: seq<Slot<T>>, rest: seq<T>, k: nat)
    ensures OfSource(past + heard, k) + rest == OfSource(past, k) + (OfSource(heard, k) + rest)
  {
    hide OfSource;
    OfSourceConcat(past, heard, k);
  }

  /**
   * In every run, whatever is suspended where and whenever the state is set, the items
   * returned or buffered from source k are exactly the ones taken from it, in order.
   */
  lemma {:induction false} NothingLost<T>(inner: seq<seq<Event<T>>>, actions: seq<Action>, k: nat)
    requires k < |inner|
    ensures var t := Exec(inner, actions);
            && |t.from| == |t.returned|
            && Items(inner[k]) == OfSource(Out(t) + t.m.buf, k) + Items(t.m.inner[k])
    decreases |actions|
  {
    hide Turn, OfSource, Items, Out;
    if actions == [] {
      NoSlots<T>(k);
      NothingReturned(inner);
    } else {
      var before := Exec(inner, actions[..|actions| - 1]);
      NothingLost(inner, actions[..|actions| - 1], k);
      if actions[|actions| - 1].TurnAction? {
        TurnConserves(before, k);
      } else {
        SameOut(before, actions[|actions| - 1]);
      }
    }
  }

  lemma NothingReturned<T>(inner: seq<seq<Event<T>>>)
    requires |inner| >= 1
    ensures Out(Exec(inner, [])) + Exec(inner, []).m.buf == []
  {
  }

  lemma SameOut<T>(t: Traced<T>, a: Action)
    requires WellFormed(t.m) && |t.polls| == |t.m.inner| && a.SetState?
    ensures Out(Apply(t, a)) == Out(t)
  {
  }

  /** In every run, any two sources have been asked equally often, give or take one. */
  lemma {:induction false} PollsAreEven<T>(inner: seq<seq<Event<T>>>, actions: seq<Action>)
    returns (rounds: nat)
    requires |inner| >= 1
    ensures Even(Exec(inner, actions), rounds)
    decreases |actions|
  {
    rounds := 0;
    if actions != [] {
      rounds := PollsAreEven(inner, actions[..|actions| - 1]);
      rounds := EvenStep(Exec(inner, actions[..|actions| - 1]), actions[|actions| - 1], rounds);
    }
  }

  ghost predicate Even<T>(t: Traced<T>, rounds: nat)
    requires |t.polls| == |t.m.inner|
  {
    forall k | 0 <= k < |t.polls| :: t.polls[k] == rounds + if k < t.m.idx then 1 else 0
  }

  lemma EvenStep<T>(t: Traced<T>, a: Action, rounds: nat) returns (after: nat)
    requires WellFormed(t.m) && |t.polls| == |t.m.inner| && Even(t, rounds)
    ensures Even(Apply(t, a), after)
  {
    after := rounds;
    if a.TurnAction? && !IsPending(t.m) {
      TurnShape(t.m);
      if t.m.idx + 1 == t.m.baseLength {
        after := rounds + 1;
      }
    }
  }

  // ----- The order of the answers ---------------------------------------------------

  /** The n-th answer of a source: its n-th item, or the end of its stream. */
  function Nth<T>(s: seq<Event<T>>, n: nat): Option<T> {
    if n < |Items(s)| then Some(Items(s)[n]) else None
  }

  /** After n answers. */
  ghost predicate Consumed<T>(left: seq<Event<T>>, script: seq<Event<T>>, n: nat) {
    Items(left) == if n <= |Items(script)| then Items(script)[n..] else []
  }

  /** The sources have answered in turn, each from the front of its script. */
  ghost predicate Taken<T>(m: Merge<T>, inner: seq<seq<Event<T>>>, rounds: nat) {
    && WellFormed(m) && |m.inner| == |inner|
    && forall k | 0 <= k < |inner| :: Consumed(m.inner[k], inner[k], rounds + if k < m.idx then 1 else 0)
  }

  ghost predicate InTurn<T>(t: Traced<T>, inner: seq<seq<Event<T>>>, rounds: nat) {
    && WellFormed(t.m) && Taken(t.m, inner, rounds)
    && |t.answers| == |inner| * rounds + t.m.idx
    && forall j | 0 <= j < |t.answers| :: IsAnswer(t.answers[j], inner, j)
  }

  /** The j-th answer of all is answer number j / n of source j % n. */
  ghost predicate IsAnswer<T>(a: Answer<T>, inner: seq<seq<Event<T>>>, j: nat) {
    |inner| >= 1 && a.slot == Slot(j % |inner|, Nth(inner[j % |inner|], j / |inner|))
  }

  lemma Place(n: int, rounds: int, idx: int)
    requires 0 <= idx < n
    ensures (n * rounds + idx) % n == idx && (n * rounds + idx) / n == rounds
  {
    var x := n * rounds + idx;
    var d := x / n - rounds;
    assert n * d == idx - x % n;
    assert d >= 1 ==> n * d >= n;
    assert d <= -1 ==> n * d <= -n;
  }

  /** The source whose turn it is gives its next answer. */
  lemma NextAnswer<T>(m: Merge<T>, script: seq<Event<T>>, n: nat)
    requires WellFormed(m) && !IsPending(m) && Consumed(m.inner[m.idx], script, n)
    ensures AnswerOf(m).slot == Slot(m.idx, Nth(script, n))
    ensures Consumed(Gather(m).inner[m.idx], script, n + 1)
  {
    var s := m.inner[m.idx];
    if s != [] {
      assert Items(s) == [s[0].value] + Items(s[1..]);
    }
  }

  lemma TurnTakes<T>(m: Merge<T>, inner: seq<seq<Event<T>>>, rounds: nat) returns (after: nat)
    requires Taken(m, inner, rounds)
    ensures Taken(Turn(m).0, inner, after)
    ensures |inner| * after + Turn(m).0.idx == |inner| * rounds + m.idx + if IsPending(m) then 0 else 1
  {
    hide Turn, Gather, Consumed;
    after := rounds;
    if IsPending(m) {
      SuspensionTakesNothing(m, inner, rounds);
    } else {
      TurnShape(m);
      NextAnswer(m, inner[m.idx], rounds);
      OthersConsumed(m, inner, rounds);
      if m.idx + 1 == |inner| {
        after := rounds + 1;
        RoundUp(|inner|, rounds);
      }
    }
  }

  lemma RoundUp(n: int, rounds: int)
    ensures n * (rounds + 1) == n * rounds + n
  {
  }

  lemma SuspensionTakesNothing<T>(m: Merge<T>, inner: seq<seq<Event<T>>>, rounds: nat)
    requires Taken(m, inner, rounds) && IsPending(m)
    ensures Taken(Turn(m).0, inner, rounds) && Turn(m).0.idx == m.idx
  {
    hide Turn, Items;
    SuspensionShape(m, 0);
    forall k | 0 <= k < |inner|
      ensures Items(Turn(m).0.inner[k]) == Items(m.inner[k])
    {
      SuspensionShape(m, k);
    }
  }

  lemma TurnInTurn<T>(t: Traced<T>, inner: seq<seq<Event<T>>>, rounds: nat) returns (after: nat)
    requires |t.polls| == |t.m.inner| && InTurn(t, inner, rounds)
    ensures InTurn(Apply(t, TurnAction), inner, after)
  {
    hide Turn, Gather, Taken, IsAnswer, AnswerOf;
    after := TurnTakes(t.m, inner, rounds);
    if !IsPending(t.m) {
      AnswerInPlace(t.m, inner, rounds);
    }
  }

  lemma AnswerInPlace<T>(m: Merge<T>, inner: seq<seq<Event<T>>>, rounds: nat)
    requires WellFormed(m) && !IsPending(m) && Taken(m, inner, rounds)
    ensures IsAnswer(AnswerOf(m), inner, |inner| * rounds + m.idx)
  {
    hide Items, AnswerOf, Gather, Nth;
    NextAnswer(m, inner[m.idx], rounds);
    Place(|inner|, rounds, m.idx);
  }

  lemma OthersConsumed<T>(m: Merge<T>, inner: seq<seq<Event<T>>>, rounds: nat)
    requires WellFormed(m) && !IsPending(m) && |m.inner| == |inner|
    requires forall k | 0 <= k < |inner| :: Consumed(m.inner[k], inner[k], rounds + if k < m.idx then 1 else 0)
    requires Consumed(Gather(m).inner[m.idx], inner[m.idx], rounds + 1)
    ensures forall k | 0 <= k < |inner| ::
              Consumed(Gather(m).inner[k], inner[k], rounds + if k < m.idx + 1 then 1 else 0)
  {
    hide Consumed;
  }

  lemma {:induction false} RunsInTurn<T>(inner: seq<seq<Event<T>>>, actions: seq<Action>) returns (rounds: nat)
    requires |inner| >= 1
    ensures InTurn(Exec(inner, actions), inner, rounds)
    decreases |actions|
  {
    hide Turn, Items;
    rounds := 0;
    if actions != [] {
      rounds := RunsInTurn(inner, actions[..|actions| - 1]);
      if actions[|actions| - 1].TurnAction? {
        rounds := TurnInTurn(Exec(inner, actions[..|actions| - 1]), inner, rounds);
      }
    }
  }

  /** The answers that are handed on: in the row state not the ends of stream. */
  function HandedOn<T>(answers: seq<Answer<T>>): seq<Option<T>> {
    if answers == [] then [] else
      var a := answers[|answers| - 1];
      HandedOn(answers[..|answers| - 1]) + if a.mode == Row && a.slot.data.None? then [] else [a.slot.data]
  }

  function DataOf<T>(slots: seq<Slot<T>>): seq<Option<T>> {
    if slots == [] then [] else DataOf(slots[..|slots| - 1]) + [slots[|slots| - 1].data]
  }

  lemma {:induction false} DataOfConcat<T>(a: seq<Slot<T>>, b: seq<Slot<T>>)
    ensures DataOf(a + b) == DataOf(a) + DataOf(b)
    decreases |b|
  {
    if b == [] {
      assert a + b == a;
    } else {
      DataOfConcat(a, b[..|b| - 1]);
      assert (a + b)[..|a + b| - 1] == a + b[..|b| - 1];
    }
  }

  lemma {:induction false} DataOfTagged<T>(from: seq<nat>, items: seq<Option<T>>)
    ensures DataOf(Tagged(from, items)) == items
    decreases |items|
  {
    if items != [] {
      var init := items[..|items| - 1];
      DataOfTagged(from, init);
      assert Tagged(from, items)[..|items| - 1] == Tagged(from, init);
    }
  }

  /** What a turn hears is its answer, if that is handed on. */
  lemma HeardIsHandedOn<T>(m: Merge<T>, answers: seq<Answer<T>>)
    requires WellFormed(m) && !IsPending(m)
    ensures HandedOn(answers + [AnswerOf(m)]) == HandedOn(answers) + DataOf(Heard(m))
  {
    assert (answers + [AnswerOf(m)])[..|answers|] == answers;
    assert Heard(m) != [] ==> Heard(m)[..0] == [];
  }

  lemma {:induction false} ReturnsAnswers<T>(inner: seq<seq<Event<T>>>, actions: seq<Action>)
    requires |inner| >= 1
    ensures var t := Exec(inner, actions);
            |t.from| == |t.returned| && DataOf(Out(t) + t.m.buf) == HandedOn(t.answers)
    decreases |actions|
  {
    hide Turn, Gather, DataOf, HandedOn, Heard, Out;
    if actions == [] {
      NothingReturned(inner);
      NoAnswers<T>();
    } else {
      var before := Exec(inner, actions[..|actions| - 1]);
      ReturnsAnswers(inner, actions[..|actions| - 1]);
      if actions[|actions| - 1].TurnAction? {
        TurnReturns(before);
        if IsPending(before.m) {
          assert Out(before) + before.m.buf + [] == Out(before) + before.m.buf;
        } else {
          HeardIsHandedOn(before.m, before.answers);
          DataOfConcat(Out(before) + before.m.buf, Heard(before.m));
        }
      } else {
        SameOut(before, actions[|actions| - 1]);
      }
    }
  }

  lemma NoAnswers<T>()
    ensures DataOf<T>([]) == [] && HandedOn<T>([]) == []
  {
  }

  /**
   * The output of every run, from the scripts of the sources alone. Answer number j of all comes from
   * source j % n and is its answer number j / n; and what the polls have returned, followed by what is
   * still buffered, is those answers in that order, without the ends of stream in the row state.
   */
  lemma OutputInOrder<T>(inner: seq<seq<Event<T>>>, actions: seq<Action>)
    requires |inner| >= 1
    ensures var t := Exec(inner, actions);
            && (forall j | 0 <= j < |t.answers| :: IsAnswer(t.answers[j], inner, j))
            && t.returned + DataOf(t.m.buf) == HandedOn(t.answers)
  {
    hide Exec, DataOf, HandedOn, Tagged, IsAnswer, Taken;
    var rounds := RunsInTurn(inner, actions);
    var t := Exec(inner, actions);
    ReturnsAnswers(inner, actions);
    DataOfConcat(Out(t), t.m.buf);
    DataOfTagged(t.from, t.returned);
  }
}
