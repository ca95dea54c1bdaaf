/**
 * The connection pool of conn_pool.rs: bounded idle queues per endpoint, shared by tasks that
 * acquire connections and give them back when they drop them.
 */
module Pool {
  import opened Bytes
  import opened Options

  datatype Conn = Conn(id: nat, endpoint: string)

  type Queues = map<string, seq<Conn>>

  /** The value of an idle queue after `put_conn`: a full queue lets the connection go. */
  function Pushed(q: seq<Conn>, size: nat, c: Conn): (r: seq<Conn>)
    ensures |q| <= size ==> |r| <= size
    ensures r == q || r == q + [c]
  {
    if |q| < size then q + [c] else q
  }

  // ----- Tasks ----------------------------------------------------------------------

  /**
   * Where a task is in `get_conn_with_endpoint_session`, split at every point where another
   * task may run, and counting its calls of `build_conn`.
   */
  datatype Task =
    | Starting(endpoint: string)
    | Missed(endpoint: string)                         // no idle connection
    | Absent(endpoint: string)                         // and no queue either
    | FirstBuild(endpoint: string)
    | Checking(endpoint: string, conn: Conn)           // ping an idle connection
    | Retrying(endpoint: string, i: nat, builds: nat)  // the loop over ten retries
    | Holding(conn: Conn, builds: nat)
    | Released
    | Failed(builds: nat)
    | Panicked                                         // no factory, or a queue of capacity zero

  datatype State = State(
    queues: Queues,
    size: nat,
    factories: set<string>,
    tasks: seq<Task>,
    nextId: nat
  )

  datatype Event =
    | SetFactory(endpoint: string)
    | Begin(endpoint: string)
    | Advance(task: nat, ok: bool)  // ok: the outcome of a ping or a build
    | Drop(task: nat)

  function Start(size: nat): State {
    State(map[], size, {}, [], 0)
  }

  /** One build: a fresh connection for the endpoint, or one failure more. */
  function Build(s: State, t: nat, endpoint: string, i: nat, builds: nat, ok: bool, first: bool): State
    requires t < |s.tasks|
  {
    if endpoint !in s.factories then s.(tasks := s.tasks[t := Panicked])
    else if ok then
      s.(tasks := s.tasks[t := Holding(Conn(s.nextId, endpoint), builds + 1)], nextId := s.nextId + 1)
    else if first then s.(tasks := s.tasks[t := Retrying(endpoint, 0, builds + 1)])
    else if i == 9 then s.(tasks := s.tasks[t := Failed(builds + 1)])
    else s.(tasks := s.tasks[t := Retrying(endpoint, i + 1, builds + 1)])
  }

  function Next(s: State, ev: Event): State {
    match ev
    case SetFactory(e) => s.(factories := s.factories + {e})
    case Begin(e) => s.(tasks := s.tasks + [Starting(e)])
    case Advance(t, ok) => if t < |s.tasks| then Step(s, t, ok) else s
    case Drop(t) =>
      if t < |s.tasks| && s.tasks[t].Holding? && s.tasks[t].conn.endpoint in s.queues then
        var c := s.tasks[t].conn;
        s.(queues := s.queues[c.endpoint := Pushed(s.queues[c.endpoint], s.size, c)],
           tasks := s.tasks[t := Released])
      else s
  }

  function Step(s: State, t: nat, ok: bool): State
    requires t < |s.tasks|
  {
    match s.tasks[t]
    case Starting(e) =>
      if e in s.queues && s.queues[e] != [] then
        s.(queues := s.queues[e := s.queues[e][1..]], tasks := s.tasks[t := Checking(e, s.queues[e][0])])
      else s.(tasks := s.tasks[t := Missed(e)])
    case Missed(e) =>
      s.(tasks := s.tasks[t := if e in s.queues then FirstBuild(e) else Absent(e)])
    case Absent(e) =>
      // replaces a queue that another task has put there in the meantime
      if s.size == 0 then s.(tasks := s.tasks[t := Panicked])
      else s.(queues := s.queues[e := []], tasks := s.tasks[t := FirstBuild(e)])
    case FirstBuild(e) => Build(s, t, e, 0, 0, ok, true)
    case Checking(e, c) =>
      s.(tasks := s.tasks[t := if ok then Holding(c, 0) else Retrying(e, 0, 0)])
    case Retrying(e, i, builds) => Build(s, t, e, i, builds, ok, false)
    case _ => s
  }

  function Run(size: nat, events: seq<Event>): State {
    if events == [] then Start(size) else Next(Run(size, events[..|events| - 1]), events[|events| - 1])
  }

  // ----- Invariant ------------------------------------------------------------------

  predicate HasConn(t: Task) {
    t.Checking? || t.Holding?
  }

  /** The endpoint a task works for, once its queue is sure to exist. */
  predicate NeedsQueue(t: Task, queues: Queues) {
    match t
    case FirstBuild(e) => e in queues
    case Checking(e, c) => e in queues && c.endpoint == e
    case Retrying(e, _, _) => e in queues
    case Holding(c, _) => c.endpoint in queues
    case _ => true
  }

  predicate FewBuilds(t: Task) {
    match t
    case Retrying(_, i, builds) => i <= 9 && builds <= i + 1
    case Holding(_, builds) => builds <= 11
    case Failed(builds) => builds <= 11
    case _ => true
  }

  /** The queues are bounded and hold connections of their own endpoint only. */
  ghost predicate QueuesOk(s: State) {
    forall e | e in s.queues ::
      |s.queues[e]| <= s.size && forall i | 0 <= i < |s.queues[e]| :: s.queues[e][i].endpoint == e
  }

  ghost predicate TasksOk(s: State) {
    forall t | 0 <= t < |s.tasks| :: NeedsQueue(s.tasks[t], s.queues) && FewBuilds(s.tasks[t])
  }

  /** Connection id is in slot i of the queue of e. */
  predicate Idle(s: State, e: string, i: nat, id: nat) {
    e in s.queues && i < |s.queues[e]| && s.queues[e][i].id == id
  }

  /** Task t has connection id in hand. */
  predicate InHand(s: State, t: nat, id: nat) {
    t < |s.tasks| && HasConn(s.tasks[t]) && s.tasks[t].conn.id == id
  }

  /** Every connection is in one place: one slot of one queue, or one task. */
  ghost predicate Unshared(s: State) {
    && (forall e, i: nat, id: nat | Idle(s, e, i, id) :: id < s.nextId)
    && (forall t: nat, id: nat | InHand(s, t, id) :: id < s.nextId)
    && (forall e, i: nat, f, j: nat, id: nat | Idle(s, e, i, id) && Idle(s, f, j, id) :: e == f && i == j)
    && (forall e, i: nat, t: nat, id: nat | Idle(s, e, i, id) :: !InHand(s, t, id))
    && (forall t: nat, u: nat, id: nat | InHand(s, t, id) && InHand(s, u, id) :: t == u)
  }

  ghost predicate Inv(s: State) {
    QueuesOk(s) && TasksOk(s) && Unshared(s)
  }

  lemma NextKeepsQueues(s: State, ev: Event)
    requires Inv(s)
    ensures QueuesOk(Next(s, ev)) && Next(s, ev).size == s.size
    ensures s.queues.Keys <= Next(s, ev).queues.Keys
  {
  }

  /** The task that steps. */
  lemma StepKeepsTask(s: State, t: nat, ok: bool)
    requires QueuesOk(s) && t < |s.tasks| && NeedsQueue(s.tasks[t], s.queues) && FewBuilds(s.tasks[t])
    ensures NeedsQueue(Step(s, t, ok).tasks[t], Step(s, t, ok).queues) && FewBuilds(Step(s, t, ok).tasks[t])
  {
  }

  lemma OthersStay(s: State, ev: Event)
    ensures |Next(s, ev).tasks| >= |s.tasks|
    ensures forall u: nat | u < |s.tasks| && !(ev.Advance? && ev.task == u) && !(ev.Drop? && ev.task == u) ::
              Next(s, ev).tasks[u] == s.tasks[u]
    ensures forall u: nat | |s.tasks| <= u < |Next(s, ev).tasks| :: Next(s, ev).tasks[u].Starting?
    ensures ev.Drop? && ev.task < |s.tasks| ==>
              Next(s, ev).tasks[ev.task].Released? || Next(s, ev).tasks[ev.task] == s.tasks[ev.task]
  {
  }

  /** Queues are never taken away, so what a task relied on stays. */
  lemma MoreQueues(t: Task, before: Queues, after: Queues)
    requires NeedsQueue(t, before) && before.Keys <= after.Keys
    ensures NeedsQueue(t, after)
  {
  }

  lemma NextKeepsTasks(s: State, ev: Event)
    requires Inv(s)
    ensures TasksOk(Next(s, ev))
  {
    hide Step, QueuesOk, Unshared;
    var r := Next(s, ev);
    NextKeepsQueues(s, ev);
    OthersStay(s, ev);
    forall u: nat | u < |r.tasks|
      ensures NeedsQueue(r.tasks[u], r.queues) && FewBuilds(r.tasks[u])
    {
      if u < |s.tasks| {
        assert NeedsQueue(s.tasks[u], s.queues) && FewBuilds(s.tasks[u]);
        if ev.Advance? && ev.task == u {
          StepKeepsTask(s, u, ev.ok);
        } else {
          MoreQueues(s.tasks[u], s.queues, r.queues);
        }
      }
    }
  }

  /** Nothing moves except that some connections may go. */
  lemma FewerPlaces(s: State, r: State)
    requires Unshared(s) && r.nextId >= s.nextId
    requires forall e, i: nat, id: nat | Idle(r, e, i, id) :: Idle(s, e, i, id)
    requires forall t: nat, id: nat | InHand(r, t, id) :: InHand(s, t, id)
    ensures Unshared(r)
  {
    hide Idle, InHand;
  }

  /** The head of a queue moves into the hand of a task. */
  lemma PopKeepsUnshared(s: State, r: State, t: nat, e: string)
    requires Unshared(s) && t < |s.tasks| && e in s.queues && s.queues[e] != []
    requires r == s.(queues := s.queues[e := s.queues[e][1..]], tasks := s.tasks[t := Checking(e, s.queues[e][0])])
    ensures Unshared(r)
  {
    var head := s.queues[e][0].id;
    assert Idle(s, e, 0, head);
    forall f, i: nat, id: nat | Idle(r, f, i, id)
      ensures Idle(s, f, if f == e then i + 1 else i, id) && id != head
    {
      assert Idle(s, f, if f == e then i + 1 else i, id);
    }
    forall u: nat, id: nat | InHand(r, u, id)
      ensures (u == t && id == head) || (u != t && InHand(s, u, id) && id != head)
    {
      assert !InHand(s, u, head);
    }
    hide Idle, InHand;
  }

  /** The connection in the hand of a task moves to the end of a queue, or goes. */
  lemma PushKeepsUnshared(s: State, r: State, t: nat)
    requires Unshared(s) && t < |s.tasks| && s.tasks[t].Holding? && s.tasks[t].conn.endpoint in s.queues
    requires r == Next(s, Drop(t))
    ensures Unshared(r)
  {
    var c := s.tasks[t].conn;
    assert InHand(s, t, c.id);
    forall f, i: nat, id: nat | Idle(r, f, i, id)
      ensures Idle(s, f, i, id) || (f == c.endpoint && i == |s.queues[f]| && id == c.id)
    {
    }
    forall u: nat, id: nat | InHand(r, u, id)
      ensures u != t && InHand(s, u, id)
    {
    }
    hide Idle, InHand;
  }

  /** A task gets a connection that was not there before. */
  lemma BuildKeepsUnshared(s: State, r: State, t: nat, c: Conn, builds: nat)
    requires Unshared(s) && t < |s.tasks| && c.id == s.nextId
    requires r == s.(tasks := s.tasks[t := Holding(c, builds)], nextId := s.nextId + 1)
    ensures Unshared(r)
  {
    forall f, i: nat, id: nat | Idle(r, f, i, id)
      ensures Idle(s, f, i, id)
    {
    }
    forall u: nat, id: nat | InHand(r, u, id)
      ensures (u == t && id == s.nextId) || (u != t && InHand(s, u, id))
    {
    }
    hide Idle, InHand;
  }

  lemma NextKeepsUnshared(s: State, ev: Event)
    requires Unshared(s)
    ensures Unshared(Next(s, ev))
  {
    var r := Next(s, ev);
    if ev.Drop? && r != s {
      PushKeepsUnshared(s, r, ev.task);
    } else if ev.Advance? && ev.task < |s.tasks| && s.tasks[ev.task].Starting? && r.queues != s.queues {
      PopKeepsUnshared(s, r, ev.task, s.tasks[ev.task].endpoint);
    } else if ev.Advance? && r.nextId != s.nextId {
      var h := r.tasks[ev.task];
      BuildKeepsUnshared(s, r, ev.task, h.conn, h.builds);
    } else {
      forall e, i: nat, id: nat | Idle(r, e, i, id)
        ensures Idle(s, e, i, id)
      {
      }
      forall t: nat, id: nat | InHand(r, t, id)
        ensures InHand(s, t, id)
      {
      }
      FewerPlaces(s, r);
    }
  }

  lemma {:induction false} RunKeepsInv(size: nat, events: seq<Event>)
    ensures Inv(Run(size, events)) && Run(size, events).size == size
    decreases |events|
  {
    hide Next, QueuesOk, TasksOk, Unshared;
    if events == [] {
      StartIsOk(size);
    } else {
      var s, ev := Run(size, events[..|events| - 1]), events[|events| - 1];
      RunKeepsInv(size, events[..|events| - 1]);
      NextKeepsQueues(s, ev);
      NextKeepsTasks(s, ev);
      NextKeepsUnshared(s, ev);
    }
  }

  lemma StartIsOk(size: nat)
    ensures Inv(Start(size))
  {
  }

  // ----- Safety ---------------------------------------------------------------------

  /** After every interleaving: bounded queues, each with its own idle connections only. */
  lemma QueuesAreBounded(size: nat, events: seq<Event>, e: string)
    requires e in Run(size, events).queues
    ensures var q := Run(size, events).queues[e];
            && |q| <= size
            && (forall i | 0 <= i < |q| :: q[i].endpoint == e)
            && (forall i, j | 0 <= i < j < |q| :: q[i].id != q[j].id)
            && forall i, t | 0 <= i < |q| && 0 <= t < |Run(size, events).tasks| ::
                 !InHand(Run(size, events), t, q[i].id)
  {
    RunKeepsInv(size, events);
    var s := Run(size, events);
    var q := s.queues[e];
    forall i, j | 0 <= i < j < |q|
      ensures q[i].id != q[j].id
    {
      assert Idle(s, e, i, q[i].id) && Idle(s, e, j, q[j].id);
    }
    forall i, t | 0 <= i < |q| && 0 <= t < |s.tasks|
      ensures !InHand(s, t, q[i].id)
    {
      assert Idle(s, e, i, q[i].id);
    }
  }

  /** Dropping a held connection always finds its queue: the task is released. */
  lemma DropFindsQueue(size: nat, events: seq<Event>, t: nat)
    requires t < |Run(size, events).tasks| && Run(size, events).tasks[t].Holding?
    ensures var s := Run(size, events);
            var c, r := s.tasks[t].conn, Next(s, Drop(t));
            && c.endpoint in s.queues
            && r.tasks[t].Released?
            && r.queues[c.endpoint] == if |s.queues[c.endpoint]| < size then s.queues[c.endpoint] + [c]
                                       else s.queues[c.endpoint]
  {
    RunKeepsInv(size, events);
    assert NeedsQueue(Run(size, events).tasks[t], Run(size, events).queues);
  }

  /** An acquisition never makes more than eleven builds and never runs past the retry loop. */
  lemma AcquisitionIsBounded(size: nat, events: seq<Event>, t: nat)
    requires t < |Run(size, events).tasks|
    ensures match Run(size, events).tasks[t]
            case Retrying(_, i, builds) => i < 10 && builds <= 10
            case Holding(_, builds) => builds <= 11
            case Failed(builds) => builds <= 11
            case _ => true
  {
    RunKeepsInv(size, events);
    assert FewBuilds(Run(size, events).tasks[t]);
  }

  /**
   * Two tasks miss the queue of an endpoint at the same time. The first makes it, builds a connection
   * and gives it back; the second then makes the queue anew, and the idle connection is gone.
   */
  lemma IdleConnectionIsLost(e: string) returns (before: seq<Event>, ev: Event)
    ensures Run(1, before).queues == map[e := [Conn(0, e)]]
    ensures Run(1, before + [ev]).queues == map[e := []]
  {
    hide Run;
    var c, f := Conn(0, e), {e};
    before := TwoMisses(e);
    before := Then(1, before, Advance(0, true));
    assert Run(1, before) == State(map[e := []], 1, f, [FirstBuild(e), Absent(e)], 0);
    before := Then(1, before, Advance(0, true));
    assert Run(1, before) == State(map[e := []], 1, f, [Holding(c, 1), Absent(e)], 1);
    before := Then(1, before, Drop(0));
    assert [] + [c] == [c];
    assert Run(1, before) == State(map[e := [c]], 1, f, [Released, Absent(e)], 1);
    ev := Advance(1, true);
    var after := Then(1, before, ev);
  }

  lemma TwoMisses(e: string) returns (events: seq<Event>)
    ensures Run(1, events) == State(map[], 1, {e}, [Absent(e), Absent(e)], 0)
  {
    hide Run;
    Nothing(1);
    events := Then(1, [], SetFactory(e));
    assert {} + {e} == {e};
    events := Then(1, events, Begin(e));
    events := Then(1, events, Begin(e));
    assert Run(1, events) == State(map[], 1, {e}, [Starting(e), Starting(e)], 0);
    events := Then(1, events, Advance(0, true));
    events := Then(1, events, Advance(1, true));
    assert Run(1, events) == State(map[], 1, {e}, [Missed(e), Missed(e)], 0);
    events := Then(1, events, Advance(0, true));
    events := Then(1, events, Advance(1, true));
  }

  lemma Nothing(size: nat)
    ensures Run(size, []) == State(map[], size, {}, [], 0)
  {
  }

  lemma Then(size: nat, events: seq<Event>, ev: Event) returns (more: seq<Event>)
    ensures more == events + [ev] && Run(size, more) == Next(Run(size, events), ev)
  {
    more := events + [ev];
    assert more[..|events|] == events;
  }

  /** Connection id is idle in the queue of e. */
  ghost predicate Waits(s: State, e: string, id: nat) {
    exists i: nat :: Idle(s, e, i, id)
  }

  /**
   * An idle connection leaves its queue if and only if a task takes it from the head, or a task that
   * found no queue for the endpoint before now makes one.
   */
  lemma IdleLeavesIff(s: State, ev: Event, e: string, id: nat)
    requires Inv(s) && Waits(s, e, id)
    ensures !Waits(Next(s, ev), e, id) <==>
            && ev.Advance? && ev.task < |s.tasks|
            && (s.tasks[ev.task] == Absent(e) || (s.tasks[ev.task] == Starting(e) && Idle(s, e, 0, id)))
  {
    hide Unshared, TasksOk;
    var r := Next(s, ev);
    var i: nat :| Idle(s, e, i, id);
    assert s.size > 0;
    if ev.Advance? && ev.task < |s.tasks| && s.tasks[ev.task] == Starting(e) {
      TakingFromHead(s, ev, e, i, id);
    } else if r.queues == s.queues || !(ev.Advance? && s.tasks[ev.task] == Absent(e)) {
      assert Idle(r, e, i, id);
    }
  }

  lemma TakingFromHead(s: State, ev: Event, e: string, i: nat, id: nat)
    requires Inv(s) && Idle(s, e, i, id) && ev.Advance? && ev.task < |s.tasks| && s.tasks[ev.task] == Starting(e)
    ensures Waits(Next(s, ev), e, id) <==> !Idle(s, e, 0, id)
  {
    var r := Next(s, ev);
    if Idle(s, e, 0, id) {
      forall j: nat
        ensures !Idle(r, e, j, id)
      {
        assert Idle(r, e, j, id) ==> Idle(s, e, j + 1, id);
      }
    } else {
      assert Idle(r, e, i - 1, id);
    }
  }

  // ----- One acquisition ------------------------------------------------------------

  predicate Done(t: Task) {
    t.Holding? || t.Released? || t.Failed? || t.Panicked?
  }

  /** The steps that a task has left at most. */
  function Left(t: Task): nat {
    match t
    case Starting(_) => 14
    case Missed(_) => 13
    case Absent(_) => 12
    case FirstBuild(_) => 11
    case Checking(_, _) => 11
    case Retrying(_, i, _) => if i < 10 then 10 - i else 0
    case _ => 0
  }

  /** The outcome a task meets next: of the ping, or of the build with its number. */
  function Luck(t: Task, pingOk: bool, buildOk: nat -> bool): bool {
    match t
    case Checking(_, _) => pingOk
    case Retrying(_, _, builds) => buildOk(builds)
    case _ => buildOk(0)
  }

  /** Task t runs to its end while no other task moves. */
  function Acquire(s: State, t: nat, pingOk: bool, buildOk: nat -> bool): (r: State)
    requires t < |s.tasks| && FewBuilds(s.tasks[t])
    ensures |r.tasks| == |s.tasks| && Done(r.tasks[t])
    decreases Left(s.tasks[t])
  {
    if Done(s.tasks[t]) then s
    else Acquire(Step(s, t, Luck(s.tasks[t], pingOk, buildOk)), t, pingOk, buildOk)
  }

  /** What an object sees of the state while one task runs. */
  function Alone(s: State, t: nat): State
    requires t < |s.tasks|
  {
    s.(tasks := [s.tasks[t]])
  }

  /** The outcome of a task that ran alone, put into a state with other tasks. */
  function Merged(s: State, t: nat, r: State): State
    requires t < |s.tasks| && r.tasks != []
  {
    r.(tasks := s.tasks[t := r.tasks[0]])
  }

  lemma BuildAlone(s: State, t: nat, e: string, i: nat, builds: nat, ok: bool, first: bool)
    requires t < |s.tasks|
    ensures Build(s, t, e, i, builds, ok, first) == Merged(s, t, Build(Alone(s, t), 0, e, i, builds, ok, first))
    ensures |Build(Alone(s, t), 0, e, i, builds, ok, first).tasks| == 1
  {
  }

  lemma StepAlone(s: State, t: nat, ok: bool)
    requires t < |s.tasks|
    ensures |Step(Alone(s, t), 0, ok).tasks| == 1
    ensures Step(s, t, ok) == Merged(s, t, Step(Alone(s, t), 0, ok))
    ensures Alone(Step(s, t, ok), t) == Step(Alone(s, t), 0, ok)
  {
    hide Build;
    match s.tasks[t] {
      case FirstBuild(e) => BuildAlone(s, t, e, 0, 0, ok, true);
      case Retrying(e, i, builds) => BuildAlone(s, t, e, i, builds, ok, false);
      case _ =>
    }
  }

  /** An acquisition does not depend on the other tasks and leaves them alone. */
  lemma {:induction false} AcquireAlone(s: State, t: nat, pingOk: bool, buildOk: nat -> bool)
    requires t < |s.tasks| && FewBuilds(s.tasks[t])
    ensures Acquire(s, t, pingOk, buildOk) == Merged(s, t, Acquire(Alone(s, t), 0, pingOk, buildOk))
    decreases Left(s.tasks[t])
  {
    if Done(s.tasks[t]) {
      assert s.tasks[t := s.tasks[t]] == s.tasks;
    } else {
      var ok := Luck(s.tasks[t], pingOk, buildOk);
      StepAlone(s, t, ok);
      StepIsSmaller(s, t, ok);
      hide Step, Left, FewBuilds;
      AcquireAlone(Step(s, t, ok), t, pingOk, buildOk);
    }
  }

  lemma StepIsSmaller(s: State, t: nat, ok: bool)
    requires t < |s.tasks| && FewBuilds(s.tasks[t]) && !Done(s.tasks[t])
    ensures |Step(s, t, ok).tasks| == |s.tasks|
    ensures FewBuilds(Step(s, t, ok).tasks[t]) && Left(Step(s, t, ok).tasks[t]) < Left(s.tasks[t])
  {
  }

  ghost predicate OnlyAdvances(events: seq<Event>, t: nat) {
    forall i | 0 <= i < |events| :: events[i].Advance? && events[i].task == t
  }

  lemma RunAdvance(size: nat, events: seq<Event>, t: nat, ok: bool)
    requires t < |Run(size, events).tasks|
    ensures Run(size, events + [Advance(t, ok)]) == Step(Run(size, events), t, ok)
  {
    hide Step;
    assert (events + [Advance(t, ok)])[..|events|] == events;
  }

  lemma OneMoreAdvance(rest: seq<Event>, t: nat, ok: bool)
    requires OnlyAdvances(rest, t)
    ensures OnlyAdvances([Advance(t, ok)] + rest, t)
  {
  }

  /** An acquisition is one of the interleavings: the one in which only its task moves. */
  lemma {:induction false} AcquireIsRun(size: nat, events: seq<Event>, t: nat, pingOk: bool, buildOk: nat -> bool)
    returns (more: seq<Event>)
    requires t < |Run(size, events).tasks| && FewBuilds(Run(size, events).tasks[t])
    ensures OnlyAdvances(more, t)
    ensures Run(size, events + more) == Acquire(Run(size, events), t, pingOk, buildOk)
    decreases Left(Run(size, events).tasks[t])
  {
    hide Run, Step, Left, FewBuilds, Luck, Done;
    var s := Run(size, events);
    if Done(s.tasks[t]) {
      more := [];
      assert events + [] == events;
    } else {
      var ok := Luck(s.tasks[t], pingOk, buildOk);
      StepIsSmaller(s, t, ok);
      RunAdvance(size, events, t, ok);
      var rest := AcquireIsRun(size, events + [Advance(t, ok)], t, pingOk, buildOk);
      hide OnlyAdvances;
      OneMoreAdvance(rest, t, ok);
      more := [Advance(t, ok)] + rest;
      assert events + more == events + [Advance(t, ok)] + rest;
    }
  }

  // ----- The object -----------------------------------------------------------------

  function Pow2(n: nat): (p: nat)
    ensures p >= 1
  {
    if n == 0 then 1 else 2 * Pow2(n - 1)
  }

  /** The seconds slept after a number of failed retries: 3 + 6 + 12 + ... */
  function Slept(retries: nat): nat {
    3 * (Pow2(retries) - 1)
  }

  lemma NoSleep()
    ensures Slept(0) == 0
  {
  }

  /** An acquisition: the connection if there is one, the builds made, the seconds slept. */
  datatype Acquired = Acquired(conn: Option<Conn>, builds: nat, slept: nat)

  /** The result of an acquisition is that of the task. */
  ghost predicate Matches(a: Outcome<Acquired>, t: Task) {
    match a
    case Panic => t.Panicked?
    case Ok(Acquired(None, builds, _)) => t == Failed(builds)
    case Ok(Acquired(Some(c), builds, _)) => t == Holding(c, builds)
  }

  class ConnPool {
    const size: nat
    var factories: set<string>
    var queues: Queues
    var nextId: nat

    ghost predicate Valid()
      reads this
    {
      forall e | e in queues ::
        |queues[e]| <= size && forall i | 0 <= i < |queues[e]| :: queues[e][i].endpoint == e
    }

    /** The state of the interleavings with a single task. */
    ghost function View(t: Task): State
      reads this
    {
      State(queues, size, factories, [t], nextId)
    }

    constructor (size: nat)
      ensures Valid() && State(queues, this.size, factories, [], nextId) == Start(size)
    {
      this.size, factories, queues, nextId := size, {}, map[], 0;
    }

    method SetFactory(endpoint: string)
      modifies this`factories
      ensures factories == old(factories) + {endpoint}
    {
      factories := factories + {endpoint};
    }

    /** `build_conn` of the factory, whose success is an input. */
    method BuildConn(endpoint: string, ok: bool) returns (r: Outcome<Option<Conn>>)
      modifies this`nextId
      ensures r.Panic? <==> endpoint !in factories
      ensures r.Ok? ==> r.value == if ok then Some(Conn(old(nextId), endpoint)) else None
      ensures nextId == old(nextId) + if r.Ok? && ok then 1 else 0
    {
      if endpoint !in factories {
        return Panic;
      }
      if !ok {
        return Ok(None);
      }
      r := Ok(Some(Conn(nextId, endpoint)));
      nextId := nextId + 1;
    }

    /** Take an idle connection, or make sure that there is a queue for one to come back to. */
    method TakeIdle(endpoint: string) returns (r: Outcome<Option<Conn>>)
      requires Valid()
      modifies this`queues
      ensures Valid()
      ensures r.Panic? <==> endpoint !in old(queues) && size == 0
      ensures r.Panic? ==> queues == old(queues)
      ensures r.Ok? && r.value.Some? ==>
                && endpoint in old(queues) && old(queues)[endpoint] != []
                && r.value.value == old(queues)[endpoint][0]
                && queues == old(queues)[endpoint := old(queues)[endpoint][1..]]
      ensures r.Ok? && r.value.None? ==>
                && (endpoint in old(queues) ==> old(queues)[endpoint] == [])
                && queues == old(queues)[endpoint := []]
    {
      if endpoint in queues && queues[endpoint] != [] {
        r := Ok(Some(queues[endpoint][0]));
        queues := queues[endpoint := queues[endpoint][1..]];
        return;
      }
      if endpoint !in queues {
        if size == 0 {
          return Panic;
        }
        queues := queues[endpoint := []];
      }
      assert queues == queues[endpoint := []];
      return Ok(None);
    }

    /**
     * `get_conn_with_endpoint` run without interruption. pingOk and buildOk are the outcomes of
     * the ping and of the builds in order. The result is an idle connection that answers, or the
     * first build that succeeds among at most eleven; the sleeps between retries double from 3.
     */
    method GetConnWithEndpoint(endpoint: string, pingOk: bool, buildOk: nat -> bool) returns (a: Outcome<Acquired>)
      requires Valid()
      modifies this`queues, this`nextId
      ensures Valid()
      ensures var r := Acquire(old(View(Starting(endpoint))), 0, pingOk, buildOk);
              queues == r.queues && nextId == r.nextId && Matches(a, r.tasks[0])
      ensures var idle := endpoint in old(queues) && old(queues)[endpoint] != [];
              var most := if idle then 10 else 11;
              && (a.Panic? <==> && !(idle && pingOk)
                                && (endpoint !in factories || (endpoint !in old(queues) && size == 0)))
              && (endpoint in old(queues) || size > 0 ==>
                    queues == old(queues)[endpoint := if idle then old(queues)[endpoint][1..] else []])
              && (idle && pingOk ==> a == Ok(Acquired(Some(old(queues)[endpoint][0]), 0, 0)))
              && (!(idle && pingOk) && a.Ok? ==>
                    FirstSuccess(a.value, endpoint, buildOk, 0, most, if idle then 0 else 1))
    {
      hide Slept, FirstSuccess, Acquire;
      NoSleep();
      if endpoint in queues && queues[endpoint] != [] {
        StartsWithPing(View(Starting(endpoint)), endpoint, pingOk, buildOk);
      } else {
        StartsWithMiss(View(Starting(endpoint)), endpoint, pingOk, buildOk);
      }
      var idle :- TakeIdle(endpoint);
      if idle.None? {
        FirstBuildStep(View(FirstBuild(endpoint)), endpoint, pingOk, buildOk);
        var c :- BuildConn(endpoint, buildOk(0));
        if c.Some? {
          FirstAtOnce(c.value, buildOk);
          return Ok(Acquired(c, 1, 0));
        }
        a := Retry(endpoint, pingOk, buildOk, 1);
        if a.Ok? {
          OneFailedBefore(a.value, endpoint, buildOk);
        }
      } else if pingOk {
        HoldingIsDone(View(Holding(idle.value, 0)), pingOk, buildOk);
        return Ok(Acquired(idle, 0, 0));
      } else {
        a := Retry(endpoint, pingOk, buildOk, 0);
      }
    }

    /** The retry loop: ten builds at most, with sleeps that double from three seconds. */
    method Retry(endpoint: string, pingOk: bool, buildOk: nat -> bool, first: nat) returns (a: Outcome<Acquired>)
      requires first <= 1
      modifies this`nextId
      ensures var r := Acquire(old(View(Retrying(endpoint, 0, first))), 0, pingOk, buildOk);
              queues == r.queues && nextId == r.nextId && Matches(a, r.tasks[0])
      ensures a.Panic? <==> endpoint !in factories
      ensures a.Ok? ==> FirstSuccess(a.value, endpoint, buildOk, first, first + 10, first)
    {
      hide Acquire;
      var interval: nat, slept: nat := 3, 0;
      for i := 0 to 10
        invariant i < 10 && forall j: nat | first <= j < first + i :: !buildOk(j)
        invariant interval == 3 * Pow2(i) && slept == Slept(i)
        invariant nextId == old(nextId) && (i > 0 ==> endpoint in factories)
        invariant Acquire(old(View(Retrying(endpoint, 0, first))), 0, pingOk, buildOk)
               == Acquire(View(Retrying(endpoint, i, first + i)), 0, pingOk, buildOk)
      {
        RetryStep(View(Retrying(endpoint, i, first + i)), endpoint, i, first + i, pingOk, buildOk);
        var c :- BuildConn(endpoint, buildOk(first + i));
        if c.Some? {
          return Ok(Acquired(c, first + i + 1, slept));
        }
        if i == 9 {
          return Ok(Acquired(None, first + i + 1, slept));
        }
        slept := slept + interval;
        interval := interval * 2;
      }
      assert false;
    }

    /** `drop` of a pooled connection, which panics without a queue to put it in. */
    method PutBack(c: Conn) returns (ok: bool)
      requires Valid()
      modifies this`queues
      ensures Valid() && (ok <==> c.endpoint in old(queues))
      ensures !ok ==> queues == old(queues)
      ensures ok ==> queues == old(queues)[c.endpoint := Pushed(old(queues)[c.endpoint], size, c)]
      ensures ok ==> forall builds :: View(Released) == Next(old(View(Holding(c, builds))), Drop(0))
    {
      if c.endpoint !in queues {
        return false;
      }
      if |queues[c.endpoint]| < size {
        queues := queues[c.endpoint := queues[c.endpoint] + [c]];
      } else {
        assert queues == queues[c.endpoint := queues[c.endpoint]];
      }
      return true;
    }
  }

  /**
   * Of the builds from number `from` on, all before the last one made failed; the last one gave the
   * connection, or the number of builds is the greatest allowed. The task slept between retries, the
   * first of which was build number `retry`.
   */
  ghost predicate FirstSuccess(a: Acquired, endpoint: string, buildOk: nat -> bool, from: nat, most: nat, retry: nat) {
    && from < a.builds <= most
    && (forall j: nat | from <= j < a.builds - 1 :: !buildOk(j))
    && (a.conn.Some? <==> buildOk(a.builds - 1))
    && (a.conn.Some? ==> a.conn.value.endpoint == endpoint)
    && (a.conn.None? ==> a.builds == most)
    && a.slept == Slept(if a.builds <= retry then 0 else a.builds - 1 - retry)
  }

  /** Three seconds, then twice as long each time: nine sleeps make 1533 seconds. */
  lemma SleepsDouble(n: nat)
    ensures Slept(0) == 0 && Slept(1) == 3 && Slept(9) == 1533
    ensures Slept(n + 2) - Slept(n + 1) == 2 * (Slept(n + 1) - Slept(n))
  {
    assert Pow2(1) == 2 * Pow2(0) && Pow2(2) == 2 * Pow2(1) && Pow2(3) == 2 * Pow2(2);
    assert Pow2(4) == 2 * Pow2(3) && Pow2(5) == 2 * Pow2(4) && Pow2(6) == 2 * Pow2(5);
    assert Pow2(7) == 2 * Pow2(6) && Pow2(8) == 2 * Pow2(7) && Pow2(9) == 2 * Pow2(8);
  }

  lemma FirstAtOnce(c: Conn, buildOk: nat -> bool)
    requires buildOk(0)
    ensures FirstSuccess(Acquired(Some(c), 1, 0), c.endpoint, buildOk, 0, 11, 1)
  {
  }

  lemma OneFailedBefore(a: Acquired, endpoint: string, buildOk: nat -> bool)
    requires !buildOk(0) && FirstSuccess(a, endpoint, buildOk, 1, 11, 1)
    ensures FirstSuccess(a, endpoint, buildOk, 0, 11, 1)
  {
    hide Slept;
  }

  lemma AcquireStep(s: State, task: Task, next: State, pingOk: bool, buildOk: nat -> bool)
    requires s.tasks == [task] && FewBuilds(task) && !Done(task)
    requires next == Step(s, 0, Luck(task, pingOk, buildOk))
    ensures next.tasks == [next.tasks[0]] && FewBuilds(next.tasks[0])
    ensures Acquire(s, 0, pingOk, buildOk) == Acquire(next, 0, pingOk, buildOk)
  {
    StepAlone(s, 0, Luck(task, pingOk, buildOk));
    StepIsSmaller(s, 0, Luck(task, pingOk, buildOk));
    hide Step, FewBuilds, Luck;
  }

  lemma HoldingIsDone(s: State, pingOk: bool, buildOk: nat -> bool)
    requires |s.tasks| == 1 && s.tasks[0].Holding? && FewBuilds(s.tasks[0])
    ensures Acquire(s, 0, pingOk, buildOk) == s
  {
  }

  /** A task that meets an idle connection pings it. */
  lemma StartsWithPing(s: State, e: string, pingOk: bool, buildOk: nat -> bool)
    requires s.tasks == [Starting(e)] && e in s.queues && s.queues[e] != []
    ensures var next := if pingOk then Holding(s.queues[e][0], 0) else Retrying(e, 0, 0);
            Acquire(s, 0, pingOk, buildOk)
            == Acquire(s.(queues := s.queues[e := s.queues[e][1..]], tasks := [next]), 0, pingOk, buildOk)
  {
    var s1 := Step(s, 0, buildOk(0));
    AcquireStep(s, Starting(e), s1, pingOk, buildOk);
    AcquireStep(s1, Checking(e, s.queues[e][0]), Step(s1, 0, pingOk), pingOk, buildOk);
    hide Acquire;
  }

  /** One that does not sees to it that there is a queue: it panics if a queue can hold nothing. */
  lemma StartsWithMiss(s: State, e: string, pingOk: bool, buildOk: nat -> bool)
    requires s.tasks == [Starting(e)] && (e in s.queues ==> s.queues[e] == [])
    ensures Acquire(s, 0, pingOk, buildOk) ==
            if e !in s.queues && s.size == 0 then s.(tasks := [Panicked])
            else Acquire(s.(queues := s.queues[e := []], tasks := [FirstBuild(e)]), 0, pingOk, buildOk)
  {
    var s1 := Step(s, 0, buildOk(0));
    var s2 := Step(s1, 0, buildOk(0));
    AcquireStep(s, Starting(e), s1, pingOk, buildOk);
    AcquireStep(s1, Missed(e), s2, pingOk, buildOk);
    if e in s.queues {
      assert s.queues[e := []] == s.queues;
    } else {
      var s3 := Step(s2, 0, buildOk(0));
      AcquireStep(s2, Absent(e), s3, pingOk, buildOk);
    }
  }

  /** The first build. */
  lemma FirstBuildStep(s: State, e: string, pingOk: bool, buildOk: nat -> bool)
    requires s.tasks == [FirstBuild(e)]
    ensures Acquire(s, 0, pingOk, buildOk) ==
            if e !in s.factories then s.(tasks := [Panicked])
            else if buildOk(0) then s.(tasks := [Holding(Conn(s.nextId, e), 1)], nextId := s.nextId + 1)
            else Acquire(s.(tasks := [Retrying(e, 0, 1)]), 0, pingOk, buildOk)
  {
    AcquireStep(s, FirstBuild(e), Step(s, 0, buildOk(0)), pingOk, buildOk);
  }

  lemma RetryStep(s: State, e: string, i: nat, builds: nat, pingOk: bool, buildOk: nat -> bool)
    requires s.tasks == [Retrying(e, i, builds)] && i <= 9 && builds <= i + 1
    ensures Acquire(s, 0, pingOk, buildOk) ==
            if e !in s.factories then s.(tasks := [Panicked])
            else if buildOk(builds) then s.(tasks := [Holding(Conn(s.nextId, e), builds + 1)], nextId := s.nextId + 1)
            else if i == 9 then s.(tasks := [Failed(builds + 1)])
            else Acquire(s.(tasks := [Retrying(e, i + 1, builds + 1)]), 0, pingOk, buildOk)
  {
    AcquireStep(s, Retrying(e, i, builds), Step(s, 0, buildOk(builds)), pingOk, buildOk);
  }
}
