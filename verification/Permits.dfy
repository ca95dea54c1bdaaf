/**
 * Every interleaving of client connections over the shared concurrency-control plugin.
 *
 * The plugin hands out permits; the connection loop of runtime/mysql gives them back. Each
 * grant is tagged with the number of the window (the count of semaphore replacements) it was
 * taken in, because a permit given back always goes to the current semaphore.
 */
module Permits {
  import opened Options
  import opened ConcurrencyControl

  datatype Grant = Grant(rule: nat, window: nat)

  /** A connection waits for a command, runs one (counted by a rule or not), or is gone. */
  datatype Conn = Idle | Running(grant: Option<Grant>) | Gone

  datatype System = System(
    rules: seq<Rule>,
    conns: seq<Conn>,
    now: nat,
    windows: seq<nat>,  // replacements of each rule's semaphore
    stale: seq<nat>,    // permits of earlier windows given back in the current one
    lost: seq<nat>      // permits of the current window that nobody will give back
  )

  datatype Step =
    | Connect
    | Statement(conn: nat, hits: set<nat>, breakerOk: bool, innerOk: bool)
    | Complete(conn: nat)
    | Abort(conn: nat)
    | Close(conn: nat)
    | Wait(time: nat)

  function Start(config: seq<Config>): System {
    var zeros := seq(|config|, _ => 0);
    System(seq(|config|, j requires 0 <= j < |config| => NewRule(config[j])), [], 0, zeros, zeros, zeros)
  }

  predicate WellFormed(s: System) {
    && |s.windows| == |s.stale| == |s.lost| == |s.rules|
    && forall c | 0 <= c < |s.conns| && s.conns[c].Running? && s.conns[c].grant.Some? ::
         s.conns[c].grant.value.rule < |s.rules|
  }

  // ----- Steps ----------------------------------------------------------------------

  /** `plugin_run` on an idle connection: the circuit breaker comes first. */
  function Execute(s: System, c: nat, hits: set<nat>, breakerOk: bool, innerOk: bool): System
    requires WellFormed(s) && c < |s.conns|
  {
    if !breakerOk then s.(conns := s.conns[c := Running(None)])
    else
      var d := Decide(s.rules, hits, s.now);
      var k := FirstMatch(hits, 0, |s.rules|);
      if d.rule.None? && k < |s.rules| then
        // the window of rule k has expired: a new semaphore, and an uncounted statement
        s.(rules := d.rules, conns := s.conns[c := Running(None)],
           windows := s.windows[k := s.windows[k] + 1], stale := s.stale[k := 0], lost := s.lost[k := 0])
      else if d.rule.Some? && d.allowed then
        if innerOk then
          s.(rules := d.rules, conns := s.conns[c := Running(Some(Grant(k, s.windows[k])))])
        else
          s.(rules := d.rules, conns := s.conns[c := Running(None)], lost := s.lost[k := s.lost[k] + 1])
      else
        s.(rules := d.rules, conns := s.conns[c := Running(None)])
  }

  /** The end of an iteration of `run`: give the permit back to the rule's current semaphore. */
  function Settle(s: System, c: nat): System
    requires WellFormed(s) && c < |s.conns| && s.conns[c].Running?
  {
    var idle := s.(conns := s.conns[c := Idle]);
    match s.conns[c].grant
    case None => idle
    case Some(g) =>
      idle.(rules := Released(s.rules, g.rule),
            stale := if g.window == s.windows[g.rule] then s.stale
                     else s.stale[g.rule := s.stale[g.rule] + 1])
  }

  /** `run` returns early because an error packet cannot be sent: the permit is not given back. */
  function Drop(s: System, c: nat): System
    requires WellFormed(s) && c < |s.conns| && s.conns[c].Running?
  {
    var gone := s.(conns := s.conns[c := Gone]);
    match s.conns[c].grant
    case None => gone
    case Some(g) =>
      gone.(lost := if g.window == s.windows[g.rule] then s.lost[g.rule := s.lost[g.rule] + 1]
                    else s.lost)
  }

  /** A step that is not enabled changes nothing, so every sequence of steps is a run. */
  function Next(s: System, step: Step): (r: System)
    requires WellFormed(s)
    ensures WellFormed(r) && |r.rules| == |s.rules|
  {
    match step
    case Connect => s.(conns := s.conns + [Idle])
    case Statement(c, hits, breakerOk, innerOk) =>
      if c < |s.conns| && s.conns[c].Idle? then Execute(s, c, hits, breakerOk, innerOk) else s
    case Complete(c) => if c < |s.conns| && s.conns[c].Running? then Settle(s, c) else s
    case Abort(c) => if c < |s.conns| && s.conns[c].Running? then Drop(s, c) else s
    case Close(c) => if c < |s.conns| && s.conns[c].Idle? then s.(conns := s.conns[c := Gone]) else s
    case Wait(time) => s.(now := s.now + time)
  }

  function Run(s: System, steps: seq<Step>): (r: System)
    requires WellFormed(s)
    ensures WellFormed(r) && |r.rules| == |s.rules|
    decreases |steps|
  {
    if steps == [] then s else Next(Run(s, steps[..|steps| - 1]), steps[|steps| - 1])
  }

  /** The rule index that the session of a connection keeps. */
  function RuleIdx(c: Conn): Option<nat> {
    if c.Running? && c.grant.Some? then Some(c.grant.value.rule) else None
  }

  /** A statement changes rules and session as `Session.PluginRun` does on an idle session. */
  lemma ExecuteIsPluginRun(s: System, c: nat, hits: set<nat>, breakerOk: bool, innerOk: bool)
    requires WellFormed(s) && c < |s.conns| && s.conns[c].Idle?
    ensures var r, d := Execute(s, c, hits, breakerOk, innerOk), Decide(s.rules, hits, s.now);
            && r.rules == (if breakerOk then d.rules else s.rules)
            && RuleIdx(r.conns[c]) == if breakerOk && d.allowed && innerOk then d.rule else RuleIdx(s.conns[c])
  {
  }

  /** Completion changes them as `Session.EndCommand` does. */
  lemma SettleIsEndCommand(s: System, c: nat)
    requires WellFormed(s) && c < |s.conns| && s.conns[c].Running?
    ensures var r, idx := Settle(s, c), RuleIdx(s.conns[c]);
            && r.rules == (if idx.Some? then Released(s.rules, idx.value) else s.rules)
            && RuleIdx(r.conns[c]).None?
  {
  }

  // ----- Counting grants ------------------------------------------------------------

  predicate Holds(c: Conn, k: nat, w: nat) {
    c.Running? && c.grant == Some(Grant(k, w))
  }

  /** Connections running a statement under a permit of rule k from window w. */
  function Held(conns: seq<Conn>, k: nat, w: nat): nat {
    if conns == [] then 0 else
      Held(conns[..|conns| - 1], k, w) + if Holds(conns[|conns| - 1], k, w) then 1 else 0
  }

  predicate HoldsEarlier(c: Conn, k: nat, w: nat) {
    c.Running? && c.grant.Some? && c.grant.value.rule == k && c.grant.value.window != w
  }

  /** Connections still running under a permit of rule k from a window other than w. */
  function Earlier(conns: seq<Conn>, k: nat, w: nat): nat {
    if conns == [] then 0 else
      Earlier(conns[..|conns| - 1], k, w) + if HoldsEarlier(conns[|conns| - 1], k, w) then 1 else 0
  }

  function Bit(b: bool): nat {
    if b then 1 else 0
  }

  lemma {:induction false} HeldUpdate(conns: seq<Conn>, c: nat, x: Conn, k: nat, w: nat)
    requires c < |conns|
    ensures Held(conns[c := x], k, w) ==
            Held(conns, k, w) - Bit(Holds(conns[c], k, w)) + Bit(Holds(x, k, w))
    ensures Earlier(conns[c := x], k, w) ==
            Earlier(conns, k, w) - Bit(HoldsEarlier(conns[c], k, w)) + Bit(HoldsEarlier(x, k, w))
    decreases |conns|
  {
    var n := |conns| - 1;
    if c == n {
      assert conns[c := x][..n] == conns[..n];
    } else {
      assert conns[c := x][..n] == conns[..n][c := x];
      HeldUpdate(conns[..n], c, x, k, w);
    }
  }

  lemma HeldAppend(conns: seq<Conn>, k: nat, w: nat)
    ensures Held(conns + [Idle], k, w) == Held(conns, k, w)
    ensures Earlier(conns + [Idle], k, w) == Earlier(conns, k, w)
  {
    assert (conns + [Idle])[..|conns|] == conns;
  }

  // ----- Accounting -----------------------------------------------------------------

  /**
   * Permits on hand, permits of the current window in use and permits of it lost for good add
   * up to the configured number plus the permits of earlier windows given back by mistake.
   */
  ghost predicate Balanced(s: System, k: nat)
    requires WellFormed(s) && k < |s.rules|
  {
    s.rules[k].available + Held(s.conns, k, s.windows[k]) + s.lost[k]
    == s.rules[k].maxConcurrency + s.stale[k]
  }

  /** Grants are of windows that have been; before the first replacement nothing is stale. */
  ghost predicate Dated(s: System)
    requires WellFormed(s)
  {
    && (forall c | 0 <= c < |s.conns| && s.conns[c].Running? && s.conns[c].grant.Some? ::
          s.conns[c].grant.value.window <= s.windows[s.conns[c].grant.value.rule])
    && forall k | 0 <= k < |s.rules| && s.windows[k] == 0 :: s.stale[k] == 0
  }

  ghost predicate Inv(s: System) {
    WellFormed(s) && Dated(s) && forall k | 0 <= k < |s.rules| :: Balanced(s, k)
  }

  lemma {:induction false} NothingOfLaterWindow(conns: seq<Conn>, k: nat, w: nat)
    requires forall c | 0 <= c < |conns| && conns[c].Running? && conns[c].grant.Some? ::
               conns[c].grant.value.rule == k ==> conns[c].grant.value.window < w
    ensures Held(conns, k, w) == 0
    decreases |conns|
  {
    if conns != [] {
      NothingOfLaterWindow(conns[..|conns| - 1], k, w);
    }
  }

  /** The rules other than the first match are untouched by a statement, and that one is settled. */
  lemma StatementKeepsBalance(s: System, c: nat, hits: set<nat>, breakerOk: bool, innerOk: bool, k: nat)
    requires Inv(s) && k < |s.rules| && c < |s.conns| && s.conns[c].Idle?
    ensures Balanced(Execute(s, c, hits, breakerOk, innerOk), k)
  {
    var r := Execute(s, c, hits, breakerOk, innerOk);
    assert Balanced(s, k);
    HeldUpdate(s.conns, c, r.conns[c], k, s.windows[k]);
    hide Held;
    if r.windows[k] != s.windows[k] {
      NothingOfLaterWindow(r.conns, k, r.windows[k]);
    }
  }

  lemma SettleKeepsBalance(s: System, c: nat, k: nat)
    requires Inv(s) && k < |s.rules| && c < |s.conns| && s.conns[c].Running?
    ensures Balanced(Settle(s, c), k) && Balanced(Drop(s, c), k)
  {
    assert Balanced(s, k);
    HeldUpdate(s.conns, c, Idle, k, s.windows[k]);
    HeldUpdate(s.conns, c, Gone, k, s.windows[k]);
    hide Held;
  }

  lemma StepKeepsBalance(s: System, step: Step, k: nat)
    requires Inv(s) && k < |s.rules|
    ensures Balanced(Next(s, step), k)
  {
    hide Execute, Settle, Drop, Held;
    assert Balanced(s, k);
    match step {
      case Connect => HeldAppend(s.conns, k, s.windows[k]);
      case Statement(c, hits, breakerOk, innerOk) =>
        if c < |s.conns| && s.conns[c].Idle? {
          StatementKeepsBalance(s, c, hits, breakerOk, innerOk, k);
        }
      case Complete(c) =>
        if c < |s.conns| && s.conns[c].Running? {
          SettleKeepsBalance(s, c, k);
        }
      case Abort(c) =>
        if c < |s.conns| && s.conns[c].Running? {
          SettleKeepsBalance(s, c, k);
        }
      case Close(c) =>
        if c < |s.conns| {
          HeldUpdate(s.conns, c, Gone, k, s.windows[k]);
        }
      case Wait(_) =>
    }
  }

  lemma StepKeepsDates(s: System, step: Step)
    requires WellFormed(s) && Dated(s)
    ensures Dated(Next(s, step))
  {
    if step.Statement? && step.conn < |s.conns| {
      assert forall c | 0 <= c < |s.conns| && c != step.conn :: Next(s, step).conns[c] == s.conns[c];
    }
  }

  lemma WindowsGrow(s: System, step: Step, k: nat)
    requires WellFormed(s) && k < |s.rules|
    ensures Next(s, step).windows[k] >= s.windows[k]
    ensures Next(s, step).rules[k].maxConcurrency == s.rules[k].maxConcurrency
  {
  }

  lemma StepKeepsInv(s: System, step: Step)
    requires Inv(s)
    ensures Inv(Next(s, step))
  {
    hide Next, Balanced, Dated;
    StepKeepsDates(s, step);
    forall k | 0 <= k < |s.rules|
      ensures Balanced(Next(s, step), k)
    {
      StepKeepsBalance(s, step, k);
    }
  }

  lemma {:induction false} RunKeepsInv(s: System, steps: seq<Step>)
    requires Inv(s)
    ensures Inv(Run(s, steps))
    ensures forall k | 0 <= k < |s.rules| ::
              && Run(s, steps).windows[k] >= s.windows[k]
              && Run(s, steps).rules[k].maxConcurrency == s.rules[k].maxConcurrency
    decreases |steps|
  {
    hide Next, Balanced, Dated;
    if steps != [] {
      var before := Run(s, steps[..|steps| - 1]);
      RunKeepsInv(s, steps[..|steps| - 1]);
      StepKeepsInv(before, steps[|steps| - 1]);
      forall k | 0 <= k < |s.rules|
        ensures Next(before, steps[|steps| - 1]).windows[k] >= s.windows[k]
        ensures Next(before, steps[|steps| - 1]).rules[k].maxConcurrency == s.rules[k].maxConcurrency
      {
        WindowsGrow(before, steps[|steps| - 1], k);
      }
    }
  }

  /** The accounting identity, for every rule, after every run from every configuration. */
  lemma PermitsAddUp(config: seq<Config>, steps: seq<Step>, k: nat)
    requires k < |config|
    ensures var s := Run(Start(config), steps);
            && s.rules[k].maxConcurrency == config[k].maxConcurrency
            && s.rules[k].available + Held(s.conns, k, s.windows[k]) + s.lost[k]
               == config[k].maxConcurrency + s.stale[k]
  {
    assert Inv(Start(config));
    RunKeepsInv(Start(config), steps);
    assert Balanced(Run(Start(config), steps), k);
  }

  lemma {:induction false} NothingEarlier(conns: seq<Conn>, k: nat)
    requires forall c | 0 <= c < |conns| && conns[c].Running? && conns[c].grant.Some? ::
               conns[c].grant.value.rule == k ==> conns[c].grant.value.window == 0
    ensures Earlier(conns, k, 0) == 0
    decreases |conns|
  {
    if conns != [] {
      NothingEarlier(conns[..|conns| - 1], k);
    }
  }

  /** Until a rule's semaphore is first replaced, its limit holds for all statements in flight. */
  lemma LimitHoldsInFirstWindow(config: seq<Config>, steps: seq<Step>, k: nat)
    requires k < |config| && Run(Start(config), steps).windows[k] == 0
    ensures var s := Run(Start(config), steps);
            Held(s.conns, k, 0) + Earlier(s.conns, k, 0) <= config[k].maxConcurrency
  {
    assert Inv(Start(config));
    RunKeepsInv(Start(config), steps);
    PermitsAddUp(config, steps, k);
    NothingEarlier(Run(Start(config), steps).conns, k);
  }

  // ----- Later windows --------------------------------------------------------------

  /** Permits by which the current window of rule k can be overdrawn. */
  ghost function Surplus(s: System, k: nat): int
    requires WellFormed(s) && k < |s.rules|
  {
    s.stale[k] + Earlier(s.conns, k, s.windows[k]) - s.lost[k]
  }

  ghost function InUse(s: System, k: nat): nat
    requires WellFormed(s) && k < |s.rules|
  {
    Held(s.conns, k, s.windows[k])
  }

  /** All statements in flight under a permit of rule k, of this window or an earlier one. */
  ghost function InFlight(s: System, k: nat): nat
    requires WellFormed(s) && k < |s.rules|
  {
    InUse(s, k) + Earlier(s.conns, k, s.windows[k])
  }

  /** Connections whose session keeps the index of rule k. */
  function Counted(conns: seq<Conn>, k: nat): nat {
    if conns == [] then 0 else
      Counted(conns[..|conns| - 1], k) + if RuleIdx(conns[|conns| - 1]) == Some(k) then 1 else 0
  }

  lemma {:induction false} CountedIsHeldOrEarlier(conns: seq<Conn>, k: nat, w: nat)
    ensures Counted(conns, k) == Held(conns, k, w) + Earlier(conns, k, w)
    decreases |conns|
  {
    if conns != [] {
      CountedIsHeldOrEarlier(conns[..|conns| - 1], k, w);
    }
  }

  /** The surplus is visible: permits on hand and statements in flight beyond the limit. */
  lemma SurplusIsVisible(s: System, k: nat)
    requires Inv(s) && k < |s.rules|
    ensures Surplus(s, k) == s.rules[k].available + InFlight(s, k) - s.rules[k].maxConcurrency
  {
    assert Balanced(s, k);
  }

  lemma StepSurplus(s: System, step: Step, k: nat)
    requires WellFormed(s) && k < |s.rules| && Next(s, step).windows[k] == s.windows[k]
    ensures Surplus(Next(s, step), k) <= Surplus(s, k)
  {
    var r := Next(s, step);
    match step {
      case Connect => HeldAppend(s.conns, k, s.windows[k]);
      case Statement(c, _, _, _) =>
        if c < |s.conns| {
          HeldUpdate(s.conns, c, r.conns[c], k, s.windows[k]);
        }
      case Complete(c) =>
        if c < |s.conns| {
          HeldUpdate(s.conns, c, r.conns[c], k, s.windows[k]);
        }
      case Abort(c) =>
        if c < |s.conns| {
          HeldUpdate(s.conns, c, r.conns[c], k, s.windows[k]);
        }
      case Close(c) =>
        if c < |s.conns| {
          HeldUpdate(s.conns, c, r.conns[c], k, s.windows[k]);
        }
      case Wait(_) =>
    }
  }

  lemma {:induction false} RunSurplus(s: System, steps: seq<Step>, k: nat)
    requires Inv(s) && k < |s.rules| && Run(s, steps).windows[k] == s.windows[k]
    ensures Surplus(Run(s, steps), k) <= Surplus(s, k)
    decreases |steps|
  {
    hide Next, Surplus, Balanced, Dated;
    if steps != [] {
      var before := Run(s, steps[..|steps| - 1]);
      RunKeepsInv(s, steps[..|steps| - 1]);
      WindowsGrow(before, steps[|steps| - 1], k);
      RunSurplus(s, steps[..|steps| - 1], k);
      StepSurplus(before, steps[|steps| - 1], k);
    }
  }

  lemma {:induction false} RunConcat(s: System, a: seq<Step>, b: seq<Step>)
    requires WellFormed(s)
    ensures Run(s, a + b) == Run(Run(s, a), b)
    decreases |b|
  {
    hide Next, WellFormed;
    if b == [] {
      assert a + b == a;
    } else {
      RunConcat(s, a, b[..|b| - 1]);
      assert (a + b)[..|a + b| - 1] == a + b[..|b| - 1];
    }
  }

  lemma {:induction false} FindEarlier(conns: seq<Conn>, k: nat, w: nat) returns (c: nat)
    requires Earlier(conns, k, w) > 0
    ensures c < |conns| && HoldsEarlier(conns[c], k, w)
    decreases |conns|
  {
    c := |conns| - 1;
    if !HoldsEarlier(conns[c], k, w) {
      c := FindEarlier(conns[..c], k, w);
    }
  }

  /** All statements of earlier windows complete: their permits move to the current window. */
  lemma {:induction false} Drain(s: System, k: nat) returns (steps: seq<Step>)
    requires Inv(s) && k < |s.rules| && !Expired(s.rules[k], s.now)
    ensures var r := Run(s, steps);
            && Inv(r) && r.windows[k] == s.windows[k] && !Expired(r.rules[k], r.now)
            && r.rules[k].maxConcurrency == s.rules[k].maxConcurrency
            && Surplus(r, k) == Surplus(s, k) && Earlier(r.conns, k, r.windows[k]) == 0
    decreases Earlier(s.conns, k, s.windows[k])
  {
    steps := [];
    if Earlier(s.conns, k, s.windows[k]) > 0 {
      var c := FindEarlier(s.conns, k, s.windows[k]);
      var next := Next(s, Complete(c));
      StepKeepsInv(s, Complete(c));
      HeldUpdate(s.conns, c, Idle, k, s.windows[k]);
      hide Inv;
      var rest := Drain(next, k);
      assert Run(s, [Complete(c)]) == Next(Run(s, []), Complete(c));
      RunConcat(s, [Complete(c)], rest);
      steps := [Complete(c)] + rest;
    }
  }

  /** The last step lets in a statement under a permit of the current window. */
  ghost predicate Rises(s: System, k: nat, steps: seq<Step>)
    requires WellFormed(s) && k < |s.rules|
  {
    && steps != []
    && Run(s, steps).windows[k] == s.windows[k] == Run(s, steps[..|steps| - 1]).windows[k]
    && InUse(Run(s, steps), k) > InUse(Run(s, steps[..|steps| - 1]), k)
  }

  /** New connections take every permit on hand. */
  lemma {:induction false} Fill(s: System, k: nat) returns (steps: seq<Step>)
    requires Inv(s) && k < |s.rules| && !Expired(s.rules[k], s.now) && s.rules[k].available > 0
    ensures Rises(s, k, steps)
    ensures InUse(Run(s, steps), k) == InUse(s, k) + s.rules[k].available
    decreases s.rules[k].available
  {
    TakePermit(s, k);
    hide Balanced, Dated, Run, Expired, InUse, InFlight, Rises;
    steps := [Connect, Statement(|s.conns|, {k}, true, true)];
    if s.rules[k].available > 1 {
      var grab := steps;
      var rest := Fill(Run(s, grab), k);
      steps := grab + rest;
      RisesAfter(s, k, grab, rest);
    }
  }

  lemma RisesAfter(s: System, k: nat, a: seq<Step>, b: seq<Step>)
    requires WellFormed(s) && k < |s.rules| && Run(s, a).windows[k] == s.windows[k] && Rises(Run(s, a), k, b)
    ensures Run(s, a + b) == Run(Run(s, a), b) && Rises(s, k, a + b)
  {
    hide Run, InUse, WellFormed;
    RunConcat(s, a, b);
    RunConcat(s, a, b[..|b| - 1]);
    assert (a + b)[..|a + b| - 1] == a + b[..|b| - 1];
  }

  /** A fresh connection takes one permit of an open window. */
  lemma TakePermit(s: System, k: nat)
    requires Inv(s) && k < |s.rules| && !Expired(s.rules[k], s.now) && s.rules[k].available > 0
    ensures var r := Run(s, [Connect, Statement(|s.conns|, {k}, true, true)]);
            && Inv(r) && r.windows[k] == s.windows[k] && !Expired(r.rules[k], r.now)
            && r.rules[k].available == s.rules[k].available - 1
            && InUse(r, k) == InUse(s, k) + 1 && InFlight(r, k) == InFlight(s, k) + 1
            && Started(s, r, k)
    ensures Rises(s, k, [Connect, Statement(|s.conns|, {k}, true, true)])
  {
    hide Balanced, Dated, WellFormed, InUse, InFlight, Run, Next, Expired, Execute, FirstMatch, Decide;
    var statement := Statement(|s.conns|, {k}, true, true);
    var mid := OneStep(s, [], Connect);
    var r := OneStep(s, [] + [Connect], statement);
    assert [] + [Connect] + [statement] == [Connect, statement];
    assert [Connect, statement][..1] == [] + [Connect];
    Connected(s, k);
    StepKeepsInv(mid, statement);
    Granted(mid, |s.conns|, k);
  }

  lemma Connected(s: System, k: nat)
    requires Inv(s) && k < |s.rules|
    ensures var r := Next(s, Connect);
            && Inv(r) && r == s.(conns := r.conns) && |r.conns| == |s.conns| + 1 && r.conns[|s.conns|].Idle?
            && InUse(r, k) == InUse(s, k) && InFlight(r, k) == InFlight(s, k)
            && forall hits :: Next(r, Statement(|s.conns|, hits, true, true)) == Execute(r, |s.conns|, hits, true, true)
  {
    StepKeepsInv(s, Connect);
    HeldAppend(s.conns, k, s.windows[k]);
    hide Inv, Held, Execute;
  }

  /** The window of rule k is started, now unless it was before. */
  predicate Started(s: System, r: System, k: nat)
    requires k < |s.rules| == |r.rules|
  {
    && r.now == s.now && r.rules[k].duration == s.rules[k].duration
    && r.rules[k].startAt == if s.rules[k].startAt.None? then Some(s.now) else s.rules[k].startAt
  }

  lemma Granted(s: System, c: nat, k: nat)
    requires WellFormed(s) && k < |s.rules| && c < |s.conns| && s.conns[c].Idle?
    requires !Expired(s.rules[k], s.now) && s.rules[k].available > 0
    ensures var r := Execute(s, c, {k}, true, true);
            && r.windows[k] == s.windows[k] && r.now == s.now && !Expired(r.rules[k], r.now)
            && r.rules[k].available == s.rules[k].available - 1
            && InUse(r, k) == InUse(s, k) + 1 && InFlight(r, k) == InFlight(s, k) + 1
            && Started(s, r, k)
  {
    assert FirstMatch({k}, 0, |s.rules|) == k;
    HeldUpdate(s.conns, c, Running(Some(Grant(k, s.windows[k]))), k, s.windows[k]);
    hide Held, Earlier;
  }

  /** An expired window admits nothing more: the next match replaces it. */
  lemma ExpiredStep(s: System, step: Step, k: nat)
    requires WellFormed(s) && k < |s.rules| && Expired(s.rules[k], s.now)
    requires Next(s, step).windows[k] == s.windows[k]
    ensures Expired(Next(s, step).rules[k], Next(s, step).now)
    ensures InUse(Next(s, step), k) <= InUse(s, k)
  {
    var r := Next(s, step);
    if step.Connect? {
      HeldAppend(s.conns, k, s.windows[k]);
    } else if !step.Wait? && step.conn < |s.conns| {
      HeldUpdate(s.conns, step.conn, r.conns[step.conn], k, s.windows[k]);
    }
    hide Held;
  }

  lemma {:induction false} ExpiredRun(s: System, steps: seq<Step>, k: nat)
    requires Inv(s) && k < |s.rules| && Expired(s.rules[k], s.now)
    requires Run(s, steps).windows[k] == s.windows[k]
    ensures Expired(Run(s, steps).rules[k], Run(s, steps).now)
    ensures InUse(Run(s, steps), k) <= InUse(s, k)
    decreases |steps|
  {
    hide Next, InUse, Balanced, Dated, Expired;
    if steps != [] {
      var before := Run(s, steps[..|steps| - 1]);
      RunKeepsInv(s, steps[..|steps| - 1]);
      WindowsGrow(before, steps[|steps| - 1], k);
      ExpiredRun(s, steps[..|steps| - 1], k);
      ExpiredStep(before, steps[|steps| - 1], k);
    }
  }

  /** Within the current window a statement is let in beyond the rule's limit. */
  ghost predicate Admits(s: System, k: nat, steps: seq<Step>)
    requires WellFormed(s) && k < |s.rules|
  {
    Rises(s, k, steps) && InUse(Run(s, steps), k) > s.rules[k].maxConcurrency
  }

  /**
   * Some continuation lets a statement in beyond the limit of a rule, within the rule's current
   * window, if and only if the window is open and the permits on hand and the sessions that keep
   * the rule's index together are more than the limit. Right after a replacement that means: if and only if an
   * earlier statement is still running.
   */
  lemma LimitCanBeExceededIff(s: System, k: nat)
    requires Inv(s) && k < |s.rules|
    ensures (exists steps :: Admits(s, k, steps)) <==>
            && !Expired(s.rules[k], s.now)
            && s.rules[k].available + Counted(s.conns, k) > s.rules[k].maxConcurrency
  {
    CountedIsHeldOrEarlier(s.conns, k, s.windows[k]);
    hide Balanced, Dated, Expired, Counted, Held, Earlier, Surplus, Admits;
    SurplusIsVisible(s, k);
    if steps :| Admits(s, k, steps) {
      AdmissionNeedsSurplus(s, k, steps);
    }
    if !Expired(s.rules[k], s.now) && Surplus(s, k) > 0 {
      var steps := Overdraw(s, k);
    }
  }

  lemma AdmissionNeedsSurplus(s: System, k: nat, steps: seq<Step>)
    requires Inv(s) && k < |s.rules| && Admits(s, k, steps)
    ensures !Expired(s.rules[k], s.now) && Surplus(s, k) > 0
  {
    var before, last := steps[..|steps| - 1], steps[|steps| - 1];
    RunKeepsInv(s, before);
    RunKeepsInv(s, steps);
    RunSurplus(s, steps, k);
    assert Balanced(Run(s, steps), k);
    hide Inv, Next, InUse, Expired;
    if Expired(s.rules[k], s.now) {
      ExpiredRun(s, before, k);
      ExpiredStep(Run(s, before), last, k);
    }
  }

  lemma Overdraw(s: System, k: nat) returns (steps: seq<Step>)
    requires Inv(s) && k < |s.rules| && !Expired(s.rules[k], s.now) && Surplus(s, k) > 0
    ensures Admits(s, k, steps)
  {
    var a := Drain(s, k);
    var mid := Run(s, a);
    SurplusIsVisible(mid, k);
    hide Balanced, Dated, Expired, Surplus, InUse, Run, Rises;
    var b := Refill(mid, k);
    steps := a + b;
    RisesAfter(s, k, a, b);
  }

  /** With nothing on hand a statement first completes, and its permit is taken again. */
  lemma Refill(s: System, k: nat) returns (steps: seq<Step>)
    requires Inv(s) && k < |s.rules| && !Expired(s.rules[k], s.now)
    requires s.rules[k].available + InUse(s, k) > s.rules[k].maxConcurrency
    ensures Admits(s, k, steps)
  {
    if s.rules[k].available > 0 {
      steps := Fill(s, k);
    } else {
      var c := FindHolder(s.conns, k, s.windows[k]);
      var next := OneStep(s, [], Complete(c));
      assert [] + [Complete(c)] == [Complete(c)];
      StepKeepsInv(s, Complete(c));
      HeldUpdate(s.conns, c, Idle, k, s.windows[k]);
      assert next.rules[k].available == 1;
      hide Balanced, Dated, Run, Held, Rises;
      var rest := Fill(next, k);
      steps := [Complete(c)] + rest;
      RisesAfter(s, k, [Complete(c)], rest);
    }
  }

  lemma {:induction false} FindHolder(conns: seq<Conn>, k: nat, w: nat) returns (c: nat)
    requires Held(conns, k, w) > 0
    ensures c < |conns| && Holds(conns[c], k, w)
    decreases |conns|
  {
    c := |conns| - 1;
    if !Holds(conns[c], k, w) {
      c := FindHolder(conns[..c], k, w);
    }
  }

  // ----- Whole runs -----------------------------------------------------------------

  lemma OneStep(s: System, steps: seq<Step>, step: Step) returns (r: System)
    requires WellFormed(s)
    ensures r == Next(Run(s, steps), step) == Run(s, steps + [step])
    ensures steps == [] ==> Run(s, steps) == s
  {
    r := Next(Run(s, steps), step);
    assert (steps + [step])[..|steps|] == steps;
  }

  lemma {:induction false} AllBecomeEarlier(conns: seq<Conn>, k: nat, w: nat)
    requires forall c | 0 <= c < |conns| && conns[c].Running? && conns[c].grant.Some? ::
               conns[c].grant.value.rule == k ==> conns[c].grant.value.window <= w
    ensures Earlier(conns, k, w + 1) == Held(conns, k, w) + Earlier(conns, k, w)
    decreases |conns|
  {
    if conns != [] {
      AllBecomeEarlier(conns[..|conns| - 1], k, w);
    }
  }

  /** The first match after the window has run out replaces the semaphore; nothing in flight is forgotten. */
  lemma Replaced(s: System, c: nat, k: nat)
    requires Inv(s) && k < |s.rules| && c < |s.conns| && s.conns[c].Idle? && Expired(s.rules[k], s.now)
    ensures var r := Execute(s, c, {k}, true, true);
            && r.rules[k].startAt.None? && r.rules[k].available == s.rules[k].maxConcurrency
            && InFlight(r, k) >= InFlight(s, k)
  {
    assert FirstMatch({k}, 0, |s.rules|) == k;
    var w, conns := s.windows[k], s.conns[c := Running(None)];
    HeldUpdate(s.conns, c, Running(None), k, w);
    AllBecomeEarlier(conns, k, w);
    hide Held, Earlier;
  }

  ghost predicate Ready(s: System, k: nat) {
    && Inv(s) && k < |s.rules| && s.rules[k].available == s.rules[k].maxConcurrency
    && s.rules[k].startAt.None?
  }

  /** A statement outlives its window: all permits are on hand again, and one more is in flight. */
  lemma Outlive(s: System, k: nat) returns (steps: seq<Step>)
    requires Inv(s) && k < |s.rules|
    requires s.rules[k].startAt.Some? && s.rules[k].startAt.value <= s.now
    ensures var r := Run(s, steps);
            && Ready(r, k) && r.rules[k].maxConcurrency == s.rules[k].maxConcurrency
            && InFlight(r, k) >= InFlight(s, k)
  {
    var pause, statement := Wait(s.rules[k].duration + 1), Statement(|s.conns|, {k}, true, true);
    hide Balanced, Dated, Held, Run, Execute, FirstMatch, Earlier;
    var r1 := OneStep(s, [], pause);
    var r2 := OneStep(s, [] + [pause], Connect);
    StepKeepsInv(s, pause);
    StepKeepsInv(r1, Connect);
    HeldAppend(s.conns, k, s.windows[k]);
    Replaced(r2, |s.conns|, k);
    var r3 := OneStep(s, [] + [pause] + [Connect], statement);
    steps := [] + [pause] + [Connect] + [statement];
    RunKeepsInv(s, steps);
  }

  /** Each round leaves one more statement in flight. */
  lemma {:induction false} Pile(s: System, k: nat, n: nat) returns (steps: seq<Step>)
    requires Ready(s, k) && s.rules[k].maxConcurrency >= 1
    ensures var r := Run(s, steps);
            && Ready(r, k) && r.rules[k].maxConcurrency == s.rules[k].maxConcurrency && InFlight(r, k) >= n
    decreases n
  {
    steps := [];
    if n > 0 {
      var a := Pile(s, k, n - 1);
      var mid := Run(s, a);
      var grab := [Connect, Statement(|mid.conns|, {k}, true, true)];
      TakePermit(mid, k);
      hide Inv, Run, InFlight;
      RunKeepsInv(mid, grab);
      var b := Outlive(Run(mid, grab), k);
      RunConcat(s, a, grab);
      RunConcat(s, a + grab, b);
      steps := a + grab + b;
    }
  }

  lemma DrainAndFill(s: System, k: nat) returns (steps: seq<Step>)
    requires Inv(s) && k < |s.rules| && !Expired(s.rules[k], s.now)
    ensures InUse(Run(s, steps), k) == s.rules[k].available + InFlight(s, k)
  {
    steps := Drain(s, k);
    var mid := Run(s, steps);
    SurplusIsVisible(s, k);
    SurplusIsVisible(mid, k);
    hide Inv, Surplus, InUse, Run;
    if mid.rules[k].available > 0 {
      var b := Fill(mid, k);
      RunConcat(s, steps, b);
      steps := steps + b;
    }
  }

  /**
   * In some run the limit of a rule is exceeded, and by any amount, if and only if the rule lets
   * anything in at all.
   */
  lemma LimitIsExceededIff(config: seq<Config>, k: nat, excess: nat)
    requires k < |config|
    ensures (exists steps :: InUse(Run(Start(config), steps), k) > config[k].maxConcurrency + excess) <==>
            config[k].maxConcurrency >= 1
  {
    hide Run, InUse;
    var s := Start(config);
    if config[k].maxConcurrency >= 1 {
      var steps := ExceedLimit(config, k, excess);
    } else {
      forall steps
        ensures InUse(Run(s, steps), k) == 0
      {
        ZeroLimitHolds(config, steps, k);
      }
    }
  }

  lemma ExceedLimit(config: seq<Config>, k: nat, excess: nat) returns (steps: seq<Step>)
    requires k < |config| && config[k].maxConcurrency >= 1
    ensures InUse(Run(Start(config), steps), k) > config[k].maxConcurrency + excess
  {
    var s := Start(config);
    assert Inv(s);
    hide Run, InUse, InFlight, Balanced, Dated;
    var a := Pile(s, k, excess + 1);
    var b := DrainAndFill(Run(s, a), k);
    RunConcat(s, a, b);
    steps := a + b;
  }

  /** A rule without permits: none on hand, none in use and none to come back. */
  ghost predicate Shut(s: System, k: nat)
    requires WellFormed(s) && k < |s.rules|
  {
    && s.rules[k].maxConcurrency == s.rules[k].available == 0
    && forall c | 0 <= c < |s.conns| && s.conns[c].Running? && s.conns[c].grant.Some? ::
         s.conns[c].grant.value.rule != k
  }

  lemma StepKeepsShut(s: System, step: Step, k: nat)
    requires WellFormed(s) && k < |s.rules| && Shut(s, k)
    ensures Shut(Next(s, step), k)
  {
    if !step.Connect? && !step.Wait? && step.conn < |s.conns| {
      assert forall c | 0 <= c < |s.conns| && c != step.conn :: Next(s, step).conns[c] == s.conns[c];
    }
  }

  lemma {:induction false} RunKeepsShut(s: System, steps: seq<Step>, k: nat)
    requires WellFormed(s) && k < |s.rules| && Shut(s, k)
    ensures Shut(Run(s, steps), k)
    decreases |steps|
  {
    hide Next, Shut, WellFormed;
    if steps != [] {
      RunKeepsShut(s, steps[..|steps| - 1], k);
      StepKeepsShut(Run(s, steps[..|steps| - 1]), steps[|steps| - 1], k);
    }
  }

  lemma ZeroLimitHolds(config: seq<Config>, steps: seq<Step>, k: nat)
    requires k < |config| && config[k].maxConcurrency == 0
    ensures InUse(Run(Start(config), steps), k) == 0
  {
    RunKeepsShut(Start(config), steps, k);
    var s := Run(Start(config), steps);
    NothingOfLaterWindow(s.conns, k, s.windows[k]);
  }
}
