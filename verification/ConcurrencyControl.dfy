/**
 * The concurrency-control plugin: per rule a semaphore that is thrown away and replaced when
 * the rule's time window has run out. `Decide` is the critical section of `is_allow`.
 */
module ConcurrencyControl {
  import opened Options

  datatype Config = Config(maxConcurrency: nat, duration: nat)

  datatype Rule = Rule(maxConcurrency: nat, duration: nat, available: nat, startAt: Option<nat>)

  function NewRule(c: Config): Rule {
    Rule(c.maxConcurrency, c.duration, c.maxConcurrency, None)
  }

  /** The window was started more than `duration` ago. */
  predicate Expired(r: Rule, now: nat) {
    r.startAt.Some? && now - r.startAt.value > r.duration
  }

  /** The first rule at or after `from` whose patterns match the statement; n if there is none. */
  function FirstMatch(hits: set<nat>, from: nat, n: nat): (k: nat)
    requires from <= n
    ensures from <= k <= n
    ensures k < n ==> k in hits
    ensures forall j | from <= j < k :: j !in hits
    decreases n - from
  {
    if from == n || from in hits then from else FirstMatch(hits, from + 1, n)
  }

  datatype Decision = Decision(rules: seq<Rule>, rule: Option<nat>, allowed: bool)

  /** A statement that matches the rules in `hits` arrives at time `now`. */
  function Decide(rules: seq<Rule>, hits: set<nat>, now: nat): (d: Decision)
    ensures |d.rules| == |rules|
    ensures d.rule.Some? ==> d.rule.value < |rules|
  {
    var k := FirstMatch(hits, 0, |rules|);
    if k == |rules| then Decision(rules, None, true)
    else
      var r := rules[k];
      if Expired(r, now) then
        Decision(rules[k := r.(startAt := None, available := r.maxConcurrency)], None, true)
      else
        var started := if r.startAt.None? then r.(startAt := Some(now)) else r;
        if r.available == 0 then Decision(rules[k := started], Some(k), false)
        else Decision(rules[k := started.(available := r.available - 1)], Some(k), true)
  }

  // ----- What an answer means -------------------------------------------------------

  /** k is the first rule whose patterns match. */
  predicate MatchesFirst(rules: seq<Rule>, hits: set<nat>, k: nat) {
    k < |rules| && k in hits && forall j: nat | j < k :: j !in hits
  }

  /** The rule's window was started, and more than its duration ago. */
  predicate RunOut(r: Rule, now: nat) {
    match r.startAt
    case None => false
    case Some(start) => start + r.duration < now
  }

  /** A statement is refused: the first rule that matches is in its window and has no permit left. */
  ghost predicate Refused(rules: seq<Rule>, hits: set<nat>, now: nat) {
    exists k: nat :: MatchesFirst(rules, hits, k) && !RunOut(rules[k], now) && rules[k].available == 0
  }

  /** A statement is counted: the first rule that matches is in its window and has a permit left. */
  ghost predicate CountedBy(rules: seq<Rule>, hits: set<nat>, now: nat, k: nat) {
    MatchesFirst(rules, hits, k) && !RunOut(rules[k], now) && rules[k].available > 0
  }

  /**
   * The answer to a statement, stated on the rules before it. It is allowed unless refused, and it
   * names the rule unless the first match has run out or there is none. Rules other than the first
   * match stay; that one starts its window if it had none and gives a permit away if it has one, or,
   * run out, gets all its permits back and no window.
   */
  ghost predicate Answers(
    rules: seq<Rule>, hits: set<nat>, now: nat, after: seq<Rule>, rule: Option<nat>, allowed: bool
  ) {
    && |after| == |rules|
    && (allowed <==> !Refused(rules, hits, now))
    && (forall k: nat | k < |rules| && !MatchesFirst(rules, hits, k) :: after[k] == rules[k])
    && ((forall k: nat | k < |rules| :: !MatchesFirst(rules, hits, k)) ==> rule.None?)
    && forall k: nat | MatchesFirst(rules, hits, k) ::
         var (r, a) := (rules[k], after[k]);
         && a.maxConcurrency == r.maxConcurrency && a.duration == r.duration
         && if RunOut(r, now) then rule.None? && a.startAt.None? && a.available == r.maxConcurrency
            else && rule == Some(k)
                 && a.startAt == (if r.startAt.None? then Some(now) else r.startAt)
                 && a.available == (if r.available == 0 then 0 else r.available - 1)
  }

  lemma DecideAnswers(rules: seq<Rule>, hits: set<nat>, now: nat)
    ensures var d := Decide(rules, hits, now);
            Answers(rules, hits, now, d.rules, d.rule, d.allowed)
  {
    hide FirstMatch;
    var k := FirstMatch(hits, 0, |rules|);
    if k < |rules| {
      assert MatchesFirst(rules, hits, k);
      assert forall j: nat | MatchesFirst(rules, hits, j) :: j == k;
    }
  }

  /** An allowed statement is counted by a rule exactly when the answer names it. */
  lemma CountedIsAnswer(rules: seq<Rule>, hits: set<nat>, now: nat)
    ensures var d := Decide(rules, hits, now);
            d.allowed ==> forall k: nat :: d.rule == Some(k) <==> CountedBy(rules, hits, now, k)
    ensures Decide(rules, hits, now).allowed <==> !Refused(rules, hits, now)
  {
    hide FirstMatch;
    DecideAnswers(rules, hits, now);
    var k := FirstMatch(hits, 0, |rules|);
    if k < |rules| {
      assert MatchesFirst(rules, hits, k);
      assert forall j: nat | MatchesFirst(rules, hits, j) :: j == k;
    }
  }

  function Released(rules: seq<Rule>, k: nat): seq<Rule>
    requires k < |rules|
  {
    rules[k := rules[k].(available := rules[k].available + 1)]
  }

  datatype Verdict = Passed(rule: Option<nat>) | Failed | Rejected

  class Plugin {
    var instances: Option<seq<Rule>>

    constructor (config: Option<seq<Config>>)
      ensures config.None? ==> instances.None?
      ensures config.Some? ==>
                && instances.Some? && |instances.value| == |config.value|
                && forall j | 0 <= j < |config.value| ::
                     && instances.value[j] == NewRule(config.value[j])
                     && instances.value[j] == Rule(config.value[j].maxConcurrency, config.value[j].duration,
                                                   config.value[j].maxConcurrency, None)
    {
      instances := None;
      if config.Some? {
        var rules := [];
        for j := 0 to |config.value|
          invariant |rules| == j
          invariant forall i | 0 <= i < j :: rules[i] == NewRule(config.value[i])
        {
          rules := rules + [NewRule(config.value[j])];
        }
        instances := Some(rules);
      }
    }

    /** The rules, as if an absent configuration were an empty one. */
    ghost function Rules(): seq<Rule>
      reads this
    {
      if instances.None? then [] else instances.value
    }

    method IsAllow(hits: set<nat>, now: nat) returns (rule: Option<nat>, allowed: bool)
      modifies this
      ensures instances.Some? == old(instances.Some?)
      ensures Decision(Rules(), rule, allowed) == Decide(old(Rules()), hits, now)
      ensures Answers(old(Rules()), hits, now, Rules(), rule, allowed)
    {
      DecideAnswers(Rules(), hits, now);
      if instances.None? {
        return None, true;
      }
      var rules := instances.value;
      for idx := 0 to |rules|
        invariant instances == old(instances) && rules == instances.value
        invariant FirstMatch(hits, 0, |rules|) == FirstMatch(hits, idx, |rules|)
      {
        if idx !in hits {
          continue;
        }
        var c := rules[idx];
        if c.startAt.None? {
          c := c.(startAt := Some(now));
          if c.available == 0 {
            instances := Some(rules[idx := c]);
            return Some(idx), false;
          }
          instances := Some(rules[idx := c.(available := c.available - 1)]);
          return Some(idx), true;
        } else if now - c.startAt.value > c.duration {
          instances := Some(rules[idx := c.(startAt := None, available := c.maxConcurrency)]);
          return None, true;
        } else {
          if c.available == 0 {
            return Some(idx), false;
          }
          instances := Some(rules[idx := c.(available := c.available - 1)]);
          return Some(idx), true;
        }
      }
      return None, true;
    }

    method AddPermits(idx: nat)
      requires instances.Some? && idx < |instances.value|
      modifies this
      ensures instances == Some(Released(old(instances.value), idx))
      ensures |instances.value| == |old(instances.value)|
      ensures forall j | 0 <= j < |instances.value| ::
                instances.value[j] == old(instances.value)[j].(
                  available := old(instances.value)[j].available + if j == idx then 1 else 0)
    {
      var rules := instances.value;
      instances := Some(rules[idx := rules[idx].(available := rules[idx].available + 1)]);
    }

    /** `handle`: the wrapped service runs after the permit is taken; its failure keeps the permit. */
    method Handle(hits: set<nat>, now: nat, innerOk: bool) returns (v: Verdict)
      modifies this
      ensures instances.Some? == old(instances.Some?)
      ensures var d := Decide(old(Rules()), hits, now);
              && Rules() == d.rules
              && v == if !d.allowed then Rejected else if innerOk then Passed(d.rule) else Failed
      ensures v == Rejected <==> Refused(old(Rules()), hits, now)
      ensures v != Rejected ==> (v.Passed? <==> innerOk)
      ensures v.Passed? ==> forall k: nat :: v.rule == Some(k) <==> CountedBy(old(Rules()), hits, now, k)
    {
      CountedIsAnswer(Rules(), hits, now);
      var rule, allowed := IsAllow(hits, now);
      if allowed {
        return if innerOk then Passed(rule) else Failed;
      }
      return Rejected;
    }
  }

  /** The part of a client session that takes and gives back permits: `plugin_run` and `run`. */
  class Session {
    var ruleIdx: Option<nat>

    constructor ()
      ensures ruleIdx.None?
    {
      ruleIdx := None;
    }

    /** The circuit breaker comes first; a failed or rejected statement leaves ruleIdx alone. */
    method PluginRun(plugin: Plugin, hits: set<nat>, now: nat, breakerOk: bool, innerOk: bool)
      returns (ok: bool)
      modifies this, plugin
      ensures !breakerOk ==> !ok && ruleIdx == old(ruleIdx) && plugin.Rules() == old(plugin.Rules())
      ensures breakerOk ==>
                var d := Decide(old(plugin.Rules()), hits, now);
                && plugin.Rules() == d.rules
                && ok == (d.allowed && innerOk)
                && ruleIdx == if ok then d.rule else old(ruleIdx)
      ensures ok <==> breakerOk && innerOk && !Refused(old(plugin.Rules()), hits, now)
      ensures !ok ==> ruleIdx == old(ruleIdx)
      ensures ok ==> forall k: nat :: ruleIdx == Some(k) <==> CountedBy(old(plugin.Rules()), hits, now, k)
    {
      CountedIsAnswer(plugin.Rules(), hits, now);
      if !breakerOk {
        return false;
      }
      var v := plugin.Handle(hits, now, innerOk);
      if v.Passed? {
        ruleIdx := v.rule;
        return true;
      }
      return false;
    }

    /** After the command: give the permit back, if one was taken. */
    method EndCommand(plugin: Plugin)
      requires ruleIdx.Some? ==> ruleIdx.value < |plugin.Rules()|
      modifies this, plugin
      ensures ruleIdx.None?
      ensures plugin.Rules() == if old(ruleIdx).Some? then Released(old(plugin.Rules()), old(ruleIdx).value)
                                else old(plugin.Rules())
    {
      if ruleIdx.Some? {
        plugin.AddPermits(ruleIdx.value);
        ruleIdx := None;
      }
    }
  }
}
