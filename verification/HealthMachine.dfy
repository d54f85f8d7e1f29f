/** The health state machine of one instance, against the history of its probes. */
module HealthMachine {
  import opened Options

  datatype HealthState = Running | Healthy | Unhealthy

  /** Durations in nanoseconds. */
  datatype Config = Config(interval: int, timeout: int, grace: int, threshold: int)

  /** An unset field of the check reads as 0. */
  datatype HealthCheck = HealthCheck(interval: int, timeout: int, gracePeriod: int, unhealthyThreshold: nat)

  const SECOND := 1_000_000_000
  const DEFAULT_INTERVAL := 10 * SECOND
  const DEFAULT_TIMEOUT := 5 * SECOND
  const DEFAULT_GRACE := 60 * SECOND
  const DEFAULT_THRESHOLD := 3

  /** `resolveHealthConfig`: every resolved schedule has positive durations and threshold. */
  method ResolveHealthConfig(hc: Option<HealthCheck>) returns (cfg: Config)
    ensures cfg.interval > 0 && cfg.timeout > 0 && cfg.grace > 0 && cfg.threshold >= 1
    ensures hc.None? ==> cfg == Config(10_000_000_000, 5_000_000_000, 60_000_000_000, 3)
    ensures hc.Some? ==>
              && (if hc.value.interval > 0 then cfg.interval == hc.value.interval else cfg.interval == 10_000_000_000)
              && (if hc.value.timeout > 0 then cfg.timeout == hc.value.timeout else cfg.timeout == 5_000_000_000)
              && (if hc.value.gracePeriod > 0 then cfg.grace == hc.value.gracePeriod else cfg.grace == 60_000_000_000)
              && (if hc.value.unhealthyThreshold > 0 then cfg.threshold == hc.value.unhealthyThreshold
                  else cfg.threshold == 3)
  {
    cfg := Config(DEFAULT_INTERVAL, DEFAULT_TIMEOUT, DEFAULT_GRACE, DEFAULT_THRESHOLD);
    if hc.None? {
      return;
    }
    if hc.value.interval > 0 {
      cfg := cfg.(interval := hc.value.interval);
    }
    if hc.value.timeout > 0 {
      cfg := cfg.(timeout := hc.value.timeout);
    }
    if hc.value.gracePeriod > 0 {
      cfg := cfg.(grace := hc.value.gracePeriod);
    }
    if hc.value.unhealthyThreshold > 0 {
      cfg := cfg.(threshold := hc.value.unhealthyThreshold);
    }
  }

  // ---------- the machine ----------

  datatype Machine = Machine(state: HealthState, passedOnce: bool, fails: nat)

  datatype Probe = Probe(pass: bool, elapsed: int)

  const FRESH := Machine(Running, false, 0)

  /** A failed probe that takes the instance out. */
  predicate TakesOut(cfg: Config, m: Machine, p: Probe) {
    && !p.pass && m.fails + 1 >= cfg.threshold
    && (m.state == Healthy || (!m.passedOnce && p.elapsed >= cfg.grace))
  }

  function Observed(cfg: Config, m: Machine, p: Probe): Machine {
    if p.pass then Machine(Healthy, true, 0)
    else Machine(if TakesOut(cfg, m, p) then Unhealthy else m.state, m.passedOnce, m.fails + 1)
  }

  /** The second result: whether the machine says that its state changed. */
  predicate SaysChanged(cfg: Config, m: Machine, p: Probe) {
    if p.pass then m.state != Healthy else TakesOut(cfg, m, p)
  }

  class HealthSM {
    const cfg: Config
    var state: HealthState
    var passedOnce: bool
    var fails: nat

    function View(): Machine
      reads this
    {
      Machine(state, passedOnce, fails)
    }

    constructor (cfg: Config)
      ensures this.cfg == cfg && View() == FRESH
    {
      this.cfg := cfg;
      state, passedOnce, fails := Running, false, 0;
    }

    method Observe(pass: bool, elapsed: int) returns (now: HealthState, changed: bool)
      modifies this
      ensures View() == Observed(cfg, old(View()), Probe(pass, elapsed)) && now == state
      ensures changed == SaysChanged(cfg, old(View()), Probe(pass, elapsed))
    {
      if pass {
        fails := 0;
        passedOnce := true;
        if state != Healthy {
          state := Healthy;
          return state, true;
        }
        return state, false;
      }
      fails := fails + 1;
      if state == Healthy {
        if fails >= cfg.threshold {
          state := Unhealthy;
          return state, true;
        }
      } else if !passedOnce {
        if elapsed >= cfg.grace && fails >= cfg.threshold {
          state := Unhealthy;
          return state, true;
        }
      }
      return state, false;
    }
  }

  // ---------- the history ----------

  function Run(cfg: Config, history: seq<Probe>): Machine {
    if history == [] then FRESH else Observed(cfg, Run(cfg, history[..|history| - 1]), history[|history| - 1])
  }

  predicate EverPassed(history: seq<Probe>) {
    exists i :: 0 <= i < |history| && history[i].pass
  }

  /** The failures since the last pass. */
  function FailsSincePass(history: seq<Probe>): nat {
    if history == [] || history[|history| - 1].pass then 0 else FailsSincePass(history[..|history| - 1]) + 1
  }

  /** Some probe came both after `threshold` failures and after the grace period. */
  predicate GraceLost(cfg: Config, history: seq<Probe>) {
    exists i :: 0 <= i < |history| && i + 1 >= cfg.threshold && history[i].elapsed >= cfg.grace
  }

  ghost predicate ElapsedGrows(history: seq<Probe>) {
    forall i, j :: 0 <= i < j < |history| ==> history[i].elapsed <= history[j].elapsed
  }

  function Expected(cfg: Config, history: seq<Probe>): HealthState {
    if EverPassed(history) then (if FailsSincePass(history) >= cfg.threshold then Unhealthy else Healthy)
    else if GraceLost(cfg, history) then Unhealthy
    else Running
  }

  lemma {:induction false} NeverPassedCounts(history: seq<Probe>)
    requires !EverPassed(history)
    ensures FailsSincePass(history) == |history|
  {
    if history != [] {
      NeverPassedCounts(history[..|history| - 1]);
    }
  }

  lemma EverPassedStep(history: seq<Probe>)
    requires history != []
    ensures EverPassed(history) <==> EverPassed(history[..|history| - 1]) || history[|history| - 1].pass
  {
    var front := history[..|history| - 1];
    if i :| 0 <= i < |front| && front[i].pass {
      assert history[i].pass;
    }
    if i :| 0 <= i < |history| && history[i].pass {
      assert i < |front| ==> front[i].pass;
    }
  }

  lemma GraceLostStep(cfg: Config, history: seq<Probe>)
    requires history != []
    ensures GraceLost(cfg, history) <==>
              || GraceLost(cfg, history[..|history| - 1])
              || (|history| >= cfg.threshold && history[|history| - 1].elapsed >= cfg.grace)
  {
    var front := history[..|history| - 1];
    if i :| 0 <= i < |front| && i + 1 >= cfg.threshold && front[i].elapsed >= cfg.grace {
      assert history[i].elapsed >= cfg.grace;
    }
    if i :| 0 <= i < |history| && i + 1 >= cfg.threshold && history[i].elapsed >= cfg.grace {
      assert i < |front| ==> front[i].elapsed >= cfg.grace;
    }
  }

  /** The machine equals its history, for every sequence of probes at any times: once one
      passed, it is unhealthy exactly when at least `threshold` failures follow the last pass;
      before that, exactly when some probe came after both `threshold` failures and the grace
      period. */
  lemma {:induction false} MachineIsHistory(cfg: Config, history: seq<Probe>)
    requires cfg.threshold >= 1
    ensures Run(cfg, history) == Machine(Expected(cfg, history), EverPassed(history), FailsSincePass(history))
  {
    if history != [] {
      var front := history[..|history| - 1];
      MachineIsHistory(cfg, front);
      EverPassedStep(history);
      GraceLostStep(cfg, history);
      if !EverPassed(front) {
        NeverPassedCounts(front);
      }
    }
  }

  /** When elapsed times do not decrease, the last probe alone decides about the grace. */
  lemma GraceByLastProbe(cfg: Config, history: seq<Probe>)
    requires cfg.threshold >= 1 && ElapsedGrows(history) && !EverPassed(history)
    ensures Run(cfg, history).state == Unhealthy <==>
              |history| >= cfg.threshold && history[|history| - 1].elapsed >= cfg.grace
    ensures Run(cfg, history).state != Unhealthy ==> Run(cfg, history).state == Running
  {
    MachineIsHistory(cfg, history);
    if |history| >= cfg.threshold && history[|history| - 1].elapsed >= cfg.grace {
      assert history[|history| - 1].elapsed >= cfg.grace;
    }
    if i :| 0 <= i < |history| && i + 1 >= cfg.threshold && history[i].elapsed >= cfg.grace {
      assert history[i].elapsed <= history[|history| - 1].elapsed;
    }
  }

  /** Over every run the machine says changed whenever its state did; and once too often exactly
      when an instance that never passed, already reported unhealthy, fails again past the grace
      period. */
  lemma SaysChangedIff(cfg: Config, history: seq<Probe>, p: Probe)
    requires cfg.threshold >= 1
    ensures var m := Run(cfg, history);
            SaysChanged(cfg, m, p) <==>
              || Run(cfg, history + [p]).state != m.state
              || (!EverPassed(history + [p]) && GraceLost(cfg, history) && p.elapsed >= cfg.grace)
  {
    var all := history + [p];
    assert all[..|history|] == history;
    MachineIsHistory(cfg, history);
    MachineIsHistory(cfg, all);
    EverPassedStep(all);
    GraceLostStep(cfg, all);
    if !EverPassed(history) {
      NeverPassedCounts(history);
      if i :| 0 <= i < |history| && i + 1 >= cfg.threshold && history[i].elapsed >= cfg.grace {
        assert |history| + 1 >= cfg.threshold;
      }
    }
  }
}
