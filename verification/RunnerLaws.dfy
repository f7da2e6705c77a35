/** What a cycle of the autonomy runner does to the entry of the task it ran, and when a budget stops the
    run (`runner.py`), in terms of the report, the entry and the settings alone. */
module RunnerLaws {
  import opened Wrappers
  import opened Backoff
  import opened RunnerModel
  import opened RunnerRuns

  /** When a task may be started: pending, its cooldown over, and everything it depends on a known task
      that is done. */
  lemma ReadyExactly(t: Task, entries: Entries, now: real)
    requires t.id in entries
    ensures var e := entries[t.id];
            Ready(t, entries, now) <==>
              && e.status == Pending && (e.notBefore.Some? ==> e.notBefore.value <= now)
              && forall d :: d in t.dependsOn ==> d in entries && entries[d].status == Done
  {
    forall i | 0 <= i < |t.dependsOn| ensures t.dependsOn[i] in t.dependsOn {}
  }

  /** Done, validated, and the delivery contract met. */
  predicate GoodReport(r: Report) {
    r.ok && r.status.ReportsDone? && r.validation == Valid(true)
  }

  /** Done, but the validation failed in a way that looks transient. */
  predicate TransientFailure(r: Report) {
    r.ok && r.status.ReportsDone? && r.validation == Invalid(true)
  }

  /** Blocked or failed in a way that can be retried, with such retries left. */
  predicate RetryableBlocker(cfg: Config, r: Report, failures: int) {
    (!r.ok || r.status.ReportsBlocked?) && r.retryableBlocker && failures < cfg.maxRetryable
  }

  /** Base doubled once for each retryable failure so far, capped. */
  function TransientDelay(cfg: Config, failures: int): int {
    var doubled := cfg.backoffBase * Pow2(if failures > 0 then failures else 0);
    if doubled < cfg.backoffMax then doubled else cfg.backoffMax
  }

  /** The base, at least 5 and at most 60. */
  function PlainDelay(cfg: Config): int {
    if cfg.backoffBase < 5 then 5 else if cfg.backoffBase > 60 then 60 else cfg.backoffBase
  }

  /** What a cycle makes of the entry of the task it ran. It is done exactly after a good report. It is
      blocked exactly when the report is not good, does not look transient, is no retryable blocker with
      retries left, and no attempts are left. Otherwise it is pending again, after a doubled and capped
      delay and with one more failure on record if the failure was transient, and after the plain delay
      if not. */
  lemma SettledExactly(cfg: Config, s: RunState, input: CycleInput, id: string)
    requires Keyed(cfg.tasks, s.entries) && id in s.entries && Cycle(cfg, s, input).event == Ran(id)
    ensures id in Cycle(cfg, s, input).state.entries
    ensures var e, now, r := s.entries[id], Cycle(cfg, s, input).state.entries[id], input.report;
            var again := TransientFailure(r) || RetryableBlocker(cfg, r, e.retryableFailures);
            && e.status.Pending? && now.attempts == e.attempts + 1 && !now.status.InProgress?
            && (now.status.Done? <==> GoodReport(r))
            && (now.status.Blocked? <==> !GoodReport(r) && !again && now.attempts >= cfg.maxAttempts)
            && (now.status.Pending? <==> again || (!GoodReport(r) && now.attempts < cfg.maxAttempts))
            && now.retryableFailures ==
                 (if GoodReport(r) then 0 else if again then e.retryableFailures + 1 else e.retryableFailures)
            && now.notBefore ==
                 (if !now.status.Pending? then None
                  else Some(input.finished
                            + (if again then TransientDelay(cfg, e.retryableFailures) else PlainDelay(cfg)) as real))
  {
    CycleChanges(cfg, s, input);
  }

  /** And nothing but that entry changes. */
  lemma OnlyRanChanges(cfg: Config, s: RunState, input: CycleInput, id: string)
    requires Keyed(cfg.tasks, s.entries) && id in s.entries
    ensures id in Cycle(cfg, s, input).state.entries
    ensures Cycle(cfg, s, input).event != Ran(id) && Cycle(cfg, s, input).event != Rehearsed(id) ==>
              Cycle(cfg, s, input).state.entries[id] == s.entries[id]
  {
    CycleChanges(cfg, s, input);
  }

  /** A task that a run has blocked had no attempts left. */
  lemma {:induction false} BlockedIsSpent(cfg: Config, s: RunState, inputs: seq<CycleInput>, id: string)
    requires Keyed(cfg.tasks, s.entries) && id in s.entries && !s.entries[id].status.Blocked?
    ensures After(cfg, s, inputs).entries[id].status.Blocked? ==>
              After(cfg, s, inputs).entries[id].attempts >= cfg.maxAttempts
    decreases |inputs|
  {
    if inputs != [] {
      CycleKeys(cfg, s, inputs[0]);
      CycleChanges(cfg, s, inputs[0]);
      OnlyRanChanges(cfg, s, inputs[0], id);
      var turn, rest := Cycle(cfg, s, inputs[0]), inputs[1..];
      if turn.event == Ran(id) { SettledExactly(cfg, s, inputs[0], id); }
      if !turn.event.Stopped? {
        if turn.state.entries[id].status.Blocked? {
          SettledForGood(cfg, turn.state, rest, id);
        } else {
          BlockedIsSpent(cfg, turn.state, rest, id);
        }
      }
    }
  }

  /** When a budget stops the run: exactly when the time or a total exceeds its limit and that limit is
      not zero. */
  lemma BudgetStopsExactly(cfg: Config, s: RunState, input: CycleInput)
    requires Keyed(cfg.tasks, s.entries)
    ensures Cycle(cfg, s, input).event == Stopped(4) <==>
              || 0 < cfg.limits.runtime < input.elapsed
              || 0 < cfg.limits.tokens < s.totals.tokens
              || 0.0 < cfg.limits.cost < s.totals.cost
              || 0 < cfg.limits.retries < s.totals.retryEvents
  {
    StopsExactly(cfg, s, input);
    ViolationsExactly(cfg.limits, s.totals, input.elapsed);
  }

  lemma ViolationsExactly(limits: Limits, totals: Totals, elapsed: nat)
    ensures var v := Violations(limits, totals, elapsed);
            && (Runtime in v <==> 0 < limits.runtime < elapsed)
            && (Tokens in v <==> 0 < limits.tokens < totals.tokens)
            && (Limit.Cost in v <==> 0.0 < limits.cost < totals.cost)
            && (Retries in v <==> 0 < limits.retries < totals.retryEvents)
            && (v == [] <==> Runtime !in v && Tokens !in v && Limit.Cost !in v && Retries !in v)
  {
    var v := Violations(limits, totals, elapsed);
    assert v != [] ==> v[0] in v;
  }
}
