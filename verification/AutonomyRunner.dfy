/** The runner itself (`runner.py`): task entries and budget totals updated in place, one cycle after
    another. */
module AutonomyRunner {
  import opened Wrappers
  import opened Ordering
  import opened Backoff
  import opened RunnerModel
  import opened RunnerRuns
  import opened RunnerCheckpoint

  class Runner {
    const cfg: Config
    var entries: Entries
    var tokens: int
    var cost: real
    var retryEvents: nat
    ghost var saves: seq<Entries>

    ghost predicate Valid()
      reads this
    {
      Keyed(cfg.tasks, entries)
    }

    ghost function View(): RunState
      reads this
    {
      RunState(entries, Totals(tokens, cost, retryEvents))
    }

    constructor (cfg: Config, entries: Entries)
      requires Keyed(cfg.tasks, entries)
      ensures Valid() && this.cfg == cfg && View() == RunState(entries, NO_TOTALS) && saves == []
    {
      this.cfg, this.entries := cfg, entries;
      tokens, cost, retryEvents := 0, 0.0, 0;
      saves := [];
    }

    method Persist()
      modifies `saves
      ensures saves == old(saves) + [entries]
    {
      saves := saves + [entries];
    }

    // -------------------------------------------------------------- selection

    method TaskDependenciesDone(t: Task) returns (done: bool)
      ensures done == DependenciesDone(t, entries)
    {
      for i := 0 to |t.dependsOn|
        invariant forall k :: 0 <= k < i ==> t.dependsOn[k] in entries && entries[t.dependsOn[k]].status.Done?
      {
        var dep := t.dependsOn[i];
        if dep !in entries || !entries[dep].status.Done? { return false; }
      }
      return true;
    }

    method SelectNextTask(now: real) returns (next: Option<Task>)
      requires Valid()
      ensures next == Next(cfg.tasks, entries, now)
    {
      var ready: seq<Task> := [];
      for i := 0 to |cfg.tasks|
        invariant ready == ReadyTasks(cfg.tasks[..i], entries, now)
      {
        var t := cfg.tasks[i];
        assert cfg.tasks[..i + 1][..i] == cfg.tasks[..i];
        if !entries[t.id].status.Pending? { continue; }
        if !CooledDown(entries[t.id], now) { continue; }
        var done := TaskDependenciesDone(t);
        if !done { continue; }
        ready := ready + [t];
      }
      assert cfg.tasks[..|cfg.tasks|] == cfg.tasks;
      if ready == [] { return None; }
      SortPermutes(ready, Precedes);
      return Some(Sort(ready, Precedes)[0]);
    }

    method SoonestPendingTime() returns (soonest: Option<real>)
      requires Valid()
      ensures soonest == Soonest(cfg.tasks, entries)
    {
      soonest := None;
      for i := 0 to |cfg.tasks|
        invariant soonest == Soonest(cfg.tasks[..i], entries)
      {
        var e := entries[cfg.tasks[i].id];
        assert cfg.tasks[..i + 1][..i] == cfg.tasks[..i];
        if !e.status.Pending? { continue; }
        var done := TaskDependenciesDone(cfg.tasks[i]);
        if !done { continue; }
        if e.notBefore.None? { continue; }
        if soonest.None? || e.notBefore.value < soonest.value { soonest := e.notBefore; }
      }
      assert cfg.tasks[..|cfg.tasks|] == cfg.tasks;
    }

    // -------------------------------------------------------------- budget

    method EvaluateBudgetViolations(elapsed: nat) returns (violations: seq<Limit>)
      ensures violations == Violations(cfg.limits, View().totals, elapsed)
    {
      violations := [];
      if cfg.limits.runtime > 0 && elapsed > cfg.limits.runtime { violations := violations + [Runtime]; }
      if cfg.limits.tokens > 0 && tokens > cfg.limits.tokens { violations := violations + [Tokens]; }
      if cfg.limits.cost > 0.0 && cost > cfg.limits.cost { violations := violations + [Limit.Cost]; }
      if cfg.limits.retries > 0 && retryEvents > cfg.limits.retries { violations := violations + [Retries]; }
    }

    method UpdateBudgetUsage(report: Report)
      modifies `tokens, `cost
      ensures View().totals == Spent(old(View()).totals, report)
    {
      tokens := tokens + if report.tokens > 0 then report.tokens else 0;
      cost := RoundSix(cost + Max(0.0, report.cost));
    }

    // -------------------------------------------------------------- settling

    method ScheduleRetry(id: string, retryable: bool, base: int, cap: int, finished: real) returns (delay: int)
      requires id in entries
      modifies `entries
      ensures entries == old(entries)[id := Retried(old(entries)[id], retryable, base, cap, finished)]
      ensures entries[id].notBefore == Some(finished + delay as real)
    {
      var e := entries[id];
      delay := IntMax(1, base);
      if retryable {
        e := e.(retryableFailures := e.retryableFailures + 1);
        var exp := IntMax(0, e.retryableFailures - 1);
        delay := IntMin(cap, base * Pow2(exp));
      }
      entries := entries[id := e.(status := Pending, notBefore := Some(finished + delay as real))];
    }

    method MarkBlocked(id: string)
      requires id in entries
      modifies `entries
      ensures entries == old(entries)[id := old(entries)[id].(status := Blocked)]
    {
      entries := entries[id := entries[id].(status := Blocked)];
    }

    /** A retry within the attempt limit, or the end of the task. */
    method RetryOrBlock(id: string, finished: real, counted: bool)
      requires id in entries
      modifies `entries, `retryEvents
      ensures var r := AgainOrBlocked(cfg, old(entries)[id], finished, counted);
              && entries == old(entries)[id := r.entry]
              && retryEvents == old(retryEvents) + if r.retryEvent then 1 else 0
    {
      if entries[id].attempts < cfg.maxAttempts {
        if counted { retryEvents := retryEvents + 1; }
        var _ := ScheduleRetry(id, false, IntMax(5, IntMin(60, cfg.backoffBase)),
                               IntMax(60, IntMin(600, cfg.backoffMax)), finished);
      } else {
        MarkBlocked(id);
      }
    }

    method SettleTask(id: string, report: Report, finished: real)
      requires id in entries
      modifies `entries, `retryEvents
      ensures var r := Settle(cfg, old(entries)[id], report, finished);
              && entries == old(entries)[id := r.entry]
              && retryEvents == old(retryEvents) + if r.retryEvent then 1 else 0
    {
      if !report.ok || report.status.ReportsBlocked? {
        if report.retryableBlocker && entries[id].retryableFailures < cfg.maxRetryable {
          retryEvents := retryEvents + 1;
          var _ := ScheduleRetry(id, true, cfg.backoffBase, cfg.backoffMax, finished);
        } else {
          RetryOrBlock(id, finished, true);
        }
      } else if report.status.ReportsDone? {
        match report.validation
        case Valid(met) =>
          if met {
            entries := entries[id := entries[id].(status := Done, retryableFailures := 0, notBefore := None)];
          } else {
            RetryOrBlock(id, finished, false);
          }
        case Invalid(retryable) =>
          if retryable {
            retryEvents := retryEvents + 1;
            var _ := ScheduleRetry(id, true, cfg.backoffBase, cfg.backoffMax, finished);
          } else {
            RetryOrBlock(id, finished, true);
          }
      } else {
        RetryOrBlock(id, finished, true);
      }
    }

    // -------------------------------------------------------------- cycles

    /** The selected task's part of a cycle: started and saved, run, settled and saved again. */
    method ExecuteTask(id: string, input: CycleInput) returns (event: Event)
      requires Valid() && id in entries
      modifies this
      ensures Valid() && Turn(View(), event) == Execute(cfg, old(View()), id, input)
      ensures saves == old(saves) + [old(entries)[id := Started(old(entries)[id])], entries]
    {
      ghost var before := View();
      var e := entries[id];
      entries := entries[id := e.(status := InProgress, attempts := e.attempts + 1, notBefore := None)];
      Persist();
      if cfg.dryRun {
        entries := entries[id := entries[id].(status := Pending)];
        event := Rehearsed(id);
      } else {
        UpdateBudgetUsage(input.report);
        SettleTask(id, input.report, input.finished);
        event := Ran(id);
      }
      Persist();
      assert entries == before.entries[id := entries[id]];
    }

    method RunCycle(input: CycleInput) returns (event: Event)
      requires Valid()
      modifies this
      ensures Valid() && Turn(View(), event) == Cycle(cfg, old(View()), input)
      ensures saves == old(saves) + SavedIn(cfg, old(View()), input)
    {
      var violations := EvaluateBudgetViolations(input.elapsed);
      if violations != [] { return Stopped(4); }
      var done := AllTasksDone();
      if done {
        Persist();
        return Stopped(0);
      }
      var task := SelectNextTask(input.now);
      NextIsReady(cfg.tasks, entries, input.now);
      if task.None? {
        var soonest := SoonestPendingTime();
        if soonest.Some? && soonest.value > input.now {
          return Idled(IntMin(cfg.idleSleep, IntMax(1, (soonest.value - input.now).Floor)));
        }
        Persist();
        return Stopped(2);
      }
      event := ExecuteTask(task.value.id, input);
    }

    method AllTasksDone() returns (done: bool)
      requires Valid()
      ensures done == AllDone(cfg.tasks, entries)
    {
      for i := 0 to |cfg.tasks|
        invariant forall k :: 0 <= k < i ==> entries[cfg.tasks[k].id].status.Done?
      {
        if !entries[cfg.tasks[i].id].status.Done? { return false; }
      }
      return true;
    }

    /** The cycle loop; `inputs[k]` is what cycle k + 1 meets, and the limit is their number. */
    method RunLoop(inputs: seq<CycleInput>) returns (code: int)
      requires Valid()
      modifies this
      ensures Valid() && View() == After(cfg, old(View()), inputs) && code == ExitCode(cfg, old(View()), inputs)
      ensures saves == old(saves) + Saves(cfg, old(View()), inputs)
    {
      ghost var final, end, total := After(cfg, View(), inputs), ExitCode(cfg, View(), inputs),
                                     saves + Saves(cfg, View(), inputs);
      OnRunStart(cfg, View(), inputs, saves);
      Persist();
      ghost var rest := inputs;
      for cycle := 0 to |inputs|
        invariant Valid() && rest == inputs[cycle..] && OnRun(cfg, final, end, total, View(), rest, saves)
      {
        assert rest[0] == inputs[cycle];
        OnRunStep(cfg, final, end, total, View(), rest, saves);
        var event := RunCycle(inputs[cycle]);
        if event.Stopped? { return event.code; }
        rest := rest[1..];
      }
      assert rest == [];
      OnRunEnd(cfg, final, end, total, View(), saves);
      Persist();
      return 3;
    }

    // -------------------------------------------------------------- resuming

    /** Every entry the checkpoint holds for a known task replaces that task's entry, in whatever order
        they come. */
    method ApplyCheckpointState(store: Store)
      modifies `entries
      ensures entries == Merged(old(entries), store)
    {
      var todo := store.Keys;
      while todo != {}
        invariant todo <= store.Keys && entries.Keys == old(entries).Keys
        invariant forall id :: id in entries ==>
          entries[id] == if id in todo then old(entries)[id] else Merged(old(entries), store)[id]
        decreases |todo|
      {
        var id :| id in todo;
        todo := todo - {id};
        if id in entries && store[id].Fields? {
          entries := entries[id := Read(store[id], entries[id])];
        }
      }
    }
  }
}
