/** What whole runs of the autonomy runner keep: its invariants, its exit codes, its budget, and the
    measure that bounds how much it executes (`runner.py`). */
module RunnerRuns {
  import opened Wrappers
  import opened Ordering
  import opened Backoff
  import opened RunnerModel

  // ---------------------------------------------------------------- runs

  /** The state after the cycles for `inputs`; a cycle that stops ends the run. */
  function After(cfg: Config, s: RunState, inputs: seq<CycleInput>): (r: RunState)
    requires Keyed(cfg.tasks, s.entries)
    ensures r.entries.Keys == s.entries.Keys
    decreases |inputs|
  {
    if inputs == [] then s else
    var turn := Cycle(cfg, s, inputs[0]);
    if turn.event.Stopped? then turn.state else
    CycleKeys(cfg, s, inputs[0]);
    After(cfg, turn.state, inputs[1..])
  }

  lemma CycleKeys(cfg: Config, s: RunState, input: CycleInput)
    requires Keyed(cfg.tasks, s.entries)
    ensures Cycle(cfg, s, input).state.entries.Keys == s.entries.Keys
  {
    NextIsReady(cfg.tasks, s.entries, input.now);
  }

  /** The exit code of a run whose cycle limit is the number of inputs. */
  function ExitCode(cfg: Config, s: RunState, inputs: seq<CycleInput>): int
    requires Keyed(cfg.tasks, s.entries)
    decreases |inputs|
  {
    if inputs == [] then 3 else
    var turn := Cycle(cfg, s, inputs[0]);
    if turn.event.Stopped? then turn.event.code else
    CycleKeys(cfg, s, inputs[0]);
    ExitCode(cfg, turn.state, inputs[1..])
  }

  /** The cycle that ended the run, if one did. */
  function LastInput(cfg: Config, s: RunState, inputs: seq<CycleInput>): Option<CycleInput>
    requires Keyed(cfg.tasks, s.entries)
    decreases |inputs|
  {
    if inputs == [] then None else
    var turn := Cycle(cfg, s, inputs[0]);
    if turn.event.Stopped? then Some(inputs[0]) else
    CycleKeys(cfg, s, inputs[0]);
    LastInput(cfg, turn.state, inputs[1..])
  }

  /** A cycle changes nothing, or only the entry of the task it selected. */
  lemma CycleChanges(cfg: Config, s: RunState, input: CycleInput)
    requires Keyed(cfg.tasks, s.entries)
    ensures var turn, next := Cycle(cfg, s, input), Next(cfg.tasks, s.entries, input.now);
            && (turn.event.Idled? || turn.event.Stopped? ==> turn.state == s)
            && (turn.event.Ran? || turn.event.Rehearsed? ==>
                  && next.Some? && next.value in cfg.tasks && next.value.id in s.entries
                  && Ready(next.value, s.entries, input.now)
                  && turn == Execute(cfg, s, next.value.id, input) && turn.event.id == next.value.id
                  && (turn.event.Rehearsed? <==> cfg.dryRun))
  {
    NextIsReady(cfg.tasks, s.entries, input.now);
  }

  // ---------------------------------------------------------------- exit codes

  /** Something is not done, and every pending task has an undone dependency. */
  ghost predicate Stalled(tasks: seq<Task>, entries: Entries)
    requires Keyed(tasks, entries)
  {
    && !AllDone(tasks, entries)
    && forall t :: t in tasks && t.id in entries && entries[t.id].status.Pending? ==> !DependenciesDone(t, entries)
  }

  /** Cycle by cycle: which head check ends the run. A stall is real whatever the clock says; no ready
      task with a soonest cooldown in the past cannot happen. */
  lemma StopsExactly(cfg: Config, s: RunState, input: CycleInput)
    requires Keyed(cfg.tasks, s.entries)
    ensures var event, broke := Cycle(cfg, s, input).event, Violations(cfg.limits, s.totals, input.elapsed) != [];
            && (event == Stopped(4) <==> broke)
            && (event == Stopped(0) <==> !broke && AllDone(cfg.tasks, s.entries))
            && (event == Stopped(2) <==> !broke && Stalled(cfg.tasks, s.entries))
            && (event.Stopped? ==> event.code in {0, 2, 4})
  {
    NextIsReady(cfg.tasks, s.entries, input.now);
    SoonestMeans(cfg.tasks, s.entries);
    if Violations(cfg.limits, s.totals, input.elapsed) == [] && !AllDone(cfg.tasks, s.entries)
       && Next(cfg.tasks, s.entries, input.now).None? {
      forall t | t in cfg.tasks && t.id in s.entries && s.entries[t.id].status.Pending?
                 && DependenciesDone(t, s.entries)
        ensures Cycle(cfg, s, input).event.Idled?
      {
        assert !Ready(t, s.entries, input.now) && Waits(t, s.entries);
        var soonest := Soonest(cfg.tasks, s.entries);
        var u :| u in cfg.tasks && u.id in s.entries && Waits(u, s.entries) && s.entries[u.id].notBefore == soonest;
        assert !Ready(u, s.entries, input.now);
      }
    }
  }

  /** What a run's exit code says about the entries it ends with. */
  lemma {:induction false} ExitCodeMeans(cfg: Config, s: RunState, inputs: seq<CycleInput>)
    requires Keyed(cfg.tasks, s.entries)
    ensures var code, r, last := ExitCode(cfg, s, inputs), After(cfg, s, inputs), LastInput(cfg, s, inputs);
            && (code == 3 <==> last.None?)
            && (last.Some? ==>
                  var broke := Violations(cfg.limits, r.totals, last.value.elapsed) != [];
                  && last.value in inputs && code in {0, 2, 4}
                  && (code == 4 <==> broke)
                  && (code == 0 <==> !broke && AllDone(cfg.tasks, r.entries))
                  && (code == 2 <==> !broke && Stalled(cfg.tasks, r.entries)))
    decreases |inputs|
  {
    if inputs != [] {
      StopsExactly(cfg, s, inputs[0]);
      CycleChanges(cfg, s, inputs[0]);
      CycleKeys(cfg, s, inputs[0]);
      var turn := Cycle(cfg, s, inputs[0]);
      if !turn.event.Stopped? { ExitCodeMeans(cfg, turn.state, inputs[1..]); }
    }
  }

  /** When does a cycle idle? Exactly when no task is ready but one only waits for its cooldown. It never
      sleeps a second or more past the end of any cooldown, nor longer than the idle setting; if shorter
      than that, it sleeps at least a second and to within a second of the end of some cooldown. */
  lemma IdlesExactly(cfg: Config, s: RunState, input: CycleInput)
    requires Keyed(cfg.tasks, s.entries)
    ensures var event := Cycle(cfg, s, input).event;
            && (event.Idled? <==>
                  && Violations(cfg.limits, s.totals, input.elapsed) == []
                  && Next(cfg.tasks, s.entries, input.now).None?
                  && exists t :: t in cfg.tasks && t.id in s.entries && Waits(t, s.entries))
            && (event.Idled? ==>
                  && event.seconds <= cfg.idleSleep
                  && (forall t :: t in cfg.tasks && t.id in s.entries && Waits(t, s.entries) ==>
                        event.seconds as real < s.entries[t.id].notBefore.value - input.now + 1.0)
                  && (event.seconds < cfg.idleSleep ==>
                        && event.seconds >= 1
                        && (exists t :: t in cfg.tasks && t.id in s.entries && Waits(t, s.entries)
                              && s.entries[t.id].notBefore.value - input.now < event.seconds as real + 1.0)))
  {
    NextIsReady(cfg.tasks, s.entries, input.now);
    SoonestMeans(cfg.tasks, s.entries);
    if t :| t in cfg.tasks && t.id in s.entries && Waits(t, s.entries) {
      assert !AllDone(cfg.tasks, s.entries);
      var soonest := Soonest(cfg.tasks, s.entries);
      var u :| u in cfg.tasks && u.id in s.entries && Waits(u, s.entries) && s.entries[u.id].notBefore == soonest;
      assert Next(cfg.tasks, s.entries, input.now).None? ==> !Ready(u, s.entries, input.now);
    }
  }

  // ---------------------------------------------------------------- invariants at the head of a cycle

  ghost predicate NothingInProgress(entries: Entries) {
    forall id :: id in entries ==> !entries[id].status.InProgress?
  }

  lemma SettledStatus(cfg: Config, e: Entry, report: Report, finished: real)
    ensures !Settle(cfg, e, report, finished).entry.status.InProgress?
    ensures Settle(cfg, e, report, finished).entry.attempts == e.attempts
    ensures Settle(cfg, e, report, finished).entry.status.Done? <==>
              report.ok && report.status.ReportsDone? && report.validation == Valid(true)
  {
  }

  /** A finished or blocked task's entry never changes again, and only the selected task is ever in
      progress. */
  lemma {:induction false} SettledForGood(cfg: Config, s: RunState, inputs: seq<CycleInput>, id: string)
    requires Keyed(cfg.tasks, s.entries) && id in s.entries
    ensures NothingInProgress(s.entries) ==> NothingInProgress(After(cfg, s, inputs).entries)
    ensures s.entries[id].status.Done? || s.entries[id].status.Blocked? ==>
              After(cfg, s, inputs).entries[id] == s.entries[id]
    decreases |inputs|
  {
    if inputs != [] {
      CycleChanges(cfg, s, inputs[0]);
      CycleKeys(cfg, s, inputs[0]);
      var turn := Cycle(cfg, s, inputs[0]);
      if turn.event.Ran? {
        SettledStatus(cfg, Started(s.entries[turn.event.id]), inputs[0].report, inputs[0].finished);
      }
      if !turn.event.Stopped? { SettledForGood(cfg, turn.state, inputs[1..], id); }
    }
  }

  /** While the selected task runs, it is the only one in progress. */
  lemma OneInProgress(cfg: Config, s: RunState, input: CycleInput, id: string)
    requires Keyed(cfg.tasks, s.entries) && NothingInProgress(s.entries) && id in s.entries
    requires Cycle(cfg, s, input).event.Ran? || Cycle(cfg, s, input).event.Rehearsed?
    ensures var chosen := Next(cfg.tasks, s.entries, input.now).value.id;
            && chosen in s.entries
            && (s.entries[chosen := Started(s.entries[chosen])][id].status.InProgress? <==> id == chosen)
  {
    CycleChanges(cfg, s, input);
  }

  /** The done tasks are closed under dependencies. */
  ghost predicate DoneClosed(tasks: seq<Task>, entries: Entries) {
    forall t :: t in tasks && t.id in entries && entries[t.id].status.Done? ==> DependenciesDone(t, entries)
  }

  lemma DependenciesStay(t: Task, entries: Entries, id: string, e: Entry)
    requires DependenciesDone(t, entries) && id in entries && !entries[id].status.Done?
    ensures DependenciesDone(t, entries[id := e])
  {
  }

  lemma DoneClosedKept(cfg: Config, s: RunState, input: CycleInput)
    requires Keyed(cfg.tasks, s.entries) && DistinctIds(cfg.tasks) && DoneClosed(cfg.tasks, s.entries)
    ensures DoneClosed(cfg.tasks, Cycle(cfg, s, input).state.entries)
  {
    CycleChanges(cfg, s, input);
    var turn := Cycle(cfg, s, input);
    if turn.event.Ran? || turn.event.Rehearsed? {
      var chosen, now := Next(cfg.tasks, s.entries, input.now).value, turn.state.entries;
      var e := now[chosen.id];
      assert now == s.entries[chosen.id := e];
      forall t | t in cfg.tasks && t.id in now && now[t.id].status.Done? ensures DependenciesDone(t, now) {
        assert t.id == chosen.id ==> t == chosen;
        DependenciesStay(t, s.entries, chosen.id, e);
      }
    }
  }

  lemma {:induction false} DoneStaysClosed(cfg: Config, s: RunState, inputs: seq<CycleInput>)
    requires Keyed(cfg.tasks, s.entries) && DistinctIds(cfg.tasks) && DoneClosed(cfg.tasks, s.entries)
    ensures DoneClosed(cfg.tasks, After(cfg, s, inputs).entries)
    decreases |inputs|
  {
    if inputs != [] {
      CycleKeys(cfg, s, inputs[0]);
      DoneClosedKept(cfg, s, inputs[0]);
      var turn := Cycle(cfg, s, inputs[0]);
      if !turn.event.Stopped? { DoneStaysClosed(cfg, turn.state, inputs[1..]); }
    }
  }

  // ---------------------------------------------------------------- budget

  /** When a run that started with no retry events has a limit on them, it never counts more than one
      beyond the limit: the cycle after that starts nothing. */
  lemma {:induction false} RetryBudget(cfg: Config, s: RunState, inputs: seq<CycleInput>)
    requires Keyed(cfg.tasks, s.entries) && cfg.limits.retries > 0
    requires s.totals.retryEvents <= cfg.limits.retries + 1
    ensures After(cfg, s, inputs).totals.retryEvents <= cfg.limits.retries + 1
    decreases |inputs|
  {
    if inputs != [] {
      CycleKeys(cfg, s, inputs[0]);
      CycleChanges(cfg, s, inputs[0]);
      var turn := Cycle(cfg, s, inputs[0]);
      if !turn.event.Stopped? {
        assert Retries !in Violations(cfg.limits, s.totals, inputs[0].elapsed);
        RetryBudget(cfg, turn.state, inputs[1..]);
      }
    }
  }

  /** Which cycles count a retry: those whose task goes back to pending, except for an unmet delivery
      contract, which is retried without being counted. */
  lemma RetryCountedExactly(cfg: Config, s: RunState, input: CycleInput)
    requires Keyed(cfg.tasks, s.entries)
    ensures var turn := Cycle(cfg, s, input);
            && s.totals.retryEvents <= turn.state.totals.retryEvents <= s.totals.retryEvents + 1
            && (turn.state.totals.retryEvents > s.totals.retryEvents <==>
                  && turn.event.Ran? && turn.event.id in turn.state.entries
                  && turn.state.entries[turn.event.id].status.Pending?
                  && !(input.report.ok && input.report.status.ReportsDone? && input.report.validation == Valid(false)))
  {
    CycleChanges(cfg, s, input);
  }

  /** The reports of the tasks a run executed, in order. */
  function Reports(cfg: Config, s: RunState, inputs: seq<CycleInput>): seq<Report>
    requires Keyed(cfg.tasks, s.entries)
    decreases |inputs|
  {
    if inputs == [] then [] else
    var turn := Cycle(cfg, s, inputs[0]);
    if turn.event.Stopped? then [] else
    CycleKeys(cfg, s, inputs[0]);
    (if turn.event.Ran? then [inputs[0].report] else []) + Reports(cfg, turn.state, inputs[1..])
  }

  function TokensOf(reports: seq<Report>): nat {
    if reports == [] then 0 else (if reports[0].tokens > 0 then reports[0].tokens else 0) + TokensOf(reports[1..])
  }

  function CostOf(reports: seq<Report>): real {
    if reports == [] then 0.0 else Max(0.0, reports[0].cost) + CostOf(reports[1..])
  }

  lemma ReportsInFront(front: seq<Report>, rest: seq<Report>)
    requires |front| <= 1
    ensures TokensOf(front + rest) == TokensOf(front) + TokensOf(rest)
    ensures CostOf(front + rest) == CostOf(front) + CostOf(rest)
  {
    if front == [] {
      assert front + rest == rest;
    } else {
      assert (front + rest)[1..] == rest && front[1..] == [];
    }
  }

  /** Rounding moves a cost by at most half a millionth. */
  const HALF_MICRO := 0.0000005

  lemma RoundingIsClose(x: real)
    ensures -HALF_MICRO <= RoundSix(x) - x <= HALF_MICRO
  {
    var m := RoundHalfEven(x * 1000000.0) as real;
    assert -0.5 <= m - x * 1000000.0 <= 0.5;
  }

  /** The totals are what the executed tasks reported, but for the rounding of the cost after each of
      them; nothing else is charged and nothing is given back. */
  lemma {:induction false} UsageAccounted(cfg: Config, s: RunState, inputs: seq<CycleInput>)
    requires Keyed(cfg.tasks, s.entries)
    ensures var totals, reports := After(cfg, s, inputs).totals, Reports(cfg, s, inputs);
            && totals.tokens == s.totals.tokens + TokensOf(reports)
            && -HALF_MICRO * |reports| as real
                 <= totals.cost - (s.totals.cost + CostOf(reports)) <= HALF_MICRO * |reports| as real
    decreases |inputs|
  {
    if inputs != [] {
      CycleKeys(cfg, s, inputs[0]);
      CycleChanges(cfg, s, inputs[0]);
      var turn, rest := Cycle(cfg, s, inputs[0]), inputs[1..];
      RoundingIsClose(s.totals.cost + Max(0.0, inputs[0].report.cost));
      if !turn.event.Stopped? {
        UsageAccounted(cfg, turn.state, rest);
        ReportsInFront(if turn.event.Ran? then [inputs[0].report] else [], Reports(cfg, turn.state, rest));
      }
    }
  }

  /** A positive token or cost limit is overrun by at most one task's usage, rounded. */
  lemma {:induction false} UsageBudget(cfg: Config, s: RunState, inputs: seq<CycleInput>, most: nat, dearest: real)
    requires Keyed(cfg.tasks, s.entries) && dearest >= 0.0
    requires forall input :: input in inputs ==> input.report.tokens <= most && input.report.cost <= dearest
    requires cfg.limits.tokens > 0 ==> s.totals.tokens <= cfg.limits.tokens + most
    requires cfg.limits.cost > 0.0 ==> s.totals.cost <= cfg.limits.cost + dearest + HALF_MICRO
    ensures cfg.limits.tokens > 0 ==> After(cfg, s, inputs).totals.tokens <= cfg.limits.tokens + most
    ensures cfg.limits.cost > 0.0 ==> After(cfg, s, inputs).totals.cost <= cfg.limits.cost + dearest + HALF_MICRO
    decreases |inputs|
  {
    if inputs != [] {
      CycleKeys(cfg, s, inputs[0]);
      CycleChanges(cfg, s, inputs[0]);
      var turn := Cycle(cfg, s, inputs[0]);
      assert inputs[0] in inputs;
      if !turn.event.Stopped? {
        NotOver(cfg.limits, s.totals, inputs[0].elapsed);
        RoundingIsClose(s.totals.cost + Max(0.0, inputs[0].report.cost));
        UsageBudget(cfg, turn.state, inputs[1..], most, dearest);
      }
    }
  }

  lemma NotOver(limits: Limits, totals: Totals, elapsed: nat)
    requires Violations(limits, totals, elapsed) == []
    ensures limits.tokens > 0 ==> totals.tokens <= limits.tokens
    ensures limits.cost > 0.0 ==> totals.cost <= limits.cost
  {
  }

  /** How often the cycles of a dry run select a task. */
  function Rehearsals(cfg: Config, s: RunState, inputs: seq<CycleInput>, id: string): nat
    requires Keyed(cfg.tasks, s.entries)
    decreases |inputs|
  {
    if inputs == [] then 0 else
    var turn := Cycle(cfg, s, inputs[0]);
    if turn.event.Stopped? then 0 else
    CycleKeys(cfg, s, inputs[0]);
    (if turn.event == Rehearsed(id) then 1 else 0) + Rehearsals(cfg, turn.state, inputs[1..], id)
  }

  /** A dry run charges nothing and executes nothing, but every cycle that selects a task uses up one of
      its attempts and its cooldown; that is all it changes. */
  lemma {:induction false} DryRunOnlyCounts(cfg: Config, s: RunState, inputs: seq<CycleInput>, id: string)
    requires Keyed(cfg.tasks, s.entries) && cfg.dryRun && id in s.entries
    ensures var r, e, n := After(cfg, s, inputs), s.entries[id], Rehearsals(cfg, s, inputs, id);
            && r.totals == s.totals && Reports(cfg, s, inputs) == []
            && r.entries[id] == if n == 0 then e else e.(attempts := e.attempts + n, notBefore := None)
    decreases |inputs|
  {
    if inputs != [] {
      CycleKeys(cfg, s, inputs[0]);
      CycleChanges(cfg, s, inputs[0]);
      var turn := Cycle(cfg, s, inputs[0]);
      if !turn.event.Stopped? { DryRunOnlyCounts(cfg, turn.state, inputs[1..], id); }
    }
  }

  lemma {:induction false} RehearsalForever(cfg: Config, s: RunState, n: nat) returns (inputs: seq<CycleInput>)
    requires cfg.limits == Unlimited() && cfg.dryRun && |cfg.tasks| == 1 && cfg.tasks[0].dependsOn == []
    requires cfg.tasks[0].id in s.entries && s.entries[cfg.tasks[0].id].status.Pending?
    ensures |inputs| == n && Rehearsals(cfg, s, inputs, cfg.tasks[0].id) == n
    decreases n
  {
    inputs := [];
    if n > 0 {
      var t := cfg.tasks[0];
      var e := s.entries[t.id];
      var input := FailingInput(if e.notBefore.Some? then e.notBefore.value else 0.0);
      NextIsReady(cfg.tasks, s.entries, input.now);
      assert t in cfg.tasks && Ready(t, s.entries, input.now);
      var turn := Cycle(cfg, s, input);
      assert turn == Execute(cfg, s, t.id, input);
      var rest := RehearsalForever(cfg, turn.state, n - 1);
      inputs := [input] + rest;
      assert inputs[1..] == rest;
    }
  }

  // ---------------------------------------------------------------- the work that is left

  /** Tries a task may still take: none once it is done or blocked. */
  function EntryWork(cfg: Config, e: Entry): nat {
    if e.status.Done? || e.status.Blocked? then 0
    else IntMax(0, cfg.maxAttempts - e.attempts) + IntMax(0, cfg.maxRetryable - e.retryableFailures) + 1
  }

  function Work(cfg: Config, tasks: seq<Task>, entries: Entries): nat
    requires Keyed(tasks, entries)
  {
    if tasks == [] then 0
    else Work(cfg, tasks[..|tasks| - 1], entries) + EntryWork(cfg, entries[tasks[|tasks| - 1].id])
  }

  lemma {:induction false} WorkUnchanged(cfg: Config, tasks: seq<Task>, entries: Entries, id: string, e: Entry)
    requires Keyed(tasks, entries) && forall t :: t in tasks ==> t.id != id
    ensures Keyed(tasks, entries[id := e]) && Work(cfg, tasks, entries[id := e]) == Work(cfg, tasks, entries)
  {
    if tasks != [] {
      var init, last := tasks[..|tasks| - 1], tasks[|tasks| - 1];
      assert last in tasks && forall t :: t in init ==> t in tasks;
      WorkUnchanged(cfg, init, entries, id, e);
    }
  }

  lemma {:induction false} WorkUpdate(cfg: Config, tasks: seq<Task>, entries: Entries, k: nat, e: Entry)
    requires Keyed(tasks, entries) && DistinctIds(tasks) && k < |tasks|
    ensures var now := entries[tasks[k].id := e];
            && Keyed(tasks, now)
            && Work(cfg, tasks, now) ==
                 Work(cfg, tasks, entries) - EntryWork(cfg, entries[tasks[k].id]) + EntryWork(cfg, e)
  {
    var init, last := tasks[..|tasks| - 1], tasks[|tasks| - 1];
    if k == |tasks| - 1 {
      WorkUnchanged(cfg, init, entries, last.id, e);
    } else {
      WorkUpdate(cfg, init, entries, k, e);
    }
  }

  /** A validation failure that looks transient: retried without any cap. */
  predicate TransientValidation(report: Report) {
    report.ok && report.status.ReportsDone? && report.validation == Invalid(true)
  }

  lemma SettleSpends(cfg: Config, e: Entry, report: Report, finished: real)
    requires e.status.Pending?
    ensures var after := Settle(cfg, Started(e), report, finished).entry;
            && EntryWork(cfg, after) <= EntryWork(cfg, e)
            && (!TransientValidation(report) ==> EntryWork(cfg, after) < EntryWork(cfg, e))
  {
  }

  /** No cycle adds work, and every executed cycle spends some, except for a validation failure that
      looks transient. */
  lemma CycleSpends(cfg: Config, s: RunState, input: CycleInput)
    requires Keyed(cfg.tasks, s.entries) && DistinctIds(cfg.tasks)
    ensures var turn := Cycle(cfg, s, input);
            && Keyed(cfg.tasks, turn.state.entries)
            && Work(cfg, cfg.tasks, turn.state.entries) <= Work(cfg, cfg.tasks, s.entries)
            && (turn.event.Ran? && !TransientValidation(input.report) ==>
                  Work(cfg, cfg.tasks, turn.state.entries) < Work(cfg, cfg.tasks, s.entries))
  {
    CycleChanges(cfg, s, input);
    var turn := Cycle(cfg, s, input);
    if turn.event.Ran? || turn.event.Rehearsed? {
      var chosen := Next(cfg.tasks, s.entries, input.now).value;
      var k :| 0 <= k < |cfg.tasks| && cfg.tasks[k] == chosen;
      WorkUpdate(cfg, cfg.tasks, s.entries, k, turn.state.entries[chosen.id]);
      if turn.event.Ran? { SettleSpends(cfg, s.entries[chosen.id], input.report, input.finished); }
    }
  }

  /** The reports among these whose validation failure looks transient. */
  function Transients(reports: seq<Report>): nat {
    if reports == [] then 0 else (if TransientValidation(reports[0]) then 1 else 0) + Transients(reports[1..])
  }

  lemma TransientsInFront(front: seq<Report>, rest: seq<Report>)
    requires |front| <= 1
    ensures Transients(front + rest) == Transients(front) + Transients(rest)
  {
    if front == [] {
      assert front + rest == rest;
    } else {
      assert (front + rest)[1..] == rest && front[1..] == [];
    }
  }

  /** However long the run and whatever the agents report, what it executes, and the work it leaves, are
      within the work it started with and one execution more for each transient validation failure. */
  lemma {:induction false} ExecutionsBounded(cfg: Config, s: RunState, inputs: seq<CycleInput>)
    requires Keyed(cfg.tasks, s.entries) && DistinctIds(cfg.tasks)
    ensures var reports := Reports(cfg, s, inputs);
            |reports| + Work(cfg, cfg.tasks, After(cfg, s, inputs).entries)
              <= Work(cfg, cfg.tasks, s.entries) + Transients(reports)
    decreases |inputs|
  {
    if inputs != [] {
      CycleSpends(cfg, s, inputs[0]);
      CycleKeys(cfg, s, inputs[0]);
      var turn := Cycle(cfg, s, inputs[0]);
      if turn.event.Stopped? {
        CycleChanges(cfg, s, inputs[0]);
      } else {
        ExecutionsBounded(cfg, turn.state, inputs[1..]);
        TransientsInFront(if turn.event.Ran? then [inputs[0].report] else [], Reports(cfg, turn.state, inputs[1..]));
      }
    }
  }

  lemma OneMore(n: int, c: int)
    ensures n * c == (n - 1) * c + c
  {
  }

  lemma {:induction false} NewWork(cfg: Config, tasks: seq<Task>, entries: Entries)
    requires Keyed(tasks, entries) && cfg.maxAttempts >= 0 && cfg.maxRetryable >= 0
    requires forall t :: t in tasks && t.id in entries ==> entries[t.id] == Entry(Pending, 0, 0, None)
    ensures Work(cfg, tasks, entries) == |tasks| * (cfg.maxAttempts + cfg.maxRetryable + 1)
  {
    if tasks != [] {
      var init, last := tasks[..|tasks| - 1], tasks[|tasks| - 1];
      assert last in tasks && forall t :: t in init ==> t in tasks;
      NewWork(cfg, init, entries);
      OneMore(|tasks|, cfg.maxAttempts + cfg.maxRetryable + 1);
    }
  }

  /** A run of new tasks executes at most one more than the two retry limits together for each task, and
      one more for each transient validation failure. */
  lemma NewRunBounded(cfg: Config, s: RunState, inputs: seq<CycleInput>)
    requires Keyed(cfg.tasks, s.entries) && DistinctIds(cfg.tasks) && cfg.maxAttempts >= 0 && cfg.maxRetryable >= 0
    requires forall t :: t in cfg.tasks && t.id in s.entries ==> s.entries[t.id] == Entry(Pending, 0, 0, None)
    ensures var reports := Reports(cfg, s, inputs);
            |reports| <= |cfg.tasks| * (cfg.maxAttempts + cfg.maxRetryable + 1) + Transients(reports)
  {
    ExecutionsBounded(cfg, s, inputs);
    NewWork(cfg, cfg.tasks, s.entries);
  }

  // ---------------------------------------------------------------- transient validation has no cap

  function Unlimited(): Limits {
    Limits(0, 0, 0.0, 0)
  }

  /** One task alone, and inputs whose validation keeps failing in a way that looks transient. */
  function FailingInput(now: real): CycleInput {
    CycleInput(0, now, Report(true, ReportsDone, false, 0, 0.0, Invalid(true)), now)
  }

  lemma {:induction false} TransientForever(cfg: Config, s: RunState, n: nat) returns (inputs: seq<CycleInput>)
    requires cfg.limits == Unlimited() && !cfg.dryRun && |cfg.tasks| == 1 && cfg.tasks[0].dependsOn == []
    requires cfg.tasks[0].id in s.entries && s.entries[cfg.tasks[0].id].status.Pending?
    ensures |inputs| == n
    ensures var id := cfg.tasks[0].id;
            && After(cfg, s, inputs).entries[id].status.Pending?
            && After(cfg, s, inputs).entries[id].attempts == s.entries[id].attempts + n
    decreases n
  {
    inputs := [];
    if n > 0 {
      var t := cfg.tasks[0];
      var e := s.entries[t.id];
      var input := FailingInput(if e.notBefore.Some? then e.notBefore.value else 0.0);
      NextIsReady(cfg.tasks, s.entries, input.now);
      assert t in cfg.tasks && Ready(t, s.entries, input.now);
      var turn := Cycle(cfg, s, input);
      assert turn == Execute(cfg, s, t.id, input);
      var rest := TransientForever(cfg, turn.state, n - 1);
      inputs := [input] + rest;
      assert inputs[1..] == rest;
    }
  }

  /** A task out of both retry budgets is retried once more exactly when its validation failed in a way
      that looks transient. */
  lemma CapsBrokenExactly(cfg: Config, e: Entry, report: Report, finished: real)
    requires e.attempts + 1 >= cfg.maxAttempts && e.retryableFailures >= cfg.maxRetryable
    ensures Settle(cfg, Started(e), report, finished).entry.status.Pending? <==> TransientValidation(report)
  {
  }

  /** A task's tries stay within both limits together. */
  predicate WithinLimits(cfg: Config, e: Entry) {
    && 0 <= e.retryableFailures <= IntMax(0, cfg.maxRetryable)
    && e.attempts <= IntMax(1, cfg.maxAttempts) + IntMax(0, cfg.maxRetryable)
    && (e.status.Pending? ==> e.attempts <= e.retryableFailures + IntMax(0, cfg.maxAttempts - 1))
  }

  lemma SettleStaysWithin(cfg: Config, e: Entry, report: Report, finished: real)
    requires WithinLimits(cfg, e) && e.status.Pending? && !TransientValidation(report)
    ensures WithinLimits(cfg, Settle(cfg, Started(e), report, finished).entry)
  {
  }

  /** Without transient validation failures no task is ever started more often than the two limits
      together (and one, when no attempts are allowed). */
  lemma {:induction false} StartsCapped(cfg: Config, s: RunState, inputs: seq<CycleInput>, id: string)
    requires Keyed(cfg.tasks, s.entries) && id in s.entries && WithinLimits(cfg, s.entries[id]) && !cfg.dryRun
    requires forall input :: input in inputs ==> !TransientValidation(input.report)
    ensures WithinLimits(cfg, After(cfg, s, inputs).entries[id])
    decreases |inputs|
  {
    if inputs != [] {
      CycleChanges(cfg, s, inputs[0]);
      CycleKeys(cfg, s, inputs[0]);
      var turn := Cycle(cfg, s, inputs[0]);
      assert inputs[0] in inputs;
      if turn.event == Ran(id) { SettleStaysWithin(cfg, s.entries[id], inputs[0].report, inputs[0].finished); }
      if !turn.event.Stopped? { StartsCapped(cfg, turn.state, inputs[1..], id); }
    }
  }
}
