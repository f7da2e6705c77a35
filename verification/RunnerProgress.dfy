/** Why a run of the autonomy runner stalls, and when it completes (`runner.py`). */
module RunnerProgress {
  import opened Wrappers
  import opened Backoff
  import opened DependencyGraph
  import opened RunnerModel
  import opened RunnerRuns

  // ---------------------------------------------------------------- the dependency graph

  function GraphOf(tasks: seq<Task>): Graph {
    if tasks == [] then map[] else
    GraphOf(tasks[..|tasks| - 1])[tasks[|tasks| - 1].id := tasks[|tasks| - 1].dependsOn]
  }

  lemma {:induction false} GraphHasTask(tasks: seq<Task>, t: Task)
    requires DistinctIds(tasks) && t in tasks
    ensures t.id in GraphOf(tasks) && GraphOf(tasks)[t.id] == t.dependsOn
  {
    var init, last := tasks[..|tasks| - 1], tasks[|tasks| - 1];
    assert tasks == init + [last];
    if t != last { GraphHasTask(init, t); }
  }

  lemma {:induction false} TaskOf(tasks: seq<Task>, id: string) returns (t: Task)
    requires id in GraphOf(tasks)
    ensures t in tasks && t.id == id
  {
    var init, last := tasks[..|tasks| - 1], tasks[|tasks| - 1];
    if id == last.id {
      t := last;
    } else {
      t := TaskOf(init, id);
      assert tasks == init + [last];
    }
  }

  /** Task ids are distinct and exactly the tasks have entries, as loading leaves them; no task is in
      progress at the head of a cycle. */
  ghost predicate AtHead(tasks: seq<Task>, entries: Entries) {
    && DistinctIds(tasks) && Keyed(tasks, entries)
    && (forall id :: id in entries ==> id in GraphOf(tasks))
    && NothingInProgress(entries)
  }

  function Undone(entries: Entries): set<string> {
    set id | id in entries && !entries[id].status.Done?
  }

  /** What a task cannot wait out: it is blocked, or depends on something that is not a task. */
  predicate Hopeless(g: Graph, entries: Entries, id: string)
    requires id in entries && id in g
  {
    entries[id].status.Blocked? || exists d :: d in g[id] && d !in g
  }

  function Causes(g: Graph, entries: Entries): set<string> {
    set id | id in entries && id in g && !entries[id].status.Done? && Hopeless(g, entries, id)
  }

  /** The task, or one of its transitive dependencies, is undone and cannot be waited out. */
  ghost predicate HasCause(g: Graph, entries: Entries, id: string) {
    id in Causes(g, entries) || exists c :: c in Causes(g, entries) && DependsOn(g, id, c)
  }

  // ---------------------------------------------------------------- stalls

  lemma StuckDependency(tasks: seq<Task>, entries: Entries, id: string)
    requires AtHead(tasks, entries) && Stalled(tasks, entries)
    requires id in Undone(entries) && id !in Causes(GraphOf(tasks), entries)
    ensures exists d :: d in GraphOf(tasks)[id] && d in Undone(entries)
  {
    var g := GraphOf(tasks);
    var t := TaskOf(tasks, id);
    GraphHasTask(tasks, t);
    assert !DependenciesDone(t, entries);
    var i :| 0 <= i < |t.dependsOn| && !(t.dependsOn[i] in entries && entries[t.dependsOn[i]].status.Done?);
    var d := t.dependsOn[i];
    assert d in g[id] && d in g;
    var u := TaskOf(tasks, d);
  }

  /** In a stall of acyclic tasks, every task that is not done is blocked or names a missing task, or
      has such a task among its transitive dependencies. */
  lemma {:induction false} StallHasCause(tasks: seq<Task>, entries: Entries, id: string)
    requires AtHead(tasks, entries) && Acyclic(GraphOf(tasks)) && Stalled(tasks, entries)
    requires id in Undone(entries)
    ensures HasCause(GraphOf(tasks), entries, id)
  {
    var g := GraphOf(tasks);
    forall m | m in Undone(entries) && m !in Causes(g, entries) ensures exists d :: d in g[m] && d in Undone(entries) {
      StuckDependency(tasks, entries, m);
    }
    StuckHasCause(g, id, Undone(entries), Causes(g, entries));
  }

  /** Everything a done task reaches is done. */
  lemma {:induction false} DoneReaches(tasks: seq<Task>, entries: Entries, p: seq<string>)
    requires AtHead(tasks, entries) && DoneClosed(tasks, entries)
    requires IsPath(GraphOf(tasks), p) && p[0] in entries && entries[p[0]].status.Done?
    ensures p[|p| - 1] in entries && entries[p[|p| - 1]].status.Done?
    decreases |p|
  {
    if |p| > 1 {
      var t := TaskOf(tasks, p[0]);
      GraphHasTask(tasks, t);
      assert DependenciesDone(t, entries);
      assert p[1] in t.dependsOn;
      assert p[1..][|p| - 2] == p[|p| - 1];
      DoneReaches(tasks, entries, p[1..]);
    }
  }

  lemma CauseStops(tasks: seq<Task>, entries: Entries, t: Task)
    requires AtHead(tasks, entries) && DoneClosed(tasks, entries) && t in tasks
    requires HasCause(GraphOf(tasks), entries, t.id)
    requires t.id in entries && entries[t.id].status.Pending?
    ensures !DependenciesDone(t, entries)
  {
    var g := GraphOf(tasks);
    GraphHasTask(tasks, t);
    if t.id in Causes(g, entries) {
      var d :| d in t.dependsOn && d !in g;
      assert d !in entries;
    } else if DependenciesDone(t, entries) {
      var c :| c in Causes(g, entries) && DependsOn(g, t.id, c);
      var p :| IsPath(g, p) && |p| >= 2 && p[0] == t.id && p[|p| - 1] == c;
      assert p[1] in t.dependsOn;
      assert p[1..][|p| - 2] == c;
      DoneReaches(tasks, entries, p[1..]);
    }
  }

  lemma UndoneMeans(tasks: seq<Task>, entries: Entries)
    requires AtHead(tasks, entries)
    ensures AllDone(tasks, entries) <==> Undone(entries) == {}
  {
    if id :| id in Undone(entries) {
      var t := TaskOf(tasks, id);
      assert !AllDone(tasks, entries);
    }
    if Undone(entries) == {} {
      forall i | 0 <= i < |tasks| ensures entries[tasks[i].id].status.Done? { assert tasks[i].id !in Undone(entries); }
    }
  }

  /** When is there a stall? For acyclic tasks whose done set is closed, exactly when something is not
      done and every undone task is blocked or names a missing task, itself or through its
      transitive dependencies. */
  lemma {:induction false} StalledExactly(tasks: seq<Task>, entries: Entries)
    requires AtHead(tasks, entries) && DoneClosed(tasks, entries) && Acyclic(GraphOf(tasks))
    ensures Stalled(tasks, entries) <==>
              Undone(entries) != {} && forall id :: id in Undone(entries) ==> HasCause(GraphOf(tasks), entries, id)
  {
    UndoneMeans(tasks, entries);
    if Stalled(tasks, entries) {
      forall id | id in Undone(entries) ensures HasCause(GraphOf(tasks), entries, id) {
        StallHasCause(tasks, entries, id);
      }
    } else if Undone(entries) != {} {
      var t :| t in tasks && t.id in entries && entries[t.id].status.Pending? && DependenciesDone(t, entries);
      assert t.id in Undone(entries);
      if HasCause(GraphOf(tasks), entries, t.id) { CauseStops(tasks, entries, t); }
    }
  }

  lemma HeadKept(cfg: Config, s: RunState, inputs: seq<CycleInput>)
    requires AtHead(cfg.tasks, s.entries)
    ensures AtHead(cfg.tasks, After(cfg, s, inputs).entries)
  {
    if id :| id in s.entries {
      SettledForGood(cfg, s, inputs, id);
    }
  }

  /** Exit code 2: every task left undone has a cause that no later cycle of the run could remove. */
  lemma {:induction false} ExitTwoIsReal(cfg: Config, s: RunState, inputs: seq<CycleInput>, id: string)
    requires AtHead(cfg.tasks, s.entries) && Acyclic(GraphOf(cfg.tasks))
    requires ExitCode(cfg, s, inputs) == 2 && id in s.entries
    ensures var g, now := GraphOf(cfg.tasks), After(cfg, s, inputs).entries;
            now[id].status.Done? || HasCause(g, now, id)
  {
    ExitCodeMeans(cfg, s, inputs);
    HeadKept(cfg, s, inputs);
    var now := After(cfg, s, inputs).entries;
    if id in Undone(now) { StallHasCause(cfg.tasks, now, id); }
  }

  // ---------------------------------------------------------------- runs that go well

  predicate Good(report: Report) {
    report.ok && report.status.ReportsDone? && report.validation == Valid(true)
  }

  /** Nothing is blocked and nothing waits. */
  ghost predicate Unhindered(entries: Entries) {
    forall id :: id in entries ==> !entries[id].status.Blocked? && entries[id].notBefore.None?
  }

  lemma NoCauses(cfg: Config, entries: Entries)
    requires AtHead(cfg.tasks, entries) && Closed(GraphOf(cfg.tasks)) && Unhindered(entries)
    ensures Causes(GraphOf(cfg.tasks), entries) == {}
  {
  }

  lemma SomethingRuns(cfg: Config, s: RunState, input: CycleInput)
    requires AtHead(cfg.tasks, s.entries) && Acyclic(GraphOf(cfg.tasks)) && Closed(GraphOf(cfg.tasks))
    requires Unhindered(s.entries) && cfg.limits == Unlimited() && Undone(s.entries) != {}
    ensures Cycle(cfg, s, input).event.Ran? || Cycle(cfg, s, input).event.Rehearsed?
  {
    StopsExactly(cfg, s, input);
    NoCauses(cfg, s.entries);
    UndoneMeans(cfg.tasks, s.entries);
    var id :| id in Undone(s.entries);
    if Stalled(cfg.tasks, s.entries) { StallHasCause(cfg.tasks, s.entries, id); }
    SoonestMeans(cfg.tasks, s.entries);
    assert Soonest(cfg.tasks, s.entries).None?;
  }

  lemma GoodCycle(cfg: Config, s: RunState, input: CycleInput)
    requires AtHead(cfg.tasks, s.entries) && Unhindered(s.entries) && !cfg.dryRun && Good(input.report)
    requires Cycle(cfg, s, input).event.Ran? || Cycle(cfg, s, input).event.Rehearsed?
    ensures var turn := Cycle(cfg, s, input);
            && turn.event.Ran? && turn.event.id in Undone(s.entries)
            && AtHead(cfg.tasks, turn.state.entries) && Unhindered(turn.state.entries)
            && Undone(turn.state.entries) == Undone(s.entries) - {turn.event.id}
  {
    CycleChanges(cfg, s, input);
    var turn := Cycle(cfg, s, input);
    var id := turn.event.id;
    assert turn.state.entries == s.entries[id := Started(s.entries[id]).(status := Done, retryableFailures := 0)];
  }

  /** If every report is good, acyclic tasks that depend only on each other complete, one task a cycle:
      the run exits with 0 exactly when it has one cycle more than tasks to do, and otherwise runs out
      of cycles. */
  lemma {:induction false} GoodRunCompletes(cfg: Config, s: RunState, inputs: seq<CycleInput>)
    requires AtHead(cfg.tasks, s.entries) && Acyclic(GraphOf(cfg.tasks)) && Closed(GraphOf(cfg.tasks))
    requires Unhindered(s.entries) && cfg.limits == Unlimited() && !cfg.dryRun
    requires forall input :: input in inputs ==> Good(input.report)
    ensures ExitCode(cfg, s, inputs) == if |inputs| > |Undone(s.entries)| then 0 else 3
    ensures |Undone(After(cfg, s, inputs).entries)| ==
            if |inputs| > |Undone(s.entries)| then 0 else |Undone(s.entries)| - |inputs|
    decreases |inputs|
  {
    if inputs != [] {
      assert Good(inputs[0].report);
      StopsExactly(cfg, s, inputs[0]);
      CycleChanges(cfg, s, inputs[0]);
      var turn := Cycle(cfg, s, inputs[0]);
      UndoneMeans(cfg.tasks, s.entries);
      if Undone(s.entries) != {} {
        SomethingRuns(cfg, s, inputs[0]);
        GoodCycle(cfg, s, inputs[0]);
        GoodRunCompletes(cfg, turn.state, inputs[1..]);
      }
    }
  }

  // ---------------------------------------------------------------- retries

  /** A task the cycles for `inputs` do not select. */
  predicate Untouched(cfg: Config, s: RunState, inputs: seq<CycleInput>, id: string)
    requires Keyed(cfg.tasks, s.entries)
    decreases |inputs|
  {
    inputs == [] ||
    var turn := Cycle(cfg, s, inputs[0]);
    CycleKeys(cfg, s, inputs[0]);
    turn.event != Ran(id) && turn.event != Rehearsed(id)
    && (turn.event.Stopped? || Untouched(cfg, turn.state, inputs[1..], id))
  }

  lemma {:induction false} UntouchedStays(cfg: Config, s: RunState, inputs: seq<CycleInput>, id: string)
    requires Keyed(cfg.tasks, s.entries) && Untouched(cfg, s, inputs, id) && id in s.entries
    ensures After(cfg, s, inputs).entries[id] == s.entries[id]
    decreases |inputs|
  {
    if inputs != [] {
      CycleChanges(cfg, s, inputs[0]);
      CycleKeys(cfg, s, inputs[0]);
      var turn := Cycle(cfg, s, inputs[0]);
      if !turn.event.Stopped? { UntouchedStays(cfg, turn.state, inputs[1..], id); }
    }
  }

  lemma DelayRecorded(cfg: Config, e: Entry, report: Report, finished: real)
    requires Settle(cfg, Started(e), report, finished).entry.status.Pending?
    ensures var after := Settle(cfg, Started(e), report, finished).entry;
            after.notBefore == Some(finished + DelayAfter(cfg, e, after) as real)
  {
  }

  /** The delay a retry has to wait for: doubled for a retryable failure, otherwise the base forced
      into the range 5 to 60. */
  function DelayAfter(cfg: Config, before: Entry, after: Entry): int {
    if after.retryableFailures > before.retryableFailures
    then IntMin(cfg.backoffMax, cfg.backoffBase * Pow2(IntMax(0, before.retryableFailures)))
    else IntMax(5, IntMin(60, cfg.backoffBase))
  }

  /** A retried task is not selected again before its delay is over, whatever runs in between. */
  lemma {:induction false} RetriesAreSpaced(cfg: Config, s: RunState, first: CycleInput, now: RunState,
                                            between: seq<CycleInput>, later: RunState, again: CycleInput, id: string)
    requires Keyed(cfg.tasks, s.entries) && Cycle(cfg, s, first) == Turn(now, Ran(id)) && id in s.entries
    requires Keyed(cfg.tasks, now.entries) && Untouched(cfg, now, between, id) && later == After(cfg, now, between)
    requires Cycle(cfg, later, again).event == Ran(id) && id in now.entries
    ensures now.entries[id].status.Pending?
    ensures again.now >= first.finished + DelayAfter(cfg, s.entries[id], now.entries[id]) as real
  {
    CycleChanges(cfg, s, first);
    UntouchedStays(cfg, now, between, id);
    CycleChanges(cfg, later, again);
    assert now.entries[id] == Settle(cfg, Started(s.entries[id]), first.report, first.finished).entry;
    DelayRecorded(cfg, s.entries[id], first.report, first.finished);
  }

  lemma DoublingsOfNat(base: nat, k: nat)
    ensures Doublings(base as real, k) == (base * Pow2(k)) as real
  {
    DoublingsIsPower(base as real, k);
    ProductAsReal(base, Pow2(k));
  }

  lemma {:induction false} ProductAsReal(a: nat, b: nat)
    ensures a as real * b as real == (a * b) as real
  {
    if a > 0 {
      ProductAsReal(a - 1, b);
      assert a * b == (a - 1) * b + b;
      assert a as real * b as real == (a - 1) as real * b as real + b as real;
    }
  }

  /** Retryable delays double from the base, never shrink, and stop at the cap; from the second on they
      are the delays of the scheduler's doubling loop. */
  lemma RetryDelaysGrow(base: nat, cap: nat, k: nat)
    requires k >= 1
    ensures RetryDelay(true, k, base, cap) <= RetryDelay(true, k + 1, base, cap) <= cap
    ensures RetryDelay(true, k + 1, base, cap) as real == LoopBackoff(base as real, cap as real, k)
  {
    LoopIsCapped(base as real, cap as real, k);
    DoublingsOfNat(base, k);
    Doubles(base, Pow2(k - 1));
  }

  lemma Doubles(base: nat, p: nat)
    ensures base * (2 * p) == base * p + base * p >= base * p
  {
  }
}
