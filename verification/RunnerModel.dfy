/** The autonomy runner's cycle loop (`main` in `runner.py`) as a step on task entries and budget
    totals. What the agent and the validations report, and the clock, are inputs of each cycle. */
module RunnerModel {
  import opened Wrappers
  import opened Ordering
  import opened Backoff

  datatype Owner = Codex | Gemini

  datatype Task = Task(id: string, owner: Owner, priority: int, dependsOn: seq<string>)

  datatype Status = Pending | InProgress | Done | Blocked

  datatype Entry = Entry(status: Status, attempts: int, retryableFailures: int, notBefore: Option<real>)

  type Entries = map<string, Entry>

  /** A limit of zero is switched off. */
  datatype Limits = Limits(runtime: nat, tokens: nat, cost: real, retries: nat)

  datatype Limit = Runtime | Tokens | Cost | Retries

  datatype Config = Config(
    tasks: seq<Task>,
    maxAttempts: int,
    maxRetryable: int,
    backoffBase: int,
    backoffMax: int,
    idleSleep: int,
    dryRun: bool,
    limits: Limits)

  datatype ReportStatus = ReportsDone | ReportsPartial | ReportsBlocked

  /** Whether the validation commands passed, and then whether the delivery contract is met; or how
      they failed. */
  datatype Validation = Valid(contractMet: bool) | Invalid(retryable: bool)

  datatype Report = Report(
    ok: bool,
    status: ReportStatus,
    retryableBlocker: bool,
    tokens: int,
    cost: real,
    validation: Validation)

  datatype CycleInput = CycleInput(elapsed: nat, now: real, report: Report, finished: real)

  datatype Totals = Totals(tokens: int, cost: real, retryEvents: nat)

  datatype RunState = RunState(entries: Entries, totals: Totals)

  datatype Event = Idled(seconds: int) | Rehearsed(id: string) | Ran(id: string) | Stopped(code: int)

  datatype Turn = Turn(state: RunState, event: Event)

  ghost predicate DistinctIds(tasks: seq<Task>) {
    forall i, j :: 0 <= i < j < |tasks| ==> tasks[i].id != tasks[j].id
  }

  /** Every task has an entry. */
  predicate Keyed(tasks: seq<Task>, entries: Entries) {
    forall i :: 0 <= i < |tasks| ==> tasks[i].id in entries
  }

  // ---------------------------------------------------------------- selection

  predicate DependenciesDone(t: Task, entries: Entries) {
    forall i :: 0 <= i < |t.dependsOn| ==> t.dependsOn[i] in entries && entries[t.dependsOn[i]].status.Done?
  }

  predicate CooledDown(e: Entry, now: real) {
    e.notBefore.None? || now >= e.notBefore.value
  }

  predicate Ready(t: Task, entries: Entries, now: real)
    requires t.id in entries
  {
    entries[t.id].status.Pending? && CooledDown(entries[t.id], now) && DependenciesDone(t, entries)
  }

  function OwnerRank(o: Owner): int {
    if o.Codex? then 0 else 1
  }

  /** The sort key: priority, then owner rank, then id. */
  predicate Precedes(t: Task, u: Task) {
    || t.priority < u.priority
    || (t.priority == u.priority
        && (OwnerRank(t.owner) < OwnerRank(u.owner) || (t.owner == u.owner && StringLess(t.id, u.id))))
  }

  function ReadyTasks(tasks: seq<Task>, entries: Entries, now: real): seq<Task>
    requires Keyed(tasks, entries)
  {
    if tasks == [] then [] else
    var rest, last := ReadyTasks(tasks[..|tasks| - 1], entries, now), tasks[|tasks| - 1];
    if Ready(last, entries, now) then rest + [last] else rest
  }

  function Next(tasks: seq<Task>, entries: Entries, now: real): Option<Task>
    requires Keyed(tasks, entries)
  {
    var ready := ReadyTasks(tasks, entries, now);
    if ready == [] then None else
    SortPermutes(ready, Precedes);
    Some(Sort(ready, Precedes)[0])
  }

  /** Pending, dependencies done, and a cooldown on record. */
  predicate Waits(t: Task, entries: Entries)
    requires t.id in entries
  {
    entries[t.id].status.Pending? && DependenciesDone(t, entries) && entries[t.id].notBefore.Some?
  }

  function Soonest(tasks: seq<Task>, entries: Entries): Option<real>
    requires Keyed(tasks, entries)
  {
    if tasks == [] then None else
    var rest, last := Soonest(tasks[..|tasks| - 1], entries), tasks[|tasks| - 1];
    if Waits(last, entries) && (rest.None? || entries[last.id].notBefore.value < rest.value) then
      entries[last.id].notBefore
    else rest
  }

  predicate AllDone(tasks: seq<Task>, entries: Entries)
    requires Keyed(tasks, entries)
  {
    forall i :: 0 <= i < |tasks| ==> entries[tasks[i].id].status.Done?
  }

  // ---------------------------------------------------------------- budget

  function Violations(limits: Limits, totals: Totals, elapsed: nat): seq<Limit> {
    (if limits.runtime > 0 && elapsed > limits.runtime then [Runtime] else []) +
    (if limits.tokens > 0 && totals.tokens > limits.tokens then [Tokens] else []) +
    (if limits.cost > 0.0 && totals.cost > limits.cost then [Cost] else []) +
    (if limits.retries > 0 && totals.retryEvents > limits.retries then [Retries] else [])
  }

  /** Nearest integer; a half goes to the even neighbour. */
  function RoundHalfEven(x: real): int {
    var below := x.Floor;
    var rest := x - below as real;
    if rest < 0.5 || (rest == 0.5 && below % 2 == 0) then below else below + 1
  }

  /** Rounded to six decimals. */
  function RoundSix(x: real): real {
    RoundHalfEven(x * 1000000.0) as real / 1000000.0
  }

  function Spent(totals: Totals, report: Report): Totals {
    totals.(tokens := totals.tokens + if report.tokens > 0 then report.tokens else 0,
            cost := RoundSix(totals.cost + Max(0.0, report.cost)))
  }

  // ---------------------------------------------------------------- settling a task

  function IntMin(a: int, b: int): int {
    if a <= b then a else b
  }

  function IntMax(a: int, b: int): int {
    if a >= b then a else b
  }

  /** Delay before the next try; `failures` counts this failure if it is retryable. */
  function RetryDelay(retryable: bool, failures: int, base: int, cap: int): int {
    if retryable then IntMin(cap, base * Pow2(IntMax(0, failures - 1))) else IntMax(1, base)
  }

  function Retried(e: Entry, retryable: bool, base: int, cap: int, finished: real): Entry {
    var failures := if retryable then e.retryableFailures + 1 else e.retryableFailures;
    e.(status := Pending, retryableFailures := failures,
       notBefore := Some(finished + RetryDelay(retryable, failures, base, cap) as real))
  }

  /** Retry of a failure that counts as transient. */
  function Backed(cfg: Config, e: Entry, finished: real): Entry {
    Retried(e, true, cfg.backoffBase, cfg.backoffMax, finished)
  }

  /** Retry within the attempt limit, with the backoff settings forced into range. */
  function Again(cfg: Config, e: Entry, finished: real): Entry {
    Retried(e, false, IntMax(5, IntMin(60, cfg.backoffBase)), IntMax(60, IntMin(600, cfg.backoffMax)), finished)
  }

  datatype Settlement = Settlement(entry: Entry, retryEvent: bool)

  function AgainOrBlocked(cfg: Config, e: Entry, finished: real, counted: bool): Settlement {
    if e.attempts < cfg.maxAttempts then Settlement(Again(cfg, e, finished), counted)
    else Settlement(e.(status := Blocked), false)
  }

  /** What becomes of a started task's entry, and whether the retry is counted. */
  function Settle(cfg: Config, e: Entry, report: Report, finished: real): Settlement {
    if !report.ok || report.status.ReportsBlocked? then
      if report.retryableBlocker && e.retryableFailures < cfg.maxRetryable then
        Settlement(Backed(cfg, e, finished), true)
      else AgainOrBlocked(cfg, e, finished, true)
    else if report.status.ReportsDone? then
      match report.validation
      case Valid(true) => Settlement(e.(status := Done, retryableFailures := 0, notBefore := None), false)
      case Valid(false) => AgainOrBlocked(cfg, e, finished, false)
      case Invalid(true) => Settlement(Backed(cfg, e, finished), true)
      case Invalid(false) => AgainOrBlocked(cfg, e, finished, true)
    else AgainOrBlocked(cfg, e, finished, true)
  }

  function Started(e: Entry): Entry {
    e.(status := InProgress, attempts := e.attempts + 1, notBefore := None)
  }

  // ---------------------------------------------------------------- one cycle

  function Sleep(cfg: Config, soonest: real, now: real): int {
    IntMin(cfg.idleSleep, IntMax(1, (soonest - now).Floor))
  }

  /** The selected task's part of a cycle. */
  function Execute(cfg: Config, s: RunState, id: string, input: CycleInput): Turn
    requires id in s.entries
  {
    var e := Started(s.entries[id]);
    if cfg.dryRun then Turn(s.(entries := s.entries[id := e.(status := Pending)]), Rehearsed(id))
    else
      var settled, totals := Settle(cfg, e, input.report, input.finished), Spent(s.totals, input.report);
      Turn(RunState(s.entries[id := settled.entry],
                    if settled.retryEvent then totals.(retryEvents := totals.retryEvents + 1) else totals),
           Ran(id))
  }

  function Cycle(cfg: Config, s: RunState, input: CycleInput): Turn
    requires Keyed(cfg.tasks, s.entries)
  {
    if Violations(cfg.limits, s.totals, input.elapsed) != [] then Turn(s, Stopped(4))
    else if AllDone(cfg.tasks, s.entries) then Turn(s, Stopped(0))
    else match Next(cfg.tasks, s.entries, input.now)
      case Some(t) =>
        NextIsReady(cfg.tasks, s.entries, input.now);
        Execute(cfg, s, t.id, input)
      case None =>
        var soonest := Soonest(cfg.tasks, s.entries);
        if soonest.Some? && soonest.value > input.now then Turn(s, Idled(Sleep(cfg, soonest.value, input.now)))
        else Turn(s, Stopped(2))
  }

  // ---------------------------------------------------------------- the selected task

  lemma {:induction false} ReadyAreReady(tasks: seq<Task>, entries: Entries, now: real)
    requires Keyed(tasks, entries)
    ensures forall t :: t in ReadyTasks(tasks, entries, now) <==>
                          t in tasks && t.id in entries && Ready(t, entries, now)
  {
    if tasks != [] {
      ReadyAreReady(tasks[..|tasks| - 1], entries, now);
      assert tasks == tasks[..|tasks| - 1] + [tasks[|tasks| - 1]];
    }
  }

  lemma NextIsReady(tasks: seq<Task>, entries: Entries, now: real)
    requires Keyed(tasks, entries)
    ensures var next := Next(tasks, entries, now);
            && (next.Some? ==> next.value in tasks && next.value.id in entries && Ready(next.value, entries, now))
            && (next.None? <==> forall t :: t in tasks ==> t.id in entries && !Ready(t, entries, now))
  {
    var ready := ReadyTasks(tasks, entries, now);
    ReadyAreReady(tasks, entries, now);
    if ready != [] {
      SortPermutes(ready, Precedes);
      assert Sort(ready, Precedes)[0] in ready;
    } else {
      forall t | t in tasks ensures t.id in entries && !Ready(t, entries, now) {
        assert t !in ready;
      }
    }
  }

  lemma PrecedesIsOrder()
    ensures IsStrict(Precedes)
  {
    forall t, u ensures Precedes(t, u) ==> !Precedes(u, t) { StringTotal(t.id, u.id); }
    forall t, u, v | Precedes(t, u) && Precedes(u, v) ensures Precedes(t, v) {
      if StringLess(t.id, u.id) && StringLess(u.id, v.id) { StringTransitive(t.id, u.id, v.id); }
    }
  }

  lemma PrecedesTotal(t: Task, u: Task)
    requires t.id != u.id
    ensures Precedes(t, u) || Precedes(u, t)
  {
    StringTotal(t.id, u.id);
  }

  lemma {:induction false} ReadyDistinct(tasks: seq<Task>, entries: Entries, now: real)
    requires Keyed(tasks, entries) && DistinctIds(tasks)
    ensures DistinctIds(ReadyTasks(tasks, entries, now))
  {
    if tasks != [] {
      ReadyDistinct(tasks[..|tasks| - 1], entries, now);
      ReadyAreReady(tasks[..|tasks| - 1], entries, now);
    }
  }

  /** The task taken is the unique ready task that precedes every other ready task. */
  lemma NextIsLeast(tasks: seq<Task>, entries: Entries, now: real, t: Task)
    requires Keyed(tasks, entries) && DistinctIds(tasks)
    ensures Next(tasks, entries, now) == Some(t) <==>
              && t in tasks && t.id in entries && Ready(t, entries, now)
              && forall u :: u in tasks && u.id in entries && Ready(u, entries, now) && u != t ==>
                   || t.priority < u.priority
                   || (t.priority == u.priority && t.owner.Codex? && u.owner.Gemini?)
                   || (t.priority == u.priority && t.owner == u.owner && StringLess(t.id, u.id))
  {
    NextIsReady(tasks, entries, now);
    ReadyAreReady(tasks, entries, now);
    var ready := ReadyTasks(tasks, entries, now);
    if ready != [] {
      LeastReady(tasks, entries, now);
      PrecedesIsOrder();
      var first := Next(tasks, entries, now).value;
      assert Precedes(t, first) ==> !Precedes(first, t);
      StringTotal(t.id, first.id);
    }
  }

  lemma LeastReady(tasks: seq<Task>, entries: Entries, now: real)
    requires Keyed(tasks, entries) && DistinctIds(tasks) && ReadyTasks(tasks, entries, now) != []
    ensures var first := Next(tasks, entries, now).value;
            forall u :: u in ReadyTasks(tasks, entries, now) && u != first ==> Precedes(first, u)
  {
    var ready := ReadyTasks(tasks, entries, now);
    ReadyDistinct(tasks, entries, now);
    forall i, j | 0 <= i < j < |ready| ensures Precedes(ready[i], ready[j]) || Precedes(ready[j], ready[i]) {
      PrecedesTotal(ready[i], ready[j]);
    }
    PrecedesIsOrder();
    SortAscending(ready, Precedes);
    SortPermutes(ready, Precedes);
    var sorted := Sort(ready, Precedes);
    forall u | u in ready && u != sorted[0] ensures Precedes(sorted[0], u) {
      assert u in sorted;
    }
  }

  lemma {:induction false} SoonestMeans(tasks: seq<Task>, entries: Entries)
    requires Keyed(tasks, entries)
    ensures var soonest := Soonest(tasks, entries);
            && (soonest.Some? ==> exists t :: t in tasks && t.id in entries && Waits(t, entries)
                                              && entries[t.id].notBefore == soonest)
            && (forall t :: t in tasks && t.id in entries && Waits(t, entries) ==>
                  soonest.Some? && soonest.value <= entries[t.id].notBefore.value)
  {
    if tasks != [] {
      var init, last := tasks[..|tasks| - 1], tasks[|tasks| - 1];
      SoonestMeans(init, entries);
      assert tasks == init + [last];
      assert last in tasks;
      var soonest := Soonest(tasks, entries);
      if soonest.Some? && soonest != Soonest(init, entries) { assert Waits(last, entries); }
    }
  }
}
