/** Saved state and resumption of the autonomy runner (`load_state`, `apply_checkpoint_state` and the
    `persist` calls of `main` in `runner.py`). */
module RunnerCheckpoint {
  import opened Wrappers
  import opened RunnerModel
  import opened RunnerRuns

  // ---------------------------------------------------------------- stored entries

  /** A stored status is one of the four, or some other text. */
  datatype StoredStatus = Known(status: Status) | Unknown

  datatype StoredNumber = Number(n: int) | NotANumber

  /** What is stored under a task id; any field may be missing. */
  datatype Stored =
    | NotAnObject
    | Fields(status: Option<StoredStatus>, attempts: Option<StoredNumber>, failures: Option<StoredNumber>,
             notBefore: Option<Option<real>>)

  type Store = map<string, Stored>

  function SafeInt(n: StoredNumber): int {
    match n
    case Number(k) => k
    case NotANumber => 0
  }

  /** An interrupted task is pending again. */
  function RecoveredStatus(s: StoredStatus): Status {
    match s
    case Known(InProgress) => Pending
    case Known(status) => status
    case Unknown => Pending
  }

  /** The entry read from stored fields; a missing field keeps its value in `otherwise`. */
  function Read(raw: Stored, otherwise: Entry): Entry
    requires raw.Fields?
  {
    Entry(RecoveredStatus(if raw.status.Some? then raw.status.value else Known(otherwise.status)),
          if raw.attempts.Some? then SafeInt(raw.attempts.value) else otherwise.attempts,
          if raw.failures.Some? then SafeInt(raw.failures.value) else otherwise.retryableFailures,
          if raw.notBefore.Some? then raw.notBefore.value else otherwise.notBefore)
  }

  const NEW_ENTRY := Entry(Pending, 0, 0, None)

  /** What saving writes. */
  function Write(e: Entry): Stored {
    Fields(Some(Known(e.status)), Some(Number(e.attempts)), Some(Number(e.retryableFailures)), Some(e.notBefore))
  }

  function Written(entries: Entries): Store {
    map id | id in entries :: Write(entries[id])
  }

  function RecoveredEntry(e: Entry): Entry {
    if e.status.InProgress? then e.(status := Pending) else e
  }

  /** The state with what was in progress turned to pending. */
  function Recovered(entries: Entries): Entries {
    map id | id in entries :: RecoveredEntry(entries[id])
  }

  // ---------------------------------------------------------------- load_state

  predicate Loadable(tasks: seq<Task>, store: Store) {
    forall i :: 0 <= i < |tasks| ==> tasks[i].id in store ==> store[tasks[i].id].Fields?
  }

  function LoadedEntry(store: Store, id: string): Entry {
    if id in store && store[id].Fields? then Read(store[id], NEW_ENTRY) else NEW_ENTRY
  }

  function TaskIds(tasks: seq<Task>): set<string> {
    set i | 0 <= i < |tasks| :: tasks[i].id
  }

  /** Reading a stored entry that is not an object raises. */
  method LoadState(tasks: seq<Task>, store: Store) returns (r: Result<Entries>)
    ensures r.Success? <==> Loadable(tasks, store)
    ensures r.Success? ==> r.value.Keys == TaskIds(tasks) && Keyed(tasks, r.value) && NothingInProgress(r.value)
    ensures r.Success? ==> forall id :: id in r.value ==> r.value[id] == LoadedEntry(store, id)
  {
    var out: Entries := map[];
    for k := 0 to |tasks|
      invariant Loadable(tasks[..k], store)
      invariant out.Keys == TaskIds(tasks[..k])
      invariant forall id :: id in out ==> out[id] == LoadedEntry(store, id)
    {
      var id := tasks[k].id;
      if id in store && store[id].NotAnObject? { return Failure("AttributeError"); }
      out := out[id := if id in store then Read(store[id], NEW_ENTRY) else NEW_ENTRY];
      assert TaskIds(tasks[..k + 1]) == TaskIds(tasks[..k]) + {id};
    }
    assert tasks[..|tasks|] == tasks;
    return Success(out);
  }

  /** What is stored for a task, if that is an object. */
  predicate HasFields(store: Store, id: string) {
    id in store && store[id].Fields?
  }

  /** What loading makes of the stored fields of a task: its status is done or blocked exactly if that is
      stored, and pending for anything else, stored or not; its numbers are those stored, and 0 if they
      are missing or no numbers; its cooldown is the one stored, if any. */
  lemma LoadedExactly(store: Store, id: string)
    ensures var e := LoadedEntry(store, id);
            && (e.status == Done <==> HasFields(store, id) && store[id].status == Some(Known(Done)))
            && (e.status == Blocked <==> HasFields(store, id) && store[id].status == Some(Known(Blocked)))
            && e.status != InProgress
            && (HasFields(store, id) ==>
                  && (forall n :: store[id].attempts == Some(Number(n)) ==> e.attempts == n)
                  && (store[id].attempts in {None, Some(NotANumber)} ==> e.attempts == 0)
                  && (forall n :: store[id].failures == Some(Number(n)) ==> e.retryableFailures == n)
                  && (store[id].failures in {None, Some(NotANumber)} ==> e.retryableFailures == 0)
                  && (store[id].notBefore.Some? ==> e.notBefore == store[id].notBefore.value)
                  && (store[id].notBefore.None? ==> e.notBefore == None))
            && (!HasFields(store, id) ==> e.attempts == 0 && e.retryableFailures == 0 && e.notBefore == None)
  {
  }

  /** Saving and loading: everything comes back, with what was in progress turned to pending. */
  lemma LoadRestores(tasks: seq<Task>, entries: Entries, id: string)
    requires id in entries
    ensures Loadable(tasks, Written(entries))
    ensures LoadedEntry(Written(entries), id) == RecoveredEntry(entries[id])
  {
  }

  // ---------------------------------------------------------------- apply_checkpoint_state

  function Merged(entries: Entries, store: Store): Entries {
    map id | id in entries :: if id in store && store[id].Fields? then Read(store[id], entries[id]) else entries[id]
  }

  /** What applying a checkpoint makes of a task: nothing changes if the checkpoint has no object for it;
      otherwise each field is the stored one, unless it is missing, and interrupted or unknown statuses
      are pending. */
  lemma MergedExactly(entries: Entries, store: Store, id: string)
    requires id in entries
    ensures Merged(entries, store).Keys == entries.Keys
    ensures var e, was := Merged(entries, store)[id], entries[id];
            && (!HasFields(store, id) ==> e == was)
            && (HasFields(store, id) ==>
                  && (e.status == Done <==> store[id].status == Some(Known(Done))
                                            || (store[id].status.None? && was.status == Done))
                  && (e.status == Blocked <==> store[id].status == Some(Known(Blocked))
                                               || (store[id].status.None? && was.status == Blocked))
                  && e.status != InProgress
                  && (forall n :: store[id].attempts == Some(Number(n)) ==> e.attempts == n)
                  && (store[id].attempts == Some(NotANumber) ==> e.attempts == 0)
                  && (store[id].attempts.None? ==> e.attempts == was.attempts)
                  && (forall n :: store[id].failures == Some(Number(n)) ==> e.retryableFailures == n)
                  && (store[id].failures == Some(NotANumber) ==> e.retryableFailures == 0)
                  && (store[id].failures.None? ==> e.retryableFailures == was.retryableFailures)
                  && (store[id].notBefore.Some? ==> e.notBefore == store[id].notBefore.value)
                  && (store[id].notBefore.None? ==> e.notBefore == was.notBefore))
  {
  }

  /** A checkpoint written for the same tasks replaces the loaded state altogether. */
  lemma CheckpointReplaces(current: Entries, entries: Entries)
    requires current.Keys == entries.Keys
    ensures Merged(current, Written(entries)) == Recovered(entries)
  {
  }

  // ---------------------------------------------------------------- what a run saves

  /** The states saved during a cycle, in order. */
  function SavedIn(cfg: Config, s: RunState, input: CycleInput): seq<Entries>
    requires Keyed(cfg.tasks, s.entries)
  {
    var turn := Cycle(cfg, s, input);
    match turn.event
    case Stopped(code) => if code == 4 then [] else [s.entries]
    case Idled(_) => []
    case Rehearsed(id) => CycleChanges(cfg, s, input); [s.entries[id := Started(s.entries[id])], turn.state.entries]
    case Ran(id) => CycleChanges(cfg, s, input); [s.entries[id := Started(s.entries[id])], turn.state.entries]
  }

  /** The states saved by the cycles of a run, and at the end if it ran out of cycles. */
  function SavesAfter(cfg: Config, s: RunState, inputs: seq<CycleInput>): seq<Entries>
    requires Keyed(cfg.tasks, s.entries)
    decreases |inputs|
  {
    if inputs == [] then [s.entries] else
    var turn := Cycle(cfg, s, inputs[0]);
    if turn.event.Stopped? then SavedIn(cfg, s, inputs[0]) else
    CycleKeys(cfg, s, inputs[0]);
    SavedIn(cfg, s, inputs[0]) + SavesAfter(cfg, turn.state, inputs[1..])
  }

  /** The run saves the state it starts with. */
  function Saves(cfg: Config, s: RunState, inputs: seq<CycleInput>): seq<Entries>
    requires Keyed(cfg.tasks, s.entries)
  {
    [s.entries] + SavesAfter(cfg, s, inputs)
  }

  /** A run is its first cycle and then the rest. */
  lemma RunUnfolds(cfg: Config, s: RunState, inputs: seq<CycleInput>)
    requires Keyed(cfg.tasks, s.entries) && inputs != []
    ensures var turn, rest, here := Cycle(cfg, s, inputs[0]), inputs[1..], SavedIn(cfg, s, inputs[0]);
            && Keyed(cfg.tasks, turn.state.entries)
            && (if turn.event.Stopped? then
                  && After(cfg, s, inputs) == turn.state && ExitCode(cfg, s, inputs) == turn.event.code
                  && SavesAfter(cfg, s, inputs) == here
                else
                  && After(cfg, s, inputs) == After(cfg, turn.state, rest)
                  && ExitCode(cfg, s, inputs) == ExitCode(cfg, turn.state, rest)
                  && SavesAfter(cfg, s, inputs) == here + SavesAfter(cfg, turn.state, rest))
  {
    CycleKeys(cfg, s, inputs[0]);
  }

  /** A loop that has reached `s` and saved `saves`, with `rest` to go, will end in `final` with `code`
      and `total` saved. */
  ghost predicate OnRun(cfg: Config, final: RunState, code: int, total: seq<Entries>,
                        s: RunState, rest: seq<CycleInput>, saves: seq<Entries>)
    requires Keyed(cfg.tasks, s.entries)
  {
    After(cfg, s, rest) == final && ExitCode(cfg, s, rest) == code && saves + SavesAfter(cfg, s, rest) == total
  }

  lemma OnRunStep(cfg: Config, final: RunState, code: int, total: seq<Entries>,
                  s: RunState, rest: seq<CycleInput>, saves: seq<Entries>)
    requires Keyed(cfg.tasks, s.entries) && rest != [] && OnRun(cfg, final, code, total, s, rest, saves)
    ensures var turn, now := Cycle(cfg, s, rest[0]), saves + SavedIn(cfg, s, rest[0]);
            && Keyed(cfg.tasks, turn.state.entries)
            && (if turn.event.Stopped? then final == turn.state && code == turn.event.code && now == total
                else OnRun(cfg, final, code, total, turn.state, rest[1..], now))
  {
    RunUnfolds(cfg, s, rest);
    var turn := Cycle(cfg, s, rest[0]);
    if !turn.event.Stopped? {
      Concat(saves, SavedIn(cfg, s, rest[0]), SavesAfter(cfg, turn.state, rest[1..]));
    }
  }

  lemma Concat<T>(a: seq<T>, b: seq<T>, c: seq<T>)
    ensures a + (b + c) == (a + b) + c
  {
  }

  lemma OnRunStart(cfg: Config, start: RunState, all: seq<CycleInput>, before: seq<Entries>)
    requires Keyed(cfg.tasks, start.entries)
    ensures OnRun(cfg, After(cfg, start, all), ExitCode(cfg, start, all), before + Saves(cfg, start, all),
                  start, all, before + [start.entries])
  {
    Concat(before, [start.entries], SavesAfter(cfg, start, all));
  }

  lemma OnRunEnd(cfg: Config, final: RunState, code: int, total: seq<Entries>, s: RunState, saves: seq<Entries>)
    requires Keyed(cfg.tasks, s.entries) && OnRun(cfg, final, code, total, s, [], saves)
    ensures final == s && code == 3 && saves + [s.entries] == total
  {
  }

  /** A saved state is the head of cycle `n` of the run, or that head with the selected task started. */
  ghost predicate SavedAt(cfg: Config, s: RunState, inputs: seq<CycleInput>, saved: Entries, n: nat,
                          chosen: Option<string>)
    requires Keyed(cfg.tasks, s.entries)
  {
    && n <= |inputs|
    && FromHead(After(cfg, s, inputs[..n]).entries, saved, chosen)
  }

  predicate FromHead(head: Entries, saved: Entries, chosen: Option<string>) {
    match chosen
    case None => saved == head
    case Some(id) => id in head && head[id].status.Pending? && saved == head[id := Started(head[id])]
  }

  lemma HeadLater(cfg: Config, s: RunState, inputs: seq<CycleInput>, n: nat)
    requires Keyed(cfg.tasks, s.entries) && inputs != [] && n <= |inputs| - 1
    requires !Cycle(cfg, s, inputs[0]).event.Stopped?
    ensures Keyed(cfg.tasks, Cycle(cfg, s, inputs[0]).state.entries)
    ensures After(cfg, s, inputs[..n + 1]) == After(cfg, Cycle(cfg, s, inputs[0]).state, inputs[1..][..n])
  {
    CycleKeys(cfg, s, inputs[0]);
    assert inputs[..n + 1][0] == inputs[0] && inputs[..n + 1][1..] == inputs[1..][..n];
  }

  lemma SavedHere(cfg: Config, s: RunState, inputs: seq<CycleInput>, saved: Entries)
    returns (n: nat, chosen: Option<string>)
    requires Keyed(cfg.tasks, s.entries) && inputs != [] && saved in SavedIn(cfg, s, inputs[0])
    ensures SavedAt(cfg, s, inputs, saved, n, chosen)
  {
    CycleChanges(cfg, s, inputs[0]);
    var turn := Cycle(cfg, s, inputs[0]);
    assert inputs[..0] == [];
    if saved == s.entries {
      n, chosen := 0, None;
    } else if saved == turn.state.entries {
      HeadLater(cfg, s, inputs, 0);
      assert inputs[1..][..0] == [];
      n, chosen := 1, None;
    } else {
      n, chosen := 0, Some(turn.event.id);
    }
  }

  lemma SavedLater(cfg: Config, s: RunState, inputs: seq<CycleInput>, saved: Entries, n: nat, chosen: Option<string>)
    requires Keyed(cfg.tasks, s.entries) && inputs != [] && !Cycle(cfg, s, inputs[0]).event.Stopped?
    requires Keyed(cfg.tasks, Cycle(cfg, s, inputs[0]).state.entries)
    requires SavedAt(cfg, Cycle(cfg, s, inputs[0]).state, inputs[1..], saved, n, chosen)
    ensures SavedAt(cfg, s, inputs, saved, n + 1, chosen)
  {
    HeadLater(cfg, s, inputs, n);
  }

  lemma {:induction false} SavedStates(cfg: Config, s: RunState, inputs: seq<CycleInput>, saved: Entries)
    returns (n: nat, chosen: Option<string>)
    requires Keyed(cfg.tasks, s.entries) && saved in SavesAfter(cfg, s, inputs)
    ensures SavedAt(cfg, s, inputs, saved, n, chosen)
    decreases |inputs|
  {
    if inputs == [] {
      n, chosen := 0, None;
    } else {
      RunUnfolds(cfg, s, inputs);
      if saved in SavedIn(cfg, s, inputs[0]) {
        n, chosen := SavedHere(cfg, s, inputs, saved);
      } else {
        n, chosen := SavedThere(cfg, s, inputs, Cycle(cfg, s, inputs[0]).state, inputs[1..], saved);
      }
    }
  }

  lemma {:induction false} SavedThere(cfg: Config, s: RunState, inputs: seq<CycleInput>, now: RunState,
                                      rest: seq<CycleInput>, saved: Entries)
    returns (n: nat, chosen: Option<string>)
    requires Keyed(cfg.tasks, s.entries) && Keyed(cfg.tasks, now.entries) && inputs != [] && rest == inputs[1..]
    requires now == Cycle(cfg, s, inputs[0]).state && !Cycle(cfg, s, inputs[0]).event.Stopped?
    requires saved in SavesAfter(cfg, now, rest)
    ensures SavedAt(cfg, s, inputs, saved, n, chosen)
    decreases |inputs|, 0
  {
    var later, which := SavedStates(cfg, now, rest, saved);
    SavedLater(cfg, s, inputs, saved, later, which);
    n, chosen := later + 1, which;
  }

  /** What a cycle saves: before an agent is run, the start of its task, and after the cycle its outcome;
      the state when the run completes or stalls; and nothing while it idles or when a budget stops it. */
  lemma SavesExactly(cfg: Config, s: RunState, input: CycleInput)
    requires Keyed(cfg.tasks, s.entries)
    ensures var turn, saves := Cycle(cfg, s, input), SavedIn(cfg, s, input);
            && (turn.event.Ran? || turn.event.Rehearsed? ==>
                  && turn.event.id in s.entries
                  && var e := s.entries[turn.event.id];
                     saves == [s.entries[turn.event.id := Entry(InProgress, e.attempts + 1, e.retryableFailures, None)],
                               turn.state.entries])
            && (turn.event == Stopped(0) || turn.event == Stopped(2) ==> saves == [s.entries])
            && (turn.event == Stopped(4) || turn.event.Idled? ==> saves == [])
  {
    CycleChanges(cfg, s, input);
  }

  lemma {:induction false} LastSaveAfter(cfg: Config, s: RunState, inputs: seq<CycleInput>)
    requires Keyed(cfg.tasks, s.entries)
    ensures var saves, end := SavesAfter(cfg, s, inputs), After(cfg, s, inputs).entries;
            if saves == [] then end == s.entries else saves[|saves| - 1] == end
    decreases |inputs|
  {
    if inputs != [] {
      RunUnfolds(cfg, s, inputs);
      CycleChanges(cfg, s, inputs[0]);
      var turn := Cycle(cfg, s, inputs[0]);
      if !turn.event.Stopped? { LastSaveAfter(cfg, turn.state, inputs[1..]); }
    }
  }

  /** Whenever a run ends, what it saved last is what it ended with. */
  lemma LastSaveIsEnd(cfg: Config, s: RunState, inputs: seq<CycleInput>)
    requires Keyed(cfg.tasks, s.entries)
    ensures Saves(cfg, s, inputs)[|Saves(cfg, s, inputs)| - 1] == After(cfg, s, inputs).entries
  {
    LastSaveAfter(cfg, s, inputs);
  }

  /** Resuming from any state a run ever saved restores one of its cycle heads; a task that was cut off
      is pending again with one more attempt on record and no cooldown. */
  lemma ResumeRestores(cfg: Config, s: RunState, inputs: seq<CycleInput>, saved: Entries, current: Entries)
    requires Keyed(cfg.tasks, s.entries) && NothingInProgress(s.entries)
    requires saved in Saves(cfg, s, inputs) && current.Keys == saved.Keys
    ensures var resumed := Merged(current, Written(saved));
            exists n :: 0 <= n <= |inputs| && PicksUp(resumed, After(cfg, s, inputs[..n]).entries)
  {
    CheckpointReplaces(current, saved);
    var n: nat, chosen := 0, None;
    if saved == s.entries {
      assert inputs[..0] == [];
    } else {
      n, chosen := SavedStates(cfg, s, inputs, saved);
    }
    HeadRecovers(cfg, s, inputs[..n]);
    FromHeadPicksUp(After(cfg, s, inputs[..n]).entries, saved, chosen);
  }

  lemma FromHeadPicksUp(head: Entries, saved: Entries, chosen: Option<string>)
    requires FromHead(head, saved, chosen) && Recovered(head) == head
    ensures PicksUp(Recovered(saved), head)
  {
    if chosen.Some? {
      assert Recovered(saved) == Recovered(head)[chosen.value := CutOff(head[chosen.value])];
    }
  }

  /** At the cycle head, or after an attempt that was cut off. */
  ghost predicate PicksUp(resumed: Entries, head: Entries) {
    || resumed == head
    || exists id :: id in head && head[id].status.Pending? && resumed == head[id := CutOff(head[id])]
  }

  function CutOff(e: Entry): Entry {
    e.(attempts := e.attempts + 1, notBefore := None)
  }

  lemma HeadRecovers(cfg: Config, s: RunState, inputs: seq<CycleInput>)
    requires Keyed(cfg.tasks, s.entries) && NothingInProgress(s.entries)
    ensures Recovered(After(cfg, s, inputs).entries) == After(cfg, s, inputs).entries
  {
    var entries := After(cfg, s, inputs).entries;
    if id :| id in entries { SettledForGood(cfg, s, inputs, id); }
  }

  // ---------------------------------------------------------------- runs resumed after runs

  /** A run that goes through `inputs` and is then cut off, possibly in the middle of one more cycle. */
  datatype Session = Session(inputs: seq<CycleInput>, cut: Option<CycleInput>)

  /** The state last saved by a session. */
  function Left(cfg: Config, s: RunState, session: Session): (r: Entries)
    requires Keyed(cfg.tasks, s.entries)
    ensures r.Keys == s.entries.Keys
  {
    var end := After(cfg, s, session.inputs);
    if session.cut.None? then end.entries else
    var turn := Cycle(cfg, end, session.cut.value);
    if turn.event.Ran? || turn.event.Rehearsed? then
      CycleChanges(cfg, end, session.cut.value);
      end.entries[turn.event.id := Started(end.entries[turn.event.id])]
    else end.entries
  }

  lemma {:induction false} SavedByNextCycle(cfg: Config, s: RunState, inputs: seq<CycleInput>, cut: CycleInput,
                                            saved: Entries)
    requires Keyed(cfg.tasks, s.entries) && ExitCode(cfg, s, inputs) == 3
    requires saved in SavedIn(cfg, After(cfg, s, inputs), cut)
    ensures saved in SavesAfter(cfg, s, inputs + [cut])
    decreases |inputs|
  {
    var all := inputs + [cut];
    RunUnfolds(cfg, s, all);
    if inputs != [] {
      RunUnfolds(cfg, s, inputs);
      StopsExactly(cfg, s, inputs[0]);
      assert all[1..] == inputs[1..] + [cut];
      SavedByNextCycle(cfg, Cycle(cfg, s, inputs[0]).state, inputs[1..], cut, saved);
    }
  }

  /** What a cut-off session leaves is really on file: the run that goes on through the cycle it is cut off
      in saves it, or the run up to there did last. */
  lemma LeftIsSaved(cfg: Config, s: RunState, session: Session)
    requires Keyed(cfg.tasks, s.entries) && (session.cut.Some? ==> ExitCode(cfg, s, session.inputs) == 3)
    ensures var left, saves := Left(cfg, s, session), Saves(cfg, s, session.inputs);
            || left == saves[|saves| - 1]
            || (session.cut.Some? && left in Saves(cfg, s, session.inputs + [session.cut.value]))
  {
    LastSaveIsEnd(cfg, s, session.inputs);
    if session.cut.Some? {
      var end, cut := After(cfg, s, session.inputs), session.cut.value;
      CycleChanges(cfg, end, cut);
      var left := Left(cfg, s, session);
      if left != end.entries {
        assert left == SavedIn(cfg, end, cut)[0];
        SavedByNextCycle(cfg, s, session.inputs, cut, left);
      }
    }
  }

  const NO_TOTALS := Totals(0, 0.0, 0)

  /** The state a session starts from when every earlier one was cut off and resumed. */
  function Resumed(cfg: Config, entries: Entries, sessions: seq<Session>): (r: Entries)
    requires Keyed(cfg.tasks, entries)
    ensures r.Keys == entries.Keys
  {
    if sessions == [] then entries else
    var before := Resumed(cfg, entries, sessions[..|sessions| - 1]);
    Recovered(Left(cfg, RunState(before, NO_TOTALS), sessions[|sessions| - 1]))
  }

  /** The session is cut off while an agent runs. */
  predicate CutsAgent(cfg: Config, s: RunState, session: Session)
    requires Keyed(cfg.tasks, s.entries)
  {
    session.cut.Some? && Cycle(cfg, After(cfg, s, session.inputs), session.cut.value).event.Ran?
  }

  /** The agent runs of a session: those reported, and the one it is cut off in. */
  function AgentRuns(cfg: Config, s: RunState, session: Session): nat
    requires Keyed(cfg.tasks, s.entries)
  {
    |Reports(cfg, s, session.inputs)| + if CutsAgent(cfg, s, session) then 1 else 0
  }

  /** Cut off in a task that has no attempts left: nothing checks that before it is started again. */
  predicate CutsBeyondLimit(cfg: Config, s: RunState, session: Session)
    requires Keyed(cfg.tasks, s.entries)
  {
    CutsAgent(cfg, s, session) &&
    var end := After(cfg, s, session.inputs);
    CycleChanges(cfg, end, session.cut.value);
    end.entries[Cycle(cfg, end, session.cut.value).event.id].attempts >= cfg.maxAttempts
  }

  /** The agent runs of a session that nothing caps. */
  function Uncapped(cfg: Config, s: RunState, session: Session): nat
    requires Keyed(cfg.tasks, s.entries)
  {
    Transients(Reports(cfg, s, session.inputs)) + if CutsBeyondLimit(cfg, s, session) then 1 else 0
  }

  function AgentRunsAcross(cfg: Config, entries: Entries, sessions: seq<Session>): nat
    requires Keyed(cfg.tasks, entries)
  {
    if sessions == [] then 0 else
    var init, last := sessions[..|sessions| - 1], sessions[|sessions| - 1];
    AgentRunsAcross(cfg, entries, init) + AgentRuns(cfg, RunState(Resumed(cfg, entries, init), NO_TOTALS), last)
  }

  function UncappedAcross(cfg: Config, entries: Entries, sessions: seq<Session>): nat
    requires Keyed(cfg.tasks, entries)
  {
    if sessions == [] then 0 else
    var init, last := sessions[..|sessions| - 1], sessions[|sessions| - 1];
    UncappedAcross(cfg, entries, init) + Uncapped(cfg, RunState(Resumed(cfg, entries, init), NO_TOTALS), last)
  }

  lemma {:induction false} RecoveredWork(cfg: Config, tasks: seq<Task>, entries: Entries)
    requires Keyed(tasks, entries)
    ensures Work(cfg, tasks, Recovered(entries)) == Work(cfg, tasks, entries)
  {
    if tasks != [] { RecoveredWork(cfg, tasks[..|tasks| - 1], entries); }
  }

  /** Starting a task spends work exactly when it still has attempts left. */
  lemma StartSpendsExactly(cfg: Config, e: Entry)
    requires e.status.Pending?
    ensures EntryWork(cfg, Started(e)) == EntryWork(cfg, e) - if e.attempts < cfg.maxAttempts then 1 else 0
  {
  }

  /** A session that is cut off in a task leaves less work than its last cycle head exactly when that
      task had attempts left. */
  lemma CutSpendsExactly(cfg: Config, s: RunState, session: Session)
    requires Keyed(cfg.tasks, s.entries) && DistinctIds(cfg.tasks)
    ensures Keyed(cfg.tasks, Left(cfg, s, session))
    ensures var end := After(cfg, s, session.inputs);
            var before, left := Work(cfg, cfg.tasks, end.entries), Work(cfg, cfg.tasks, Left(cfg, s, session));
            && left <= before
            && (CutsAgent(cfg, s, session) ==> left == before - if CutsBeyondLimit(cfg, s, session) then 0 else 1)
  {
    var end := After(cfg, s, session.inputs);
    if session.cut.Some? {
      CycleChanges(cfg, end, session.cut.value);
      var turn := Cycle(cfg, end, session.cut.value);
      if turn.event.Ran? || turn.event.Rehearsed? {
        var chosen := Next(cfg.tasks, end.entries, session.cut.value.now).value;
        var k :| 0 <= k < |cfg.tasks| && cfg.tasks[k] == chosen;
        WorkUpdate(cfg, cfg.tasks, end.entries, k, Started(end.entries[chosen.id]));
        StartSpendsExactly(cfg, end.entries[chosen.id]);
      }
    }
  }

  /** However often a run is cut off and resumed: all the agent runs of all its sessions, and the work
      left, are within the work there was at first and the agent runs nothing caps: transient validation
      failures, and tasks cut off when they had no attempts left. */
  lemma {:induction false} ResumedBounded(cfg: Config, entries: Entries, sessions: seq<Session>)
    requires Keyed(cfg.tasks, entries) && DistinctIds(cfg.tasks)
    ensures AgentRunsAcross(cfg, entries, sessions) + Work(cfg, cfg.tasks, Resumed(cfg, entries, sessions))
         <= Work(cfg, cfg.tasks, entries) + UncappedAcross(cfg, entries, sessions)
  {
    if sessions != [] {
      var init, last := sessions[..|sessions| - 1], sessions[|sessions| - 1];
      ResumedBounded(cfg, entries, init);
      var s := RunState(Resumed(cfg, entries, init), NO_TOTALS);
      ExecutionsBounded(cfg, s, last.inputs);
      CutSpendsExactly(cfg, s, last);
      RecoveredWork(cfg, cfg.tasks, Left(cfg, s, last));
    }
  }

  /** An input that meets a task ready to run. */
  function ReadyInput(e: Entry): CycleInput {
    FailingInput(if e.notBefore.Some? then e.notBefore.value else 0.0)
  }

  /** One session that is cut off in its first task. */
  lemma CutOnce(cfg: Config, entries: Entries, session: Session)
    requires cfg.limits == Unlimited() && !cfg.dryRun && |cfg.tasks| == 1 && cfg.tasks[0].dependsOn == []
    requires cfg.tasks[0].id in entries && entries[cfg.tasks[0].id].status.Pending?
    requires session == Session([], Some(ReadyInput(entries[cfg.tasks[0].id])))
    ensures var id, s := cfg.tasks[0].id, RunState(entries, NO_TOTALS);
            && CutsAgent(cfg, s, session) && AgentRuns(cfg, s, session) == 1
            && Recovered(Left(cfg, s, session))[id] == CutOff(entries[id])
  {
    var t, s, input := cfg.tasks[0], RunState(entries, NO_TOTALS), session.cut.value;
    NextIsReady(cfg.tasks, entries, input.now);
    assert t in cfg.tasks && Ready(t, entries, input.now);
    assert Cycle(cfg, s, input) == Execute(cfg, s, t.id, input);
  }

  /** The cap that fails: for every number there are as many sessions, each cut off in the same task, and
      the task is pending after them whatever the attempt limit. */
  lemma {:induction false} CutForever(cfg: Config, entries: Entries, n: nat) returns (sessions: seq<Session>)
    requires cfg.limits == Unlimited() && !cfg.dryRun && |cfg.tasks| == 1 && cfg.tasks[0].dependsOn == []
    requires cfg.tasks[0].id in entries && entries[cfg.tasks[0].id].status.Pending?
    ensures |sessions| == n && AgentRunsAcross(cfg, entries, sessions) == n
    ensures var id := cfg.tasks[0].id;
            && Resumed(cfg, entries, sessions)[id].status.Pending?
            && Resumed(cfg, entries, sessions)[id].attempts == entries[id].attempts + n
  {
    sessions := [];
    if n > 0 {
      var init := CutForever(cfg, entries, n - 1);
      var before := Resumed(cfg, entries, init);
      var last := Session([], Some(ReadyInput(before[cfg.tasks[0].id])));
      CutOnce(cfg, before, last);
      sessions := init + [last];
      assert sessions[..n - 1] == init;
    }
  }

  lemma LeftForGood(cfg: Config, s: RunState, session: Session, id: string)
    requires Keyed(cfg.tasks, s.entries) && id in s.entries
    requires s.entries[id].status.Done? || s.entries[id].status.Blocked?
    ensures Left(cfg, s, session)[id] == s.entries[id]
  {
    SettledForGood(cfg, s, session.inputs, id);
    if session.cut.Some? { CycleChanges(cfg, After(cfg, s, session.inputs), session.cut.value); }
  }

  /** Done and blocked are for good across all sessions, and each starts with nothing in progress. */
  lemma {:induction false} ResumedForGood(cfg: Config, entries: Entries, sessions: seq<Session>, id: string)
    requires Keyed(cfg.tasks, entries) && id in entries
    ensures NothingInProgress(entries) ==> NothingInProgress(Resumed(cfg, entries, sessions))
    ensures entries[id].status.Done? || entries[id].status.Blocked? ==>
              Resumed(cfg, entries, sessions)[id] == entries[id]
  {
    if sessions != [] {
      var init, last := sessions[..|sessions| - 1], sessions[|sessions| - 1];
      ResumedForGood(cfg, entries, init, id);
      if entries[id].status.Done? || entries[id].status.Blocked? {
        LeftForGood(cfg, RunState(Resumed(cfg, entries, init), NO_TOTALS), last, id);
      }
    }
  }

  lemma LeftClosed(cfg: Config, s: RunState, session: Session)
    requires Keyed(cfg.tasks, s.entries) && DistinctIds(cfg.tasks) && DoneClosed(cfg.tasks, s.entries)
    ensures DoneClosed(cfg.tasks, Left(cfg, s, session))
  {
    DoneStaysClosed(cfg, s, session.inputs);
    var end, left := After(cfg, s, session.inputs).entries, Left(cfg, s, session);
    if session.cut.Some? { CycleChanges(cfg, After(cfg, s, session.inputs), session.cut.value); }
    forall t | t in cfg.tasks && t.id in left && left[t.id].status.Done? ensures DependenciesDone(t, left) {
      assert end[t.id].status.Done?;
      assert forall id :: id in end && end[id].status.Done? ==> left[id] == end[id];
    }
  }

  /** The done tasks stay closed under dependencies across all sessions. */
  lemma {:induction false} ResumedClosed(cfg: Config, entries: Entries, sessions: seq<Session>)
    requires Keyed(cfg.tasks, entries) && DistinctIds(cfg.tasks) && DoneClosed(cfg.tasks, entries)
    ensures DoneClosed(cfg.tasks, Resumed(cfg, entries, sessions))
  {
    if sessions != [] {
      var init, last := sessions[..|sessions| - 1], sessions[|sessions| - 1];
      ResumedClosed(cfg, entries, init);
      var s := RunState(Resumed(cfg, entries, init), NO_TOTALS);
      LeftClosed(cfg, s, last);
      RecoveredClosed(cfg.tasks, Left(cfg, s, last));
    }
  }

  lemma RecoveredClosed(tasks: seq<Task>, entries: Entries)
    requires DoneClosed(tasks, entries)
    ensures DoneClosed(tasks, Recovered(entries))
  {
    forall t | t in tasks && t.id in entries && Recovered(entries)[t.id].status.Done?
      ensures DependenciesDone(t, Recovered(entries))
    {
      assert DependenciesDone(t, entries);
    }
  }
}
