/** The threaded RPA scheduler (`run_rpa_schedule` in `rpa_scheduler.py`) as interleaved thread
    steps. Each job has its own thread; a step is one lock-protected block, semaphore operation,
    shared dictionary access or sleep. Time is a real-valued clock that only moves forward. */
module RpaScheduler {
  import opened Wrappers
  import opened Backoff
  import opened Tally

  datatype Policy = Policy(maxConcurrent: int, interval: real, backoffBase: real, backoffMax: real, maxRetries: int)

  datatype Job = Job(id: string, domain: string, maxRetries: Option<int>)

  datatype Config = Config(policy: Policy, jobs: seq<Job>)

  /** The runner reports success or failure, or raises (as the default runner does on a timeout). */
  datatype Outcome = Passed | Failed | Raised

  /** Where a thread is, named after what it does next. */
  datatype PC =
    | Reserve
    | SlotWait(until: real)
    | AcquirePermit
    | EnterActive
    | RunJob
    | LeaveActive(result: Outcome)
    | ReleasePermit(result: Outcome)
    | ReadCount(ok: bool)
    | WriteCount(ok: bool, seen: nat)
    | AppendRecord(ok: bool)
    | Decide(ok: bool)
    | BackoffWait(until: real)
    | Finished(ok: bool)
    | Crashed

  datatype Thread = Thread(pc: PC, attempt: nat, backoff: real)

  datatype AttemptRecord = AttemptRecord(job: nat, attempt: nat, ok: bool, backoff: real)

  datatype Reservation = Reservation(domain: string, time: real)

  /** The shared variables of the schedule, its threads, and the history of slot reservations and
      job starts. */
  datatype State = State(
    clock: real,
    slots: map<string, real>,
    permits: int,
    active: int,
    maxSeen: int,
    records: seq<AttemptRecord>,
    successByJob: map<string, bool>,
    attemptsByJob: map<string, nat>,
    threads: seq<Thread>,
    reservations: seq<Reservation>,
    starts: seq<Reservation>)

  datatype Action = Tick(elapsed: real) | Move(thread: nat, outcome: Outcome)

  // ---------------------------------------------------------------- steps

  function Permits(p: Policy): int {
    if p.maxConcurrent > 1 then p.maxConcurrent else 1
  }

  function Interval(p: Policy): real {
    Max(0.0, p.interval)
  }

  function Retries(cfg: Config, j: nat): int
    requires j < |cfg.jobs|
  {
    match cfg.jobs[j].maxRetries
    case None => cfg.policy.maxRetries
    case Some(n) => if n > 0 then n else 0
  }

  /** A negative retry limit leaves nothing to attempt. */
  function InitialThread(cfg: Config, j: nat): Thread
    requires j < |cfg.jobs|
  {
    if Retries(cfg, j) >= 0 then Thread(Reserve, 1, Max(0.0, cfg.policy.backoffBase))
    else Thread(Finished(false), 0, Max(0.0, cfg.policy.backoffBase))
  }

  function JobIds(cfg: Config): set<string> {
    set j | 0 <= j < |cfg.jobs| :: cfg.jobs[j].id
  }

  function Initial(cfg: Config, start: real): State {
    State(start, map[], Permits(cfg.policy), 0, 0, [], map[], map id: string | id in JobIds(cfg) :: 0,
          seq(|cfg.jobs|, j requires 0 <= j < |cfg.jobs| => InitialThread(cfg, j)), [], [])
  }

  function ReadyAt(s: State, domain: string): real {
    if domain in s.slots then s.slots[domain] else 0.0
  }

  predicate CanMove(s: State, j: nat) {
    j < |s.threads| &&
    match s.threads[j].pc
    case SlotWait(until) => s.clock >= until
    case BackoffWait(until) => s.clock >= until
    case AcquirePermit => s.permits > 0
    case Finished(_) => false
    case Crashed => false
    case _ => true
  }

  function NextAttempt(cfg: Config, t: Thread): Thread {
    Thread(Reserve, t.attempt + 1, if t.backoff > 0.0 then Doubled(t.backoff, cfg.policy.backoffMax) else t.backoff)
  }

  /** What a step does to the thread that takes it. */
  function NextThread(cfg: Config, s: State, j: nat, outcome: Outcome): Thread
    requires j < |s.threads| == |cfg.jobs|
  {
    var job, t := cfg.jobs[j], s.threads[j];
    match t.pc
    case Reserve =>
      t.(pc := if s.clock >= ReadyAt(s, job.domain) then AcquirePermit else SlotWait(ReadyAt(s, job.domain)))
    case SlotWait(_) => t.(pc := Reserve)
    case AcquirePermit => t.(pc := EnterActive)
    case EnterActive => t.(pc := RunJob)
    case RunJob => t.(pc := LeaveActive(outcome))
    case LeaveActive(r) => t.(pc := ReleasePermit(r))
    case ReleasePermit(r) => t.(pc := if r.Raised? then Crashed else ReadCount(r.Passed?))
    case ReadCount(ok) => t.(pc := WriteCount(ok, CountOf(s.attemptsByJob, job.id)))
    case WriteCount(ok, _) => t.(pc := AppendRecord(ok))
    case AppendRecord(ok) => t.(pc := Decide(ok))
    case Decide(ok) =>
      if ok || t.attempt > Retries(cfg, j) then t.(pc := Finished(ok))
      else if t.backoff > 0.0 then t.(pc := BackoffWait(s.clock + t.backoff))
      else NextAttempt(cfg, t)
    case BackoffWait(_) => NextAttempt(cfg, t)
    case Finished(_) => t
    case Crashed => t
  }

  /** What a step of thread `j` does to the shared variables. */
  function SharedAfter(cfg: Config, s: State, j: nat): State
    requires j < |s.threads| == |cfg.jobs|
  {
    var job, t := cfg.jobs[j], s.threads[j];
    match t.pc
    case Reserve =>
      if s.clock >= ReadyAt(s, job.domain) then
        s.(slots := s.slots[job.domain := s.clock + Interval(cfg.policy)],
           reservations := s.reservations + [Reservation(job.domain, s.clock)])
      else s
    case AcquirePermit => s.(permits := s.permits - 1)
    case EnterActive =>
      s.(active := s.active + 1, maxSeen := if s.active + 1 > s.maxSeen then s.active + 1 else s.maxSeen,
         starts := s.starts + [Reservation(job.domain, s.clock)])
    case LeaveActive(_) => s.(active := if s.active - 1 > 0 then s.active - 1 else 0)
    case ReleasePermit(_) => s.(permits := s.permits + 1)
    case WriteCount(_, seen) => s.(attemptsByJob := s.attemptsByJob[job.id := seen + 1])
    case AppendRecord(ok) =>
      s.(records := s.records + [AttemptRecord(j, t.attempt, ok, if ok then 0.0 else t.backoff)])
    case Decide(ok) =>
      if ok || t.attempt > Retries(cfg, j) then s.(successByJob := s.successByJob[job.id := ok]) else s
    case _ => s
  }

  predicate Enabled(s: State, a: Action) {
    match a
    case Tick(elapsed) => elapsed >= 0.0
    case Move(j, _) => CanMove(s, j)
  }

  /** One action; an action that is not enabled does nothing. */
  function After(cfg: Config, s: State, a: Action): State
    requires |s.threads| == |cfg.jobs|
  {
    if !Enabled(s, a) then s
    else match a
      case Tick(elapsed) => s.(clock := s.clock + elapsed)
      case Move(j, outcome) =>
        SharedAfter(cfg, s, j).(threads := s.threads[j := NextThread(cfg, s, j, outcome)])
  }

  function Run(cfg: Config, start: real, actions: seq<Action>): (s: State)
    ensures |s.threads| == |cfg.jobs|
  {
    if actions == [] then Initial(cfg, start)
    else After(cfg, Run(cfg, start, actions[..|actions| - 1]), actions[|actions| - 1])
  }

  // ---------------------------------------------------------------- sums over threads

  ghost function Total(ts: seq<Thread>, f: Thread -> int): int {
    if ts == [] then 0 else Total(ts[..|ts| - 1], f) + f(ts[|ts| - 1])
  }

  lemma {:induction false} TotalUpdate(ts: seq<Thread>, j: nat, t: Thread, f: Thread -> int)
    requires j < |ts|
    ensures Total(ts[j := t], f) == Total(ts, f) - f(ts[j]) + f(t)
  {
    var n := |ts| - 1;
    if j == n {
      assert ts[j := t][..n] == ts[..n];
    } else {
      TotalUpdate(ts[..n], j, t, f);
      assert ts[j := t][..n] == ts[..n][j := t];
    }
  }

  lemma {:induction false} TotalBounds(ts: seq<Thread>, f: Thread -> int, g: Thread -> int)
    requires forall t :: 0 <= f(t) <= g(t)
    ensures 0 <= Total(ts, f) <= Total(ts, g)
    ensures forall j :: 0 <= j < |ts| ==> f(ts[j]) <= Total(ts, f)
  {
    if ts != [] { TotalBounds(ts[..|ts| - 1], f, g); }
  }

  // ---------------------------------------------------------------- the concurrency cap

  function Holds(t: Thread): int {
    if t.pc.EnterActive? || t.pc.RunJob? || t.pc.LeaveActive? || t.pc.ReleasePermit? then 1 else 0
  }

  function IsActive(t: Thread): int {
    if t.pc.RunJob? || t.pc.LeaveActive? then 1 else 0
  }

  /** Permits in use are held by threads, and the active count is the number of running jobs. */
  ghost predicate CapInv(cfg: Config, s: State) {
    && s.permits >= 0
    && s.permits + Total(s.threads, Holds) == Permits(cfg.policy)
    && s.active == Total(s.threads, IsActive)
    && s.active <= s.maxSeen <= Permits(cfg.policy)
  }

  lemma CapDeltas(cfg: Config, s: State, j: nat, outcome: Outcome)
    requires |s.threads| == |cfg.jobs| && CanMove(s, j)
    ensures var now, t, u := SharedAfter(cfg, s, j), s.threads[j], NextThread(cfg, s, j, outcome);
            && now.permits - s.permits == Holds(t) - Holds(u)
            && (s.permits >= 0 ==> now.permits >= 0)
  {
  }

  lemma ActiveDeltas(cfg: Config, s: State, j: nat, outcome: Outcome)
    requires |s.threads| == |cfg.jobs| && CanMove(s, j)
    ensures var now, t, u := SharedAfter(cfg, s, j), s.threads[j], NextThread(cfg, s, j, outcome);
            && (s.active >= IsActive(t) ==> now.active - s.active == IsActive(u) - IsActive(t))
            && now.maxSeen == if now.active > s.maxSeen && IsActive(u) > IsActive(t) then now.active else s.maxSeen
  {
  }

  lemma CapKept(cfg: Config, s: State, a: Action)
    requires |s.threads| == |cfg.jobs| && CapInv(cfg, s)
    ensures CapInv(cfg, After(cfg, s, a))
  {
    if a.Move? && Enabled(s, a) {
      var j, t := a.thread, NextThread(cfg, s, a.thread, a.outcome);
      CapDeltas(cfg, s, j, a.outcome);
      ActiveDeltas(cfg, s, j, a.outcome);
      TotalUpdate(s.threads, j, t, Holds);
      TotalUpdate(s.threads, j, t, IsActive);
      TotalBounds(s.threads, IsActive, Holds);
      TotalBounds(s.threads[j := t], IsActive, Holds);
    }
  }

  lemma {:induction false} CapHolds(cfg: Config, start: real, actions: seq<Action>)
    ensures CapInv(cfg, Run(cfg, start, actions))
  {
    if actions == [] {
      InitialTotals(cfg, start, |cfg.jobs|);
      assert Initial(cfg, start).threads[..|cfg.jobs|] == Initial(cfg, start).threads;
    } else {
      CapHolds(cfg, start, actions[..|actions| - 1]);
      CapKept(cfg, Run(cfg, start, actions[..|actions| - 1]), actions[|actions| - 1]);
    }
  }

  lemma {:induction false} InitialTotals(cfg: Config, start: real, n: nat)
    requires n <= |cfg.jobs|
    ensures Total(Initial(cfg, start).threads[..n], Holds) == 0
    ensures Total(Initial(cfg, start).threads[..n], IsActive) == 0
  {
    var ts := Initial(cfg, start).threads;
    if n > 0 {
      InitialTotals(cfg, start, n - 1);
      assert ts[..n][..n - 1] == ts[..n - 1];
    }
  }

  /** The concurrency cap in every interleaving: never more jobs run at once than permits, the largest
      number seen never exceeds the permits, and leaving never hits the floor of zero. */
  lemma ConcurrencyCap(cfg: Config, start: real, actions: seq<Action>)
    ensures var s := Run(cfg, start, actions);
            var cap := if cfg.policy.maxConcurrent >= 1 then cfg.policy.maxConcurrent else 1;
            && s.permits + Total(s.threads, Holds) == cap
            && Total(s.threads, IsActive) == s.active <= s.maxSeen <= cap
            && (forall j :: 0 <= j < |s.threads| && s.threads[j].pc.LeaveActive? ==> s.active >= 1)
  {
    var s := Run(cfg, start, actions);
    CapHolds(cfg, start, actions);
    TotalBounds(s.threads, IsActive, Holds);
  }

  lemma SeenDeltas(cfg: Config, s: State, a: Action)
    requires |s.threads| == |cfg.jobs| && s.active <= s.maxSeen
    ensures var now := After(cfg, s, a);
            now.active <= now.maxSeen ==>
              now.maxSeen >= s.maxSeen && (now.maxSeen != s.maxSeen ==> now.maxSeen == now.active)
  {
  }

  /** The largest concurrency seen is the largest there was: the active count was never more at any point
      of the run so far, and was as much at some point. */
  lemma {:induction false} MaxSeenExactly(cfg: Config, start: real, actions: seq<Action>)
    ensures var seen := Run(cfg, start, actions).maxSeen;
            && (forall n :: 0 <= n <= |actions| ==> Run(cfg, start, actions[..n]).active <= seen)
            && exists n :: 0 <= n <= |actions| && Run(cfg, start, actions[..n]).active == seen
  {
    assert actions[..|actions|] == actions;
    if actions == [] {
      assert Run(cfg, start, actions[..0]).active == 0;
    } else {
      var init, s := actions[..|actions| - 1], Run(cfg, start, actions[..|actions| - 1]);
      var now := Run(cfg, start, actions);
      MaxSeenExactly(cfg, start, init);
      CapHolds(cfg, start, init);
      CapHolds(cfg, start, actions);
      SeenDeltas(cfg, s, actions[|actions| - 1]);
      forall n | 0 <= n <= |init| ensures init[..n] == actions[..n] {}
      if now.maxSeen == s.maxSeen {
        var n :| 0 <= n <= |init| && Run(cfg, start, init[..n]).active == s.maxSeen;
        assert Run(cfg, start, actions[..n]).active == now.maxSeen;
      } else {
        assert Run(cfg, start, actions[..|actions|]).active == now.maxSeen;
      }
    }
  }

  // ---------------------------------------------------------------- the per-domain rate limit

  predicate Spaced(gap: real, events: seq<Reservation>) {
    forall i, j :: 0 <= i < j < |events| && events[i].domain == events[j].domain ==>
      events[j].time - events[i].time >= gap
  }

  function LastTime(rs: seq<Reservation>, domain: string): Option<real> {
    if rs == [] then None
    else if rs[|rs| - 1].domain == domain then Some(rs[|rs| - 1].time)
    else LastTime(rs[..|rs| - 1], domain)
  }

  predicate Covered(gap: real, slots: map<string, real>, rs: seq<Reservation>) {
    forall i :: 0 <= i < |rs| ==> rs[i].domain in slots && rs[i].time + gap <= slots[rs[i].domain]
  }

  predicate Latest(gap: real, slots: map<string, real>, rs: seq<Reservation>) {
    forall d :: d in slots ==> LastTime(rs, d) == Some(slots[d] - gap)
  }

  /** Reservations of a domain are spaced, and its slot is one gap after the latest of them. */
  ghost predicate RateInv(gap: real, slots: map<string, real>, rs: seq<Reservation>) {
    && Covered(gap, slots, rs)
    && Latest(gap, slots, rs)
    && Spaced(gap, rs)
  }

  lemma LastExtends(rs: seq<Reservation>, r: Reservation, d: string)
    ensures LastTime(rs + [r], d) == if r.domain == d then Some(r.time) else LastTime(rs, d)
  {
    assert (rs + [r])[..|rs|] == rs;
  }

  lemma LatestExtends(gap: real, slots: map<string, real>, rs: seq<Reservation>, r: Reservation)
    requires Latest(gap, slots, rs)
    ensures Latest(gap, slots[r.domain := r.time + gap], rs + [r])
  {
    forall d | d in slots[r.domain := r.time + gap] { LastExtends(rs, r, d); }
  }

  lemma SpacedExtends(gap: real, slots: map<string, real>, rs: seq<Reservation>, r: Reservation)
    requires Covered(gap, slots, rs) && Spaced(gap, rs)
    requires r.domain in slots ==> r.time >= slots[r.domain]
    ensures Spaced(gap, rs + [r])
  {
    forall i | 0 <= i < |rs| && rs[i].domain == r.domain ensures r.time - rs[i].time >= gap {}
  }

  lemma CoveredExtends(gap: real, slots: map<string, real>, rs: seq<Reservation>, r: Reservation)
    requires Covered(gap, slots, rs) && gap >= 0.0
    requires r.domain in slots ==> r.time >= slots[r.domain]
    ensures Covered(gap, slots[r.domain := r.time + gap], rs + [r])
  {
  }

  lemma ReserveKeepsRate(gap: real, slots: map<string, real>, rs: seq<Reservation>, r: Reservation)
    requires RateInv(gap, slots, rs) && gap >= 0.0
    requires r.domain in slots ==> r.time >= slots[r.domain]
    ensures RateInv(gap, slots[r.domain := r.time + gap], rs + [r])
  {
    CoveredExtends(gap, slots, rs, r);
    LatestExtends(gap, slots, rs, r);
    SpacedExtends(gap, slots, rs, r);
  }

  lemma RateDeltas(cfg: Config, s: State, a: Action)
    requires |s.threads| == |cfg.jobs|
    ensures var now := After(cfg, s, a);
            || (now.slots == s.slots && now.reservations == s.reservations)
            || exists d :: s.clock >= ReadyAt(s, d) && now.slots == s.slots[d := s.clock + Interval(cfg.policy)]
                 && now.reservations == s.reservations + [Reservation(d, s.clock)]
  {
    if a.Move? && Enabled(s, a) && s.threads[a.thread].pc.Reserve? {
      var d := cfg.jobs[a.thread].domain;
      assert s.clock >= ReadyAt(s, d) ==>
        After(cfg, s, a).reservations == s.reservations + [Reservation(d, s.clock)];
    }
  }

  lemma RateKept(cfg: Config, s: State, a: Action)
    requires |s.threads| == |cfg.jobs| && RateInv(Interval(cfg.policy), s.slots, s.reservations)
    ensures RateInv(Interval(cfg.policy), After(cfg, s, a).slots, After(cfg, s, a).reservations)
  {
    RateDeltas(cfg, s, a);
    var now := After(cfg, s, a);
    if now.reservations != s.reservations {
      var d :| s.clock >= ReadyAt(s, d) && now.slots == s.slots[d := s.clock + Interval(cfg.policy)]
        && now.reservations == s.reservations + [Reservation(d, s.clock)];
      ReserveKeepsRate(Interval(cfg.policy), s.slots, s.reservations, Reservation(d, s.clock));
    }
  }

  lemma {:induction false} RateHolds(cfg: Config, start: real, actions: seq<Action>)
    ensures RateInv(Interval(cfg.policy), Run(cfg, start, actions).slots, Run(cfg, start, actions).reservations)
  {
    if actions != [] {
      RateHolds(cfg, start, actions[..|actions| - 1]);
      RateKept(cfg, Run(cfg, start, actions[..|actions| - 1]), actions[|actions| - 1]);
    }
  }

  lemma {:induction false} LastIsIn(rs: seq<Reservation>, domain: string)
    requires LastTime(rs, domain).Some?
    ensures Reservation(domain, LastTime(rs, domain).value) in rs
  {
    if rs[|rs| - 1].domain != domain { LastIsIn(rs[..|rs| - 1], domain); }
  }

  /** The rate limit in every interleaving: two reservations of one domain are at least the interval
      apart, and whether a domain can be reserved depends on its own reservations alone. */
  lemma RateLimit(cfg: Config, start: real, actions: seq<Action>, domain: string)
    ensures var s, gap := Run(cfg, start, actions), if cfg.policy.interval >= 0.0 then cfg.policy.interval else 0.0;
            && Spaced(gap, s.reservations)
            && (s.clock >= ReadyAt(s, domain) <==>
                  && (forall r :: r in s.reservations && r.domain == domain ==> s.clock - r.time >= gap)
                  && ((forall r :: r in s.reservations ==> r.domain != domain) ==> s.clock >= 0.0))
  {
    RateHolds(cfg, start, actions);
    var s, gap := Run(cfg, start, actions), Interval(cfg.policy);
    if domain in s.slots { LastIsIn(s.reservations, domain); }
  }

  lemma StartsGrow(cfg: Config, s: State, a: Action)
    requires |s.threads| == |cfg.jobs|
    ensures After(cfg, s, a).clock >= s.clock
    ensures After(cfg, s, a).starts == s.starts
         || exists d :: After(cfg, s, a).starts == s.starts + [Reservation(d, s.clock)]
  {
  }

  predicate InOrder(events: seq<Reservation>, clock: real) {
    && (forall i :: 0 <= i < |events| ==> events[i].time <= clock)
    && (forall i, j :: 0 <= i < j < |events| ==> events[i].time <= events[j].time)
  }

  lemma OrderExtends(events: seq<Reservation>, clock: real, d: string)
    requires InOrder(events, clock)
    ensures InOrder(events + [Reservation(d, clock)], clock)
  {
  }

  lemma {:induction false} StartsInOrder(cfg: Config, start: real, actions: seq<Action>)
    ensures InOrder(Run(cfg, start, actions).starts, Run(cfg, start, actions).clock)
  {
    if actions != [] {
      var before, a := Run(cfg, start, actions[..|actions| - 1]), actions[|actions| - 1];
      var now := After(cfg, before, a);
      StartsInOrder(cfg, start, actions[..|actions| - 1]);
      StartsGrow(cfg, before, a);
      if now.starts != before.starts {
        var d :| now.starts == before.starts + [Reservation(d, before.clock)];
        OrderExtends(before.starts, before.clock, d);
      }
    }
  }

  // ---------------------------------------------------------------- every interleaving ends

  /** Reservations thread `j` may still make. */
  function AttemptsLeft(cfg: Config, s: State, j: nat): int
    requires j < |s.threads| == |cfg.jobs|
  {
    var t := s.threads[j];
    match t.pc
    case Finished(_) => 0
    case Crashed => 0
    case Reserve => Retries(cfg, j) + 2 - t.attempt
    case SlotWait(_) => Retries(cfg, j) + 2 - t.attempt
    case _ => Retries(cfg, j) + 1 - t.attempt
  }

  /** Steps thread `j` may take before its next reservation if no other thread reserves its domain. */
  function StepsToReserve(cfg: Config, s: State, j: nat): nat
    requires j < |s.threads| == |cfg.jobs|
  {
    var slot := ReadyAt(s, cfg.jobs[j].domain);
    match s.threads[j].pc
    case Reserve => if s.clock >= slot then 0 else 2
    case SlotWait(until) => if until >= slot then 1 else 3
    case AcquirePermit => 12
    case EnterActive => 11
    case RunJob => 10
    case LeaveActive(_) => 9
    case ReleasePermit(_) => 8
    case ReadCount(_) => 7
    case WriteCount(_, _) => 6
    case AppendRecord(_) => 5
    case Decide(_) => 4
    case BackoffWait(_) => 3
    case Finished(_) => 0
    case Crashed => 0
  }

  /** Each reservation may send every other thread of the domain around its wait loop once more. */
  function RoundCost(cfg: Config): nat {
    12 + 2 * |cfg.jobs|
  }

  function Work(cfg: Config, s: State, j: nat): int
    requires j < |s.threads| == |cfg.jobs|
  {
    RoundCost(cfg) * AttemptsLeft(cfg, s, j) + StepsToReserve(cfg, s, j)
  }

  function WorkUpTo(cfg: Config, s: State, n: nat): int
    requires n <= |s.threads| == |cfg.jobs|
  {
    if n == 0 then 0 else WorkUpTo(cfg, s, n - 1) + Work(cfg, s, n - 1)
  }

  /** Attempts are numbered from 1 to at most one more than the retries. */
  predicate AttemptInv(cfg: Config, s: State) {
    && |s.threads| == |cfg.jobs|
    && forall j :: 0 <= j < |s.threads| ==>
         s.threads[j].pc.Finished? || (Retries(cfg, j) >= 0 && 1 <= s.threads[j].attempt <= Retries(cfg, j) + 1
           && (s.threads[j].pc.BackoffWait? ==> s.threads[j].attempt <= Retries(cfg, j)))
  }

  lemma AttemptKept(cfg: Config, s: State, a: Action)
    requires AttemptInv(cfg, s)
    ensures AttemptInv(cfg, After(cfg, s, a))
  {
  }

  lemma {:induction false} AttemptHolds(cfg: Config, start: real, actions: seq<Action>)
    ensures AttemptInv(cfg, Run(cfg, start, actions))
  {
    if actions != [] {
      AttemptHolds(cfg, start, actions[..|actions| - 1]);
      AttemptKept(cfg, Run(cfg, start, actions[..|actions| - 1]), actions[|actions| - 1]);
    }
  }

  /** The moving thread pays for its step, and for everyone else when it reserves. */
  lemma MoverPays(cfg: Config, s: State, j: nat, outcome: Outcome)
    requires AttemptInv(cfg, s) && CanMove(s, j)
    ensures var now := After(cfg, s, Move(j, outcome));
            var spent := Work(cfg, s, j) - Work(cfg, now, j);
            spent >= 1 && (now.slots != s.slots ==> spent >= 2 * |cfg.jobs|)
  {
    var now := After(cfg, s, Move(j, outcome));
    var c, n := RoundCost(cfg), AttemptsLeft(cfg, s, j);
    var m := AttemptsLeft(cfg, now, j);
    assert m == n || m == n - 1 || m == 0;
    assert n >= 0 && m >= 0 && m <= n;
    Multiples(c, m, n);
  }

  lemma Multiples(c: nat, m: int, n: int)
    requires 0 <= m <= n
    ensures c * m <= c * n
    ensures m < n ==> c * m + c <= c * n
  {
    if m < n { assert c * (m + 1) <= c * n; }
  }

  lemma OtherPays(cfg: Config, s: State, j: nat, outcome: Outcome, i: nat)
    requires |s.threads| == |cfg.jobs| && CanMove(s, j) && i < |s.threads| && i != j
    ensures var now := After(cfg, s, Move(j, outcome));
            Work(cfg, now, i) <= Work(cfg, s, i) + if now.slots != s.slots then 2 else 0
  {
    var now := After(cfg, s, Move(j, outcome));
    assert now.threads[i] == s.threads[i] && now.clock == s.clock;
    assert AttemptsLeft(cfg, now, i) == AttemptsLeft(cfg, s, i);
  }

  lemma {:induction false} WorkDrops(cfg: Config, s: State, now: State, j: nat, extra: nat, n: nat)
    requires n <= |s.threads| == |now.threads| == |cfg.jobs| && j < |s.threads|
    requires forall i :: 0 <= i < n && i != j ==> Work(cfg, now, i) <= Work(cfg, s, i) + extra
    ensures WorkUpTo(cfg, now, n) <=
      WorkUpTo(cfg, s, n) + if j < n then extra * (n - 1) - (Work(cfg, s, j) - Work(cfg, now, j)) else extra * n
  {
    if n > 0 {
      WorkDrops(cfg, s, now, j, extra, n - 1);
      assert extra * n == extra * (n - 1) + extra;
      if n > 1 { assert extra * (n - 1) == extra * (n - 2) + extra; }
    }
  }

  lemma MoveSpends(cfg: Config, s: State, j: nat, outcome: Outcome)
    requires AttemptInv(cfg, s) && CanMove(s, j)
    ensures WorkUpTo(cfg, After(cfg, s, Move(j, outcome)), |cfg.jobs|) < WorkUpTo(cfg, s, |cfg.jobs|)
  {
    var now := After(cfg, s, Move(j, outcome));
    var extra := if now.slots != s.slots then 2 else 0;
    forall i | 0 <= i < |cfg.jobs| && i != j ensures Work(cfg, now, i) <= Work(cfg, s, i) + extra {
      OtherPays(cfg, s, j, outcome, i);
    }
    MoverPays(cfg, s, j, outcome);
    WorkDrops(cfg, s, now, j, extra, |cfg.jobs|);
  }

  lemma {:induction false} TickIsFree(cfg: Config, s: State, elapsed: real, n: nat)
    requires n <= |s.threads| == |cfg.jobs| && elapsed >= 0.0
    ensures WorkUpTo(cfg, After(cfg, s, Tick(elapsed)), n) <= WorkUpTo(cfg, s, n)
  {
    if n > 0 {
      TickIsFree(cfg, s, elapsed, n - 1);
      assert AttemptsLeft(cfg, After(cfg, s, Tick(elapsed)), n - 1) == AttemptsLeft(cfg, s, n - 1);
    }
  }

  lemma {:induction false} WorkNonNegative(cfg: Config, s: State, n: nat)
    requires AttemptInv(cfg, s) && n <= |cfg.jobs|
    ensures WorkUpTo(cfg, s, n) >= 0
  {
    if n > 0 {
      WorkNonNegative(cfg, s, n - 1);
      Multiples(RoundCost(cfg), 0, AttemptsLeft(cfg, s, n - 1));
    }
  }

  /** The thread steps a run really takes. */
  function Moves(cfg: Config, start: real, actions: seq<Action>): nat {
    if actions == [] then 0 else
    var init, a := actions[..|actions| - 1], actions[|actions| - 1];
    Moves(cfg, start, init) + if a.Move? && Enabled(Run(cfg, start, init), a) then 1 else 0
  }

  /** Attempts allowed for the first `n` jobs together. */
  function AttemptsAllowed(cfg: Config, n: nat): nat
    requires n <= |cfg.jobs|
  {
    if n == 0 then 0
    else AttemptsAllowed(cfg, n - 1) + if Retries(cfg, n - 1) >= 0 then Retries(cfg, n - 1) + 1 else 0
  }

  lemma {:induction false} InitialWork(cfg: Config, start: real, n: nat)
    requires n <= |cfg.jobs|
    ensures WorkUpTo(cfg, Initial(cfg, start), n) <= RoundCost(cfg) * AttemptsAllowed(cfg, n) + 2 * n
  {
    if n > 0 {
      InitialWork(cfg, start, n - 1);
      var m := AttemptsLeft(cfg, Initial(cfg, start), n - 1);
      assert AttemptsAllowed(cfg, n) == AttemptsAllowed(cfg, n - 1) + m;
      Distributes(RoundCost(cfg), AttemptsAllowed(cfg, n - 1), m);
    }
  }

  lemma Distributes(c: nat, k: nat, m: int)
    ensures c * (k + m) == c * k + c * m
  {
  }

  lemma {:induction false} WorkBounds(cfg: Config, start: real, actions: seq<Action>)
    ensures Moves(cfg, start, actions) + WorkUpTo(cfg, Run(cfg, start, actions), |cfg.jobs|)
         <= WorkUpTo(cfg, Initial(cfg, start), |cfg.jobs|)
  {
    if actions != [] {
      var init, a := actions[..|actions| - 1], actions[|actions| - 1];
      var before := Run(cfg, start, init);
      WorkBounds(cfg, start, init);
      AttemptHolds(cfg, start, init);
      if Enabled(before, a) {
        match a
        case Tick(elapsed) => TickIsFree(cfg, before, elapsed, |cfg.jobs|);
        case Move(j, outcome) => MoveSpends(cfg, before, j, outcome);
      }
    }
  }

  /** No interleaving goes on forever: the threads together never take more steps than a bound fixed
      by the jobs and their retries. */
  lemma EveryRunEnds(cfg: Config, start: real, actions: seq<Action>)
    ensures Moves(cfg, start, actions)
         <= (12 + 2 * |cfg.jobs|) * AttemptsAllowed(cfg, |cfg.jobs|) + 2 * |cfg.jobs|
  {
    WorkBounds(cfg, start, actions);
    AttemptHolds(cfg, start, actions);
    WorkNonNegative(cfg, Run(cfg, start, actions), |cfg.jobs|);
    InitialWork(cfg, start, |cfg.jobs|);
  }

  predicate Done(t: Thread) {
    t.pc.Finished? || t.pc.Crashed?
  }

  lemma {:induction false} TotalZero(ts: seq<Thread>, f: Thread -> int)
    requires forall j :: 0 <= j < |ts| ==> f(ts[j]) == 0
    ensures Total(ts, f) == 0
  {
    if ts != [] { TotalZero(ts[..|ts| - 1], f); }
  }

  /** No interleaving deadlocks: while a thread is not done, some thread can take a step, if need be
      after the clock has moved on. */
  lemma NeverDeadlocks(cfg: Config, start: real, actions: seq<Action>)
    requires exists j :: 0 <= j < |cfg.jobs| && !Done(Run(cfg, start, actions).threads[j])
    ensures exists elapsed, j: nat :: elapsed >= 0.0 && CanMove(After(cfg, Run(cfg, start, actions), Tick(elapsed)), j)
  {
    var s := Run(cfg, start, actions);
    CapHolds(cfg, start, actions);
    var j: nat :| j < |cfg.jobs| && !Done(s.threads[j]);
    if i: nat :| i < |s.threads| && !Done(s.threads[i]) && !s.threads[i].pc.AcquirePermit? {
      var until := match s.threads[i].pc
        case SlotWait(u) => u
        case BackoffWait(u) => u
        case _ => s.clock;
      var elapsed := Max(0.0, until - s.clock);
      assert CanMove(After(cfg, s, Tick(elapsed)), i);
    } else {
      TotalZero(s.threads, Holds);
      assert CanMove(After(cfg, s, Tick(0.0)), j);
    }
  }

  /** A run with a thread that is not done goes on, and spends work. */
  lemma OneMoreMove(cfg: Config, start: real, actions: seq<Action>) returns (longer: seq<Action>)
    requires exists j :: 0 <= j < |cfg.jobs| && !Done(Run(cfg, start, actions).threads[j])
    ensures actions <= longer
    ensures 0 <= WorkUpTo(cfg, Run(cfg, start, longer), |cfg.jobs|)
              < WorkUpTo(cfg, Run(cfg, start, actions), |cfg.jobs|)
  {
    NeverDeadlocks(cfg, start, actions);
    var s := Run(cfg, start, actions);
    var elapsed, j: nat :| elapsed >= 0.0 && CanMove(After(cfg, s, Tick(elapsed)), j);
    var ticked := actions + [Tick(elapsed)];
    longer := ticked + [Move(j, Passed)];
    assert ticked[..|actions|] == actions && longer[..|ticked|] == ticked;
    AttemptHolds(cfg, start, ticked);
    AttemptHolds(cfg, start, longer);
    TickIsFree(cfg, s, elapsed, |cfg.jobs|);
    MoveSpends(cfg, Run(cfg, start, ticked), j, Passed);
    WorkNonNegative(cfg, Run(cfg, start, longer), |cfg.jobs|);
  }

  /** So every run can be carried on until all threads are done. */
  lemma {:induction false} EveryRunCanFinish(cfg: Config, start: real, actions: seq<Action>)
    returns (longer: seq<Action>)
    ensures actions <= longer
    ensures forall j :: 0 <= j < |cfg.jobs| ==> Done(Run(cfg, start, longer).threads[j])
    decreases WorkUpTo(cfg, Run(cfg, start, actions), |cfg.jobs|)
  {
    longer := actions;
    if exists j :: 0 <= j < |cfg.jobs| && !Done(Run(cfg, start, actions).threads[j]) {
      var moved := OneMoreMove(cfg, start, actions);
      longer := EveryRunCanFinish(cfg, start, moved);
    }
  }
}
