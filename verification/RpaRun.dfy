/** The scheduler's nonlocal variables, updated in place by the blocks of `execute_job`
    (`rpa_scheduler.py`). Any interleaving of the blocks is a run of the state machine. */
module RpaRun {
  import opened Wrappers
  import opened Backoff
  import opened Tally
  import opened RpaScheduler

  class ScheduleRun {
    const cfg: Config
    var clock: real
    var nextDomainSlot: map<string, real>
    var permits: int
    var activeCount: int
    var maxSeen: int
    var records: seq<AttemptRecord>
    var successByJob: map<string, bool>
    var attemptsByJob: map<string, nat>
    var threads: seq<Thread>
    ghost var reservations: seq<Reservation>
    ghost var starts: seq<Reservation>

    ghost predicate Valid()
      reads this
    {
      |threads| == |cfg.jobs|
    }

    ghost function View(): State
      reads this
    {
      State(clock, nextDomainSlot, permits, activeCount, maxSeen, records, successByJob, attemptsByJob, threads,
            reservations, starts)
    }

    constructor (cfg: Config, start: real)
      ensures Valid() && this.cfg == cfg && View() == Run(cfg, start, [])
    {
      this.cfg := cfg;
      clock, nextDomainSlot := start, map[];
      permits := if cfg.policy.maxConcurrent > 1 then cfg.policy.maxConcurrent else 1;
      activeCount, maxSeen := 0, 0;
      records, successByJob := [], map[];
      attemptsByJob := map id: string | id in JobIds(cfg) :: 0;
      threads := seq(|cfg.jobs|, j requires 0 <= j < |cfg.jobs| => InitialThread(cfg, j));
      reservations, starts := [], [];
    }

    method Sleep(elapsed: real)
      requires Valid()
      modifies `clock
      ensures View() == After(cfg, old(View()), Tick(elapsed))
    {
      if elapsed >= 0.0 { clock := clock + elapsed; }
    }

    /** One round of `reserve_domain_slot` under its lock: either the slot is taken, or the time to
        wait for is returned. */
    method ReserveDomainSlot(domain: string) returns (wait: Option<real>)
      requires Valid()
      modifies `nextDomainSlot, `reservations
      ensures var ready := ReadyAt(old(View()), domain);
              if clock >= ready then
                && wait == None
                && nextDomainSlot == old(nextDomainSlot)[domain := clock + Interval(cfg.policy)]
                && reservations == old(reservations) + [Reservation(domain, clock)]
              else wait == Some(ready) && nextDomainSlot == old(nextDomainSlot) && reservations == old(reservations)
    {
      var readyAt := if domain in nextDomainSlot then nextDomainSlot[domain] else 0.0;
      if clock >= readyAt {
        nextDomainSlot := nextDomainSlot[domain := clock + Max(0.0, cfg.policy.interval)];
        reservations := reservations + [Reservation(domain, clock)];
        wait := None;
      } else {
        wait := Some(readyAt);
      }
    }

    /** The block a thread enters when its job starts. */
    method EnterJob(domain: string)
      modifies `activeCount, `maxSeen, `starts
      ensures activeCount == old(activeCount) + 1
      ensures maxSeen == if old(activeCount) + 1 > old(maxSeen) then old(activeCount) + 1 else old(maxSeen)
      ensures starts == old(starts) + [Reservation(domain, clock)]
    {
      activeCount := activeCount + 1;
      if activeCount > maxSeen { maxSeen := activeCount; }
      starts := starts + [Reservation(domain, clock)];
    }

    /** What a thread does after recording an attempt: report, wait, or try again at once. */
    method AfterAttempt(j: nat, ok: bool) returns (next: Thread)
      requires Valid() && j < |threads| && threads[j].pc == Decide(ok)
      modifies `successByJob
      ensures next == NextThread(cfg, old(View()), j, Passed)
      ensures View() == SharedAfter(cfg, old(View()), j)
    {
      var t := threads[j];
      if ok {
        successByJob := successByJob[cfg.jobs[j].id := true];
        next := t.(pc := Finished(true));
      } else if t.attempt > Retries(cfg, j) {
        successByJob := successByJob[cfg.jobs[j].id := false];
        next := t.(pc := Finished(false));
      } else if t.backoff > 0.0 {
        next := t.(pc := BackoffWait(clock + t.backoff));
      } else {
        next := NextAttempt(cfg, t);
      }
    }

    /** The blocks up to the runner's call. */
    method BeforeJob(j: nat) returns (next: Thread)
      requires Valid() && j < |threads|
      requires var pc := threads[j].pc; pc.Reserve? || pc.SlotWait? || pc.AcquirePermit? || pc.EnterActive?
      modifies `nextDomainSlot, `reservations, `permits, `activeCount, `maxSeen, `starts
      ensures next == NextThread(cfg, old(View()), j, Passed)
      ensures View() == SharedAfter(cfg, old(View()), j)
    {
      var job, t := cfg.jobs[j], threads[j];
      if t.pc.Reserve? {
        var wait := ReserveDomainSlot(job.domain);
        next := t.(pc := if wait.None? then AcquirePermit else SlotWait(wait.value));
      } else if t.pc.SlotWait? {
        next := t.(pc := Reserve);
      } else if t.pc.AcquirePermit? {
        permits := permits - 1;
        next := t.(pc := EnterActive);
      } else {
        EnterJob(job.domain);
        next := t.(pc := RunJob);
      }
    }

    /** The blocks after the runner has returned or raised. */
    method AfterJob(j: nat) returns (next: Thread)
      requires Valid() && j < |threads|
      requires var pc := threads[j].pc;
               pc.LeaveActive? || pc.ReleasePermit? || pc.ReadCount? || pc.WriteCount? || pc.AppendRecord?
      modifies `activeCount, `permits, `attemptsByJob, `records
      ensures next == NextThread(cfg, old(View()), j, Passed)
      ensures View() == SharedAfter(cfg, old(View()), j)
    {
      var id, t := cfg.jobs[j].id, threads[j];
      if t.pc.LeaveActive? {
        activeCount := if activeCount - 1 > 0 then activeCount - 1 else 0;
        next := t.(pc := ReleasePermit(t.pc.result));
      } else if t.pc.ReleasePermit? {
        permits := permits + 1;
        next := t.(pc := if t.pc.result.Raised? then Crashed else ReadCount(t.pc.result.Passed?));
      } else if t.pc.ReadCount? {
        next := t.(pc := WriteCount(t.pc.ok, CountOf(attemptsByJob, id)));
      } else if t.pc.WriteCount? {
        attemptsByJob := attemptsByJob[id := t.pc.seen + 1];
        next := t.(pc := AppendRecord(t.pc.ok));
      } else {
        records := records + [AttemptRecord(j, t.attempt, t.pc.ok, if t.pc.ok then 0.0 else t.backoff)];
        next := t.(pc := Decide(t.pc.ok));
      }
    }

    /** The next block of thread `j`, if it can go on. */
    method Step(j: nat, outcome: Outcome)
      requires Valid()
      modifies this
      ensures Valid() && View() == After(cfg, old(View()), Move(j, outcome))
    {
      if CanStep(j) {
        ghost var before := View();
        var t := Block(j, outcome);
        threads := threads[j := t];
        assert View() == SharedAfter(cfg, before, j).(threads := before.threads[j := t]);
      }
    }

    method Block(j: nat, outcome: Outcome) returns (next: Thread)
      requires Valid() && CanMove(View(), j)
      modifies this
      ensures threads == old(threads)
      ensures next == NextThread(cfg, old(View()), j, outcome)
      ensures View() == SharedAfter(cfg, old(View()), j)
    {
      var t := threads[j];
      if t.pc.RunJob? {
        next := t.(pc := LeaveActive(outcome));
      } else if t.pc.BackoffWait? {
        next := NextAttempt(cfg, t);
      } else if t.pc.Decide? {
        next := AfterAttempt(j, t.pc.ok);
      } else if t.pc.Reserve? || t.pc.SlotWait? || t.pc.AcquirePermit? || t.pc.EnterActive? {
        next := BeforeJob(j);
      } else {
        next := AfterJob(j);
      }
    }

    predicate CanStep(j: nat)
      reads this
      ensures CanStep(j) <==> CanMove(View(), j)
    {
      j < |threads| &&
      match threads[j].pc
      case SlotWait(until) => clock >= until
      case BackoffWait(until) => clock >= until
      case AcquirePermit => permits > 0
      case Finished(_) => false
      case Crashed => false
      case _ => true
    }
  }
}
