/** When job starts keep the per-domain interval (`rpa_scheduler.py`). What the scheduler spaces is the
    reservation of a slot; a thread may be held up between reserving and starting. */
module RpaStarts {
  import opened Wrappers
  import opened Backoff
  import opened RpaScheduler
  import opened RpaAccounting
  import opened RpaTraces

  /** No two jobs that may run share a domain. */
  ghost predicate OwnDomains(cfg: Config) {
    forall i, j :: 0 <= i < j < |cfg.jobs| && Retries(cfg, i) >= 0 && Retries(cfg, j) >= 0 ==>
      cfg.jobs[i].domain != cfg.jobs[j].domain
  }

  /** A job's backoffs are no shorter than the gap; from the second on they do not shrink. */
  predicate BacksOffLong(cfg: Config, gap: real, j: nat)
    requires j < |cfg.jobs|
  {
    && (Retries(cfg, j) >= 1 ==> ScheduledBackoff(cfg, 0) >= gap)
    && (Retries(cfg, j) >= 2 ==> ScheduledBackoff(cfg, 1) >= gap)
  }

  ghost predicate StartsKeepApart(cfg: Config, gap: real) {
    gap == 0.0 || (OwnDomains(cfg) && forall j :: 0 <= j < |cfg.jobs| ==> BacksOffLong(cfg, gap, j))
  }

  // ---------------------------------------------------------------- starts kept apart

  lemma {:induction false} LaterBackoffs(cfg: Config, gap: real, k: nat)
    requires k >= 1 && gap > 0.0 && ScheduledBackoff(cfg, 1) >= gap
    ensures ScheduledBackoff(cfg, k) >= gap && ScheduledBackoff(cfg, k) <= Max(0.0, cfg.policy.backoffMax)
  {
    if k > 1 { LaterBackoffs(cfg, gap, k - 1); }
  }

  lemma LongBackoff(cfg: Config, gap: real, j: nat, k: nat)
    requires j < |cfg.jobs| && gap > 0.0 && BacksOffLong(cfg, gap, j) && k + 1 <= Retries(cfg, j)
    ensures ScheduledBackoff(cfg, k) >= gap
  {
    if k >= 1 { LaterBackoffs(cfg, gap, k); }
  }

  predicate LastBefore(starts: seq<Reservation>, domain: string, time: real) {
    forall i :: 0 <= i < |starts| && starts[i].domain == domain ==> starts[i].time <= time
  }

  /** A thread that may start its job has no start of its domain closer than the gap; one that backs
      off will not have when its wait is over. */
  predicate StartDue(gap: real, starts: seq<Reservation>, clock: real, t: Thread, domain: string) {
    match t.pc
    case Finished(_) => true
    case Crashed => true
    case BackoffWait(until) => LastBefore(starts, domain, until - gap)
    case Reserve => LastBefore(starts, domain, clock - gap)
    case SlotWait(_) => LastBefore(starts, domain, clock - gap)
    case AcquirePermit => LastBefore(starts, domain, clock - gap)
    case EnterActive => LastBefore(starts, domain, clock - gap)
    case _ => LastBefore(starts, domain, clock)
  }

  ghost predicate StartsInv(cfg: Config, gap: real, s: State) {
    && |s.threads| == |cfg.jobs|
    && Spaced(gap, s.starts)
    && forall j :: 0 <= j < |s.threads| ==> StartDue(gap, s.starts, s.clock, s.threads[j], cfg.jobs[j].domain)
  }

  lemma MoverDue(cfg: Config, gap: real, s: State, j: nat, outcome: Outcome)
    requires |s.threads| == |cfg.jobs| && CanMove(s, j) && gap > 0.0
    requires StartDue(gap, s.starts, s.clock, s.threads[j], cfg.jobs[j].domain)
    requires s.threads[j].pc.Decide? && s.threads[j].attempt <= Retries(cfg, j) ==> s.threads[j].backoff >= gap
    ensures StartDue(gap, SharedAfter(cfg, s, j).starts, s.clock, NextThread(cfg, s, j, outcome), cfg.jobs[j].domain)
  {
  }

  lemma OneStart(cfg: Config, s: State, j: nat)
    requires j < |s.threads| == |cfg.jobs|
    ensures SharedAfter(cfg, s, j).clock == s.clock
    ensures SharedAfter(cfg, s, j).starts ==
            if s.threads[j].pc.EnterActive? then s.starts + [Reservation(cfg.jobs[j].domain, s.clock)] else s.starts
  {
  }

  lemma StartsKept(cfg: Config, gap: real, s: State, a: Action)
    requires gap > 0.0 && OwnDomains(cfg) && AttemptInv(cfg, s) && StartsInv(cfg, gap, s)
    requires forall j :: 0 <= j < |s.threads| && s.threads[j].pc.Decide? && s.threads[j].attempt <= Retries(cfg, j) ==>
               s.threads[j].backoff >= gap
    ensures StartsInv(cfg, gap, After(cfg, s, a))
  {
    if a.Move? && CanMove(s, a.thread) {
      var j, now := a.thread, After(cfg, s, a);
      OneStart(cfg, s, j);
      MoverDue(cfg, gap, s, j, a.outcome);
      forall i | 0 <= i < |s.threads| && i != j
        ensures StartDue(gap, now.starts, now.clock, now.threads[i], cfg.jobs[i].domain)
      {
        assert StartDue(gap, s.starts, s.clock, s.threads[i], cfg.jobs[i].domain);
        assert !Done(s.threads[i]) ==> cfg.jobs[i].domain != cfg.jobs[j].domain;
      }
    }
  }

  lemma {:induction false} StartsHold(cfg: Config, gap: real, start: real, actions: seq<Action>)
    requires gap > 0.0 && StartsKeepApart(cfg, gap)
    ensures StartsInv(cfg, gap, Run(cfg, start, actions))
  {
    if actions != [] {
      var init := actions[..|actions| - 1];
      var s := Run(cfg, start, init);
      StartsHold(cfg, gap, start, init);
      AttemptHolds(cfg, start, init);
      RecordsHold(cfg, start, init);
      forall j | 0 <= j < |s.threads| && s.threads[j].pc.Decide? && s.threads[j].attempt <= Retries(cfg, j)
        ensures s.threads[j].backoff >= gap
      {
        assert ThreadRecords(cfg, s.records, s.threads[j], j) && BacksOffLong(cfg, gap, j);
        LongBackoff(cfg, gap, j, s.threads[j].attempt - 1);
      }
      StartsKept(cfg, gap, s, actions[|actions| - 1]);
    }
  }

  // ---------------------------------------------------------------- starts too close

  lemma TwoClose(gap: real, starts: seq<Reservation>, domain: string, time: real, later: real)
    requires later - time < gap
    ensures !Spaced(gap, starts + [Reservation(domain, time)] + [Reservation(domain, later)])
  {
    var all := starts + [Reservation(domain, time)] + [Reservation(domain, later)];
    assert all[|starts|] == Reservation(domain, time) && all[|starts| + 1] == Reservation(domain, later);
  }

  /** Two jobs of one domain reserve in turn; the first is held up and starts at the same time as the
      second. */
  lemma SharedDomain(cfg: Config, i: nat, j: nat) returns (s: State)
    requires i < j < |cfg.jobs| && cfg.jobs[i].domain == cfg.jobs[j].domain
    requires Retries(cfg, i) >= 0 && Retries(cfg, j) >= 0 && Interval(cfg.policy) > 0.0
    ensures Reached(cfg, s) && !Spaced(Interval(cfg.policy), s.starts)
  {
    var gap := Interval(cfg.policy);
    var s0 := Started(cfg);
    var s1 := TookSlot(cfg, s0, i);
    var s2 := Waited(cfg, s1, gap);
    var s3 := TookSlot(cfg, s2, j);
    var s4 := StartedJob(cfg, s3, i);
    var s5 := EndedJob(cfg, s4, i, true);
    s := StartedJob(cfg, s5, j);
    TwoClose(gap, [], cfg.jobs[i].domain, gap, gap);
    assert s.starts == [] + [Reservation(cfg.jobs[i].domain, gap)] + [Reservation(cfg.jobs[i].domain, gap)];
  }

  /** A failed attempt whose start was held up for `delay`, up to the next attempt. */
  lemma FailedAttempt(cfg: Config, s: State, j: nat, delay: real) returns (now: State)
    requires Reached(cfg, s) && j < |s.threads| == |cfg.jobs| && delay >= 0.0
    requires s.threads[j].pc == Reserve && s.clock >= ReadyAt(s, cfg.jobs[j].domain) && s.permits >= 1
    requires s.threads[j].attempt <= Retries(cfg, j) && s.threads[j].backoff >= 0.0
    ensures Reached(cfg, now) && OnlyMoved(s, now, j, NextAttempt(cfg, s.threads[j]))
    ensures now.clock == s.clock + delay + s.threads[j].backoff && now.permits == s.permits
    ensures ReadyAt(now, cfg.jobs[j].domain) == s.clock + Interval(cfg.policy)
    ensures now.starts == s.starts + [Reservation(cfg.jobs[j].domain, s.clock + delay)]
  {
    var s1 := ThroughJob(cfg, s, j, delay, false);
    var s2 := ToDecision(cfg, s1, j, false);
    now := BackedOff(cfg, s2, j);
  }

  lemma StartedAtOnce(cfg: Config, s: State, j: nat) returns (now: State)
    requires Reached(cfg, s) && j < |s.threads| == |cfg.jobs| && s.permits >= 1
    requires s.threads[j].pc == Reserve && s.clock >= ReadyAt(s, cfg.jobs[j].domain)
    ensures Reached(cfg, now) && now.starts == s.starts + [Reservation(cfg.jobs[j].domain, s.clock)]
  {
    var s1 := TookSlot(cfg, s, j);
    now := StartedJob(cfg, s1, j);
  }

  /** Held up for the interval, failed, and back after the backoff: started at once, since the slot has
      been free for long. */
  lemma HeldUpThenFailed(cfg: Config, s: State, j: nat) returns (now: State)
    requires Reached(cfg, s) && j < |s.threads| == |cfg.jobs| && s.permits >= 1
    requires s.threads[j].pc == Reserve && s.clock >= ReadyAt(s, cfg.jobs[j].domain)
    requires s.threads[j].attempt <= Retries(cfg, j) && s.threads[j].backoff >= 0.0
    ensures Reached(cfg, now)
    ensures var time := s.clock + Interval(cfg.policy);
            now.starts == s.starts + [Reservation(cfg.jobs[j].domain, time)]
                                   + [Reservation(cfg.jobs[j].domain, time + s.threads[j].backoff)]
  {
    var s1 := FailedAttempt(cfg, s, j, Interval(cfg.policy));
    now := StartedAtOnce(cfg, s1, j);
  }

  lemma ShortBackoff(cfg: Config, s: State, j: nat) returns (now: State)
    requires Reached(cfg, s) && j < |s.threads| == |cfg.jobs| && s.permits >= 1
    requires s.threads[j].pc == Reserve && s.clock >= ReadyAt(s, cfg.jobs[j].domain)
    requires s.threads[j].attempt <= Retries(cfg, j) && 0.0 <= s.threads[j].backoff < Interval(cfg.policy)
    ensures Reached(cfg, now) && !Spaced(Interval(cfg.policy), now.starts)
  {
    var time := s.clock + Interval(cfg.policy);
    now := HeldUpThenFailed(cfg, s, j);
    TwoClose(Interval(cfg.policy), s.starts, cfg.jobs[j].domain, time, time + s.threads[j].backoff);
  }

  lemma BackoffTooShort(cfg: Config, j: nat) returns (s: State)
    requires j < |cfg.jobs| && Interval(cfg.policy) > 0.0 && !BacksOffLong(cfg, Interval(cfg.policy), j)
    ensures Reached(cfg, s) && !Spaced(Interval(cfg.policy), s.starts)
  {
    var gap := Interval(cfg.policy);
    var s0 := Started(cfg);
    if ScheduledBackoff(cfg, 0) < gap {
      s := ShortBackoff(cfg, s0, j);
    } else {
      var s1 := FailedAttempt(cfg, s0, j, 0.0);
      assert s1.threads[j].backoff == ScheduledBackoff(cfg, 1) >= 0.0;
      s := ShortBackoff(cfg, s1, j);
    }
  }

  /** When are the starts of each domain spaced in every run? Exactly when there is no interval to keep,
      or no two jobs that may run share a domain and every job's backoffs are at least the interval. */
  lemma StartsSpacedExactly(cfg: Config)
    ensures (forall start, actions :: Spaced(Interval(cfg.policy), Run(cfg, start, actions).starts))
            <==> StartsKeepApart(cfg, Interval(cfg.policy))
  {
    var gap := Interval(cfg.policy);
    if gap == 0.0 {
      forall start, actions ensures Spaced(gap, Run(cfg, start, actions).starts) { StartsInOrder(cfg, start, actions); }
    } else if StartsKeepApart(cfg, gap) {
      forall start, actions ensures Spaced(gap, Run(cfg, start, actions).starts) {
        StartsHold(cfg, gap, start, actions);
      }
    } else {
      var s := TooClose(cfg);
      var actions :| s == Run(cfg, 0.0, actions);
      assert !Spaced(gap, Run(cfg, 0.0, actions).starts);
    }
  }

  lemma TooClose(cfg: Config) returns (s: State)
    requires Interval(cfg.policy) > 0.0 && !StartsKeepApart(cfg, Interval(cfg.policy))
    ensures Reached(cfg, s) && !Spaced(Interval(cfg.policy), s.starts)
  {
    if j: nat :| j < |cfg.jobs| && !BacksOffLong(cfg, Interval(cfg.policy), j) {
      s := BackoffTooShort(cfg, j);
    } else {
      var i: nat, j: nat :| i < j < |cfg.jobs| && Retries(cfg, i) >= 0 && Retries(cfg, j) >= 0
                            && cfg.jobs[i].domain == cfg.jobs[j].domain;
      s := SharedDomain(cfg, i, j);
    }
  }
}
