/** Particular interleavings of the scheduler (`rpa_scheduler.py`), built block by block: what one
    thread does when the others stand still. */
module RpaTraces {
  import opened Backoff
  import opened Tally
  import opened RpaScheduler

  /** A state of some run that starts at time zero. */
  ghost predicate Reached(cfg: Config, s: State) {
    exists actions :: s == Run(cfg, 0.0, actions)
  }

  lemma Started(cfg: Config) returns (s: State)
    ensures s == Initial(cfg, 0.0) && Reached(cfg, s)
  {
    s := Run(cfg, 0.0, []);
  }

  lemma Acted(cfg: Config, s: State, a: Action) returns (now: State)
    requires Reached(cfg, s)
    ensures |s.threads| == |now.threads| == |cfg.jobs| && Reached(cfg, now) && now == After(cfg, s, a)
  {
    var actions :| s == Run(cfg, 0.0, actions);
    assert (actions + [a])[..|actions|] == actions;
    now := Run(cfg, 0.0, actions + [a]);
  }

  /** The shared variables these interleavings are about. */
  datatype Shared = Shared(
    clock: real,
    slots: map<string, real>,
    permits: int,
    starts: seq<Reservation>,
    attempts: map<string, nat>,
    recorded: nat)

  function SharedOf(s: State): Shared {
    Shared(s.clock, s.slots, s.permits, s.starts, s.attemptsByJob, |s.records|)
  }

  /** Only thread `j` has moved, and is now `t`. */
  predicate OnlyMoved(s: State, now: State, j: nat, t: Thread) {
    && j < |s.threads| == |now.threads|
    && now.threads[j] == t
    && (forall i :: 0 <= i < |s.threads| && i != j ==> now.threads[i] == s.threads[i])
  }

  lemma Stepped(cfg: Config, s: State, j: nat, outcome: Outcome) returns (now: State)
    requires Reached(cfg, s) && CanMove(s, j)
    ensures |s.threads| == |cfg.jobs| && Reached(cfg, now)
    ensures OnlyMoved(s, now, j, NextThread(cfg, s, j, outcome))
    ensures SharedOf(now) == SharedOf(SharedAfter(cfg, s, j))
  {
    now := Acted(cfg, s, Move(j, outcome));
  }

  lemma Waited(cfg: Config, s: State, elapsed: real) returns (now: State)
    requires Reached(cfg, s) && elapsed >= 0.0
    ensures Reached(cfg, now) && now.threads == s.threads
    ensures SharedOf(now) == SharedOf(s).(clock := s.clock + elapsed)
  {
    now := Acted(cfg, s, Tick(elapsed));
  }

  lemma TookSlot(cfg: Config, s: State, j: nat) returns (now: State)
    requires Reached(cfg, s) && j < |s.threads| == |cfg.jobs|
    requires s.threads[j].pc == Reserve && s.clock >= ReadyAt(s, cfg.jobs[j].domain)
    ensures Reached(cfg, now) && OnlyMoved(s, now, j, s.threads[j].(pc := AcquirePermit))
    ensures SharedOf(now) == SharedOf(s).(slots := s.slots[cfg.jobs[j].domain := s.clock + Interval(cfg.policy)])
  {
    now := Stepped(cfg, s, j, Passed);
  }

  lemma StartedJob(cfg: Config, s: State, j: nat) returns (now: State)
    requires Reached(cfg, s) && j < |s.threads| == |cfg.jobs|
    requires s.threads[j].pc == AcquirePermit && s.permits >= 1
    ensures Reached(cfg, now) && OnlyMoved(s, now, j, s.threads[j].(pc := RunJob))
    ensures SharedOf(now) == SharedOf(s).(permits := s.permits - 1,
                                          starts := s.starts + [Reservation(cfg.jobs[j].domain, s.clock)])
  {
    var s1 := Stepped(cfg, s, j, Passed);
    now := Stepped(cfg, s1, j, Passed);
  }

  lemma EndedJob(cfg: Config, s: State, j: nat, ok: bool) returns (now: State)
    requires Reached(cfg, s) && j < |s.threads| == |cfg.jobs| && s.threads[j].pc == RunJob
    ensures Reached(cfg, now) && OnlyMoved(s, now, j, s.threads[j].(pc := ReadCount(ok)))
    ensures SharedOf(now) == SharedOf(s).(permits := s.permits + 1)
  {
    var s1 := Stepped(cfg, s, j, if ok then Passed else Failed);
    var s2 := Stepped(cfg, s1, j, Passed);
    now := Stepped(cfg, s2, j, Passed);
  }

  lemma ReadTheCount(cfg: Config, s: State, j: nat, ok: bool) returns (now: State)
    requires Reached(cfg, s) && j < |s.threads| == |cfg.jobs| && s.threads[j].pc == ReadCount(ok)
    ensures Reached(cfg, now) && SharedOf(now) == SharedOf(s)
    ensures OnlyMoved(s, now, j, s.threads[j].(pc := WriteCount(ok, CountOf(s.attemptsByJob, cfg.jobs[j].id))))
  {
    now := Stepped(cfg, s, j, Passed);
  }

  lemma WroteTheCount(cfg: Config, s: State, j: nat, ok: bool, seen: nat) returns (now: State)
    requires Reached(cfg, s) && j < |s.threads| == |cfg.jobs| && s.threads[j].pc == WriteCount(ok, seen)
    ensures Reached(cfg, now) && OnlyMoved(s, now, j, s.threads[j].(pc := AppendRecord(ok)))
    ensures SharedOf(now) == SharedOf(s).(attempts := s.attemptsByJob[cfg.jobs[j].id := seen + 1])
  {
    now := Stepped(cfg, s, j, Passed);
  }

  lemma RecordedIt(cfg: Config, s: State, j: nat, ok: bool) returns (now: State)
    requires Reached(cfg, s) && j < |s.threads| == |cfg.jobs| && s.threads[j].pc == AppendRecord(ok)
    ensures Reached(cfg, now) && OnlyMoved(s, now, j, s.threads[j].(pc := Decide(ok)))
    ensures SharedOf(now) == SharedOf(s).(recorded := |s.records| + 1)
  {
    now := Stepped(cfg, s, j, Passed);
  }

  lemma EndedWell(cfg: Config, s: State, j: nat) returns (now: State)
    requires Reached(cfg, s) && j < |s.threads| == |cfg.jobs| && s.threads[j].pc == Decide(true)
    ensures Reached(cfg, now) && OnlyMoved(s, now, j, s.threads[j].(pc := Finished(true)))
    ensures SharedOf(now) == SharedOf(s)
  {
    now := Stepped(cfg, s, j, Passed);
  }

  /** From a free slot through the job, `delay` passing between reservation and start. */
  lemma ThroughJob(cfg: Config, s: State, j: nat, delay: real, ok: bool) returns (now: State)
    requires Reached(cfg, s) && j < |s.threads| == |cfg.jobs| && delay >= 0.0
    requires s.threads[j].pc == Reserve && s.clock >= ReadyAt(s, cfg.jobs[j].domain) && s.permits >= 1
    ensures Reached(cfg, now) && OnlyMoved(s, now, j, s.threads[j].(pc := ReadCount(ok)))
    ensures SharedOf(now) == SharedOf(s).(clock := s.clock + delay,
                                          slots := s.slots[cfg.jobs[j].domain := s.clock + Interval(cfg.policy)],
                                          starts := s.starts + [Reservation(cfg.jobs[j].domain, s.clock + delay)])
  {
    var s1 := TookSlot(cfg, s, j);
    var s2 := Waited(cfg, s1, delay);
    var s3 := StartedJob(cfg, s2, j);
    now := EndedJob(cfg, s3, j, ok);
  }

  /** From the end of the job to the decision, alone: the attempt is counted and recorded. */
  lemma ToDecision(cfg: Config, s: State, j: nat, ok: bool) returns (now: State)
    requires Reached(cfg, s) && j < |s.threads| == |cfg.jobs| && s.threads[j].pc == ReadCount(ok)
    ensures Reached(cfg, now) && OnlyMoved(s, now, j, s.threads[j].(pc := Decide(ok)))
    ensures var id := cfg.jobs[j].id;
            SharedOf(now) == SharedOf(s).(attempts := s.attemptsByJob[id := CountOf(s.attemptsByJob, id) + 1],
                                          recorded := |s.records| + 1)
  {
    var s1 := ReadTheCount(cfg, s, j, ok);
    var s2 := WroteTheCount(cfg, s1, j, ok, CountOf(s.attemptsByJob, cfg.jobs[j].id));
    now := RecordedIt(cfg, s2, j, ok);
  }

  /** From a failure with retries left to the next attempt, after exactly the backoff. */
  lemma BackedOff(cfg: Config, s: State, j: nat) returns (now: State)
    requires Reached(cfg, s) && j < |s.threads| == |cfg.jobs|
    requires s.threads[j].pc == Decide(false) && s.threads[j].attempt <= Retries(cfg, j) && s.threads[j].backoff >= 0.0
    ensures Reached(cfg, now) && OnlyMoved(s, now, j, NextAttempt(cfg, s.threads[j]))
    ensures SharedOf(now) == SharedOf(s).(clock := s.clock + s.threads[j].backoff)
  {
    var s1 := Stepped(cfg, s, j, Passed);
    if s.threads[j].backoff > 0.0 {
      var s2 := Waited(cfg, s1, s.threads[j].backoff);
      now := Stepped(cfg, s2, j, Passed);
    } else {
      now := s1;
    }
  }

  // ---------------------------------------------------------------- the cap is reached

  /** Jobs that may run, among the first `n`. */
  function RunnableUpTo(cfg: Config, n: nat): nat
    requires n <= |cfg.jobs|
  {
    if n == 0 then 0 else RunnableUpTo(cfg, n - 1) + if Retries(cfg, n - 1) >= 0 then 1 else 0
  }

  function AtOnce(cfg: Config, n: nat): int
    requires n <= |cfg.jobs|
  {
    var cap := if cfg.policy.maxConcurrent >= 1 then cfg.policy.maxConcurrent else 1;
    if RunnableUpTo(cfg, n) <= cap then RunnableUpTo(cfg, n) else cap
  }

  /** Threads that run their job, or have not begun. */
  predicate RunningOrFresh(cfg: Config, s: State, n: nat) {
    && n <= |s.threads| == |cfg.jobs|
    && (forall i :: 0 <= i < n ==> s.threads[i].pc == RunJob || s.threads[i] == InitialThread(cfg, i))
    && (forall i :: n <= i < |s.threads| ==> s.threads[i] == InitialThread(cfg, i))
  }

  lemma {:induction false} StartedMany(cfg: Config, n: nat) returns (s: State)
    requires n <= |cfg.jobs|
    ensures Reached(cfg, s) && RunningOrFresh(cfg, s, n) && s.permits == Permits(cfg.policy) - AtOnce(cfg, n)
  {
    if n == 0 {
      s := Started(cfg);
    } else {
      s := StartedMany(cfg, n - 1);
      if Retries(cfg, n - 1) >= 0 && s.permits >= 1 { s := StartedOneMore(cfg, s, n - 1); }
    }
  }

  lemma StartedOneMore(cfg: Config, s: State, j: nat) returns (now: State)
    requires Reached(cfg, s) && j < |s.threads| == |cfg.jobs|
    requires s.threads[j].pc == Reserve && s.permits >= 1
    ensures Reached(cfg, now) && OnlyMoved(s, now, j, s.threads[j].(pc := RunJob)) && now.permits == s.permits - 1
  {
    var s1 := Waited(cfg, s, Max(0.0, ReadyAt(s, cfg.jobs[j].domain) - s.clock));
    assert ReadyAt(s1, cfg.jobs[j].domain) == ReadyAt(s, cfg.jobs[j].domain);
    var s2 := TookSlot(cfg, s1, j);
    now := StartedJob(cfg, s2, j);
  }

  lemma {:induction false} SameTotals(ts: seq<Thread>, f: Thread -> int, g: Thread -> int)
    requires forall i :: 0 <= i < |ts| ==> f(ts[i]) == g(ts[i])
    ensures Total(ts, f) == Total(ts, g)
  {
    if ts != [] { SameTotals(ts[..|ts| - 1], f, g); }
  }

  /** The concurrency cap is no lower than it says: some run has as many jobs running at once as the cap
      and the jobs that may run allow. */
  lemma CapIsReached(cfg: Config)
    ensures exists actions :: Run(cfg, 0.0, actions).active == AtOnce(cfg, |cfg.jobs|)
  {
    var s := StartedMany(cfg, |cfg.jobs|);
    var actions :| s == Run(cfg, 0.0, actions);
    CapHolds(cfg, 0.0, actions);
    SameTotals(s.threads, Holds, IsActive);
    assert Run(cfg, 0.0, actions).active == AtOnce(cfg, |cfg.jobs|);
  }
}
