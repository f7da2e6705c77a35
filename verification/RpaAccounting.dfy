/** What the scheduler's records and report say at the end of a run (`rpa_scheduler.py`). */
module RpaAccounting {
  import opened Wrappers
  import opened Backoff
  import opened Tally
  import opened RpaScheduler
  import opened RpaTraces

  // ---------------------------------------------------------------- records of each job

  /** The records of one job, in order. */
  function OfJob(records: seq<AttemptRecord>, j: nat): seq<AttemptRecord> {
    if records == [] then [] else
    var rest, last := OfJob(records[..|records| - 1], j), records[|records| - 1];
    if last.job == j then rest + [last] else rest
  }

  /** Attempts already recorded by a thread, and whether the last of them succeeded. */
  function Recorded(t: Thread): nat {
    if t.pc.Decide? || t.pc.BackoffWait? || t.pc.Finished? || t.attempt == 0 then t.attempt else t.attempt - 1
  }

  predicate LastOk(t: Thread) {
    (t.pc.Decide? && t.pc.ok) || (t.pc.Finished? && t.pc.ok)
  }

  function ScheduledBackoff(cfg: Config, k: nat): real {
    LoopBackoff(cfg.policy.backoffBase, cfg.policy.backoffMax, k)
  }

  /** `n` records numbered from 1, each failed except possibly the last, each failure with the
      backoff of its turn. */
  predicate Numbered(cfg: Config, rs: seq<AttemptRecord>, j: nat, n: nat, lastOk: bool) {
    && |rs| == n
    && forall k :: 0 <= k < n ==>
         var ok := lastOk && k == n - 1;
         rs[k] == AttemptRecord(j, k + 1, ok, if ok then 0.0 else ScheduledBackoff(cfg, k))
  }

  predicate ThreadRecords(cfg: Config, records: seq<AttemptRecord>, t: Thread, j: nat) {
    && Numbered(cfg, OfJob(records, j), j, Recorded(t), LastOk(t))
    && (t.attempt >= 1 ==> t.backoff == ScheduledBackoff(cfg, t.attempt - 1))
    && (t.attempt == 0 ==> t.pc == Finished(false))
  }

  ghost predicate RecordsInv(cfg: Config, s: State) {
    && |s.threads| == |cfg.jobs|
    && (forall j :: 0 <= j < |s.threads| ==> ThreadRecords(cfg, s.records, s.threads[j], j))
  }

  lemma OfJobExtends(records: seq<AttemptRecord>, r: AttemptRecord, j: nat)
    ensures OfJob(records + [r], j) == if r.job == j then OfJob(records, j) + [r] else OfJob(records, j)
  {
    assert (records + [r])[..|records|] == records;
  }

  /** Except when it appends a record, a step keeps what the thread's records should be. */
  lemma OtherSteps(cfg: Config, s: State, j: nat, outcome: Outcome)
    requires |s.threads| == |cfg.jobs| && CanMove(s, j) && !s.threads[j].pc.AppendRecord?
    requires ThreadRecords(cfg, s.records, s.threads[j], j)
    ensures SharedAfter(cfg, s, j).records == s.records
    ensures ThreadRecords(cfg, s.records, NextThread(cfg, s, j, outcome), j)
  {
    var t, u := s.threads[j], NextThread(cfg, s, j, outcome);
    assert Recorded(u) == Recorded(t) && LastOk(u) == LastOk(t);
  }

  lemma AppendStep(cfg: Config, rs: seq<AttemptRecord>, t: Thread, j: nat)
    requires t.pc.AppendRecord? && ThreadRecords(cfg, rs, t, j)
    ensures ThreadRecords(cfg, rs + [NewRecord(t, j)], t.(pc := Decide(t.pc.ok)), j)
  {
    OfJobExtends(rs, NewRecord(t, j), j);
  }

  function NewRecord(t: Thread, j: nat): AttemptRecord
    requires t.pc.AppendRecord?
  {
    AttemptRecord(j, t.attempt, t.pc.ok, if t.pc.ok then 0.0 else t.backoff)
  }

  lemma ThreadRecordsKept(cfg: Config, s: State, j: nat, outcome: Outcome, i: nat)
    requires |s.threads| == |cfg.jobs| && CanMove(s, j) && i < |s.threads|
    requires ThreadRecords(cfg, s.records, s.threads[i], i)
    ensures ThreadRecords(cfg, SharedAfter(cfg, s, j).records,
                          if i == j then NextThread(cfg, s, j, outcome) else s.threads[i], i)
  {
    if !s.threads[j].pc.AppendRecord? {
      if i == j { OtherSteps(cfg, s, j, outcome); }
    } else if i == j {
      AppendStep(cfg, s.records, s.threads[j], j);
    } else {
      OfJobExtends(s.records, NewRecord(s.threads[j], j), i);
    }
  }

  lemma RecordsKept(cfg: Config, s: State, a: Action)
    requires RecordsInv(cfg, s)
    ensures RecordsInv(cfg, After(cfg, s, a))
  {
    var now := After(cfg, s, a);
    forall i | 0 <= i < |now.threads| ensures ThreadRecords(cfg, now.records, now.threads[i], i) {
      assert ThreadRecords(cfg, s.records, s.threads[i], i);
      if a.Move? && CanMove(s, a.thread) { ThreadRecordsKept(cfg, s, a.thread, a.outcome, i); }
    }
  }

  lemma {:induction false} RecordsHold(cfg: Config, start: real, actions: seq<Action>)
    ensures RecordsInv(cfg, Run(cfg, start, actions))
  {
    if actions != [] {
      RecordsHold(cfg, start, actions[..|actions| - 1]);
      RecordsKept(cfg, Run(cfg, start, actions[..|actions| - 1]), actions[|actions| - 1]);
    }
  }

  /** One more than the job's own retry limit, or the policy's; a negative limit of a job counts as none,
      a negative limit of the policy allows no attempt. */
  function MostAttempts(cfg: Config, j: nat): int
    requires j < |cfg.jobs|
  {
    match cfg.jobs[j].maxRetries
    case Some(own) => if own >= 0 then own + 1 else 1
    case None => if cfg.policy.maxRetries >= 0 then cfg.policy.maxRetries + 1 else 0
  }

  /** Each job's records, at any point of any interleaving, are attempts 1 to k with at most one more
      than the retries, all failed except possibly the last, with the scheduled backoffs. A job that
      ended without raising stopped at its first success or used up its retries. */
  lemma JobRecords(cfg: Config, start: real, actions: seq<Action>, j: nat)
    requires j < |cfg.jobs|
    ensures var s := Run(cfg, start, actions);
            var t, rs := s.threads[j], OfJob(s.records, j);
            && Numbered(cfg, rs, j, |rs|, LastOk(t))
            && |rs| <= MostAttempts(cfg, j)
            && (t.pc == Finished(true) ==> rs != [] && rs[|rs| - 1].ok)
            && (t.pc == Finished(false) ==> |rs| == MostAttempts(cfg, j))
  {
    RecordsHold(cfg, start, actions);
    FinishHolds(cfg, start, actions);
    var s := Run(cfg, start, actions);
    assert ThreadRecords(cfg, s.records, s.threads[j], j);
  }

  ghost predicate FinishInv(cfg: Config, s: State) {
    && AttemptInv(cfg, s)
    && forall j :: 0 <= j < |s.threads| && s.threads[j].pc.Finished? ==>
         && (Retries(cfg, j) < 0 ==> s.threads[j].attempt == 0 && !s.threads[j].pc.ok)
         && (Retries(cfg, j) >= 0 ==> 1 <= s.threads[j].attempt <= Retries(cfg, j) + 1)
         && (Retries(cfg, j) >= 0 && !s.threads[j].pc.ok ==> s.threads[j].attempt == Retries(cfg, j) + 1)
  }

  lemma FinishKept(cfg: Config, s: State, a: Action)
    requires FinishInv(cfg, s)
    ensures FinishInv(cfg, After(cfg, s, a))
  {
    AttemptKept(cfg, s, a);
  }

  lemma {:induction false} FinishHolds(cfg: Config, start: real, actions: seq<Action>)
    ensures FinishInv(cfg, Run(cfg, start, actions))
  {
    if actions != [] {
      FinishHolds(cfg, start, actions[..|actions| - 1]);
      FinishKept(cfg, Run(cfg, start, actions[..|actions| - 1]), actions[|actions| - 1]);
    }
  }

  // ---------------------------------------------------------------- the shared dictionaries

  function Ids(cfg: Config): seq<string> {
    seq(|cfg.jobs|, j requires 0 <= j < |cfg.jobs| => cfg.jobs[j].id)
  }

  /** Attempts a thread has added to its job's count. */
  function Counted(t: Thread): nat {
    if t.pc.AppendRecord? then t.attempt else Recorded(t)
  }

  predicate ThreadEntries(attempts: map<string, nat>, success: map<string, bool>, id: string, t: Thread) {
    && CountOf(attempts, id) == Counted(t)
    && (t.pc.WriteCount? ==> t.pc.seen == Counted(t))
    && (t.pc.Finished? && t.attempt >= 1 <==> id in success)
    && (id in success ==> success[id] == t.pc.ok)
  }

  ghost predicate AllEntries(cfg: Config, s: State) {
    && |s.threads| == |cfg.jobs|
    && forall j :: 0 <= j < |s.threads| ==>
         ThreadEntries(s.attemptsByJob, s.successByJob, Ids(cfg)[j], s.threads[j])
  }

  ghost predicate EntriesInv(cfg: Config, s: State) {
    && |s.threads| == |cfg.jobs|
    && s.successByJob.Keys <= JobIds(cfg) && s.attemptsByJob.Keys == JobIds(cfg)
    && (Distinct(Ids(cfg)) ==> AllEntries(cfg, s))
  }

  lemma MoverEntries(cfg: Config, s: State, j: nat, outcome: Outcome)
    requires FinishInv(cfg, s) && CanMove(s, j)
    requires ThreadEntries(s.attemptsByJob, s.successByJob, cfg.jobs[j].id, s.threads[j])
    ensures var now := SharedAfter(cfg, s, j);
            ThreadEntries(now.attemptsByJob, now.successByJob, cfg.jobs[j].id, NextThread(cfg, s, j, outcome))
  {
  }

  /** A step writes only the entries of its own job. */
  lemma OtherAttempts(cfg: Config, s: State, j: nat, id: string)
    requires |s.threads| == |cfg.jobs| && j < |s.threads|
    ensures SharedAfter(cfg, s, j).attemptsByJob.Keys <= s.attemptsByJob.Keys + {cfg.jobs[j].id}
    ensures s.attemptsByJob.Keys <= SharedAfter(cfg, s, j).attemptsByJob.Keys
    ensures id != cfg.jobs[j].id ==> CountOf(SharedAfter(cfg, s, j).attemptsByJob, id) == CountOf(s.attemptsByJob, id)
  {
  }

  lemma OtherSuccess(cfg: Config, s: State, j: nat, id: string)
    requires |s.threads| == |cfg.jobs| && j < |s.threads|
    ensures var now := SharedAfter(cfg, s, j).successByJob;
            && now.Keys <= s.successByJob.Keys + {cfg.jobs[j].id}
            && (id != cfg.jobs[j].id ==> (id in now <==> id in s.successByJob))
            && (id != cfg.jobs[j].id && id in now ==> now[id] == s.successByJob[id])
  {
  }

  lemma ThreadEntriesKept(cfg: Config, s: State, j: nat, outcome: Outcome, i: nat)
    requires FinishInv(cfg, s) && CanMove(s, j) && i < |s.threads| && Distinct(Ids(cfg))
    requires ThreadEntries(s.attemptsByJob, s.successByJob, Ids(cfg)[i], s.threads[i])
    ensures var now := SharedAfter(cfg, s, j);
            ThreadEntries(now.attemptsByJob, now.successByJob, Ids(cfg)[i],
                          if i == j then NextThread(cfg, s, j, outcome) else s.threads[i])
  {
    if i == j {
      MoverEntries(cfg, s, j, outcome);
    } else {
      assert Ids(cfg)[i] != Ids(cfg)[j];
      OtherAttempts(cfg, s, j, Ids(cfg)[i]);
      OtherSuccess(cfg, s, j, Ids(cfg)[i]);
    }
  }

  lemma EntriesKept(cfg: Config, s: State, a: Action)
    requires FinishInv(cfg, s) && EntriesInv(cfg, s)
    ensures EntriesInv(cfg, After(cfg, s, a))
  {
    var now := After(cfg, s, a);
    if a.Move? && CanMove(s, a.thread) {
      OtherAttempts(cfg, s, a.thread, "");
      OtherSuccess(cfg, s, a.thread, "");
      assert cfg.jobs[a.thread].id in JobIds(cfg);
    }
    if Distinct(Ids(cfg)) {
      forall i | 0 <= i < |now.threads|
        ensures ThreadEntries(now.attemptsByJob, now.successByJob, Ids(cfg)[i], now.threads[i])
      {
        assert ThreadEntries(s.attemptsByJob, s.successByJob, Ids(cfg)[i], s.threads[i]);
        if a.Move? && CanMove(s, a.thread) { ThreadEntriesKept(cfg, s, a.thread, a.outcome, i); }
      }
    }
  }

  lemma {:induction false} EntriesHold(cfg: Config, start: real, actions: seq<Action>)
    ensures EntriesInv(cfg, Run(cfg, start, actions))
  {
    if actions != [] {
      EntriesHold(cfg, start, actions[..|actions| - 1]);
      FinishHolds(cfg, start, actions[..|actions| - 1]);
      EntriesKept(cfg, Run(cfg, start, actions[..|actions| - 1]), actions[|actions| - 1]);
    }
  }

  // ---------------------------------------------------------------- the report

  datatype Report = Report(ok: bool, total: nat, succeeded: nat, failed: int, maxSeen: int, attemptsTotal: nat)

  function SucceededIds(s: State): set<string> {
    set id | id in s.successByJob && s.successByJob[id]
  }

  ghost function ReportOf(cfg: Config, s: State): Report {
    var total, succeeded := |cfg.jobs|, |SucceededIds(s)|;
    Report(total - succeeded == 0, total, succeeded, total - succeeded, s.maxSeen, Sum(s.attemptsByJob))
  }

  ghost predicate AllDone(s: State) {
    forall j :: 0 <= j < |s.threads| ==> Done(s.threads[j])
  }

  /** No two jobs that may run share an id. */
  ghost predicate OwnIds(cfg: Config) {
    forall i, j :: 0 <= i < j < |cfg.jobs| && Retries(cfg, i) >= 0 && Retries(cfg, j) >= 0 ==>
      cfg.jobs[i].id != cfg.jobs[j].id
  }

  /** An attempt that is counted but not yet recorded. */
  function Unrecorded(t: Thread): int {
    if t.pc.AppendRecord? then 1 else 0
  }

  /** A count that was read is still the count. */
  predicate SawCount(attempts: map<string, nat>, id: string, t: Thread) {
    t.pc.WriteCount? ==> t.pc.seen == CountOf(attempts, id)
  }

  ghost predicate CountsInv(cfg: Config, s: State) {
    && |s.threads| == |cfg.jobs|
    && Sum(s.attemptsByJob) == |s.records| + Total(s.threads, Unrecorded)
    && forall j :: 0 <= j < |s.threads| ==> SawCount(s.attemptsByJob, cfg.jobs[j].id, s.threads[j])
  }

  lemma CountDeltas(cfg: Config, s: State, j: nat, outcome: Outcome)
    requires |s.threads| == |cfg.jobs| && CanMove(s, j) && SawCount(s.attemptsByJob, cfg.jobs[j].id, s.threads[j])
    ensures var now, t, u := SharedAfter(cfg, s, j), s.threads[j], NextThread(cfg, s, j, outcome);
            && SawCount(now.attemptsByJob, cfg.jobs[j].id, u)
            && now.attemptsByJob == (if t.pc.WriteCount? then
                  s.attemptsByJob[cfg.jobs[j].id := CountOf(s.attemptsByJob, cfg.jobs[j].id) + 1] else s.attemptsByJob)
            && |now.records| - |s.records| == (if t.pc.AppendRecord? then 1 else 0)
            && Unrecorded(u) == (if t.pc.WriteCount? then 1 else 0)
  {
  }

  /** Writing a count changes no other job's count. */
  lemma OtherCount(attempts: map<string, nat>, id: string, n: nat, other: string, t: Thread)
    requires other != id && SawCount(attempts, other, t)
    ensures SawCount(attempts[id := n], other, t)
  {
  }

  lemma SumKept(cfg: Config, s: State, j: nat, outcome: Outcome)
    requires CountsInv(cfg, s) && CanMove(s, j)
    ensures var now := After(cfg, s, Move(j, outcome));
            Sum(now.attemptsByJob) == |now.records| + Total(now.threads, Unrecorded)
  {
    assert SawCount(s.attemptsByJob, cfg.jobs[j].id, s.threads[j]);
    CountDeltas(cfg, s, j, outcome);
    SumCounted(s.attemptsByJob, cfg.jobs[j].id);
    TotalUpdate(s.threads, j, NextThread(cfg, s, j, outcome), Unrecorded);
  }

  lemma CountsKept(cfg: Config, s: State, a: Action)
    requires OwnIds(cfg) && AttemptInv(cfg, s) && CountsInv(cfg, s)
    ensures CountsInv(cfg, After(cfg, s, a))
  {
    if a.Move? && CanMove(s, a.thread) {
      var j, now := a.thread, After(cfg, s, a);
      SumKept(cfg, s, j, a.outcome);
      forall i | 0 <= i < |s.threads| ensures SawCount(now.attemptsByJob, cfg.jobs[i].id, now.threads[i]) {
        assert SawCount(s.attemptsByJob, cfg.jobs[i].id, s.threads[i]);
        CountDeltas(cfg, s, j, a.outcome);
        if i != j && !s.threads[i].pc.Finished? {
          OtherCount(s.attemptsByJob, cfg.jobs[j].id, CountOf(s.attemptsByJob, cfg.jobs[j].id) + 1,
                     cfg.jobs[i].id, s.threads[i]);
        }
      }
    }
  }

  lemma {:induction false} SumOfZeros(counts: map<string, nat>)
    requires forall id :: id in counts ==> counts[id] == 0
    ensures Sum(counts) == 0
    decreases |counts|
  {
    if id :| id in counts {
      SumSplit(counts, id);
      Shrinks(counts, id);
      SumOfZeros(counts - {id});
    }
  }

  lemma {:induction false} CountsHold(cfg: Config, start: real, actions: seq<Action>)
    requires OwnIds(cfg)
    ensures CountsInv(cfg, Run(cfg, start, actions))
  {
    if actions == [] {
      SumOfZeros(Initial(cfg, start).attemptsByJob);
      TotalZero(Initial(cfg, start).threads, Unrecorded);
    } else {
      CountsHold(cfg, start, actions[..|actions| - 1]);
      AttemptHolds(cfg, start, actions[..|actions| - 1]);
      CountsKept(cfg, Run(cfg, start, actions[..|actions| - 1]), actions[|actions| - 1]);
    }
  }

  /** When no two jobs that may run share an id, the attempt counts add up to the records and the
      attempts counted but not yet recorded, at any point of any run. */
  lemma AttemptsAreRecords(cfg: Config, start: real, actions: seq<Action>)
    requires OwnIds(cfg)
    ensures var s := Run(cfg, start, actions);
            && Sum(s.attemptsByJob) == |s.records| + Total(s.threads, Unrecorded)
            && (AllDone(s) ==> Sum(s.attemptsByJob) == |s.records|)
  {
    CountsHold(cfg, start, actions);
    var s := Run(cfg, start, actions);
    if AllDone(s) { TotalZero(s.threads, Unrecorded); }
  }

  lemma IdsAreIds(cfg: Config, id: string)
    ensures id in JobIds(cfg) <==> id in Ids(cfg)
  {
    if id in JobIds(cfg) {
      var j :| 0 <= j < |cfg.jobs| && cfg.jobs[j].id == id;
      assert Ids(cfg)[j] == id;
    }
  }

  function Succeeded(t: Thread): int {
    if t.pc == Finished(true) then 1 else 0
  }

  /** Ids of the first `n` jobs whose thread ended well. */
  function GoodIds(cfg: Config, s: State, n: nat): set<string>
    requires n <= |s.threads| == |cfg.jobs|
  {
    set j | 0 <= j < n && s.threads[j].pc == Finished(true) :: Ids(cfg)[j]
  }

  lemma GoodIdsGrow(cfg: Config, s: State, n: nat)
    requires n < |s.threads| == |cfg.jobs| && Distinct(Ids(cfg))
    ensures GoodIds(cfg, s, n + 1) ==
            GoodIds(cfg, s, n) + if s.threads[n].pc == Finished(true) then {Ids(cfg)[n]} else {}
    ensures Ids(cfg)[n] !in GoodIds(cfg, s, n)
  {
  }

  lemma {:induction false} GoodIdsCount(cfg: Config, s: State, n: nat)
    requires n <= |s.threads| == |cfg.jobs| && Distinct(Ids(cfg))
    ensures |GoodIds(cfg, s, n)| == Total(s.threads[..n], Succeeded)
  {
    if n > 0 {
      GoodIdsCount(cfg, s, n - 1);
      GoodIdsGrow(cfg, s, n - 1);
      assert s.threads[..n][..n - 1] == s.threads[..n - 1];
    }
  }

  lemma SucceededAreGood(cfg: Config, s: State)
    requires EntriesInv(cfg, s) && FinishInv(cfg, s) && Distinct(Ids(cfg))
    ensures SucceededIds(s) == GoodIds(cfg, s, |s.threads|)
  {
    forall id | id in SucceededIds(s) ensures id in GoodIds(cfg, s, |s.threads|) {
      var j :| 0 <= j < |cfg.jobs| && cfg.jobs[j].id == id;
      assert ThreadEntries(s.attemptsByJob, s.successByJob, Ids(cfg)[j], s.threads[j]);
      assert s.threads[j].pc == Finished(true);
    }
    forall id | id in GoodIds(cfg, s, |s.threads|) ensures id in SucceededIds(s) {
      var j :| 0 <= j < |s.threads| && s.threads[j].pc == Finished(true) && Ids(cfg)[j] == id;
      assert ThreadEntries(s.attemptsByJob, s.successByJob, Ids(cfg)[j], s.threads[j]);
    }
  }

  /** For distinct ids, the report of a completed run counts the jobs whose thread ended with a success,
      counts every other one as failed, and its attempts are the records. */
  lemma ReportCounts(cfg: Config, start: real, actions: seq<Action>)
    requires Distinct(Ids(cfg)) && AllDone(Run(cfg, start, actions))
    ensures var s := Run(cfg, start, actions);
            var report := ReportOf(cfg, s);
            && report.succeeded == Total(s.threads, Succeeded)
            && report.succeeded + report.failed == |cfg.jobs| && report.failed >= 0
            && report.attemptsTotal == |s.records|
            && report.total == |cfg.jobs| && report.maxSeen == s.maxSeen <= Permits(cfg.policy)
  {
    ConcurrencyCap(cfg, start, actions);
    assert OwnIds(cfg) by {
      forall i, j | 0 <= i < j < |cfg.jobs| ensures cfg.jobs[i].id != cfg.jobs[j].id {
        assert Ids(cfg)[i] != Ids(cfg)[j];
      }
    }
    AttemptsAreRecords(cfg, start, actions);
    SucceededCounts(cfg, start, actions);
    SucceededAtMost(Run(cfg, start, actions).threads);
  }

  lemma SucceededCounts(cfg: Config, start: real, actions: seq<Action>)
    requires Distinct(Ids(cfg))
    ensures |SucceededIds(Run(cfg, start, actions))| == Total(Run(cfg, start, actions).threads, Succeeded)
  {
    var s := Run(cfg, start, actions);
    EntriesHold(cfg, start, actions);
    FinishHolds(cfg, start, actions);
    SucceededAreGood(cfg, s);
    GoodIdsCount(cfg, s, |s.threads|);
    assert s.threads[..|s.threads|] == s.threads;
  }

  lemma {:induction false} SucceededAtMost(ts: seq<Thread>)
    ensures Total(ts, Succeeded) <= |ts|
    ensures Total(ts, Succeeded) == |ts| <==> forall j :: 0 <= j < |ts| ==> ts[j].pc == Finished(true)
  {
    if ts != [] {
      SucceededAtMost(ts[..|ts| - 1]);
      assert forall j :: 0 <= j < |ts| - 1 ==> ts[..|ts| - 1][j] == ts[j];
    }
  }

  lemma {:induction false} FewerIds(ids: seq<string>)
    ensures |set id | id in ids| <= |ids|
    ensures |set id | id in ids| == |ids| ==> Distinct(ids)
  {
    if ids != [] {
      var init, last := ids[..|ids| - 1], ids[|ids| - 1];
      FewerIds(init);
      assert ids == init + [last];
      assert (set id | id in ids) == (set id | id in init) + {last};
      if last in init { assert (set id | id in ids) == (set id | id in init); }
    }
  }

  /** When is the whole schedule reported as a success? Exactly when every thread ended with a success
      and no id is used twice: ids that repeat are counted once, and count as failures. */
  lemma ReportOkExactly(cfg: Config, start: real, actions: seq<Action>)
    ensures var s := Run(cfg, start, actions);
            ReportOf(cfg, s).ok <==>
              Distinct(Ids(cfg)) && forall j :: 0 <= j < |s.threads| ==> s.threads[j].pc == Finished(true)
  {
    var s := Run(cfg, start, actions);
    EntriesHold(cfg, start, actions);
    FinishHolds(cfg, start, actions);
    if Distinct(Ids(cfg)) {
      SucceededAreGood(cfg, s);
      GoodIdsCount(cfg, s, |s.threads|);
      assert s.threads[..|s.threads|] == s.threads;
      SucceededAtMost(s.threads);
    } else {
      FewerIds(Ids(cfg));
      forall id | id in SucceededIds(s) ensures id in Ids(cfg) { IdsAreIds(cfg, id); }
      SubsetCard(SucceededIds(s), set id | id in Ids(cfg));
    }
  }

  lemma SubsetCard<T>(a: set<T>, b: set<T>)
    requires a <= b
    ensures |a| <= |b|
  {
    assert |b| == |a| + |b - a| by { assert b == a + (b - a); }
  }

  // ---------------------------------------------------------------- repeated ids lose counts

  /** Threads that have not begun, or are done. */
  ghost predicate FreshOrDone(cfg: Config, s: State) {
    && |s.threads| == |cfg.jobs| && s.permits >= 1
    && forall j :: 0 <= j < |s.threads| ==>
         Done(s.threads[j]) || (s.threads[j].pc == Reserve && s.threads[j].attempt == 1)
  }

  lemma FinishedAlone(cfg: Config, s: State, j: nat) returns (now: State)
    requires Reached(cfg, s) && j < |s.threads| == |cfg.jobs| && s.threads[j].pc == ReadCount(true)
    ensures Reached(cfg, now) && OnlyMoved(s, now, j, s.threads[j].(pc := Finished(true))) && now.permits == s.permits
    ensures |now.records| - Sum(now.attemptsByJob) == |s.records| - Sum(s.attemptsByJob)
  {
    var s1 := ToDecision(cfg, s, j, true);
    SumCounted(s.attemptsByJob, cfg.jobs[j].id);
    now := EndedWell(cfg, s1, j);
  }

  /** A thread runs from its beginning to a success, alone. */
  lemma RanAlone(cfg: Config, s: State, j: nat) returns (now: State)
    requires Reached(cfg, s) && FreshOrDone(cfg, s) && j < |s.threads|
    ensures Reached(cfg, now) && FreshOrDone(cfg, now) && Done(now.threads[j])
    ensures forall i :: 0 <= i < |s.threads| && i != j ==> now.threads[i] == s.threads[i]
    ensures |now.records| - Sum(now.attemptsByJob) == |s.records| - Sum(s.attemptsByJob)
  {
    if Done(s.threads[j]) {
      now := s;
    } else {
      var s1 := Waited(cfg, s, Max(0.0, ReadyAt(s, cfg.jobs[j].domain) - s.clock));
      assert ReadyAt(s1, cfg.jobs[j].domain) == ReadyAt(s, cfg.jobs[j].domain);
      var s2 := ThroughJob(cfg, s1, j, 0.0, true);
      now := FinishedAlone(cfg, s2, j);
    }
  }

  /** The threads from `n` on run one after another. */
  lemma {:induction false} RestRan(cfg: Config, s: State, n: nat) returns (now: State)
    requires Reached(cfg, s) && FreshOrDone(cfg, s) && n <= |s.threads|
    requires forall j :: 0 <= j < n ==> Done(s.threads[j])
    ensures Reached(cfg, now) && AllDone(now)
    ensures |now.records| - Sum(now.attemptsByJob) == |s.records| - Sum(s.attemptsByJob)
    decreases |s.threads| - n
  {
    if n == |s.threads| {
      now := s;
    } else {
      var s1 := RanAlone(cfg, s, n);
      now := RestRan(cfg, s1, n + 1);
    }
  }

  /** Two threads of one id come to the count together. */
  lemma BothCome(cfg: Config, i: nat, j: nat) returns (s: State)
    requires i < j < |cfg.jobs| && Retries(cfg, i) >= 0 && Retries(cfg, j) >= 0
    ensures Reached(cfg, s) && |s.threads| == |cfg.jobs| && s.permits >= 1
    ensures s.threads[i] == InitialThread(cfg, i).(pc := ReadCount(true))
    ensures s.threads[j] == InitialThread(cfg, j).(pc := ReadCount(true))
    ensures forall k :: 0 <= k < |cfg.jobs| && k != i && k != j ==> s.threads[k] == InitialThread(cfg, k)
    ensures s.attemptsByJob == Initial(cfg, 0.0).attemptsByJob && |s.records| == 0
  {
    var s0 := Started(cfg);
    var s1 := ThroughJob(cfg, s0, i, 0.0, true);
    var s2 := Waited(cfg, s1, Interval(cfg.policy));
    s := ThroughJob(cfg, s2, j, 0.0, true);
  }

  /** Both read the count before either writes it. */
  lemma BothRead(cfg: Config, i: nat, j: nat) returns (s: State)
    requires i < j < |cfg.jobs| && Retries(cfg, i) >= 0 && Retries(cfg, j) >= 0 && cfg.jobs[i].id == cfg.jobs[j].id
    ensures Reached(cfg, s) && |s.threads| == |cfg.jobs| && s.permits >= 1
    ensures s.threads[i].pc == s.threads[j].pc == WriteCount(true, 0)
    ensures forall k :: 0 <= k < |cfg.jobs| && k != i && k != j ==> s.threads[k] == InitialThread(cfg, k)
    ensures s.attemptsByJob == Initial(cfg, 0.0).attemptsByJob && |s.records| == 0
  {
    NothingCounted(cfg, i);
    var s1 := BothCome(cfg, i, j);
    var s2 := ReadTheCount(cfg, s1, i, true);
    s := ReadTheCount(cfg, s2, j, true);
  }

  lemma NothingCounted(cfg: Config, i: nat)
    requires i < |cfg.jobs|
    ensures var zeros := Initial(cfg, 0.0).attemptsByJob;
            CountOf(zeros, cfg.jobs[i].id) == 0 && Sum(zeros) == 0 && Sum(zeros[cfg.jobs[i].id := 1]) == 1
  {
    var zeros := Initial(cfg, 0.0).attemptsByJob;
    assert cfg.jobs[i].id in JobIds(cfg);
    SumOfZeros(zeros);
    SumCounted(zeros, cfg.jobs[i].id);
  }

  /** The second write loses the first. */
  lemma BothWrote(cfg: Config, i: nat, j: nat) returns (s: State)
    requires i < j < |cfg.jobs| && Retries(cfg, i) >= 0 && Retries(cfg, j) >= 0 && cfg.jobs[i].id == cfg.jobs[j].id
    ensures Reached(cfg, s) && |s.threads| == |cfg.jobs| && s.permits >= 1
    ensures s.threads[i].pc == s.threads[j].pc == AppendRecord(true)
    ensures forall k :: 0 <= k < |cfg.jobs| && k != i && k != j ==> s.threads[k] == InitialThread(cfg, k)
    ensures Sum(s.attemptsByJob) == 1 && |s.records| == 0
  {
    var s1 := BothRead(cfg, i, j);
    var s2 := WroteTheCount(cfg, s1, i, true, 0);
    s := WroteTheCount(cfg, s2, j, true, 0);
    NothingCounted(cfg, i);
    assert s.attemptsByJob == Initial(cfg, 0.0).attemptsByJob[cfg.jobs[i].id := 1];
  }

  lemma LostCount(cfg: Config, i: nat, j: nat) returns (s: State)
    requires i < j < |cfg.jobs| && Retries(cfg, i) >= 0 && Retries(cfg, j) >= 0 && cfg.jobs[i].id == cfg.jobs[j].id
    ensures Reached(cfg, s) && AllDone(s) && Sum(s.attemptsByJob) == |s.records| - 1
  {
    var s1 := BothWrote(cfg, i, j);
    var s2 := RecordedIt(cfg, s1, i, true);
    var s3 := RecordedIt(cfg, s2, j, true);
    var s4 := EndedWell(cfg, s3, i);
    var s5 := EndedWell(cfg, s4, j);
    s := RestRan(cfg, s5, 0);
  }

  /** The attempt counts are read and written without a lock. Completed runs always count every record
      exactly when no two jobs that may run share an id. */
  lemma CountsExactly(cfg: Config)
    ensures (forall start, actions ::
               var s := Run(cfg, start, actions);
               AllDone(s) ==> Sum(s.attemptsByJob) == |s.records|)
            <==> OwnIds(cfg)
  {
    if OwnIds(cfg) {
      forall start, actions | AllDone(Run(cfg, start, actions))
        ensures Sum(Run(cfg, start, actions).attemptsByJob) == |Run(cfg, start, actions).records|
      {
        AttemptsAreRecords(cfg, start, actions);
      }
    } else {
      var i: nat, j: nat :| i < j < |cfg.jobs| && Retries(cfg, i) >= 0 && Retries(cfg, j) >= 0
                            && cfg.jobs[i].id == cfg.jobs[j].id;
      var s := LostCount(cfg, i, j);
      var actions :| s == Run(cfg, 0.0, actions);
      assert AllDone(Run(cfg, 0.0, actions)) && Sum(Run(cfg, 0.0, actions).attemptsByJob) != |s.records|;
    }
  }
}
