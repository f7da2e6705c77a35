/** What the job runners answered and what the scheduler makes of it (`rpa_scheduler.py`): records,
    thread ends and the report, in terms of the outcomes in the actions of a run. */
module RpaOutcomes {
  import opened Wrappers
  import opened Backoff
  import opened Tally
  import opened RpaScheduler
  import opened RpaAccounting

  /** What the runner of job `j` answered, call by call. */
  function Outcomes(cfg: Config, start: real, actions: seq<Action>, j: nat): seq<Outcome>
    requires j < |cfg.jobs|
  {
    if actions == [] then [] else
    var init, a := actions[..|actions| - 1], actions[|actions| - 1];
    var rest := Outcomes(cfg, start, init, j);
    if a.Move? && a.thread == j && Run(cfg, start, init).threads[j].pc == RunJob then rest + [a.outcome] else rest
  }

  predicate LastIs(os: seq<Outcome>, o: Outcome) {
    os != [] && os[|os| - 1] == o
  }

  function OutcomeOf(ok: bool): Outcome {
    if ok then Passed else Failed
  }

  /** The runner calls of a thread that have come back. */
  function Returned(t: Thread): nat {
    if t.attempt == 0 then 0
    else match t.pc
      case Reserve => t.attempt - 1
      case SlotWait(_) => t.attempt - 1
      case AcquirePermit => t.attempt - 1
      case EnterActive => t.attempt - 1
      case RunJob => t.attempt - 1
      case _ => t.attempt
  }

  /** What the thread knows of the last answer. */
  predicate KnowsLast(t: Thread, os: seq<Outcome>) {
    match t.pc
    case LeaveActive(r) => LastIs(os, r)
    case ReleasePermit(r) => LastIs(os, r)
    case ReadCount(ok) => LastIs(os, OutcomeOf(ok))
    case WriteCount(ok, _) => LastIs(os, OutcomeOf(ok))
    case AppendRecord(ok) => LastIs(os, OutcomeOf(ok))
    case Decide(ok) => LastIs(os, OutcomeOf(ok))
    case Finished(ok) => os == [] || LastIs(os, OutcomeOf(ok))
    case Crashed => LastIs(os, Raised)
    case _ => os == [] || LastIs(os, Failed)
  }

  predicate RecordsMatch(rs: seq<AttemptRecord>, os: seq<Outcome>) {
    |rs| <= |os| && forall k :: 0 <= k < |rs| ==> os[k] == OutcomeOf(rs[k].ok)
  }

  ghost predicate ThreadOutcomes(records: seq<AttemptRecord>, t: Thread, j: nat, os: seq<Outcome>) {
    |os| == Returned(t) && KnowsLast(t, os) && RecordsMatch(OfJob(records, j), os)
  }

  function MoreOutcomes(t: Thread, os: seq<Outcome>, outcome: Outcome): seq<Outcome> {
    if t.pc == RunJob then os + [outcome] else os
  }

  lemma MoverKnows(cfg: Config, s: State, j: nat, outcome: Outcome, os: seq<Outcome>)
    requires AttemptInv(cfg, s) && CanMove(s, j) && |os| == Returned(s.threads[j]) && KnowsLast(s.threads[j], os)
    ensures var u, more := NextThread(cfg, s, j, outcome), MoreOutcomes(s.threads[j], os, outcome);
            |more| == Returned(u) && KnowsLast(u, more)
  {
  }

  lemma RecordsStep(cfg: Config, s: State, j: nat, i: nat)
    requires j < |s.threads| == |cfg.jobs|
    ensures OfJob(SharedAfter(cfg, s, j).records, i) ==
            if s.threads[j].pc.AppendRecord? && i == j then OfJob(s.records, i) + [NewRecord(s.threads[j], j)]
            else OfJob(s.records, i)
  {
    if s.threads[j].pc.AppendRecord? { OfJobExtends(s.records, NewRecord(s.threads[j], j), i); }
  }

  lemma MoverOutcomes(cfg: Config, s: State, j: nat, outcome: Outcome, os: seq<Outcome>)
    requires AttemptInv(cfg, s) && CanMove(s, j) && ThreadRecords(cfg, s.records, s.threads[j], j)
    requires ThreadOutcomes(s.records, s.threads[j], j, os)
    ensures ThreadOutcomes(SharedAfter(cfg, s, j).records, NextThread(cfg, s, j, outcome), j,
                           MoreOutcomes(s.threads[j], os, outcome))
  {
    var t, rs := s.threads[j], OfJob(s.records, j);
    MoverKnows(cfg, s, j, outcome, os);
    RecordsStep(cfg, s, j, j);
    if t.pc.AppendRecord? {
      RecordMatches(rs, os, NewRecord(t, j));
    } else {
      RecordsStillMatch(rs, os, MoreOutcomes(t, os, outcome));
    }
  }

  /** The record of the last answer. */
  lemma RecordMatches(rs: seq<AttemptRecord>, os: seq<Outcome>, r: AttemptRecord)
    requires RecordsMatch(rs, os) && |rs| + 1 == |os| && LastIs(os, OutcomeOf(r.ok))
    ensures RecordsMatch(rs + [r], os)
  {
  }

  lemma RecordsStillMatch(rs: seq<AttemptRecord>, os: seq<Outcome>, more: seq<Outcome>)
    requires RecordsMatch(rs, os) && os <= more
    ensures RecordsMatch(rs, more)
  {
  }

  lemma {:induction false} OutcomesHold(cfg: Config, start: real, actions: seq<Action>, j: nat)
    requires j < |cfg.jobs|
    ensures var s := Run(cfg, start, actions);
            ThreadOutcomes(s.records, s.threads[j], j, Outcomes(cfg, start, actions, j))
  {
    if actions != [] {
      var init, a := actions[..|actions| - 1], actions[|actions| - 1];
      var s, os := Run(cfg, start, init), Outcomes(cfg, start, init, j);
      OutcomesHold(cfg, start, init, j);
      AttemptHolds(cfg, start, init);
      RecordsHold(cfg, start, init);
      assert ThreadRecords(cfg, s.records, s.threads[j], j);
      if a.Move? && CanMove(s, a.thread) {
        if a.thread == j { MoverOutcomes(cfg, s, j, a.outcome, os); } else { RecordsStep(cfg, s, a.thread, j); }
      }
    }
  }

  /** What becomes of the runner's answers, in any run: the k-th record of a job says success exactly when
      the k-th answer was a success, and failure exactly when it was a failure. An answer that raised has
      no record. A thread that ended after some attempt ended as its last answer was, and it is dead
      exactly when its last answer raised and it has left its block. */
  lemma OutcomesRecorded(cfg: Config, start: real, actions: seq<Action>, j: nat)
    requires j < |cfg.jobs|
    ensures var s, os := Run(cfg, start, actions), Outcomes(cfg, start, actions, j);
            var t, rs := s.threads[j], OfJob(s.records, j);
            && |rs| <= |os|
            && (forall k :: 0 <= k < |rs| ==> (rs[k].ok <==> os[k] == Passed) && (!rs[k].ok <==> os[k] == Failed))
            && (t.pc == Finished(true) ==> LastIs(os, Passed))
            && (t.pc == Finished(false) ==> os == [] || LastIs(os, Failed))
            && (t.pc == Crashed <==> LastIs(os, Raised) && t.pc != LeaveActive(Raised) && t.pc != ReleasePermit(Raised))
            && (LastIs(os, Raised) ==> |rs| == |os| - 1)
            && (t.pc.Finished? ==> |rs| == |os|)
  {
    OutcomesHold(cfg, start, actions, j);
    RecordsHold(cfg, start, actions);
    AttemptHolds(cfg, start, actions);
    FinishHolds(cfg, start, actions);
    var s := Run(cfg, start, actions);
    assert ThreadRecords(cfg, s.records, s.threads[j], j);
  }

  /** When a completed schedule is reported as a success: exactly when no id is used twice and the last
      answer of every job's runner was a success. */
  lemma ReportFollowsOutcomes(cfg: Config, start: real, actions: seq<Action>)
    requires AllDone(Run(cfg, start, actions))
    ensures ReportOf(cfg, Run(cfg, start, actions)).ok <==>
              Distinct(Ids(cfg)) && forall j :: 0 <= j < |cfg.jobs| ==> EndedWell(cfg, start, actions, j)
  {
    var s := Run(cfg, start, actions);
    ReportOkExactly(cfg, start, actions);
    forall j | 0 <= j < |cfg.jobs| ensures s.threads[j].pc == Finished(true) <==> EndedWell(cfg, start, actions, j) {
      var pc := s.threads[j].pc;
      assert Done(s.threads[j]) && (pc.Finished? ==> pc == Finished(pc.ok));
      OutcomesRecorded(cfg, start, actions, j);
    }
  }

  /** The last answer of the job's runner was a success. */
  predicate EndedWell(cfg: Config, start: real, actions: seq<Action>, j: nat)
    requires j < |cfg.jobs|
  {
    LastIs(Outcomes(cfg, start, actions, j), Passed)
  }
}
