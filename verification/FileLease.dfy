/** The leader lease and its epoch fence (`FileLease` and `EpochFence` in
    `distributed_coordinator.py`). Each lease operation reads and rewrites the lease file in one
    step; time is an integer. */
module FileLease {
  import opened Wrappers

  datatype LeaseData = LeaseData(holder: string, epoch: nat, expiry: int)

  type FileBody = Option<LeaseData>

  predicate Expired(d: LeaseData, now: int) {
    now > d.expiry
  }

  /** An empty holder name counts as no holder. */
  predicate MayAcquire(file: FileBody, holder: string, now: int) {
    file.None? || file.value.holder == "" || file.value.holder == holder || Expired(file.value, now)
  }

  function EpochIn(file: FileBody): nat {
    if file.None? then 0 else file.value.epoch
  }

  predicate HeldBy(file: FileBody, holder: string, now: int) {
    file.Some? && file.value.holder == holder && holder != "" && !Expired(file.value, now)
  }

  predicate Names(file: FileBody, holder: string) {
    file.Some? && file.value.holder == holder
  }

  /** The file after each operation. */
  function AfterAcquire(file: FileBody, holder: string, ttl: int, now: int): FileBody {
    if MayAcquire(file, holder, now) then Some(LeaseData(holder, EpochIn(file) + 1, now + ttl)) else file
  }

  function AfterRenew(file: FileBody, holder: string, ttl: int, now: int): FileBody {
    if Names(file, holder) then Some(file.value.(expiry := now + ttl)) else file
  }

  function AfterRelease(file: FileBody, holder: string): FileBody {
    if Names(file, holder) then None else file
  }

  // ---------------------------------------------------------------- the objects

  class LeaseFile {
    var body: FileBody

    constructor ()
      ensures body == None
    {
      body := None;
    }
  }

  class FileLease {
    const path: LeaseFile
    var epoch: nat

    constructor (path: LeaseFile)
      ensures this.path == path && epoch == 0
    {
      this.path := path;
      epoch := 0;
    }

    method Acquire(holder: string, ttl: int, now: int) returns (ok: bool)
      modifies this`epoch, path`body
      ensures ok == MayAcquire(old(path.body), holder, now)
      ensures path.body == AfterAcquire(old(path.body), holder, ttl, now)
      ensures epoch == if ok then EpochIn(path.body) else old(epoch)
    {
      var data := path.body;
      if data.Some? && data.value.holder != "" && data.value.holder != holder && !Expired(data.value, now) {
        return false;
      }
      epoch := (if data.Some? then data.value.epoch else 0) + 1;
      path.body := Some(LeaseData(holder, epoch, now + ttl));
      ok := true;
    }

    method Renew(holder: string, ttl: int, now: int) returns (ok: bool)
      modifies path`body
      ensures ok == Names(old(path.body), holder)
      ensures path.body == AfterRenew(old(path.body), holder, ttl, now)
    {
      if path.body.None? || path.body.value.holder != holder {
        return false;
      }
      path.body := Some(path.body.value.(expiry := now + ttl));
      ok := true;
    }

    method Release(holder: string) returns (ok: bool)
      modifies path`body
      ensures ok == Names(old(path.body), holder)
      ensures path.body == AfterRelease(old(path.body), holder)
    {
      if path.body.None? || path.body.value.holder != holder {
        return false;
      }
      path.body := None;
      ok := true;
    }

    method CurrentHolder(now: int) returns (holder: Option<string>)
      ensures forall h :: holder == Some(h) <==> HeldBy(path.body, h, now)
    {
      if path.body.None? || path.body.value.holder == "" || Expired(path.body.value, now) {
        return None;
      }
      holder := Some(path.body.value.holder);
    }
  }

  datatype FencedOutcome = Refused | Ran(epoch: nat)

  class EpochFence {
    const lease: FileLease
    const holder: string

    constructor (lease: FileLease, holder: string)
      ensures this.lease == lease && this.holder == holder
    {
      this.lease := lease;
      this.holder := holder;
    }

    method ValidateEpoch(presented: nat, now: int) returns (ok: bool)
      ensures ok == (HeldBy(lease.path.body, holder, now) && presented == lease.epoch)
    {
      var current := lease.CurrentHolder(now);
      if current != Some(holder) {
        return false;
      }
      ok := presented == lease.epoch;
    }

    /** Whether the action is run; its own result or exception changes nothing here. */
    method FencedExecute(epoch: nat, now: int) returns (outcome: FencedOutcome)
      ensures outcome == if HeldBy(lease.path.body, holder, now) && epoch == lease.epoch then Ran(epoch) else Refused
    {
      var ok := ValidateEpoch(epoch, now);
      outcome := if ok then Ran(epoch) else Refused;
    }
  }

  // ---------------------------------------------------------------- runs of many holders

  /** A successful acquisition; `term` counts the successful releases before it. */
  datatype Grant = Grant(holder: string, epoch: nat, term: nat)

  /** The shared file, the clock, the epoch of each holder's own lease object, and the history. */
  datatype World = World(file: FileBody, clock: int, epochs: map<string, nat>, grants: seq<Grant>, releases: nat)

  datatype Step =
    | Acquire(holder: string, ttl: int)
    | Renew(holder: string, ttl: int)
    | Release(holder: string)
    | Tick(elapsed: nat)

  const INITIAL_WORLD := World(None, 0, map[], [], 0)

  function Apply(w: World, step: Step): World {
    match step
    case Acquire(h, ttl) =>
      var file := AfterAcquire(w.file, h, ttl, w.clock);
      if !MayAcquire(w.file, h, w.clock) then w else
      w.(file := file, epochs := w.epochs[h := EpochIn(file)],
         grants := w.grants + [Grant(h, EpochIn(file), w.releases)])
    case Renew(h, ttl) => w.(file := AfterRenew(w.file, h, ttl, w.clock))
    case Release(h) =>
      w.(file := AfterRelease(w.file, h), releases := if Names(w.file, h) then w.releases + 1 else w.releases)
    case Tick(elapsed) => w.(clock := w.clock + elapsed)
  }

  function Run(steps: seq<Step>): World {
    if steps == [] then INITIAL_WORLD else Apply(Run(steps[..|steps| - 1]), steps[|steps| - 1])
  }

  function ObjectEpoch(w: World, holder: string): nat {
    if holder in w.epochs then w.epochs[holder] else 0
  }

  /** `fenced_execute(epoch, ...)` called by `holder` would run its action. */
  predicate FenceAccepts(w: World, holder: string, epoch: nat) {
    HeldBy(w.file, holder, w.clock) && epoch == ObjectEpoch(w, holder)
  }

  /** A grant continues the epoch of the one before, unless a release came between. */
  predicate Chained(grants: seq<Grant>) {
    && (forall i :: 0 <= i < |grants| ==> grants[i].epoch >= 1)
    && (grants != [] ==> grants[0].epoch == 1)
    && (forall i :: 0 < i < |grants| ==>
          && grants[i - 1].term <= grants[i].term
          && grants[i].epoch == if grants[i].term == grants[i - 1].term then grants[i - 1].epoch + 1 else 1)
  }

  predicate Inv(w: World) {
    && Chained(w.grants)
    && (w.grants != [] ==> w.grants[|w.grants| - 1].term <= w.releases)
    && (w.file.None? <==> w.grants == [] || w.grants[|w.grants| - 1].term < w.releases)
    && (w.file.Some? ==>
          && w.grants[|w.grants| - 1] == Grant(w.file.value.holder, w.file.value.epoch, w.releases)
          && ObjectEpoch(w, w.file.value.holder) == w.file.value.epoch)
  }

  lemma ChainExtends(grants: seq<Grant>, next: Grant)
    requires Chained(grants)
    requires grants == [] ==> next.epoch == 1
    requires grants != [] ==>
      var last := grants[|grants| - 1];
      last.term <= next.term && next.epoch == if next.term == last.term then last.epoch + 1 else 1
    ensures Chained(grants + [next])
  {
    var g := grants + [next];
    forall i | 0 <= i < |g| ensures g[i].epoch >= 1 {}
  }

  lemma AcquireKeeps(w: World, holder: string, ttl: int)
    requires Inv(w)
    ensures Inv(Apply(w, Acquire(holder, ttl)))
  {
    if MayAcquire(w.file, holder, w.clock) {
      ChainExtends(w.grants, Grant(holder, EpochIn(w.file) + 1, w.releases));
    }
  }

  lemma StepKeeps(w: World, step: Step)
    requires Inv(w)
    ensures Inv(Apply(w, step))
  {
    if step.Acquire? { AcquireKeeps(w, step.holder, step.ttl); }
  }

  /** In every run the file's holder carries the file's epoch, and epochs count the acquisitions
      since the last release. */
  lemma {:induction false} RunKeeps(steps: seq<Step>)
    ensures Inv(Run(steps))
  {
    if steps != [] {
      RunKeeps(steps[..|steps| - 1]);
      StepKeeps(Run(steps[..|steps| - 1]), steps[|steps| - 1]);
    }
  }

  // ---------------------------------------------------------------- how long a lease lasts

  function ApplyAll(w: World, steps: seq<Step>): World {
    if steps == [] then w else Apply(ApplyAll(w, steps[..|steps| - 1]), steps[|steps| - 1])
  }

  predicate OnlyTicks(steps: seq<Step>) {
    forall i :: 0 <= i < |steps| ==> steps[i].Tick?
  }

  lemma {:induction false} TicksMoveClock(w: World, steps: seq<Step>)
    requires OnlyTicks(steps)
    ensures ApplyAll(w, steps) == w.(clock := ApplyAll(w, steps).clock) && ApplyAll(w, steps).clock >= w.clock
  {
    if steps != [] { TicksMoveClock(w, steps[..|steps| - 1]); }
  }

  /** The step granted the lease to `holder`. */
  predicate Granted(w: World, step: Step) {
    step.Acquire? && |Apply(w, step).grants| > |w.grants|
  }

  /** The step took effect for its holder: the lease was granted, or the file was the holder's to renew. */
  predicate TookEffect(w: World, step: Step) {
    Granted(w, step) || (step.Renew? && w.file.Some? && w.file.value.holder == step.holder)
  }

  /** When acquiring succeeds: exactly when there is no file, or it names nobody or the same holder, or
      its expiry is past. */
  lemma GrantedExactly(w: World, holder: string, ttl: int)
    ensures Granted(w, Acquire(holder, ttl)) <==>
              w.file.None? || w.file.value.holder in {"", holder} || w.clock > w.file.value.expiry
  {
  }

  /** How long a lease lasts: acquired or renewed at time t for ttl by a named holder, and with only time
      passing since, it is held at time u exactly until u = t + ttl, and another holder can acquire it
      exactly after that. */
  lemma LifetimeExactly(w: World, step: Step, ticks: seq<Step>, other: string, ttl: int)
    requires TookEffect(w, step) && step.holder != "" && other != step.holder && OnlyTicks(ticks)
    ensures var now := ApplyAll(Apply(w, step), ticks);
            && (HeldBy(now.file, step.holder, now.clock) <==> now.clock <= w.clock + step.ttl)
            && (Granted(now, Acquire(other, ttl)) <==> now.clock > w.clock + step.ttl)
  {
    TicksMoveClock(Apply(w, step), ticks);
    GrantedExactly(ApplyAll(Apply(w, step), ticks), other, ttl);
  }

  /** For which holders an unexpired lease can only end by their own release: exactly those with a
      non-empty name. */
  lemma HolderProtectedExactly(w: World, holder: string)
    requires Names(w.file, holder) && !Expired(w.file.value, w.clock)
    ensures (forall step :: !Names(Apply(w, step).file, holder) ==> step == Release(holder)) <==> holder != ""
  {
    if holder == "" {
      assert !Names(Apply(w, Acquire("x", 0)).file, holder);
    }
  }

  lemma {:induction false} TermsAscend(grants: seq<Grant>, i: nat, j: nat)
    requires Chained(grants) && i <= j < |grants|
    ensures grants[i].term <= grants[j].term
    ensures grants[i].term == grants[j].term ==> grants[j].epoch == grants[i].epoch + (j - i)
  {
    if i < j { TermsAscend(grants, i, j - 1); }
  }

  /** When successive acquisitions get strictly growing epochs: exactly when no release came
      between any two of them. */
  lemma EpochsGrowExactly(steps: seq<Step>)
    ensures var g := Run(steps).grants;
            (forall i, j :: 0 <= i < j < |g| ==> g[i].epoch < g[j].epoch)
            <==> (forall i, j :: 0 <= i < j < |g| ==> g[i].term == g[j].term)
  {
    RunKeeps(steps);
    var g := Run(steps).grants;
    forall i, j | 0 <= i < j < |g| ensures g[i].term == g[j].term ==> g[i].epoch < g[j].epoch {
      TermsAscend(g, i, j);
    }
    if forall i, j :: 0 <= i < j < |g| ==> g[i].epoch < g[j].epoch {
      forall i, j | 0 <= i < j < |g| ensures g[i].term == g[j].term { SameTerm(g, i, j); }
    }
  }

  lemma {:induction false} SameTerm(g: seq<Grant>, i: nat, j: nat)
    requires Chained(g) && i <= j < |g|
    requires forall a, b :: 0 <= a < b < |g| ==> g[a].epoch < g[b].epoch
    ensures g[i].term == g[j].term
  {
    if i < j {
      SameTerm(g, i, j - 1);
      assert g[j - 1].epoch < g[j].epoch;
    }
  }

  predicate ReleaseFree(steps: seq<Step>) {
    forall i :: 0 <= i < |steps| ==> !steps[i].Release?
  }

  lemma {:induction false} ReleaseFreeTerm(steps: seq<Step>)
    requires ReleaseFree(steps)
    ensures Run(steps).releases == 0
  {
    if steps != [] { ReleaseFreeTerm(steps[..|steps| - 1]); }
  }

  /** What the fence accepts in any run: the current holder presenting the epoch of the latest
      acquisition. */
  lemma FenceExactly(steps: seq<Step>, holder: string, epoch: nat)
    ensures var w := Run(steps);
            FenceAccepts(w, holder, epoch) <==>
              HeldBy(w.file, holder, w.clock) && w.grants != []
              && w.grants[|w.grants| - 1] == Grant(holder, epoch, w.releases)
  {
    RunKeeps(steps);
  }

  /** A grant that is not the latest is refused, as long as no release came after it. */
  lemma StaleGrantRefused(steps: seq<Step>, i: nat, holder: string)
    requires i < |Run(steps).grants| - 1 && Run(steps).grants[i].term == Run(steps).releases
    ensures !FenceAccepts(Run(steps), holder, Run(steps).grants[i].epoch)
  {
    RunKeeps(steps);
    TermsAscend(Run(steps).grants, i, |Run(steps).grants| - 1);
  }

  /** In a run without releases no action ever runs under the epoch of an earlier acquisition. */
  lemma FencingWithoutRelease(steps: seq<Step>, i: nat, holder: string)
    requires ReleaseFree(steps) && i < |Run(steps).grants| - 1
    ensures !FenceAccepts(Run(steps), holder, Run(steps).grants[i].epoch)
  {
    RunKeeps(steps);
    ReleaseFreeTerm(steps);
    TermsAscend(Run(steps).grants, i, |Run(steps).grants| - 1);
    StaleGrantRefused(steps, i, holder);
  }

  /** Grants of a term. */
  function InTerm(grants: seq<Grant>, term: nat): nat {
    if grants == [] then 0
    else InTerm(grants[..|grants| - 1], term) + if grants[|grants| - 1].term == term then 1 else 0
  }

  /** The place of a grant among those of its term, from 1. */
  function PlaceInTerm(grants: seq<Grant>, i: nat): nat
    requires i < |grants|
  {
    InTerm(grants[..i + 1], grants[i].term)
  }

  lemma {:induction false} NoneInTerm(grants: seq<Grant>, term: nat)
    requires forall i :: 0 <= i < |grants| ==> grants[i].term != term
    ensures InTerm(grants, term) == 0
  {
    if grants != [] { NoneInTerm(grants[..|grants| - 1], term); }
  }

  lemma {:induction false} EpochIsPlace(grants: seq<Grant>, i: nat)
    requires Chained(grants) && i < |grants|
    ensures grants[i].epoch == PlaceInTerm(grants, i)
  {
    var term := grants[i].term;
    assert grants[..i + 1][..i] == grants[..i];
    if i > 0 && grants[i - 1].term == term {
      EpochIsPlace(grants, i - 1);
      assert grants[..i - 1 + 1] == grants[..i];
    } else {
      forall k | 0 <= k < i ensures grants[..i][k].term != term { TermsAscend(grants, k, i - 1); }
      NoneInTerm(grants[..i], term);
    }
  }

  /** Which earlier grants the fence still accepts: for the current holder, exactly those of an earlier
      term that have the same place in their term as the latest grant has in its own. */
  lemma StaleGrantAcceptedExactly(steps: seq<Step>, i: nat, holder: string)
    requires i < |Run(steps).grants| - 1
    ensures var w := Run(steps);
            var last := |w.grants| - 1;
            FenceAccepts(w, holder, w.grants[i].epoch) <==>
              && HeldBy(w.file, holder, w.clock)
              && w.grants[i].term < w.grants[last].term
              && PlaceInTerm(w.grants, i) == PlaceInTerm(w.grants, last)
  {
    var g := Run(steps).grants;
    RunKeeps(steps);
    TermsAscend(g, i, |g| - 1);
    EpochIsPlace(g, i);
    EpochIsPlace(g, |g| - 1);
  }

  /** With a release in between it can: releasing deletes the file, so epochs start over at 1. */
  lemma ReleaseReusesEpoch()
    ensures exists steps :: |Run(steps).grants| == 2 && FenceAccepts(Run(steps), "a", Run(steps).grants[0].epoch)
  {
    var s0: seq<Step> := [];
    var s1 := s0 + [Acquire("a", 10)];
    var s2 := s1 + [Release("a")];
    var s3 := s2 + [Acquire("a", 10)];
    assert s1[..0] == s0 && s2[..1] == s1 && s3[..2] == s2;
    assert Run(s1) == Apply(INITIAL_WORLD, Acquire("a", 10));
    assert Run(s1).file == Some(LeaseData("a", 1, 10)) && Run(s1).grants == [Grant("a", 1, 0)];
    assert Run(s2) == Apply(Run(s1), Release("a"));
    assert Run(s2).file == None && Run(s2).grants == [Grant("a", 1, 0)];
    assert Run(s3).grants == [Grant("a", 1, 0), Grant("a", 1, 1)];
    assert FenceAccepts(Run(s3), "a", Run(s3).grants[0].epoch);
  }
}
