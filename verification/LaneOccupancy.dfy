/** Lane fairness counters of the swarm orchestrator (`LaneOccupancy` in `swarm_orchestrator.py`).
    Shares and the threshold are real numbers. */
module LaneOccupancy {

  import opened Tally

  ghost function Total(counts: Counts): nat {
    if Sum(counts) > 1 then Sum(counts) else 1
  }

  ghost function Share(counts: Counts, tier: string): real {
    CountOf(counts, tier) as real / Total(counts) as real
  }

  ghost predicate Saturated(threshold: real, counts: Counts, tier: string) {
    Share(counts, tier) > threshold
  }

  /** The candidates whose saturation is `wanted`, in their order. */
  ghost function Keep(threshold: real, counts: Counts, tiers: seq<string>, wanted: bool): seq<string> {
    if tiers == [] then [] else
    var rest := Keep(threshold, counts, tiers[..|tiers| - 1], wanted);
    if Saturated(threshold, counts, tiers[|tiers| - 1]) == wanted then rest + [tiers[|tiers| - 1]] else rest
  }

  ghost function Rebalanced(threshold: real, counts: Counts, candidates: seq<string>): seq<string> {
    if |candidates| <= 1 || !Saturated(threshold, counts, candidates[0]) then candidates
    else if Keep(threshold, counts, candidates, false) == [] then candidates
    else Keep(threshold, counts, candidates, false) + Keep(threshold, counts, candidates, true)
  }

  // ---------------------------------------------------------------- the class

  class LaneOccupancy {
    var routedCounts: Counts
    const tierSaturationThreshold: real

    constructor (threshold: real)
      ensures routedCounts == map[] && tierSaturationThreshold == threshold
    {
      routedCounts := map[];
      tierSaturationThreshold := threshold;
    }

    method RecordRouted(tier: string)
      modifies this`routedCounts
      ensures routedCounts == old(routedCounts)[tier := CountOf(old(routedCounts), tier) + 1]
      ensures Sum(routedCounts) == Sum(old(routedCounts)) + 1
    {
      SumCounted(routedCounts, tier);
      routedCounts := routedCounts[tier := CountOf(routedCounts, tier) + 1];
    }

    method TotalRouted() returns (total: nat)
      ensures total == Total(routedCounts)
    {
      var left := routedCounts;
      var sum := 0;
      while left != map[]
        invariant sum + Sum(left) == Sum(routedCounts)
        decreases |left|
      {
        var t :| t in left;
        SumSplit(left, t);
        Shrinks(left, t);
        sum := sum + left[t];
        left := left - {t};
      }
      total := if sum > 1 then sum else 1;
    }

    method IsSaturated(tier: string) returns (saturated: bool)
      ensures saturated == Saturated(tierSaturationThreshold, routedCounts, tier)
    {
      var total := TotalRouted();
      saturated := CountOf(routedCounts, tier) as real / total as real > tierSaturationThreshold;
    }

    method RebalanceCandidates(candidates: seq<string>) returns (order: seq<string>)
      ensures order == Rebalanced(tierSaturationThreshold, routedCounts, candidates)
    {
      if |candidates| <= 1 {
        return candidates;
      }
      var first := IsSaturated(candidates[0]);
      if !first {
        return candidates;
      }
      var unsaturated, saturated := [], [];
      for i := 0 to |candidates|
        invariant unsaturated == Keep(tierSaturationThreshold, routedCounts, candidates[..i], false)
        invariant saturated == Keep(tierSaturationThreshold, routedCounts, candidates[..i], true)
      {
        var s := IsSaturated(candidates[i]);
        assert candidates[..i + 1][..i] == candidates[..i];
        if s {
          saturated := saturated + [candidates[i]];
        } else {
          unsaturated := unsaturated + [candidates[i]];
        }
      }
      assert candidates[..|candidates|] == candidates;
      order := if unsaturated == [] then candidates else unsaturated + saturated;
    }
  }

  // ---------------------------------------------------------------- the reordering

  lemma {:induction false} KeepMeans(threshold: real, counts: Counts, tiers: seq<string>, wanted: bool)
    ensures forall t :: t in Keep(threshold, counts, tiers, wanted)
                   <==> t in tiers && Saturated(threshold, counts, t) == wanted
  {
    if tiers != [] {
      KeepMeans(threshold, counts, tiers[..|tiers| - 1], wanted);
      assert tiers == tiers[..|tiers| - 1] + [tiers[|tiers| - 1]];
    }
  }

  lemma {:induction false} KeepPartitions(threshold: real, counts: Counts, tiers: seq<string>)
    ensures multiset(Keep(threshold, counts, tiers, false)) + multiset(Keep(threshold, counts, tiers, true))
         == multiset(tiers)
  {
    if tiers != [] {
      KeepPartitions(threshold, counts, tiers[..|tiers| - 1]);
      assert tiers == tiers[..|tiers| - 1] + [tiers[|tiers| - 1]];
    }
  }

  lemma {:induction false} KeepConcat(threshold: real, counts: Counts, a: seq<string>, b: seq<string>, wanted: bool)
    ensures Keep(threshold, counts, a + b, wanted)
         == Keep(threshold, counts, a, wanted) + Keep(threshold, counts, b, wanted)
  {
    if b == [] {
      assert a + b == a;
    } else {
      var init := b[..|b| - 1];
      KeepConcat(threshold, counts, a, init, wanted);
      assert (a + b)[..|a + b| - 1] == a + init;
    }
  }

  lemma {:induction false} KeepUniform(threshold: real, counts: Counts, tiers: seq<string>, value: bool, wanted: bool)
    requires forall t :: t in tiers ==> Saturated(threshold, counts, t) == value
    ensures Keep(threshold, counts, tiers, wanted) == if value == wanted then tiers else []
  {
    if tiers != [] {
      assert tiers[|tiers| - 1] in tiers && forall t :: t in tiers[..|tiers| - 1] ==> t in tiers;
      KeepUniform(threshold, counts, tiers[..|tiers| - 1], value, wanted);
      assert tiers == tiers[..|tiers| - 1] + [tiers[|tiers| - 1]];
    }
  }

  /** Rebalancing is a stable reordering: no candidate is lost or invented, and neither the
      saturated nor the unsaturated candidates change places among themselves. Its head is
      unsaturated whenever any candidate is. */
  lemma RebalanceIsStable(threshold: real, counts: Counts, candidates: seq<string>)
    ensures multiset(Rebalanced(threshold, counts, candidates)) == multiset(candidates)
    ensures forall wanted :: Keep(threshold, counts, Rebalanced(threshold, counts, candidates), wanted)
                          == Keep(threshold, counts, candidates, wanted)
    ensures candidates != [] ==>
      |Rebalanced(threshold, counts, candidates)| > 0
      && ((exists t :: t in candidates && !Saturated(threshold, counts, t))
          <==> !Saturated(threshold, counts, Rebalanced(threshold, counts, candidates)[0]))
  {
    var r := Rebalanced(threshold, counts, candidates);
    var free := Keep(threshold, counts, candidates, false);
    var full := Keep(threshold, counts, candidates, true);
    KeepPartitions(threshold, counts, candidates);
    KeepMeans(threshold, counts, candidates, false);
    KeepMeans(threshold, counts, candidates, true);
    forall wanted ensures Keep(threshold, counts, r, wanted) == Keep(threshold, counts, candidates, wanted) {
      if r != candidates {
        KeepConcat(threshold, counts, free, full, wanted);
        KeepUniform(threshold, counts, free, false, wanted);
        KeepUniform(threshold, counts, full, true, wanted);
      }
    }
    if candidates != [] {
      assert candidates[0] in candidates;
      if r != candidates { assert r[0] == free[0] && free[0] in free; }
    }
  }

  /** When the order changes: not while the first candidate is unsaturated; otherwise no saturated
      candidate is left in front of an unsaturated one. */
  lemma RebalanceExactly(threshold: real, counts: Counts, candidates: seq<string>)
    requires candidates != []
    ensures var r := Rebalanced(threshold, counts, candidates);
            && (!Saturated(threshold, counts, candidates[0]) ==> r == candidates)
            && (Saturated(threshold, counts, candidates[0]) ==>
                  forall i, j :: 0 <= i < j < |r| && Saturated(threshold, counts, r[i]) ==>
                    Saturated(threshold, counts, r[j]))
  {
    var r := Rebalanced(threshold, counts, candidates);
    var free, full := Keep(threshold, counts, candidates, false), Keep(threshold, counts, candidates, true);
    KeepMeans(threshold, counts, candidates, false);
    KeepMeans(threshold, counts, candidates, true);
    if Saturated(threshold, counts, candidates[0]) {
      forall j | 0 <= j < |r| && (free == [] || j >= |free|) ensures Saturated(threshold, counts, r[j]) {
        if free == [] {
          assert candidates[j] !in free;
        } else {
          assert r[j] == full[j - |free|] && full[j - |free|] in full;
        }
      }
      forall i | 0 <= i < |free| ensures !Saturated(threshold, counts, free[i]) { assert free[i] in free; }
    }
  }

  // ---------------------------------------------------------------- fairness

  /** `k` times `x`, by repeated addition. */
  ghost function Times(k: nat, x: real): real {
    if k == 0 then 0.0 else Times(k - 1, x) + x
  }

  lemma {:induction false} TimesIs(k: nat, x: real)
    ensures Times(k, x) == k as real * x
  {
    if k > 0 {
      TimesIs(k - 1, x);
      assert k as real * x == (k - 1) as real * x + x;
    }
  }

  /** Distinct tiers with more than `each` apiece make up more than `each` times their number. */
  lemma {:induction false} SumAbove(counts: Counts, tiers: seq<string>, each: real)
    requires Distinct(tiers)
    requires forall t :: t in tiers ==> CountOf(counts, t) as real > each
    ensures Sum(counts) as real >= Times(|tiers|, each)
    ensures tiers != [] ==> Sum(counts) as real > Times(|tiers|, each)
  {
    if tiers != [] {
      var t, rest := tiers[0], tiers[1..];
      var others := counts - {t};
      if t in counts { SumSplit(counts, t); } else { assert others == counts; }
      forall u | u in rest ensures CountOf(others, u) as real > each {
        assert u in tiers && u != t;
      }
      SumAbove(others, rest, each);
      assert t in tiers;
    }
  }

  /** Saturation without division: the count exceeds `threshold` times the total. */
  lemma ShareBound(counts: Counts, tier: string, threshold: real)
    ensures Saturated(threshold, counts, tier) <==> CountOf(counts, tier) as real > Times(Total(counts), threshold)
    ensures Total(counts) == if Sum(counts) == 0 then 1 else Sum(counts)
  {
    TimesIs(Total(counts), threshold);
    Quotient(CountOf(counts, tier) as real, Total(counts) as real, threshold);
  }

  lemma Quotient(c: real, n: real, threshold: real)
    requires n > 0.0
    ensures c / n > threshold <==> c > n * threshold
  {
    var share := c / n;
    assert c == n * share;
    if share > threshold { assert n * (share - threshold) > 0.0; }
    else { assert n * (threshold - share) >= 0.0; }
  }

  ghost predicate SomeFree(threshold: real, counts: Counts, candidates: seq<string>) {
    exists t :: t in candidates && !Saturated(threshold, counts, t)
  }

  /** Which thresholds leave some candidate free whatever was routed before: exactly those of at
      least one over the number of distinct candidates. */
  lemma SomeCandidateFreeExactly(threshold: real, candidates: seq<string>)
    requires Distinct(candidates)
    ensures (forall counts :: SomeFree(threshold, counts, candidates))
       <==> Times(|candidates|, threshold) >= 1.0
  {
    if Times(|candidates|, threshold) >= 1.0 {
      forall counts ensures SomeFree(threshold, counts, candidates) {
        FreeCandidate(threshold, counts, candidates);
      }
    } else {
      var counts: Counts := map t | t in candidates :: 1;
      SumOfKeys(candidates, counts);
      SumAlongOnes(candidates, counts);
      forall t | t in candidates ensures Saturated(threshold, counts, t) {
        ShareBound(counts, t, threshold);
      }
      assert !SomeFree(threshold, counts, candidates);
    }
  }

  lemma FreeCandidate(threshold: real, counts: Counts, candidates: seq<string>)
    requires Distinct(candidates) && Times(|candidates|, threshold) >= 1.0
    ensures SomeFree(threshold, counts, candidates)
  {
    var total := Total(counts);
    var each := Times(total, threshold);
    Scaled(threshold, |candidates|, total);
    if !SomeFree(threshold, counts, candidates) {
      forall t | t in candidates ensures CountOf(counts, t) as real > each {
        ShareBound(counts, t, threshold);
      }
      SumAbove(counts, candidates, each);
    }
  }

  lemma Scaled(threshold: real, k: nat, total: nat)
    requires Times(k, threshold) >= 1.0 && total >= 1
    ensures Times(k, Times(total, threshold)) >= total as real
    ensures k > 0 && threshold > 0.0
  {
    TimesIs(k, threshold);
    TimesIs(total, threshold);
    TimesIs(k, Times(total, threshold));
    var once := threshold * k as real;
    assert k as real * (total as real * threshold) == once * total as real;
    assert once * total as real >= 1.0 * total as real;
    assert threshold <= 0.0 ==> once <= 0.0;
  }

  /** Distinct tiers, enough of them for the threshold. */
  ghost predicate Ample(threshold: real, offer: seq<string>) {
    offer != [] && Distinct(offer) && Times(|offer|, threshold) >= 1.0
  }

  ghost predicate AllAmple(threshold: real, offers: seq<seq<string>>) {
    forall i :: 0 <= i < |offers| ==> Ample(threshold, offers[i])
  }

  /** Counts after routing each request to the head of its rebalanced candidates. */
  ghost function Routed(threshold: real, offers: seq<seq<string>>): Counts
    requires AllAmple(threshold, offers)
  {
    if offers == [] then map[] else
    var before := Routed(threshold, offers[..|offers| - 1]);
    AddHead(threshold, before, offers[|offers| - 1])
  }

  ghost function AddHead(threshold: real, before: Counts, offer: seq<string>): Counts
    requires Ample(threshold, offer)
  {
    RebalanceIsStable(threshold, before, offer);
    var head := Rebalanced(threshold, before, offer)[0];
    before[head := CountOf(before, head) + 1]
  }

  /** The fairness bound: if every request offers enough distinct tiers, then after n requests no
      tier was chosen more than threshold * (n - 1) + 1 times. */
  lemma {:induction false} FairnessBound(threshold: real, offers: seq<seq<string>>, tier: string)
    requires AllAmple(threshold, offers)
    ensures Sum(Routed(threshold, offers)) == |offers|
    ensures offers != [] ==> CountOf(Routed(threshold, offers), tier) as real <= Times(|offers| - 1, threshold) + 1.0
  {
    if offers != [] {
      var n := |offers| - 1;
      var before := Routed(threshold, offers[..n]);
      FairnessBound(threshold, offers[..n], tier);
      assert Ample(threshold, offers[n]);
      HeadBound(threshold, before, offers[n], tier);
      if n == 0 && tier in before { SumSplit(before, tier); }
    }
  }

  /** A routing step either leaves a tier's count alone or finds it unsaturated. */
  lemma HeadBound(threshold: real, before: Counts, offer: seq<string>, tier: string)
    requires Ample(threshold, offer)
    ensures threshold > 0.0
    ensures var after := AddHead(threshold, before, offer);
            && Sum(after) == Sum(before) + 1
            && (|| CountOf(after, tier) == CountOf(before, tier)
                || (CountOf(after, tier) == CountOf(before, tier) + 1
                    && CountOf(before, tier) as real <= Times(Total(before), threshold)))
  {
    RebalanceIsStable(threshold, before, offer);
    var head := Rebalanced(threshold, before, offer)[0];
    SumCounted(before, head);
    FreeCandidate(threshold, before, offer);
    Scaled(threshold, |offer|, 1);
    ShareBound(before, head, threshold);
  }
}
