/** Counters kept in dictionaries: a map from names to numbers and its total. */
module Tally {

  type Counts = map<string, nat>

  function CountOf(counts: Counts, tier: string): nat {
    if tier in counts then counts[tier] else 0
  }

  ghost function Sum(counts: Counts): nat
    decreases |counts|
  {
    if counts == map[] then 0 else
    var t :| t in counts;
    assert |counts - {t}| < |counts| by { Shrinks(counts, t); }
    counts[t] + Sum(counts - {t})
  }

  lemma Shrinks(counts: Counts, t: string)
    requires t in counts
    ensures |counts - {t}| < |counts|
  {
    assert (counts - {t}).Keys == counts.Keys - {t};
    assert |(counts - {t}).Keys| == |counts - {t}| && |counts.Keys| == |counts|;
  }

  /** Any tier may be split off the sum first. */
  lemma {:induction false} SumSplit(counts: Counts, t: string)
    requires t in counts
    ensures Sum(counts) == counts[t] + Sum(counts - {t})
    decreases |counts|
  {
    var u :| u in counts && Sum(counts) == counts[u] + Sum(counts - {u});
    if u != t {
      Shrinks(counts, u);
      Shrinks(counts, t);
      SumSplit(counts - {u}, t);
      SumSplit(counts - {t}, u);
      assert counts - {u} - {t} == counts - {t} - {u};
    }
  }

  lemma SumCounted(counts: Counts, tier: string)
    ensures Sum(counts[tier := CountOf(counts, tier) + 1]) == Sum(counts) + 1
  {
    var after := counts[tier := CountOf(counts, tier) + 1];
    SumSplit(after, tier);
    if tier in counts {
      SumSplit(counts, tier);
      assert after - {tier} == counts - {tier};
    } else {
      assert after - {tier} == counts;
    }
  }

  ghost predicate Distinct(names: seq<string>) {
    forall i, j :: 0 <= i < j < |names| ==> names[i] != names[j]
  }

  ghost function SumAlong(names: seq<string>, counts: Counts): nat {
    if names == [] then 0 else CountOf(counts, names[0]) + SumAlong(names[1..], counts)
  }

  lemma {:induction false} SumAlongWithout(names: seq<string>, counts: Counts, t: string)
    requires t !in names
    ensures SumAlong(names, counts - {t}) == SumAlong(names, counts)
  {
    if names != [] { SumAlongWithout(names[1..], counts, t); }
  }

  /** Adding up along a list of all the keys gives the total. */
  lemma {:induction false} SumOfKeys(names: seq<string>, counts: Counts)
    requires Distinct(names)
    requires forall t :: t in counts <==> t in names
    ensures Sum(counts) == SumAlong(names, counts)
  {
    if names == [] {
      assert counts == map[];
    } else {
      var t, rest := names[0], names[1..];
      assert t in names;
      SumSplit(counts, t);
      forall u ensures u in counts - {t} <==> u in rest {
        assert u in names <==> u == t || u in rest;
      }
      SumOfKeys(rest, counts - {t});
      assert t !in rest;
      SumAlongWithout(rest, counts, t);
    }
  }

  lemma {:induction false} SumAlongOnes(names: seq<string>, counts: Counts)
    requires forall t :: t in names ==> t in counts && counts[t] == 1
    ensures SumAlong(names, counts) == |names|
  {
    if names != [] {
      assert names[0] in names && forall t :: t in names[1..] ==> t in names;
      SumAlongOnes(names[1..], counts);
    }
  }
}
