/** Exponential backoff: the closed form, and the doubling loop that follows it. */
module Backoff {

  function Pow2(k: nat): nat {
    if k == 0 then 1 else 2 * Pow2(k - 1)
  }

  function Min(a: real, b: real): real {
    if a <= b then a else b
  }

  function Max(a: real, b: real): real {
    if a >= b then a else b
  }

  /** `base` doubled `k` times. */
  function Doublings(base: real, k: nat): real {
    if k == 0 then base else 2.0 * Doublings(base, k - 1)
  }

  lemma {:induction false} DoublingsIsPower(base: real, k: nat)
    ensures Doublings(base, k) == base * Pow2(k) as real
  {
    if k > 0 {
      DoublingsIsPower(base, k - 1);
      var p := Pow2(k - 1) as real;
      assert Pow2(k) as real == p + p;
      assert base * (p + p) == base * p + base * p;
    }
  }

  /** One round of the doubling loop in `rpa_scheduler.py`. */
  function Doubled(backoff: real, cap: real): real {
    Min(Max(backoff * 2.0, backoff), Max(0.0, cap))
  }

  /** The loop's backoff after `k` rounds; the first is not capped, and zero is kept. */
  function LoopBackoff(base: real, cap: real, k: nat): real {
    if k == 0 then Max(0.0, base)
    else
      var last := LoopBackoff(base, cap, k - 1);
      if last > 0.0 then Doubled(last, cap) else last
  }

  /** From the second backoff on, the loop gives base doubled k times, capped: the closed form
      min(cap, base * 2^k). Backoffs never shrink after the first and never pass the cap. */
  lemma {:induction false} LoopIsCapped(base: real, cap: real, k: nat)
    requires base >= 0.0 && cap >= 0.0 && k >= 1
    ensures LoopBackoff(base, cap, k) == Min(cap, Doublings(base, k)) && Doublings(base, k) >= 0.0
    ensures LoopBackoff(base, cap, k) <= LoopBackoff(base, cap, k + 1) <= cap
  {
    if k > 1 { LoopIsCapped(base, cap, k - 1); }
  }

  /** The first backoff is the base, uncapped, and a base of zero or less never grows. */
  lemma {:induction false} FirstBackoff(base: real, cap: real, k: nat)
    ensures LoopBackoff(base, cap, 0) == if base > 0.0 then base else 0.0
    ensures base <= 0.0 ==> LoopBackoff(base, cap, k) == 0.0
  {
    if k > 0 { FirstBackoff(base, cap, k - 1); }
  }
}
