/** The worker's retry delay: doubling, capped, with jitter; in seconds, over the reals. */
module Retry {
  import opened Words

  datatype Policy = Policy(initial: real, max: real, jitter: real)

  predicate Sensible(p: Policy) {
    p.initial > 0.0 && p.max > 0.0 && 0.0 <= p.jitter < 1.0
  }

  function Min(a: real, b: real): real {
    if a > b then b else a
  }

  /** The delay for an attempt; draw is the random number, from 0 up to but not including 1. */
  function CalculateBackoff(p: Policy, attempt: int, draw: real): real {
    if attempt < 1 then p.initial
    else Jittered(Capped(p, attempt), p.jitter, draw)
  }

  function Capped(p: Policy, attempt: nat): real
    requires attempt >= 1
  {
    Min(ShiftedOne(attempt - 1) as real * p.initial, p.max)
  }

  function Jittered(exponential: real, fraction: real, draw: real): real {
    var backoff := exponential + (draw - 0.5) * 2.0 * fraction * exponential;
    if backoff < 0.0 then exponential * 0.5 else backoff
  }

  /** What the delay is meant to be, before jitter. */
  function Ideal(p: Policy, attempt: nat): real
    requires attempt >= 1
  {
    Min(Pow2(attempt - 1) as real * p.initial, p.max)
  }

  predicate Within(delay: real, ideal: real, fraction: real) {
    ideal * (1.0 - fraction) <= delay <= ideal * (1.0 + fraction)
  }

  lemma JitteredWithin(e: real, fraction: real, draw: real)
    requires 0.0 <= fraction < 1.0 && 0.0 <= draw < 1.0
    ensures e >= 0.0 ==> Within(Jittered(e, fraction, draw), e, fraction)
    ensures e <= 0.0 ==> Jittered(e, fraction, draw) <= 0.0
  {
    var f := (draw - 0.5) * 2.0 * fraction;
    Scaled((draw - 0.5) * 2.0, fraction);
    assert e + (draw - 0.5) * 2.0 * fraction * e == e * (1.0 + f);
    if e >= 0.0 {
      Monotone(1.0 - fraction, 1.0 + f, e);
      Monotone(1.0 + f, 1.0 + fraction, e);
      Monotone(0.0, 1.0 - fraction, e);
    } else {
      Monotone(0.0, 1.0 + f, -e);
    }
  }

  lemma Scaled(x: real, j: real)
    requires -1.0 <= x <= 1.0 && 0.0 <= j
    ensures -j <= x * j <= j
  {
  }

  lemma Monotone(a: real, b: real, e: real)
    requires a <= b && e >= 0.0
    ensures e * a <= e * b
  {
  }

  /** The delay stays within the jitter of the doubled and capped value exactly up to the 63rd attempt. */
  lemma WithinJitterIff(p: Policy, attempt: nat, draw: real)
    requires Sensible(p) && attempt >= 1 && 0.0 <= draw < 1.0
    ensures Within(CalculateBackoff(p, attempt, draw), Ideal(p, attempt), p.jitter) <==> attempt <= 63
  {
    hide Jittered, Within, Ideal, Capped;
    IdealPositive(p, attempt);
    CappedIdeal(p, attempt);
    JitteredWithin(Capped(p, attempt), p.jitter, draw);
    if attempt > 63 {
      Outside(CalculateBackoff(p, attempt, draw), Ideal(p, attempt), p.jitter);
    }
  }

  /** And up to there the jitter spreads it evenly: the draw moves it from the one end of that range to the other. */
  lemma JitterSpreads(p: Policy, attempt: nat, draw: real)
    requires Sensible(p) && 1 <= attempt <= 63 && 0.0 <= draw < 1.0
    ensures var doubled := Pow2(attempt - 1) as real * p.initial;
            var capped := if doubled > p.max then p.max else doubled;
            CalculateBackoff(p, attempt, draw) == capped * (1.0 + (2.0 * draw - 1.0) * p.jitter)
  {
    hide Jittered;
    IdealPositive(p, attempt);
    CappedIdeal(p, attempt);
    JitteredIs(Ideal(p, attempt), p.jitter, draw);
  }

  lemma JitteredIs(e: real, fraction: real, draw: real)
    requires e >= 0.0 && 0.0 <= fraction < 1.0 && 0.0 <= draw < 1.0
    ensures Jittered(e, fraction, draw) == e * (1.0 + (2.0 * draw - 1.0) * fraction)
  {
    var f := (draw - 0.5) * 2.0 * fraction;
    Scaled((draw - 0.5) * 2.0, fraction);
    assert e + (draw - 0.5) * 2.0 * fraction * e == e * (1.0 + f);
    Monotone(0.0, 1.0 + f, e);
  }

  lemma CappedIdeal(p: Policy, attempt: nat)
    requires Sensible(p) && attempt >= 1
    ensures attempt <= 63 ==> Capped(p, attempt) == Ideal(p, attempt)
    ensures attempt > 63 ==> Capped(p, attempt) <= 0.0
  {
    if attempt > 63 {
      ShiftedAway(attempt - 1, p.initial);
    }
  }

  lemma IdealPositive(p: Policy, attempt: nat)
    requires Sensible(p) && attempt >= 1
    ensures Ideal(p, attempt) > 0.0
  {
    Pow2Grows(attempt - 1, attempt - 1);
    Product(Pow2(attempt - 1) as real, p.initial);
  }

  /** From the 64th bit on the word is negative or zero, so nothing is left of the doubling. */
  lemma ShiftedAway(n: nat, initial: real)
    requires n >= 63 && initial > 0.0
    ensures ShiftedOne(n) as real * initial <= 0.0
  {
    var a := (MAX_INT64 + 1) as real;
    Product(a, initial);
    assert (0.0 - a) * initial == 0.0 - a * initial;
    assert n == 63 ==> ShiftedOne(n) as real == 0.0 - a;
  }

  lemma Outside(delay: real, ideal: real, fraction: real)
    requires delay <= 0.0 < ideal && fraction < 1.0
    ensures !Within(delay, ideal, fraction)
  {
    Product(ideal, 1.0 - fraction);
  }

  lemma Product(a: real, b: real)
    requires a > 0.0 && b > 0.0
    ensures a * b > 0.0
  {
  }
}
