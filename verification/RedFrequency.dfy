/**
 The hit frequency as a function of the whole history of hits, and what it does to the zap
 probability, for both discs.
 */
module RedFrequency {
  import opened RealFacts
  import opened Sequences
  import opened RedQueue
  import opened RedConservation

  function Pow(b: real, n: nat): real {
    if n == 0 then 1.0 else b * Pow(b, n - 1)
  }

  function Indicator(hit: bool): real {
    if hit then 1.0 else 0.0
  }

  /** The first `n` terms of the sum over k of b^(|hits| - 1 - k) for each hit k. */
  function DecayedSum(b: real, hits: seq<bool>, n: nat): real
    requires n <= |hits|
  {
    if n == 0 then 0.0 else DecayedSum(b, hits, n - 1) + Pow(b, |hits| - n) * Indicator(hits[n - 1])
  }

  lemma {:induction false} PowRange(b: real, n: nat)
    requires 0.0 <= b <= 1.0
    ensures 0.0 <= Pow(b, n) <= 1.0
    ensures b > 0.0 ==> Pow(b, n) > 0.0
  {
    if n > 0 {
      PowRange(b, n - 1);
      var w := Pow(b, n - 1);
      assert Pow(b, n) == b * w;
      MulNonNegative(b, w);
      MulMonotone(b, w, 1.0);
      if b > 0.0 {
        MulPositive(b, w);
      }
    }
  }

  /** One more observation ages every earlier one by one factor. */
  lemma {:induction false} DecayedSumShift(b: real, hits: seq<bool>, x: bool, n: nat)
    requires n <= |hits|
    ensures DecayedSum(b, hits + [x], n) == b * DecayedSum(b, hits, n)
  {
    if n > 0 {
      DecayedSumShift(b, hits, x, n - 1);
      assert (hits + [x])[n - 1] == hits[n - 1];
      assert Pow(b, |hits + [x]| - n) == b * Pow(b, |hits| - n);
      ScaledTerm(b, DecayedSum(b, hits, n - 1), Pow(b, |hits| - n), Indicator(hits[n - 1]));
    }
  }

  lemma DecayedSumAppend(b: real, hits: seq<bool>, x: bool)
    ensures DecayedSum(b, hits + [x], |hits| + 1) == b * DecayedSum(b, hits, |hits|) + Indicator(x)
  {
    DecayedSumShift(b, hits, x, |hits|);
    assert Pow(b, 0) == 1.0;
  }

  /** Without hits the sum is zero; with one it is positive if the factor is. */
  lemma {:induction false} DecayedSumSign(b: real, hits: seq<bool>, n: nat)
    requires n <= |hits| && 0.0 < b <= 1.0
    ensures DecayedSum(b, hits, n) >= 0.0
    ensures DecayedSum(b, hits, n) > 0.0 <==> true in hits[..n]
  {
    if n > 0 {
      DecayedSumSign(b, hits, n - 1);
      PowRange(b, |hits| - n);
      assert hits[..n] == hits[..n - 1] + [hits[n - 1]];
    }
  }

  lemma {:induction false} DecayedSumMonotone(b: real, fewer: seq<bool>, more: seq<bool>, n: nat)
    requires n <= |fewer| == |more| && 0.0 <= b <= 1.0
    requires forall k :: 0 <= k < |fewer| && fewer[k] ==> more[k]
    ensures DecayedSum(b, fewer, n) <= DecayedSum(b, more, n)
  {
    if n > 0 {
      DecayedSumMonotone(b, fewer, more, n - 1);
      PowRange(b, |fewer| - n);
    }
  }

  /** The closed form of the frequency. */
  function Frequency(alpha: real, hits: seq<bool>): real {
    alpha * DecayedSum(1.0 - alpha, hits, |hits|)
  }

  /** The closed form obeys the update rule of the code. */
  lemma FrequencyAppend(alpha: real, hits: seq<bool>, x: bool)
    ensures Frequency(alpha, hits + [x]) == (1.0 - alpha) * Frequency(alpha, hits) + (if x then alpha else 0.0)
  {
    DecayedSumAppend(1.0 - alpha, hits, x);
    var b, sum := 1.0 - alpha, DecayedSum(1.0 - alpha, hits, |hits|);
    assert alpha * (b * sum + Indicator(x)) == b * (alpha * sum) + alpha * Indicator(x);
  }

  lemma {:induction false} FrequencyUpper(alpha: real, hits: seq<bool>)
    requires 0.0 <= alpha <= 1.0
    ensures Frequency(alpha, hits) <= 1.0 - Pow(1.0 - alpha, |hits|)
  {
    if hits != [] {
      var front, x, b := hits[..|hits| - 1], hits[|hits| - 1], 1.0 - alpha;
      FrontAndLast(hits);
      FrequencyUpper(alpha, front);
      FrequencyAppend(alpha, front, x);
      MulMonotone(b, Frequency(alpha, front), 1.0 - Pow(b, |front|));
      assert b * (1.0 - Pow(b, |front|)) == b - b * Pow(b, |front|);
    }
  }

  lemma FrequencySign(alpha: real, hits: seq<bool>)
    requires 0.0 <= alpha < 1.0
    ensures Frequency(alpha, hits) >= 0.0
    ensures Frequency(alpha, hits) > 0.0 <==> alpha > 0.0 && true in hits
  {
    DecayedSumSign(1.0 - alpha, hits, |hits|);
    assert hits[..|hits|] == hits;
    var sum := DecayedSum(1.0 - alpha, hits, |hits|);
    if alpha > 0.0 && sum > 0.0 {
      MulPositive(alpha, sum);
    }
  }

  lemma FrequencyWithin(alpha: real, hits: seq<bool>)
    requires 0.0 <= alpha < 1.0
    ensures 0.0 <= Frequency(alpha, hits) <= 1.0 - Pow(1.0 - alpha, |hits|) <= 1.0
    ensures Frequency(alpha, hits) > 0.0 <==> alpha > 0.0 && true in hits
  {
    FrequencyUpper(alpha, hits);
    FrequencySign(alpha, hits);
    PowRange(1.0 - alpha, |hits|);
  }

  lemma FrequencyIsUpdated(p: Params, hits: seq<bool>, x: bool)
    ensures NextFrequency(p, Frequency(p.Alpha(), hits), x) == Frequency(p.Alpha(), hits + [x])
  {
    FrequencyAppend(p.Alpha(), hits, x);
  }

  /** Only an arrival at a full list changes the frequency. */
  lemma FrequencyStep<Z>(rule: Rule<Z>, p: Params, d: Disc<Z>, a: Arrival)
    ensures Enqueue(rule, p, d, a).0.hitFreq
            == if FlowId(a.flow).Some? && |d.zombies| >= MAX_ZOMBIE_LIST_SIZE
               then NextFrequency(p, d.hitFreq, rule.visit(p, d.zombies[a.draws.index], FlowId(a.flow).value, a).1)
               else d.hitFreq
  {
  }

  /**
   Main result: after every run the hit frequency is alpha times the sum over the arrivals
   that met a full list of (1 - alpha)^(arrivals since) for each hit, where alpha is a
   thousandth of the overwrite probability.
   */
  lemma {:induction false} FrequencyClosedForm<Z>(rule: Rule<Z>, p: Params, events: seq<Event>)
    ensures Run(rule, p, events).hitFreq == Frequency(p.Alpha(), Hits(rule, p, events))
    ensures p.Alpha() == p.pOverwrite / 1000.0
  {
    if events != [] {
      var front, e := events[..|events| - 1], events[|events| - 1];
      FrequencyClosedForm(rule, p, front);
      var d, hits := Run(rule, p, front), Hits(rule, p, front);
      if e.Arrive? {
        FrequencyStep(rule, p, d, e.a);
        if FlowId(e.a.flow).Some? && |d.zombies| >= MAX_ZOMBIE_LIST_SIZE {
          var x := rule.visit(p, d.zombies[e.a.draws.index], FlowId(e.a.flow).value, e.a).1;
          assert Hits(rule, p, events) == hits + [x];
          FrequencyIsUpdated(p, hits, x);
        } else {
          assert Hits(rule, p, events) == hits;
        }
      } else {
        assert Hits(rule, p, events) == hits;
      }
    }
  }

  lemma AlphaRange(p: Params)
    requires p.Valid()
    ensures 0.0 <= p.Alpha() <= 0.001
    ensures p.Alpha() > 0.0 <==> p.pOverwrite > 0.0
  {
  }

  lemma FrequencyRangeAt(p: Params, hits: seq<bool>, freq: real)
    requires p.Valid() && freq == Frequency(p.Alpha(), hits)
    ensures 0.0 <= freq <= 1.0 - Pow(1.0 - p.Alpha(), |hits|) <= 1.0
    ensures freq > 0.0 <==> p.pOverwrite > 0.0 && true in hits
  {
    AlphaRange(p);
    FrequencyWithin(p.Alpha(), hits);
  }

  /**
   Main result: the frequency after n arrivals at a full list lies in [0, 1 - (1 - alpha)^n]
   and is positive, so that the zap divisor is not zero, exactly if some hit has occurred
   and the overwrite probability is not zero.
   */
  lemma FrequencyRange<Z>(rule: Rule<Z>, p: Params, events: seq<Event>)
    requires p.Valid()
    ensures var hits, freq := Hits(rule, p, events), Run(rule, p, events).hitFreq;
            && 0.0 <= freq <= 1.0 - Pow(1.0 - p.Alpha(), |hits|) <= 1.0
            && (freq > 0.0 <==> p.pOverwrite > 0.0 && true in hits)
  {
    FrequencyClosedForm(rule, p, events);
    FrequencyRangeAt(p, Hits(rule, p, events), Run(rule, p, events).hitFreq);
  }

  /** Main result: once positive, the frequency stays positive for the rest of the run. */
  lemma {:induction false} PositiveForever<Z>(rule: Rule<Z>, p: Params, events: seq<Event>, more: seq<Event>)
    requires p.Valid() && Run(rule, p, events).hitFreq > 0.0
    ensures Run(rule, p, events + more).hitFreq > 0.0
  {
    FrequencyRange(rule, p, events);
    FrequencyRange(rule, p, events + more);
    HitsGrow(rule, p, events, more);
    var k :| 0 <= k < |Hits(rule, p, events)| && Hits(rule, p, events)[k];
    assert Hits(rule, p, events + more)[k];
  }

  lemma {:induction false} HitsGrow<Z>(rule: Rule<Z>, p: Params, events: seq<Event>, more: seq<Event>)
    ensures Hits(rule, p, events) <= Hits(rule, p, events + more)
  {
    if more == [] {
      assert events + more == events;
    } else {
      FrontOfSum(events, more);
      HitsGrow(rule, p, events, more[..|more| - 1]);
    }
  }

  // ----- the zap probability over histories

  /** The factor by which a positive frequency scales the probability, capped at one. */
  function Damping(hitFreq: real): real
    requires hitFreq > 0.0
  {
    var factor := 1.0 / ZapDivisor(hitFreq);
    if factor < 1.0 then factor else 1.0
  }

  lemma ZapDivisorMonotone(low: real, high: real)
    requires 0.0 < low <= high
    ensures 0.0 < ZapDivisor(low) <= ZapDivisor(high)
  {
    SquareMonotone(low, high);
  }

  lemma DampingRange(hitFreq: real)
    requires 0.0 < hitFreq <= 1.0
    ensures 1.0 / 256.0 <= Damping(hitFreq) <= 1.0
  {
    ZapDivisorMonotone(hitFreq, 1.0);
    InverseAntitone(ZapDivisor(hitFreq), ZapDivisor(1.0));
  }

  lemma DampingAntitone(low: real, high: real)
    requires 0.0 < low <= high
    ensures 0.0 < Damping(high) <= Damping(low) <= 1.0
  {
    ZapDivisorMonotone(low, high);
    InverseAntitone(ZapDivisor(low), ZapDivisor(high));
  }

  lemma ZapSimpleIsDamped(pSred: real, hitFreq: real)
    requires hitFreq > 0.0
    ensures ZapSimple(pSred, hitFreq) == pSred * Damping(hitFreq)
  {
  }

  lemma ZapFullIsDamped(pSred: real, hitFreq: real)
    requires hitFreq > 0.0
    ensures ZapFull(pSred, hitFreq, 1) == Finite(pSred * Damping(hitFreq) * (1.0 + 1.0 / hitFreq))
  {
  }

  /** The simple zap probability never rises with the frequency, zero frequency included. */
  lemma ZapSimpleAntitone(pSred: real, low: real, high: real)
    requires 0.0 <= pSred && 0.0 <= low <= high
    ensures ZapSimple(pSred, high) <= ZapSimple(pSred, low)
  {
    if high > 0.0 {
      if low > 0.0 {
        ZapSimpleDamped(pSred, low, high);
      } else {
        ZapSimpleDamped(pSred, high, high);
      }
    }
  }

  lemma ZapSimpleDamped(pSred: real, low: real, high: real)
    requires 0.0 <= pSred && 0.0 < low <= high
    ensures ZapSimple(pSred, high) <= ZapSimple(pSred, low) <= pSred
  {
    DampingAntitone(low, high);
    ZapSimpleIsDamped(pSred, high);
    ZapSimpleIsDamped(pSred, low);
    Scaled(pSred, Damping(high), Damping(low));
  }

  lemma Scaled(pSred: real, small: real, large: real)
    requires 0.0 <= pSred && small <= large <= 1.0
    ensures pSred * small <= pSred * large <= pSred
  {
    MulMonotone(pSred, small, large);
    MulMonotone(pSred, large, 1.0);
  }

  lemma ZapBoundsAt(pSred: real, freq: real)
    requires 0.0 <= pSred && 0.0 < freq <= 1.0
    ensures pSred / 256.0 <= ZapSimple(pSred, freq) <= pSred
    ensures ZapFull(pSred, freq, 1).Finite?
    ensures ZapFull(pSred, freq, 1).value >= 2.0 * ZapSimple(pSred, freq)
  {
    DampingRange(freq);
    ZapSimpleIsDamped(pSred, freq);
    ZapFullIsDamped(pSred, freq);
    InverseAntitone(freq, 1.0);
    DampedBounds(pSred, Damping(freq), 1.0 + 1.0 / freq);
  }

  lemma DampedBounds(pSred: real, damping: real, gain: real)
    requires 0.0 <= pSred && 1.0 / 256.0 <= damping <= 1.0 && 2.0 <= gain
    ensures pSred / 256.0 <= pSred * damping <= pSred
    ensures 2.0 * (pSred * damping) <= pSred * damping * gain
  {
    Scaled(pSred, 1.0 / 256.0, damping);
    MulNonNegative(pSred, damping);
    MulMonotone(pSred * damping, 2.0, gain);
  }

  /**
   Main result: in every reachable state with a positive frequency the simple zap
   probability lies between a 256th of the occupancy's probability and that probability,
   and the full one is at least twice the simple one.
   */
  lemma ZapBounds<Z>(rule: Rule<Z>, p: Params, events: seq<Event>, bytes: nat)
    requires p.Valid() && Run(rule, p, events).hitFreq > 0.0
    ensures var freq, pSred := Run(rule, p, events).hitFreq, StabilizedProbability(p, bytes);
            && pSred / 256.0 <= ZapSimple(pSred, freq) <= pSred <= p.pMax
            && ZapFull(pSred, freq, 1).Finite?
            && ZapFull(pSred, freq, 1).value >= 2.0 * ZapSimple(pSred, freq)
  {
    FrequencyRange(rule, p, events);
    StabilizedProbabilityRange(p, bytes);
    ZapBoundsAt(StabilizedProbability(p, bytes), Run(rule, p, events).hitFreq);
  }

  lemma MoreHitsHigherFrequency(alpha: real, fewer: seq<bool>, more: seq<bool>)
    requires 0.0 <= alpha <= 1.0 && |fewer| == |more|
    requires forall k :: 0 <= k < |fewer| && fewer[k] ==> more[k]
    ensures Frequency(alpha, fewer) <= Frequency(alpha, more)
  {
    DecayedSumMonotone(1.0 - alpha, fewer, more, |fewer|);
    MulMonotone(alpha, DecayedSum(1.0 - alpha, fewer, |fewer|), DecayedSum(1.0 - alpha, more, |fewer|));
  }

  /**
   Main result: of two runs, possibly of different discs, with equally many arrivals at a
   full list and the second hitting wherever the first does, the second zaps with a lower
   or equal simple probability at the same occupancy.
   */
  lemma MoreHitsNeverZapMore<Y, Z>(rule: Rule<Y>, rule': Rule<Z>, p: Params,
                                   fewer: seq<Event>, more: seq<Event>, bytes: nat)
    requires p.Valid() && |Hits(rule, p, fewer)| == |Hits(rule', p, more)|
    requires forall k :: 0 <= k < |Hits(rule, p, fewer)| && Hits(rule, p, fewer)[k] ==> Hits(rule', p, more)[k]
    ensures var pSred := StabilizedProbability(p, bytes);
            ZapSimple(pSred, Run(rule', p, more).hitFreq) <= ZapSimple(pSred, Run(rule, p, fewer).hitFreq)
  {
    FrequencyClosedForm(rule, p, fewer);
    FrequencyClosedForm(rule', p, more);
    AlphaRange(p);
    MoreHitsHigherFrequency(p.Alpha(), Hits(rule, p, fewer), Hits(rule', p, more));
    FrequencyRange(rule, p, fewer);
    StabilizedProbabilityRange(p, bytes);
    ZapSimpleAntitone(StabilizedProbability(p, bytes), Run(rule, p, fewer).hitFreq, Run(rule', p, more).hitFreq);
  }

  // ----- the cold start of the full mode

  /** A full mode without hits so far zaps whatever finds a sixth or more of the capacity queued. */
  lemma ColdStartZaps(p: Params, bytes: nat)
    requires p.Valid() && p.mode == 2 && p.pMax > 0.0 && p.capacity <= 6 * bytes && bytes <= p.capacity
    ensures forall zap: Uniform :: Below(zap, ZapProbability(p, bytes, 0.0))
  {
    assert p.capacity as real <= 6.0 * bytes as real;
    assert StabilizedProbability(p, bytes) > 0.0;
    ZappedByEveryDrawIff(p, bytes, 0.0);
  }

  /**
   Main result: in full mode nothing gets past a full list before the first hit unless less
   than a sixth of the capacity is queued, or more than the capacity is; no draw helps.
   */
  lemma ColdStartDropsAll<Z>(rule: Rule<Z>, p: Params, events: seq<Event>, a: Arrival)
    requires p.Valid() && p.mode == 2 && p.pMax > 0.0
    requires |Run(rule, p, events).zombies| >= MAX_ZOMBIE_LIST_SIZE
    requires p.capacity <= 6 * QueuedBytes(Run(rule, p, events).queue)
    requires QueuedBytes(Run(rule, p, events).queue) <= p.capacity
    requires true !in Hits(rule, p, events + [Arrive(a)])
    ensures !Enqueue(rule, p, Run(rule, p, events), a).1
    ensures Run(rule, p, events + [Arrive(a)]).queue == Run(rule, p, events).queue
  {
    var longer := events + [Arrive(a)];
    assert longer[..|events|] == events;
    NoHitsNoFrequency(rule, p, longer);
    ColdStartZaps(p, QueuedBytes(Run(rule, p, events).queue));
    FullListDecides(rule, p, Run(rule, p, events), a);
  }

  lemma NoHitsNoFrequency<Z>(rule: Rule<Z>, p: Params, events: seq<Event>)
    requires p.Valid() && true !in Hits(rule, p, events)
    ensures Run(rule, p, events).hitFreq == 0.0
  {
    FrequencyRange(rule, p, events);
  }

  /** An arrival at a full list that every draw zaps at the resulting frequency is dropped. */
  lemma FullListDecides<Z>(rule: Rule<Z>, p: Params, d: Disc<Z>, a: Arrival)
    requires |d.zombies| >= MAX_ZOMBIE_LIST_SIZE
    requires Below(a.draws.zap, ZapProbability(p, QueuedBytes(d.queue), Enqueue(rule, p, d, a).0.hitFreq))
    ensures !Enqueue(rule, p, d, a).1 && Enqueue(rule, p, d, a).0.queue == d.queue
  {
  }
}
