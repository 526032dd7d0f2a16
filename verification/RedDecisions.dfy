/**
 The decision on one arrival, in numbers: which packets the discs take, from the traffic so
 far, the bytes queued, the hit frequency and the draw, for both discs.
 */
module RedDecisions {
  import opened RealFacts
  import opened Sequences
  import opened Sums
  import opened RedQueue
  import opened RedConservation
  import opened RedCredit

  /** The level of the occupancy, by thirds and sixths of the capacity. */
  function Level(capacity: nat, pMax: real, bytes: nat): real {
    if capacity <= 3 * bytes && bytes <= capacity then pMax
    else if capacity <= 6 * bytes && 3 * bytes < capacity then pMax / 4.0
    else 0.0
  }

  /** What the damping divides by. */
  function Damping(f: real): real {
    if 256.0 * (f * f) > 1.0 then 256.0 * (f * f) else 1.0
  }

  /**
   The draw is below the zap value, without fractions: that value is the level over
   max(1, 256 f^2) in simple mode, and (1 + 1/f) times that in full mode.
   */
  predicate Zapped(mode: int, level: real, f: real, draw: real) {
    ZappedBy(mode, level, Damping(f), f, draw)
  }

  predicate ZappedBy(mode: int, level: real, damping: real, f: real, draw: real) {
    || (mode == 1 && draw * damping < level)
    || (mode == 2 && draw * damping * f < level * (f + 1.0))
  }

  /** The packet fits a FIFO of so many packets and bytes, asked when the list has room. */
  predicate FitsFilling(p: Params, packets: nat, bytes: nat, size: nat) {
    match p.unit
    case Packets => packets + size <= p.capacity && packets < p.capacity
    case Bytes => bytes + size <= p.capacity
  }

  /** The same, asked when the list is full. */
  predicate FitsFull(p: Params, packets: nat, bytes: nat, size: nat) {
    match p.unit
    case Packets => packets < p.capacity
    case Bytes => bytes < p.capacity && bytes + size <= p.capacity
  }

  // ----- the zap value

  lemma LevelIs(p: Params, bytes: nat)
    ensures StabilizedProbability(p, bytes) == Level(p.capacity, p.pMax, bytes)
  {
  }

  /** The damping divides by the code's divisor, unless that is below one. */
  ghost predicate Damps(f: real, damping: real) {
    && (f > 0.0 ==> ZapDivisor(f) > 0.0 && damping == if ZapDivisor(f) > 1.0 then ZapDivisor(f) else 1.0)
    && (f == 0.0 ==> damping == 1.0)
  }

  lemma DampingIs(f: real)
    requires 0.0 <= f
    ensures Damps(f, Damping(f))
  {
    assert Square(f) == f * f;
  }

  lemma SimpleAbove(level: real, d: real, draw: real)
    requires 0.0 < d
    ensures (if 1.0 / d < 1.0 then level * (1.0 / d) else level) > draw <==> level > draw * (if d > 1.0 then d else 1.0)
  {
    InverseBelowOne(d);
    QuotientAbove(level, d, draw);
  }

  lemma SimpleZapped(level: real, f: real, damping: real, draw: real)
    requires 0.0 <= f && Damps(f, damping)
    ensures Below(draw, Finite(ZapSimple(level, f))) <==> ZappedBy(1, level, damping, f, draw)
  {
    if f > 0.0 {
      SimpleAbove(level, ZapDivisor(f), draw);
    }
  }

  lemma FullAbove(level: real, d: real, f: real, draw: real)
    requires 0.0 < d && 0.0 < f
    ensures (if 1.0 / d < 1.0 then level * (1.0 / d) * (1.0 + 1.0 / f) else level * (1.0 + 1.0 / f)) > draw <==>
            level * (f + 1.0) > draw * (if d > 1.0 then d else 1.0) * f
  {
    InverseBelowOne(d);
    GainAbove(level, f, draw);
    DampedGainAbove(level, d, f, draw);
  }

  lemma FullZapped(level: real, f: real, damping: real, draw: real)
    requires 0.0 <= f && 0.0 <= level && Damps(f, damping)
    ensures Below(draw, ZapFull(level, f, 1)) <==> ZappedBy(2, level, damping, f, draw)
  {
    if f > 0.0 {
      FullAbove(level, ZapDivisor(f), f, draw);
    }
  }

  lemma DampedGainAbove(level: real, d: real, f: real, draw: real)
    requires 0.0 < d && 0.0 < f
    ensures level * (1.0 / d) * (1.0 + 1.0 / f) > draw <==> level * (f + 1.0) > draw * d * f
  {
    GainAbove(level * (1.0 / d), f, draw);
    QuotientAbove(level * (f + 1.0), d, draw * f);
    assert level * (1.0 / d) * (f + 1.0) == level * (f + 1.0) * (1.0 / d);
    assert draw * f * d == draw * d * f;
  }

  lemma ZappedIs(p: Params, bytes: nat, f: real, draw: real)
    requires p.Valid() && 0.0 <= f && 0.0 <= draw
    ensures Below(draw, ZapProbability(p, bytes, f)) <==> Zapped(p.mode, Level(p.capacity, p.pMax, bytes), f, draw)
  {
    var level := Level(p.capacity, p.pMax, bytes);
    LevelIs(p, bytes);
    DampingIs(f);
    if p.mode == 1 {
      assert ZapProbability(p, bytes, f) == Finite(ZapSimple(level, f));
      SimpleZapped(level, f, Damping(f), draw);
    } else if p.mode == 2 {
      assert ZapProbability(p, bytes, f) == ZapFull(level, f, 1);
      FullZapped(level, f, Damping(f), draw);
    }
  }

  // ----- the decision

  lemma FillingTakesIff<Z>(rule: Rule<Z>, p: Params, d: Disc<Z>, a: Arrival)
    requires |d.zombies| < MAX_ZOMBIE_LIST_SIZE && FlowId(a.flow).Some?
    ensures Enqueue(rule, p, d, a).1 <==> FitsFilling(p, |d.queue|, QueuedBytes(d.queue), a.packet.size)
  {
  }

  lemma FullTakesIff<Z>(rule: Rule<Z>, p: Params, d: Disc<Z>, a: Arrival)
    requires p.Valid() && 0.0 <= d.hitFreq
    requires |d.zombies| >= MAX_ZOMBIE_LIST_SIZE && FlowId(a.flow).Some?
    ensures var f, bytes := Enqueue(rule, p, d, a).0.hitFreq, QueuedBytes(d.queue);
            Enqueue(rule, p, d, a).1 <==>
            && !Zapped(p.mode, Level(p.capacity, p.pMax, bytes), f, a.draws.zap)
            && FitsFull(p, |d.queue|, bytes, a.packet.size)
  {
    NextFrequencyNonNegative(p, d.hitFreq);
    ZappedIs(p, QueuedBytes(d.queue), Enqueue(rule, p, d, a).0.hitFreq, a.draws.zap);
  }

  /** The decision on an arrival after a run, given the frequency that results from it. */
  ghost predicate Taken(p: Params, events: seq<Event>, queue: seq<Packet>, f: real, a: Arrival) {
    var bytes := QueuedBytes(queue);
    && FlowId(a.flow).Some?
    && if Sum(Arrivals(events), Classified) < 1000 then FitsFilling(p, |queue|, bytes, a.packet.size)
       else
         && !Zapped(p.mode, Level(p.capacity, p.pMax, bytes), f, a.draws.zap)
         && FitsFull(p, |queue|, bytes, a.packet.size)
  }

  /**
   Main result, with its exact condition: an arrival is taken if and only if its flow is
   classified and, with fewer than 1000 classified arrivals before it, the packet fits;
   with 1000 or more, the draw is not below the zap value and the packet fits.
   */
  lemma TakenIff<Z>(rule: Rule<Z>, p: Params, events: seq<Event>, a: Arrival)
    requires p.Valid()
    ensures var d, d' := Run(rule, p, events), Run(rule, p, events + [Arrive(a)]);
            var taken := Taken(p, events, d.queue, d'.hitFreq, a);
            && Enqueue(rule, p, d, a).1 == taken
            && d'.queue == (if taken then d.queue + [a.packet] else d.queue)
            && Accepted(rule, p, events + [Arrive(a)]) == Accepted(rule, p, events) + (if taken then [a.packet] else [])
  {
    var d := Run(rule, p, events);
    DropAppended(events, Arrive(a));
    ListFills(rule, p, events);
    FrequencyNonNegative(rule, p, events);
    EnqueueAccounts(rule, p, d, a);
    if FlowId(a.flow).Some? {
      if |d.zombies| < MAX_ZOMBIE_LIST_SIZE {
        FillingTakesIff(rule, p, d, a);
      } else {
        FullTakesIff(rule, p, d, a);
      }
    }
    assert d.queue + [] == d.queue;
  }
}
