/**
 Packet accounting over whole runs, for both discs: conservation, FIFO order, occupancy
 bounds, and the region of occupancy in which nothing is dropped.
 */
module RedConservation {
  import opened Options
  import opened RealFacts
  import opened Sequences
  import opened Sums
  import opened RedQueue

  // ----- one event

  /** What is dropped so far after one more arrival; an invalid one costs a drop whatever becomes of it. */
  function DropVolume(dropped: Volume, a: Arrival, ok: bool): Volume {
    var dropped := if InvalidFlow(a) then dropped.Plus(a.packet) else dropped;
    if ok then dropped else dropped.Plus(a.packet)
  }

  /** An arrival adds its packet exactly if it is accepted, and every outcome is counted. */
  lemma EnqueueAccounts<Z>(rule: Rule<Z>, p: Params, d: Disc<Z>, a: Arrival)
    ensures var (d', ok) := Enqueue(rule, p, d, a);
            && d'.queue == d.queue + (if ok then [a.packet] else [])
            && d'.stats.received == d.stats.received.Plus(a.packet)
            && d'.stats.enqueued == (if ok then d.stats.enqueued.Plus(a.packet) else d.stats.enqueued)
            && d'.stats.dropped == DropVolume(d.stats.dropped, a, ok)
            && d'.stats.dequeued == d.stats.dequeued
  {
  }

  /** The arrivals that fall through the check of the flow id. */
  predicate InvalidFlow(a: Arrival) {
    FlowId(a.flow) == Some(-1)
  }

  function IsInvalid(a: Arrival): nat {
    if InvalidFlow(a) then 1 else 0
  }

  function ArrivalSize(a: Arrival): nat {
    a.packet.size
  }

  function InvalidSize(a: Arrival): nat {
    if InvalidFlow(a) then a.packet.size else 0
  }

  /** The invalid id is the one hash with all bits set; filters never produce it. */
  lemma InvalidFlowIsAHash(flow: Flow)
    ensures FlowId(flow) == Some(-1) <==> flow == Hashed(0xFFFF_FFFF)
    ensures flow.Hashed? ==> FlowId(flow).Some? && FlowId(flow).value == (if flow.hash < 0x8000_0000 then flow.hash else flow.hash - 0x1_0000_0000)
    ensures flow.Filtered? ==> FlowId(flow) == (if flow.ret == NO_MATCH then None else Some(flow.ret))
  {
  }

  // ----- whole runs

  /**
   Main result: over every run the counters add up to the traffic, an invalid flow id
   costing one drop too many, and what was handed out followed by what is queued is what
   was accepted, in order.
   */
  lemma Conservation<Z>(rule: Rule<Z>, p: Params, events: seq<Event>)
    ensures var d := Run(rule, p, events);
            && d.stats.received.packets == |Arrivals(events)|
            && d.stats.enqueued.packets == |Accepted(rule, p, events)|
            && d.stats.dequeued.packets == |Departures(rule, p, events)|
            && d.stats.dropped.packets + d.stats.enqueued.packets
               == d.stats.received.packets + Sum(Arrivals(events), IsInvalid)
            && Accepted(rule, p, events) == Departures(rule, p, events) + d.queue
  {
    PacketsAddUp(rule, p, events);
    AcceptedInOrder(rule, p, events);
  }

  /** Main result: the same for the counters of bytes. */
  lemma ConservationOfBytes<Z>(rule: Rule<Z>, p: Params, events: seq<Event>)
    ensures var d := Run(rule, p, events);
            && d.stats.received.bytes == Sum(Arrivals(events), ArrivalSize)
            && d.stats.enqueued.bytes == QueuedBytes(Accepted(rule, p, events))
            && d.stats.dequeued.bytes == QueuedBytes(Departures(rule, p, events))
            && d.stats.dropped.bytes + d.stats.enqueued.bytes
               == d.stats.received.bytes + Sum(Arrivals(events), InvalidSize)
            && d.stats.enqueued.bytes == d.stats.dequeued.bytes + QueuedBytes(d.queue)
  {
    BytesAddUp(rule, p, events);
    AcceptedInOrder(rule, p, events);
    SumConcat(Departures(rule, p, events), Run(rule, p, events).queue, PacketSize);
  }

  lemma {:induction false} PacketsAddUp<Z>(rule: Rule<Z>, p: Params, events: seq<Event>)
    ensures var s := Run(rule, p, events).stats;
            && s.received.packets == |Arrivals(events)|
            && s.enqueued.packets == |Accepted(rule, p, events)|
            && s.dequeued.packets == |Departures(rule, p, events)|
            && s.dropped.packets + s.enqueued.packets == s.received.packets + Sum(Arrivals(events), IsInvalid)
  {
    if events != [] {
      var front, e := events[..|events| - 1], events[|events| - 1];
      PacketsAddUp(rule, p, front);
      if e.Arrive? {
        EnqueueAccounts(rule, p, Run(rule, p, front), e.a);
        SumAppend(Arrivals(front), e.a, IsInvalid);
      } else {
        assert Arrivals(events) == Arrivals(front);
      }
    }
  }

  /** The counters of bytes agree with what came, was accepted and was handed out. */
  ghost predicate BytesAgree(s: Stats, arrivals: seq<Arrival>, accepted: seq<Packet>, departures: seq<Packet>) {
    && s.received.bytes == Sum(arrivals, ArrivalSize)
    && s.enqueued.bytes == QueuedBytes(accepted)
    && s.dequeued.bytes == QueuedBytes(departures)
    && s.dropped.bytes + s.enqueued.bytes == s.received.bytes + Sum(arrivals, InvalidSize)
  }

  lemma BytesOfArrival(s: Stats, arrivals: seq<Arrival>, accepted: seq<Packet>, departures: seq<Packet>, a: Arrival, ok: bool)
    requires BytesAgree(s, arrivals, accepted, departures)
    ensures BytesAgree(Stats(s.received.Plus(a.packet), DropVolume(s.dropped, a, ok),
                             if ok then s.enqueued.Plus(a.packet) else s.enqueued, s.dequeued),
                       arrivals + [a], accepted + (if ok then [a.packet] else []), departures)
  {
    SumAppend(arrivals, a, ArrivalSize);
    SumAppend(arrivals, a, InvalidSize);
    SumAppend(accepted, a.packet, PacketSize);
    assert accepted + [] == accepted;
  }

  lemma {:induction false} BytesAddUp<Z>(rule: Rule<Z>, p: Params, events: seq<Event>)
    ensures BytesAgree(Run(rule, p, events).stats, Arrivals(events), Accepted(rule, p, events), Departures(rule, p, events))
  {
    if events != [] {
      var front, e := events[..|events| - 1], events[|events| - 1];
      var d := Run(rule, p, front);
      var arrivals, accepted, departures := Arrivals(front), Accepted(rule, p, front), Departures(rule, p, front);
      BytesAddUp(rule, p, front);
      assert arrivals + [] == arrivals && accepted + [] == accepted && departures + [] == departures;
      if e.Arrive? {
        EnqueueAccounts(rule, p, d, e.a);
        BytesOfArrival(d.stats, arrivals, accepted, departures, e.a, Enqueue(rule, p, d, e.a).1);
      } else if e.Dequeue? && d.queue != [] {
        SumAppend(departures, d.queue[0], PacketSize);
      }
    }
  }

  lemma {:induction false} AcceptedInOrder<Z>(rule: Rule<Z>, p: Params, events: seq<Event>)
    ensures Accepted(rule, p, events) == Departures(rule, p, events) + Run(rule, p, events).queue
  {
    if events != [] {
      var front, e := events[..|events| - 1], events[|events| - 1];
      var d, out := Run(rule, p, front), Departures(rule, p, front);
      AcceptedInOrder(rule, p, front);
      assert Accepted(rule, p, front) + [] == Accepted(rule, p, front) && out + [] == out;
      if e.Arrive? {
        EnqueueAccounts(rule, p, d, e.a);
        Regroup(out, d.queue, if Enqueue(rule, p, d, e.a).1 then [e.a.packet] else []);
      } else if e.Dequeue? && d.queue != [] {
        MoveHead(out, d.queue);
      }
    }
  }

  /** With valid flow ids: arrivals = dropped + queued + dequeued. */
  lemma ConservationOfPackets<Z>(rule: Rule<Z>, p: Params, events: seq<Event>)
    requires forall a :: a in Arrivals(events) ==> !InvalidFlow(a)
    ensures var d := Run(rule, p, events);
            |Arrivals(events)| == d.stats.dropped.packets + |d.queue| + d.stats.dequeued.packets
  {
    Conservation(rule, p, events);
    SumZero(Arrivals(events), IsInvalid);
  }

  /**
   Main result, with its exact condition: of the balances the base class asserts after
   every enqueue, that of packets holds if and only if no arrival so far hashed to the
   invalid flow id, and that of bytes if and only if no arrival with any bytes did.
   */
  lemma BalanceIff<Z>(rule: Rule<Z>, p: Params, events: seq<Event>)
    ensures var s := Run(rule, p, events).stats;
            && (s.received.packets == s.dropped.packets + s.enqueued.packets <==>
                forall a :: a in Arrivals(events) ==> a.flow != Hashed(0xFFFF_FFFF))
            && (s.received.bytes == s.dropped.bytes + s.enqueued.bytes <==>
                forall a :: a in Arrivals(events) && a.flow == Hashed(0xFFFF_FFFF) ==> a.packet.size == 0)
  {
    Conservation(rule, p, events);
    ConservationOfBytes(rule, p, events);
    forall a ensures InvalidFlow(a) <==> a.flow == Hashed(0xFFFF_FFFF) {
      InvalidFlowIsAHash(a.flow);
    }
    SumZeroIff(Arrivals(events), IsInvalid);
    SumZeroIff(Arrivals(events), InvalidSize);
    assert forall a :: IsInvalid(a) == 0 <==> a.flow != Hashed(0xFFFF_FFFF);
    assert forall a :: InvalidSize(a) == 0 <==> a.flow == Hashed(0xFFFF_FFFF) ==> a.packet.size == 0;
  }

  /** The balances can fail: one arrival with the invalid flow id is enough for both. */
  lemma InvalidFlowUnbalances<Z>(rule: Rule<Z>, p: Params) returns (events: seq<Event>)
    ensures var s := Run(rule, p, events).stats;
            && s.received.packets != s.dropped.packets + s.enqueued.packets
            && s.received.bytes != s.dropped.bytes + s.enqueued.bytes
  {
    var a := Arrival(Packet(0, 1), Hashed(0xFFFF_FFFF), Draws(0, 0.0, 0.0), 0.0);
    events := [Arrive(a)];
    assert Arrivals(events[..0]) == [];
    assert a in Arrivals(events);
    BalanceIff(rule, p, events);
  }

  lemma {:induction false} AcceptedGrows<Z>(rule: Rule<Z>, p: Params, events: seq<Event>, more: seq<Event>)
    ensures Accepted(rule, p, events) <= Accepted(rule, p, events + more)
    ensures Departures(rule, p, events) <= Departures(rule, p, events + more)
  {
    if more == [] {
      assert events + more == events;
    } else {
      FrontOfSum(events, more);
      AcceptedGrows(rule, p, events, more[..|more| - 1]);
    }
  }

  /**
   Main result: a dequeue hands out a packet if and only if more packets were accepted than
   have departed, and then it is the first of those.
   */
  lemma DequeueHandsOutIff<Z>(rule: Rule<Z>, p: Params, events: seq<Event>)
    ensures var accepted, departed := Accepted(rule, p, events), Departures(rule, p, events);
            && Departures(rule, p, events + [Dequeue])
               == departed + (if |accepted| > |departed| then [accepted[|departed|]] else [])
            && DoDequeue(Run(rule, p, events)).1
               == (if |accepted| > |departed| then Some(accepted[|departed|]) else None)
  {
    AcceptedInOrder(rule, p, events);
    DropAppended(events, Dequeue);
  }

  /** A dequeue on a FIFO that is not empty is followed by a departure, whatever comes in between. */
  lemma {:induction false} LaterDequeueDeparts<Z>(rule: Rule<Z>, p: Params, events: seq<Event>, more: seq<Event>)
    requires Run(rule, p, events).queue != [] && Dequeue in more
    ensures |Departures(rule, p, events + more)| > |Departures(rule, p, events)|
  {
    var front := more[..|more| - 1];
    FrontOfSum(events, more);
    AcceptedGrows(rule, p, events, front);
    FrontAndLast(more);
    if Dequeue in front {
      LaterDequeueDeparts(rule, p, events, front);
    } else {
      AcceptedInOrder(rule, p, events);
      AcceptedInOrder(rule, p, events + front);
    }
  }

  /**
   Main result: what a peek shows is the next packet handed out, by the first dequeue there
   is, however the run goes on; it shows nothing if and only if nothing is left to hand out.
   */
  lemma PeekIsNextDeparture<Z>(rule: Rule<Z>, p: Params, events: seq<Event>, more: seq<Event>)
    requires Dequeue in more
    ensures var departed := Departures(rule, p, events);
            && (DoPeek(Run(rule, p, events)).Some? <==> |Accepted(rule, p, events)| > |departed|)
            && (DoPeek(Run(rule, p, events)).Some? ==>
                && |Departures(rule, p, events + more)| > |departed|
                && DoPeek(Run(rule, p, events)) == Some(Departures(rule, p, events + more)[|departed|]))
  {
    AcceptedInOrder(rule, p, events);
    if Run(rule, p, events).queue != [] {
      PeekAtNext(rule, p, events, more);
    }
  }

  lemma PeekAtNext<Z>(rule: Rule<Z>, p: Params, events: seq<Event>, more: seq<Event>)
    requires Dequeue in more && Run(rule, p, events).queue != []
    ensures |Departures(rule, p, events + more)| > |Departures(rule, p, events)|
    ensures DoPeek(Run(rule, p, events))
            == Some(Departures(rule, p, events + more)[|Departures(rule, p, events)|])
  {
    LaterDequeueDeparts(rule, p, events, more);
    Conservation(rule, p, events);
    Conservation(rule, p, events + more);
    AcceptedGrows(rule, p, events, more);
    var k := |Departures(rule, p, events)|;
    assert Accepted(rule, p, events)[k] == Accepted(rule, p, events + more)[k];
  }

  // ----- occupancy

  /** Main result: the FIFO never exceeds its limit, in the unit of that limit. */
  lemma {:induction false} WithinCapacity<Z>(rule: Rule<Z>, p: Params, events: seq<Event>)
    ensures CurrentSize(p, Run(rule, p, events).queue) <= p.capacity
  {
    if events != [] {
      var front, e := events[..|events| - 1], events[|events| - 1];
      WithinCapacity(rule, p, front);
      var d := Run(rule, p, front);
      if e.Arrive? {
        EnqueueAccounts(rule, p, d, e.a);
        SumAppend(d.queue, e.a.packet, PacketSize);
        EnqueueRespectsLimit(rule, p, d, e.a);
      }
    }
  }

  lemma EnqueueRespectsLimit<Z>(rule: Rule<Z>, p: Params, d: Disc<Z>, a: Arrival)
    ensures Enqueue(rule, p, d, a).1 ==> CurrentSize(p, d.queue) + Increment(p, a.packet) <= p.capacity
  {
  }

  // ----- the zap decision

  lemma StabilizedProbabilityRange(p: Params, bytes: nat)
    requires p.Valid()
    ensures 0.0 <= StabilizedProbability(p, bytes) <= p.pMax
  {
  }

  lemma ZapPositive(pSred: real, hitFreq: real)
    requires 0.0 <= pSred && 0.0 <= hitFreq
    ensures ZapSimple(pSred, hitFreq) >= 0.0
    ensures ZapSimple(pSred, hitFreq) > 0.0 <==> pSred > 0.0
    ensures Below(0.0, ZapFull(pSred, hitFreq, 1)) <==> pSred > 0.0
    ensures pSred == 0.0 ==> forall zap: Uniform :: !Below(zap, ZapFull(pSred, hitFreq, 1))
  {
    if hitFreq > 0.0 {
      var factor := 1.0 / ZapDivisor(hitFreq);
      assert factor > 0.0;
      var gain := 1.0 + 1.0 / hitFreq;
      assert gain > 0.0;
      if pSred > 0.0 {
        assert pSred * factor > 0.0;
        assert pSred * factor * gain > 0.0;
        assert pSred * gain > 0.0;
      }
    }
  }

  /** The condition under which no draw can zap an arrival. */
  predicate CannotZap(p: Params, bytes: nat) {
    (p.mode != 1 && p.mode != 2) || p.pMax == 0.0 || 6 * bytes < p.capacity || bytes > p.capacity
  }

  /** Main result, with its exact condition: which arrivals survive every zap draw. */
  lemma SurvivesEveryDrawIff(p: Params, bytes: nat, hitFreq: real)
    requires p.Valid() && 0.0 <= hitFreq
    ensures (forall zap: Uniform :: !Below(zap, ZapProbability(p, bytes, hitFreq))) <==> CannotZap(p, bytes)
  {
    var pSred := StabilizedProbability(p, bytes);
    StabilizedProbabilityRange(p, bytes);
    ZapPositive(pSred, hitFreq);
    assert pSred > 0.0 <==> p.pMax != 0.0 && 6 * bytes >= p.capacity && bytes <= p.capacity;
    if !CannotZap(p, bytes) {
      var zap: Uniform := 0.0;
      assert Below(zap, ZapProbability(p, bytes, hitFreq));
    }
  }

  /** What the damping divides by: the divisor, unless it is below one. */
  function Scale(hitFreq: real): real {
    if ZapDivisor(hitFreq) < 1.0 then 1.0 else ZapDivisor(hitFreq)
  }

  /** The condition under which every draw zaps an arrival. */
  predicate AlwaysZaps(p: Params, bytes: nat, hitFreq: real) {
    var pSred := StabilizedProbability(p, bytes);
    || (p.mode == 1 && pSred >= Scale(hitFreq))
    || (p.mode == 2 && pSred > 0.0 && pSred * (hitFreq + 1.0) >= hitFreq * Scale(hitFreq))
  }

  /** Every draw is below a value exactly if that is at least one. */
  lemma BelowAlwaysIff(v: real)
    ensures (forall zap: Uniform :: Below(zap, Finite(v))) <==> v >= 1.0
  {
    if v < 1.0 {
      var zap: Uniform := if v < 0.0 then 0.0 else v;
      assert !Below(zap, Finite(v));
    }
  }

  lemma DampedGain(pSred: real, d: real, h: real)
    requires 0.0 < d && 0.0 < h
    ensures pSred * (1.0 / d) * (1.0 + 1.0 / h) >= 1.0 <==> pSred * (h + 1.0) >= h * d
  {
    GainAtLeastOne(pSred * (1.0 / d), h);
    QuotientAtLeast(pSred * (h + 1.0), d, h);
    assert pSred * (1.0 / d) * (h + 1.0) == pSred * (h + 1.0) * (1.0 / d);
  }

  lemma SimpleAtLeastOneIff(pSred: real, hitFreq: real)
    requires 0.0 < hitFreq
    ensures ZapSimple(pSred, hitFreq) >= 1.0 <==> pSred >= Scale(hitFreq)
  {
    var d := ZapDivisor(hitFreq);
    InverseBelowOne(d);
    QuotientAtLeast(pSred, d, 1.0);
  }

  lemma FullAtLeastOneIff(pSred: real, hitFreq: real)
    requires 0.0 < hitFreq
    ensures ZapFull(pSred, hitFreq, 1).Finite?
    ensures ZapFull(pSred, hitFreq, 1).value >= 1.0 <==> pSred * (hitFreq + 1.0) >= hitFreq * Scale(hitFreq)
  {
    var d := ZapDivisor(hitFreq);
    InverseBelowOne(d);
    GainAtLeastOne(pSred, hitFreq);
    DampedGain(pSred, d, hitFreq);
  }

  lemma SimpleAlwaysIff(pSred: real, hitFreq: real)
    requires 0.0 <= pSred && 0.0 <= hitFreq
    ensures (forall zap: Uniform :: Below(zap, Finite(ZapSimple(pSred, hitFreq)))) <==> pSred >= Scale(hitFreq)
  {
    BelowAlwaysIff(ZapSimple(pSred, hitFreq));
    if hitFreq > 0.0 {
      SimpleAtLeastOneIff(pSred, hitFreq);
    }
  }

  lemma FullAlwaysIff(pSred: real, hitFreq: real)
    requires 0.0 <= pSred && 0.0 <= hitFreq
    ensures (forall zap: Uniform :: Below(zap, ZapFull(pSred, hitFreq, 1))) <==>
            pSred > 0.0 && pSred * (hitFreq + 1.0) >= hitFreq * Scale(hitFreq)
  {
    var zap: Uniform := 0.0;
    if hitFreq > 0.0 {
      FullAtLeastOneIff(pSred, hitFreq);
      BelowAlwaysIff(ZapFull(pSred, hitFreq, 1).value);
      MulPositive(hitFreq, Scale(hitFreq));
    } else {
      assert Below(zap, ZapFull(pSred, hitFreq, 1)) <==> pSred > 0.0;
    }
  }

  /** Main result, with its exact condition: which arrivals no zap draw lets through. */
  lemma ZappedByEveryDrawIff(p: Params, bytes: nat, hitFreq: real)
    requires p.Valid() && 0.0 <= hitFreq
    ensures (forall zap: Uniform :: Below(zap, ZapProbability(p, bytes, hitFreq))) <==> AlwaysZaps(p, bytes, hitFreq)
  {
    var pSred := StabilizedProbability(p, bytes);
    StabilizedProbabilityRange(p, bytes);
    if p.mode == 1 {
      assert ZapProbability(p, bytes, hitFreq) == Finite(ZapSimple(pSred, hitFreq));
      SimpleAlwaysIff(pSred, hitFreq);
    } else if p.mode == 2 {
      assert ZapProbability(p, bytes, hitFreq) == ZapFull(pSred, hitFreq, 1);
      FullAlwaysIff(pSred, hitFreq);
    } else {
      assert ZapProbability(p, bytes, hitFreq) == Finite(0.0);
      BelowAlwaysIff(0.0);
    }
  }

  // ----- the lossless region

  /** Every arrival is valid, fits, and finds less than a sixth of the capacity queued. */
  ghost predicate Calm<Z>(rule: Rule<Z>, p: Params, events: seq<Event>) {
    forall k :: 0 <= k < |events| && events[k].Arrive? ==> CalmArrival(rule, p, Run(rule, p, events[..k]), events[k].a)
  }

  ghost predicate CalmArrival<Z>(rule: Rule<Z>, p: Params, d: Disc<Z>, a: Arrival) {
    && FlowId(a.flow).Some? && !InvalidFlow(a)
    && 6 * QueuedBytes(d.queue) < p.capacity
    && QueuedBytes(d.queue) + a.packet.size <= p.capacity
  }

  lemma CalmArrivalAccepted<Z>(rule: Rule<Z>, p: Params, d: Disc<Z>, a: Arrival)
    requires p.Valid() && p.unit == Bytes && CalmArrival(rule, p, d, a)
    requires 0.0 <= Observe(rule, p, d, FlowId(a.flow).value, a).hitFreq
    ensures Enqueue(rule, p, d, a).1
  {
    SurvivesEveryDrawIff(p, QueuedBytes(d.queue), Observe(rule, p, d, FlowId(a.flow).value, a).hitFreq);
  }

  lemma {:induction false} FrequencyNonNegative<Z>(rule: Rule<Z>, p: Params, events: seq<Event>)
    requires p.Valid()
    ensures 0.0 <= Run(rule, p, events).hitFreq
  {
    if events != [] {
      FrequencyNonNegative(rule, p, events[..|events| - 1]);
      NextFrequencyNonNegative(p, Run(rule, p, events[..|events| - 1]).hitFreq);
    }
  }

  lemma NextFrequencyNonNegative(p: Params, hitFreq: real)
    requires p.Valid() && 0.0 <= hitFreq
    ensures forall hit :: 0.0 <= NextFrequency(p, hitFreq, hit)
  {
    assert 0.0 <= p.Alpha() <= 1.0;
    assert 0.0 <= (1.0 - p.Alpha()) * hitFreq;
  }

  /** Main result (limit in bytes): a calm run drops nothing, whatever the draws. */
  lemma {:induction false} CalmRunsAreLossless<Z>(rule: Rule<Z>, p: Params, events: seq<Event>)
    requires p.Valid() && p.unit == Bytes && Calm(rule, p, events)
    ensures Run(rule, p, events).stats.dropped.packets == 0
    ensures |Accepted(rule, p, events)| == |Arrivals(events)|
  {
    if events != [] {
      var n := |events| - 1;
      var front, e := events[..n], events[n];
      assert forall k :: 0 <= k < n ==> front[..k] == events[..k];
      CalmRunsAreLossless(rule, p, front);
      if e.Arrive? {
        var d := Run(rule, p, front);
        FrequencyNonNegative(rule, p, front);
        NextFrequencyNonNegative(p, d.hitFreq);
        CalmArrivalAccepted(rule, p, d, e.a);
        EnqueueAccounts(rule, p, d, e.a);
      }
    }
  }
}
