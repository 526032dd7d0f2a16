/**
 The occupancy test compares the bytes queued with the limit, also where the limit counts
 packets. What that does to the order of the probabilities over all runs, for both discs.
 */
module RedOccupancy {
  import opened Options
  import opened Sequences
  import opened Sums
  import opened RedQueue
  import opened RedConservation

  /**
   More bytes queued never lower the probability, unless they are more than the capacity
   and fewer bytes had a positive one.
   */
  lemma StabilizedProbabilityMonotoneIff(p: Params, fewer: nat, more: nat)
    requires p.Valid() && fewer <= more
    ensures StabilizedProbability(p, fewer) <= StabilizedProbability(p, more) <==>
            more <= p.capacity || p.pMax == 0.0 || 6 * fewer < p.capacity || fewer > p.capacity
  {
    assert fewer as real <= more as real;
  }

  /** One arrival of a packet of the given size. */
  function Traffic(size: nat): Event {
    Arrive(Arrival(Packet(0, size), Hashed(1), Draws(0, 0.0, 0.0), 0.0))
  }

  /**
   The order can fail in a run: under a limit in packets, bytes are compared with it, and
   the probability drops from its maximum to zero as the second packet is queued.
   */
  lemma PacketLimitLowersProbability<Z>(rule: Rule<Z>, p: Params) returns (events: seq<Event>)
    requires p.unit == Packets && p.capacity >= 2
    ensures |events| == 2 && |Accepted(rule, p, events)| == 2
    ensures var fewer, more := QueuedBytes(Run(rule, p, events[..1]).queue), QueuedBytes(Run(rule, p, events).queue);
            && fewer <= p.capacity < more
            && StabilizedProbability(p, fewer) == p.pMax && StabilizedProbability(p, more) == 0.0
  {
    var first, second := Traffic(p.capacity), Traffic(p.capacity - 1);
    events := [first, second];
    assert events[..1] == [first] && events[..1][..0] == [];
    assert Accepted(rule, p, events[..1][..0]) == [] && Run(rule, p, events[..1][..0]) == Init();
    var d := Run(rule, p, [first]);
    SumAppend([], first.a.packet, PacketSize);
    SumAppend([first.a.packet], second.a.packet, PacketSize);
    assert d.queue == [] + [first.a.packet];
    assert Run(rule, p, events).queue == d.queue + [second.a.packet];
  }

  // ----- runs past the limit

  /** Packets that are too large fill the list and leave the FIFO empty. */
  lemma {:induction false} FillingKeepsEmpty<Z>(rule: Rule<Z>, p: Params, events: seq<Event>)
    requires |events| <= MAX_ZOMBIE_LIST_SIZE && forall k :: 0 <= k < |events| ==> events[k] == Traffic(p.capacity + 1)
    ensures |Run(rule, p, events).zombies| == |events| && Run(rule, p, events).queue == []
  {
    if events != [] {
      var n := |events| - 1;
      FillingKeepsEmpty(rule, p, events[..n]);
      TooLargeIsRefused(rule, p, Run(rule, p, events[..n]), events[n].a);
    }
  }

  lemma TooLargeIsRefused<Z>(rule: Rule<Z>, p: Params, d: Disc<Z>, a: Arrival)
    requires |d.zombies| < MAX_ZOMBIE_LIST_SIZE && d.queue == []
    requires FlowId(a.flow).Some? && a.packet.size > p.capacity
    ensures var d' := Enqueue(rule, p, d, a).0;
            |d'.zombies| == |d.zombies| + 1 && d'.queue == []
  {
  }

  function FillThenOne(p: Params, size: nat): seq<Event> {
    seq(MAX_ZOMBIE_LIST_SIZE, i => Traffic(p.capacity + 1)) + [Traffic(size)]
  }

  /** With the list full and a limit in packets, the first packet is taken whatever its size. */
  lemma FirstPacketIsTaken<Z>(rule: Rule<Z>, p: Params, size: nat)
    requires p.Valid() && p.unit == Packets && p.capacity >= 1
    ensures QueuedBytes(Run(rule, p, FillThenOne(p, size)).queue) == size
  {
    var fill, a := seq(MAX_ZOMBIE_LIST_SIZE, i => Traffic(p.capacity + 1)), Traffic(size).a;
    var d := Run(rule, p, fill);
    FillingKeepsEmpty(rule, p, fill);
    FrequencyNonNegative(rule, p, fill);
    NextFrequencyNonNegative(p, d.hitFreq);
    DropAppended(fill, Traffic(size));
    EmptyQueueTakes(rule, p, d, a);
    SumAppend([], a.packet, PacketSize);
  }

  lemma EmptyQueueTakes<Z>(rule: Rule<Z>, p: Params, d: Disc<Z>, a: Arrival)
    requires p.Valid() && p.unit == Packets && p.capacity >= 1
    requires d.queue == [] && FlowId(a.flow) == Some(1)
    requires |d.zombies| == MAX_ZOMBIE_LIST_SIZE && 0.0 <= Observe(rule, p, d, 1, a).hitFreq
    ensures Enqueue(rule, p, d, a).0.queue == [] + [a.packet]
  {
    SurvivesEveryDrawIff(p, 0, Observe(rule, p, d, 1, a).hitFreq);
    EnqueueAccounts(rule, p, d, a);
  }

  // ----- the order over all runs

  /** A fuller queue has at least the probability of an emptier one. */
  ghost predicate FullerNotLower<Z>(rule: Rule<Z>, p: Params, few: seq<Event>, many: seq<Event>) {
    var fewer, more := QueuedBytes(Run(rule, p, few).queue), QueuedBytes(Run(rule, p, many).queue);
    fewer <= more ==> StabilizedProbability(p, fewer) <= StabilizedProbability(p, more)
  }

  /**
   Main result, with its exact condition: over all runs a fuller queue never has a lower
   probability if and only if the limit is in bytes, or zero, or the maximum is zero.
   */
  lemma FullerNotLowerIff<Z>(rule: Rule<Z>, p: Params)
    requires p.Valid()
    ensures (forall few, many :: FullerNotLower(rule, p, few, many)) <==>
            p.unit == Bytes || p.capacity == 0 || p.pMax == 0.0
  {
    if p.unit == Bytes || p.capacity == 0 || p.pMax == 0.0 {
      forall few, many ensures FullerNotLower(rule, p, few, many) {
        FullerNotLowerWithin(rule, p, few, many);
      }
    } else {
      var few, many := FillThenOne(p, p.capacity), FillThenOne(p, p.capacity + 1);
      FirstPacketIsTaken(rule, p, p.capacity);
      FirstPacketIsTaken(rule, p, p.capacity + 1);
      StabilizedProbabilityMonotoneIff(p, p.capacity, p.capacity + 1);
      assert !FullerNotLower(rule, p, few, many);
    }
  }

  lemma FullerNotLowerWithin<Z>(rule: Rule<Z>, p: Params, few: seq<Event>, many: seq<Event>)
    requires p.Valid() && (p.unit == Bytes || p.capacity == 0 || p.pMax == 0.0)
    ensures FullerNotLower(rule, p, few, many)
  {
    var fewer, more := QueuedBytes(Run(rule, p, few).queue), QueuedBytes(Run(rule, p, many).queue);
    WithinCapacity(rule, p, few);
    WithinCapacity(rule, p, many);
    if fewer <= more {
      StabilizedProbabilityMonotoneIff(p, fewer, more);
    }
  }
}
