/**
 The timestamped extension of Stabilized RED: a zombie remembers when it was last touched,
 and the longer ago that is the likelier a miss overwrites it.
 */
module ExtendedStabilizedRed {
  import opened Options
  import opened RealFacts
  import opened Sequences
  import opened Sums
  import opened RedQueue
  import opened RedCredit

  datatype EZombie = EZombie(flowID: int32, count: nat, time: Time)

  function NewZombie(f: int32, a: Arrival): EZombie {
    EZombie(f, 0, a.now)
  }

  /** The overwrite probability scaled down by the zombie's timestamp in seconds. */
  function Threshold(p: Params, z: EZombie): real {
    p.pOverwrite / (1.0 + z.time)
  }

  function Visit(p: Params, z: EZombie, f: int32, a: Arrival): (EZombie, bool) {
    if z.flowID == f then (EZombie(f, z.count + 1, a.now), true)
    else if a.draws.overwrite < Threshold(p, z) then (EZombie(f, 0, a.now), false)
    else (z, false)
  }

  const ESRED: Rule<EZombie> := Rule(NewZombie, Visit)

  const READ_EZOMBIE: Reading<EZombie> := Reading((z: EZombie) => z.flowID, (z: EZombie) => z.count)

  lemma EsredIsLawful()
    ensures Lawful(ESRED, READ_EZOMBIE)
  {
    forall p: Params, z: EZombie, f: int32, a: Arrival
      ensures LawfulVisit(READ_EZOMBIE, z, f, ESRED.visit(p, z, f, a).0, ESRED.visit(p, z, f, a).1)
    {
      assert ESRED.visit(p, z, f, a) == Visit(p, z, f, a);
    }
  }

  /** Main result: per-flow credit in every reachable state of the disc. */
  lemma EsredCredit(p: Params, events: seq<Event>, f: int32)
    ensures Sum(Run(ESRED, p, events).zombies, Credit(READ_EZOMBIE, f)) <= Sum(Arrivals(events), OfFlow(f))
  {
    EsredIsLawful();
    CreditBounded(ESRED, READ_EZOMBIE, p, events, f);
  }

  // ----- timestamps

  /** The event that last changed a slot of the list; a hit changes the count, an overwrite the flow. */
  function LastTouch(p: Params, events: seq<Event>, slot: nat): (t: nat)
    requires slot < |Run(ESRED, p, events).zombies|
    ensures t < |events|
  {
    var n := |events| - 1;
    var before, now := Run(ESRED, p, events[..n]).zombies, Run(ESRED, p, events).zombies;
    if slot < |before| && before[slot] == now[slot] then LastTouch(p, events[..n], slot) else n
  }

  /** An event that changes a slot is an arrival, and the slot then bears its flow and time. */
  lemma ChangeBearsArrival(p: Params, d: Disc<EZombie>, e: Event, slot: nat)
    requires |d.zombies| <= MAX_ZOMBIE_LIST_SIZE
    requires slot < |Step(ESRED, p, d, e).zombies|
    requires slot < |d.zombies| ==> d.zombies[slot] != Step(ESRED, p, d, e).zombies[slot]
    ensures e.Arrive?
    ensures var z := Step(ESRED, p, d, e).zombies[slot];
            FlowId(e.a.flow) == Some(z.flowID) && z.time == e.a.now
  {
    if e.Arrive? {
      EnqueueZombies(ESRED, p, d, e.a);
    }
  }

  lemma {:induction false} ListBounded(p: Params, events: seq<Event>)
    ensures |Run(ESRED, p, events).zombies| <= MAX_ZOMBIE_LIST_SIZE
  {
    ListFills(ESRED, p, events);
  }

  /** Main result: every zombie records a past arrival of its flow, at that arrival's time. */
  lemma {:induction false} ZombieIsPastArrival(p: Params, events: seq<Event>, slot: nat)
    requires slot < |Run(ESRED, p, events).zombies|
    ensures var z, e := Run(ESRED, p, events).zombies[slot], events[LastTouch(p, events, slot)];
            e.Arrive? && FlowId(e.a.flow) == Some(z.flowID) && e.a.now == z.time
  {
    var n := |events| - 1;
    var d := Run(ESRED, p, events[..n]);
    ListBounded(p, events[..n]);
    if slot < |d.zombies| && d.zombies[slot] == Run(ESRED, p, events).zombies[slot] {
      ZombieIsPastArrival(p, events[..n], slot);
    } else {
      ChangeBearsArrival(p, d, events[n], slot);
    }
  }

  /** The simulator's clock does not run backwards. */
  ghost predicate ClockRuns(events: seq<Event>) {
    forall i, j :: 0 <= i < j < |events| && events[i].Arrive? && events[j].Arrive? ==> events[i].a.now <= events[j].a.now
  }

  lemma ThresholdAntitone(p: Params, time: Time, later: Time)
    requires p.Valid() && time <= later
    ensures p.pOverwrite / (1.0 + later) <= p.pOverwrite / (1.0 + time)
  {
    InverseAntitone(1.0 + time, 1.0 + later);
    MulMonotone(p.pOverwrite, 1.0 / (1.0 + later), 1.0 / (1.0 + time));
    QuotientIsProduct(p.pOverwrite, 1.0 + later);
    QuotientIsProduct(p.pOverwrite, 1.0 + time);
  }

  lemma QuotientIsProduct(a: real, b: real)
    requires 0.0 < b
    ensures a / b == a * (1.0 / b)
  {
  }

  /** Main result: a zombie's threshold lies between that of the present and the plain probability. */
  lemma ThresholdRange(p: Params, events: seq<Event>, slot: nat, now: Time)
    requires p.Valid() && slot < |Run(ESRED, p, events).zombies|
    requires forall k :: 0 <= k < |events| && events[k].Arrive? ==> events[k].a.now <= now
    ensures p.pOverwrite / (1.0 + now) <= Threshold(p, Run(ESRED, p, events).zombies[slot]) <= p.pOverwrite
  {
    var z := Run(ESRED, p, events).zombies[slot];
    ZombieIsPastArrival(p, events, slot);
    ThresholdAntitone(p, z.time, now);
    ThresholdAntitone(p, 0.0, z.time);
  }

  /** The draw overwrites a zombie last touched at a time. */
  predicate Overwrites(pOverwrite: real, touched: Time, draw: real) {
    draw * (1.0 + touched) < pOverwrite
  }

  /** Main result: a zombie's threshold is fixed by the time of the arrival that last touched it. */
  lemma ThresholdIsOfTouch(p: Params, events: seq<Event>, slot: nat, draw: real)
    requires slot < |Run(ESRED, p, events).zombies|
    ensures var touch := events[LastTouch(p, events, slot)];
            touch.Arrive? && (draw < Threshold(p, Run(ESRED, p, events).zombies[slot]) <==> Overwrites(p.pOverwrite, touch.a.now, draw))
  {
    ZombieIsPastArrival(p, events, slot);
    BelowThreshold(p, Run(ESRED, p, events).zombies[slot], draw);
  }

  lemma ThresholdOrder(p: Params, z: EZombie, z': EZombie)
    requires p.Valid() && z.time <= z'.time
    ensures Threshold(p, z') <= Threshold(p, z)
  {
    ThresholdAntitone(p, z.time, z'.time);
  }

  lemma LaterTouchLaterTime(p: Params, events: seq<Event>, i: nat, j: nat)
    requires ClockRuns(events)
    requires i < |Run(ESRED, p, events).zombies| && j < |Run(ESRED, p, events).zombies|
    requires LastTouch(p, events, i) <= LastTouch(p, events, j)
    ensures Run(ESRED, p, events).zombies[i].time <= Run(ESRED, p, events).zombies[j].time
  {
    ZombieIsPastArrival(p, events, i);
    ZombieIsPastArrival(p, events, j);
  }

  /** Main result: of two slots the one touched later is never easier to overwrite. */
  lemma LaterTouchLowerThreshold(p: Params, events: seq<Event>, i: nat, j: nat)
    requires p.Valid() && ClockRuns(events)
    requires i < |Run(ESRED, p, events).zombies| && j < |Run(ESRED, p, events).zombies|
    requires LastTouch(p, events, i) <= LastTouch(p, events, j)
    ensures var zombies := Run(ESRED, p, events).zombies;
            Threshold(p, zombies[j]) <= Threshold(p, zombies[i])
  {
    LaterTouchLaterTime(p, events, i, j);
    ThresholdOrder(p, Run(ESRED, p, events).zombies[i], Run(ESRED, p, events).zombies[j]);
  }

  /** What an arrival of flow `f` makes of the drawn zombie `z`, last touched at a time. */
  ghost predicate Visited(pOverwrite: real, z: EZombie, z': EZombie, f: int32, a: Arrival, touched: Time) {
    if z.flowID == f then z' == EZombie(f, z.count + 1, a.now)
    else
      && (z' != z <==> Overwrites(pOverwrite, touched, a.draws.overwrite))
      && (z' != z ==> z' == EZombie(f, 0, a.now))
  }

  /**
   Main result, with its exact condition: over all runs, an arrival of flow `f` is appended
   while there is room; then only the drawn slot can change: a hit is counted and dated,
   and another flow's zombie is overwritten if and only if the draw, times one plus the
   time of the arrival that last touched the slot, is below the overwrite probability.
   */
  lemma ListAfterArrival(p: Params, events: seq<Event>, a: Arrival, f: int32)
    requires FlowId(a.flow) == Some(f)
    ensures var before, after := Run(ESRED, p, events).zombies, Run(ESRED, p, events + [Arrive(a)]).zombies;
            if |before| < 1000 then after == before + [EZombie(f, 0, a.now)]
            else
              var k := a.draws.index;
              var touch := events[LastTouch(p, events, k)];
              && |after| == |before| && after == before[k := after[k]] && touch.Arrive?
              && Visited(p.pOverwrite, before[k], after[k], f, a, touch.a.now)
  {
    DropAppended(events, Arrive(a));
    EnqueueZombies(ESRED, p, Run(ESRED, p, events), a);
    if |Run(ESRED, p, events).zombies| >= 1000 {
      ZombieIsPastArrival(p, events, a.draws.index);
      var before := Run(ESRED, p, events).zombies;
      VisitedZombie(p, before[a.draws.index], f, a);
      assert Run(ESRED, p, events + [Arrive(a)]).zombies
             == before[a.draws.index := Visit(p, before[a.draws.index], f, a).0];
    }
  }

  lemma VisitedZombie(p: Params, z: EZombie, f: int32, a: Arrival)
    ensures Visited(p.pOverwrite, z, Visit(p, z, f, a).0, f, a, z.time)
  {
    BelowThreshold(p, z, a.draws.overwrite);
  }

  lemma BelowThreshold(p: Params, z: EZombie, draw: real)
    ensures draw < Threshold(p, z) <==> Overwrites(p.pOverwrite, z.time, draw)
  {
    QuotientIsProduct(p.pOverwrite, 1.0 + z.time);
    QuotientAbove(p.pOverwrite, 1.0 + z.time, draw);
  }

  /** An arrival at a full list is a hit if and only if the drawn zombie is of its flow. */
  lemma HitIffSameFlow(p: Params, events: seq<Event>, a: Arrival, f: int32)
    requires FlowId(a.flow) == Some(f) && |Run(ESRED, p, events).zombies| >= 1000
    ensures Hits(ESRED, p, events + [Arrive(a)])
            == Hits(ESRED, p, events) + [Run(ESRED, p, events).zombies[a.draws.index].flowID == f]
  {
    DropAppended(events, Arrive(a));
  }

  class ESRedQueueDisc {
    const params: Params

    var zombies: seq<EZombie>
    var hitFreq: real
    var alpha: real
    var queue: seq<Packet>
    var received: Volume
    var dropped: Volume
    var enqueued: Volume
    var dequeued: Volume

    function View(): Disc<EZombie>
      reads this
    {
      Disc(zombies, hitFreq, queue, Stats(received, dropped, enqueued, dequeued))
    }

    ghost predicate Valid()
      reads this
    {
      alpha == params.Alpha() && |zombies| <= MAX_ZOMBIE_LIST_SIZE
    }

    constructor (p: Params)
      ensures params == p && Valid() && View() == Init()
    {
      params := p;
      queue := [];
      received, dropped, enqueued, dequeued := NOTHING, NOTHING, NOTHING, NOTHING;
      new;
      InitializeParams();
    }

    method InitializeParams()
      modifies this`zombies, this`hitFreq, this`alpha
      ensures Valid() && zombies == [] && hitFreq == 0.0
    {
      zombies := [];
      hitFreq := 0.0;
      alpha := params.pOverwrite / MAX_ZOMBIE_LIST_SIZE as real;
    }

    method DropBeforeEnqueue(packet: Packet)
      modifies this`dropped
      ensures dropped == old(dropped).Plus(packet)
    {
      dropped := dropped.Plus(packet);
    }

    method InternalQueueEnqueue(packet: Packet) returns (ok: bool)
      modifies this`queue, this`enqueued, this`dropped
      ensures (View(), ok) == InternalEnqueue(params, old(View()), packet)
    {
      if CurrentSize(params, queue) + Increment(params, packet) > params.capacity {
        DropBeforeEnqueue(packet);
        return false;
      }
      queue := queue + [packet];
      enqueued := enqueued.Plus(packet);
      return true;
    }

    /** The base class's enqueue: counts the packet, then leaves it to the disc. */
    method Enqueue(a: Arrival) returns (ok: bool)
      requires Valid()
      modifies this
      ensures Valid() && (View(), ok) == RedQueue.Enqueue(ESRED, params, old(View()), a)
    {
      received := received.Plus(a.packet);
      ok := DoEnqueue(a);
    }

    /** Compares the arrival with a zombie of the full list and ages the hit frequency. */
    method VisitZombie(flowID: int32, a: Arrival)
      requires Valid() && |zombies| == MAX_ZOMBIE_LIST_SIZE
      modifies this`zombies, this`hitFreq
      ensures Valid() && View() == Observe(ESRED, params, old(View()), flowID, a)
    {
      var index := a.draws.index;
      var hit := 0;
      if zombies[index].flowID == flowID {
        hit := 1;
        zombies := zombies[index := EZombie(flowID, zombies[index].count + 1, a.now)];
      } else if a.draws.overwrite < params.pOverwrite / (1.0 + zombies[index].time) {
        zombies := zombies[index := EZombie(flowID, 0, a.now)];
      }
      NextFrequencyOfCount(params, hitFreq, hit);
      hitFreq := (1.0 - alpha) * hitFreq + alpha * hit as real;
    }

    /** Zaps the packet or offers it to the FIFO. */
    method ZapOrEnqueue(packet: Packet, zap: Uniform, nQueued: nat) returns (ok: bool)
      requires nQueued == CurrentSize(params, queue)
      modifies this`queue, this`dropped, this`enqueued
      ensures (View(), ok) == AdmitFull(params, old(View()), packet, zap)
    {
      var pSred := StabilizedProbability(params, QueuedBytes(queue));
      var pZap := Finite(0.0);
      if params.mode == 1 {
        pZap := Finite(ZapSimple(pSred, hitFreq));
      } else if params.mode == 2 {
        pZap := ZapFull(pSred, hitFreq, 1);
      }
      if Below(zap, pZap) {
        DropBeforeEnqueue(packet);
        return false;
      }
      if nQueued < params.capacity {
        ok := InternalQueueEnqueue(packet);
      } else {
        DropBeforeEnqueue(packet);
        ok := false;
      }
    }

    method DoEnqueue(a: Arrival) returns (ok: bool)
      requires Valid()
      modifies this`zombies, this`hitFreq, this`queue, this`dropped, this`enqueued
      ensures Valid() && (View(), ok) == RedQueue.DoEnqueue(ESRED, params, old(View()), a)
    {
      var flowID: int32;
      match a.flow {
        case Hashed(hash) => flowID := ToInt32(hash);
        case Filtered(ret) =>
          if ret == NO_MATCH {
            DropBeforeEnqueue(a.packet);
            return false;
          }
          flowID := ToInt32(ToUint32(ret));
      }
      var nQueued := CurrentSize(params, queue);
      if flowID == -1 {
        DropBeforeEnqueue(a.packet);
      }
      if |zombies| < MAX_ZOMBIE_LIST_SIZE {
        zombies := zombies + [EZombie(flowID, 0, a.now)];
        if nQueued + a.packet.size <= params.capacity {
          ok := InternalQueueEnqueue(a.packet);
        } else {
          DropBeforeEnqueue(a.packet);
          ok := false;
        }
      } else {
        VisitZombie(flowID, a);
        ok := ZapOrEnqueue(a.packet, a.draws.zap, nQueued);
      }
    }

    method DoDequeue() returns (item: Option<Packet>)
      requires Valid()
      modifies this`queue, this`dequeued
      ensures Valid() && (View(), item) == RedQueue.DoDequeue(old(View()))
    {
      if queue == [] {
        return None;
      }
      item := Some(queue[0]);
      dequeued := dequeued.Plus(queue[0]);
      queue := queue[1..];
    }

    method DoPeek() returns (item: Option<Packet>)
      ensures item == RedQueue.DoPeek(View())
    {
      if queue == [] {
        return None;
      }
      item := Some(queue[0]);
    }
  }
}
