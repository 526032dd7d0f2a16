/**
 The Stabilized RED disc: the rule for zombies without timestamps, and the disc as an
 object whose methods update the list, the frequency and the FIFO in place.
 */
module StabilizedRed {
  import opened Options
  import opened Sequences
  import opened Sums
  import opened RedQueue
  import opened RedCredit

  datatype Zombie = Zombie(flowID: int32, count: nat)

  function NewZombie(f: int32, a: Arrival): Zombie {
    Zombie(f, 0)
  }

  /** A visited zombie: a hit counts, a miss overwrites with the overwrite probability. */
  function Visit(p: Params, z: Zombie, f: int32, a: Arrival): (Zombie, bool) {
    if z.flowID == f then (Zombie(f, z.count + 1), true)
    else if a.draws.overwrite < p.pOverwrite then (Zombie(f, 0), false)
    else (z, false)
  }

  const SRED: Rule<Zombie> := Rule(NewZombie, Visit)

  const READ_ZOMBIE: Reading<Zombie> := Reading((z: Zombie) => z.flowID, (z: Zombie) => z.count)

  lemma SredIsLawful()
    ensures Lawful(SRED, READ_ZOMBIE)
  {
    forall p: Params, z: Zombie, f: int32, a: Arrival
      ensures LawfulVisit(READ_ZOMBIE, z, f, SRED.visit(p, z, f, a).0, SRED.visit(p, z, f, a).1)
    {
      assert SRED.visit(p, z, f, a) == Visit(p, z, f, a);
    }
  }

  /** Main result: per-flow credit in every reachable state of the disc. */
  lemma SredCredit(p: Params, events: seq<Event>, f: int32)
    ensures Sum(Run(SRED, p, events).zombies, Credit(READ_ZOMBIE, f)) <= Sum(Arrivals(events), OfFlow(f))
  {
    SredIsLawful();
    CreditBounded(SRED, READ_ZOMBIE, p, events, f);
  }

  /**
   Over all runs, an arrival of flow `f` is appended while there is room;
   then only the drawn slot can change: a hit is counted, and another flow's zombie is
   overwritten if and only if the draw is below the overwrite probability.
   */
  lemma ListAfterArrival(p: Params, events: seq<Event>, a: Arrival, f: int32)
    requires FlowId(a.flow) == Some(f)
    ensures var before, after := Run(SRED, p, events).zombies, Run(SRED, p, events + [Arrive(a)]).zombies;
            if |before| < 1000 then after == before + [Zombie(f, 0)]
            else
              var k := a.draws.index;
              && |after| == |before| && after == before[k := after[k]]
              && (before[k].flowID == f ==> after[k] == Zombie(f, before[k].count + 1))
              && (before[k].flowID != f ==>
                  && (after[k] != before[k] <==> a.draws.overwrite < p.pOverwrite)
                  && (after[k] != before[k] ==> after[k] == Zombie(f, 0)))
  {
    DropAppended(events, Arrive(a));
    EnqueueZombies(SRED, p, Run(SRED, p, events), a);
  }

  /** An arrival at a full list is a hit if and only if the drawn zombie is of its flow. */
  lemma HitIffSameFlow(p: Params, events: seq<Event>, a: Arrival, f: int32)
    requires FlowId(a.flow) == Some(f) && |Run(SRED, p, events).zombies| >= 1000
    ensures Hits(SRED, p, events + [Arrive(a)])
            == Hits(SRED, p, events) + [Run(SRED, p, events).zombies[a.draws.index].flowID == f]
  {
    DropAppended(events, Arrive(a));
  }

  class StabilizedRedQueueDisc {
    const params: Params

    var zombies: seq<Zombie>
    var hitFreq: real
    var alpha: real
    var queue: seq<Packet>
    var received: Volume
    var dropped: Volume
    var enqueued: Volume
    var dequeued: Volume

    function View(): Disc<Zombie>
      reads this
    {
      Disc(zombies, hitFreq, queue, Stats(received, dropped, enqueued, dequeued))
    }

    ghost predicate Valid()
      reads this
    {
      alpha == params.Alpha() && |zombies| <= MAX_ZOMBIE_LIST_SIZE
    }

    constructor (p: Params)
      ensures params == p && Valid() && View() == Init()
    {
      params := p;
      queue := [];
      received, dropped, enqueued, dequeued := NOTHING, NOTHING, NOTHING, NOTHING;
      new;
      InitializeParams();
    }

    method InitializeParams()
      modifies this`zombies, this`hitFreq, this`alpha
      ensures Valid() && zombies == [] && hitFreq == 0.0
    {
      zombies := [];
      hitFreq := 0.0;
      alpha := params.pOverwrite / MAX_ZOMBIE_LIST_SIZE as real;
    }

    method DropBeforeEnqueue(packet: Packet)
      modifies this`dropped
      ensures dropped == old(dropped).Plus(packet)
    {
      dropped := dropped.Plus(packet);
    }

    method InternalQueueEnqueue(packet: Packet) returns (ok: bool)
      modifies this`queue, this`enqueued, this`dropped
      ensures (View(), ok) == InternalEnqueue(params, old(View()), packet)
    {
      if CurrentSize(params, queue) + Increment(params, packet) > params.capacity {
        DropBeforeEnqueue(packet);
        return false;
      }
      queue := queue + [packet];
      enqueued := enqueued.Plus(packet);
      return true;
    }

    /** The base class's enqueue: counts the packet, then leaves it to the disc. */
    method Enqueue(a: Arrival) returns (ok: bool)
      requires Valid()
      modifies this
      ensures Valid() && (View(), ok) == RedQueue.Enqueue(SRED, params, old(View()), a)
    {
      received := received.Plus(a.packet);
      ok := DoEnqueue(a);
    }

    /** Compares the arrival with a zombie of the full list and ages the hit frequency. */
    method VisitZombie(flowID: int32, a: Arrival)
      requires Valid() && |zombies| == MAX_ZOMBIE_LIST_SIZE
      modifies this`zombies, this`hitFreq
      ensures Valid() && View() == Observe(SRED, params, old(View()), flowID, a)
    {
      var index := a.draws.index;
      var hit := 0;
      if zombies[index].flowID == flowID {
        hit := 1;
        zombies := zombies[index := zombies[index].(count := zombies[index].count + 1)];
      } else if a.draws.overwrite < params.pOverwrite {
        zombies := zombies[index := Zombie(flowID, 0)];
      }
      NextFrequencyOfCount(params, hitFreq, hit);
      hitFreq := (1.0 - alpha) * hitFreq + alpha * hit as real;
    }

    /** Zaps the packet or offers it to the FIFO. */
    method ZapOrEnqueue(packet: Packet, zap: Uniform, nQueued: nat) returns (ok: bool)
      requires nQueued == CurrentSize(params, queue)
      modifies this`queue, this`dropped, this`enqueued
      ensures (View(), ok) == AdmitFull(params, old(View()), packet, zap)
    {
      var pSred := StabilizedProbability(params, QueuedBytes(queue));
      var pZap := Finite(0.0);
      if params.mode == 1 {
        pZap := Finite(ZapSimple(pSred, hitFreq));
      } else if params.mode == 2 {
        pZap := ZapFull(pSred, hitFreq, 1);
      }
      if Below(zap, pZap) {
        DropBeforeEnqueue(packet);
        return false;
      }
      if nQueued < params.capacity {
        ok := InternalQueueEnqueue(packet);
      } else {
        DropBeforeEnqueue(packet);
        ok := false;
      }
    }

    method DoEnqueue(a: Arrival) returns (ok: bool)
      requires Valid()
      modifies this`zombies, this`hitFreq, this`queue, this`dropped, this`enqueued
      ensures Valid() && (View(), ok) == RedQueue.DoEnqueue(SRED, params, old(View()), a)
    {
      var flowID: int32;
      match a.flow {
        case Hashed(hash) => flowID := ToInt32(hash);
        case Filtered(ret) =>
          if ret == NO_MATCH {
            DropBeforeEnqueue(a.packet);
            return false;
          }
          flowID := ToInt32(ToUint32(ret));
      }
      var nQueued := CurrentSize(params, queue);
      if flowID == -1 {
        DropBeforeEnqueue(a.packet);
      }
      if |zombies| < MAX_ZOMBIE_LIST_SIZE {
        zombies := zombies + [Zombie(flowID, 0)];
        if nQueued + a.packet.size <= params.capacity {
          ok := InternalQueueEnqueue(a.packet);
        } else {
          DropBeforeEnqueue(a.packet);
          ok := false;
        }
      } else {
        VisitZombie(flowID, a);
        ok := ZapOrEnqueue(a.packet, a.draws.zap, nQueued);
      }
    }

    method DoDequeue() returns (item: Option<Packet>)
      requires Valid()
      modifies this`queue, this`dequeued
      ensures Valid() && (View(), item) == RedQueue.DoDequeue(old(View()))
    {
      if queue == [] {
        return None;
      }
      item := Some(queue[0]);
      dequeued := dequeued.Plus(queue[0]);
      queue := queue[1..];
    }

    method DoPeek() returns (item: Option<Packet>)
      ensures item == RedQueue.DoPeek(View())
    {
      if queue == [] {
        return None;
      }
      item := Some(queue[0]);
    }
  }
}
