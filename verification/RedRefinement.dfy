/**
 The timestamped disc refines the plain one: with timestamps erased, every run of it is a
 run of Stabilized RED under some other draws, provided a miss can escape overwriting.
 */
module RedRefinement {
  import opened RedQueue
  import opened RedCredit
  import SR = StabilizedRed
  import ES = ExtendedStabilizedRed

  function EraseZombie(z: ES.EZombie): SR.Zombie {
    SR.Zombie(z.flowID, z.count)
  }

  function EraseList(zombies: seq<ES.EZombie>): seq<SR.Zombie> {
    seq(|zombies|, i requires 0 <= i < |zombies| => EraseZombie(zombies[i]))
  }

  function Erase(d: Disc<ES.EZombie>): Disc<SR.Zombie> {
    Disc(EraseList(d.zombies), d.hitFreq, d.queue, d.stats)
  }

  /** The same traffic, whatever the draws. */
  ghost predicate SameTraffic(e: Event, e': Event) {
    if e.Arrive? then e'.Arrive? && e'.a == e.a.(draws := e'.a.draws) else e' == e
  }

  /** Run by run: same traffic, and after every prefix the same disc up to timestamps. */
  ghost predicate Simulates(p: Params, events: seq<Event>, events': seq<Event>) {
    && |events'| == |events|
    && (forall k :: 0 <= k < |events| ==> SameTraffic(events[k], events'[k]))
    && (forall k :: 0 <= k <= |events| ==> Erase(Run(ES.ESRED, p, events[..k])) == Run(SR.SRED, p, events'[..k]))
  }

  /** Some draws make the plain disc do the same, timestamps aside. */
  ghost predicate IsPlainRun(p: Params, events: seq<Event>) {
    exists events' :: Simulates(p, events, events')
  }

  // ----- the other draws

  /**
   Where the timestamped disc spares a zombie the plain disc has to spare it too, so the
   draw is raised to the overwrite probability if it is below.
   */
  function MapEvent(p: Params, d: Disc<ES.EZombie>, e: Event): Event
    requires p.pOverwrite < 1.0 && |d.zombies| <= MAX_ZOMBIE_LIST_SIZE
  {
    if e.Arrive? && |d.zombies| == MAX_ZOMBIE_LIST_SIZE
       && e.a.draws.overwrite >= ES.Threshold(p, d.zombies[e.a.draws.index])
       && e.a.draws.overwrite < p.pOverwrite
    then Arrive(e.a.(draws := e.a.draws.(overwrite := p.pOverwrite)))
    else e
  }

  function MapEvents(p: Params, events: seq<Event>): seq<Event>
    requires p.pOverwrite < 1.0
  {
    if events == [] then []
    else
      var front := events[..|events| - 1];
      ES.ListBounded(p, front);
      MapEvents(p, front) + [MapEvent(p, Run(ES.ESRED, p, front), events[|events| - 1])]
  }

  lemma ThresholdAtMostPlain(p: Params, z: ES.EZombie)
    requires p.Valid()
    ensures ES.Threshold(p, z) <= p.pOverwrite
  {
    ES.ThresholdAntitone(p, 0.0, z.time);
  }

  /** One arrival at the list and the frequency. */
  lemma ObserveRefines(p: Params, d: Disc<ES.EZombie>, f: int32, a: Arrival)
    requires p.Valid() && p.pOverwrite < 1.0 && |d.zombies| <= MAX_ZOMBIE_LIST_SIZE
    ensures Erase(Observe(ES.ESRED, p, d, f, a))
            == Observe(SR.SRED, p, Erase(d), f, MapEvent(p, d, Arrive(a)).a)
  {
    var a' := MapEvent(p, d, Arrive(a)).a;
    if |d.zombies| < MAX_ZOMBIE_LIST_SIZE {
      assert EraseList(d.zombies + [ES.NewZombie(f, a)]) == EraseList(d.zombies) + [SR.NewZombie(f, a')];
    } else {
      var i := a.draws.index;
      var z := d.zombies[i];
      ThresholdAtMostPlain(p, z);
      var (z', hit) := ES.Visit(p, z, f, a);
      assert SR.Visit(p, EraseZombie(z), f, a') == (EraseZombie(z'), hit);
      assert EraseList(d.zombies[i := z']) == EraseList(d.zombies)[i := EraseZombie(z')];
    }
  }

  /** Admission does not look at the zombies. */
  lemma AdmissionRefines(p: Params, d: Disc<ES.EZombie>, packet: Packet, zap: Uniform)
    ensures AdmitFilling(p, Erase(d), packet)
            == (Erase(AdmitFilling(p, d, packet).0), AdmitFilling(p, d, packet).1)
    ensures AdmitFull(p, Erase(d), packet, zap)
            == (Erase(AdmitFull(p, d, packet, zap).0), AdmitFull(p, d, packet, zap).1)
  {
  }

  lemma EnqueueRefines(p: Params, d: Disc<ES.EZombie>, a: Arrival)
    requires p.Valid() && p.pOverwrite < 1.0 && |d.zombies| <= MAX_ZOMBIE_LIST_SIZE
    ensures var a' := MapEvent(p, d, Arrive(a)).a;
            Enqueue(SR.SRED, p, Erase(d), a')
            == (Erase(Enqueue(ES.ESRED, p, d, a).0), Enqueue(ES.ESRED, p, d, a).1)
  {
    var a' := MapEvent(p, d, Arrive(a)).a;
    var counted := d.(stats := d.stats.(received := d.stats.received.Plus(a.packet)));
    if FlowId(a.flow).Some? {
      var f := FlowId(a.flow).value;
      var checked := if f == -1 then Drop(counted, a.packet) else counted;
      assert MapEvent(p, checked, Arrive(a)) == MapEvent(p, d, Arrive(a));
      ObserveRefines(p, checked, f, a);
      AdmissionRefines(p, Observe(ES.ESRED, p, checked, f, a), a.packet, a.draws.zap);
    }
  }

  /** Main result: a run of the timestamped disc is a run of the plain one, decisions included. */
  lemma {:induction false} RunRefines(p: Params, events: seq<Event>)
    requires p.Valid() && p.pOverwrite < 1.0
    ensures var events' := MapEvents(p, events);
            && |events'| == |events|
            && Erase(Run(ES.ESRED, p, events)) == Run(SR.SRED, p, events')
            && Accepted(ES.ESRED, p, events) == Accepted(SR.SRED, p, events')
            && Departures(ES.ESRED, p, events) == Departures(SR.SRED, p, events')
  {
    if events != [] {
      var front, e := events[..|events| - 1], events[|events| - 1];
      RunRefines(p, front);
      ES.ListBounded(p, front);
      var d := Run(ES.ESRED, p, front);
      assert MapEvents(p, events)[..|events| - 1] == MapEvents(p, front);
      if e.Arrive? {
        EnqueueRefines(p, d, e.a);
      }
    }
  }

  lemma {:induction false} MapEventsPrefix(p: Params, events: seq<Event>, k: nat)
    requires p.pOverwrite < 1.0 && k <= |events|
    ensures |MapEvents(p, events)| == |events|
    ensures MapEvents(p, events)[..k] == MapEvents(p, events[..k])
    ensures forall i :: 0 <= i < |events| ==> SameTraffic(events[i], MapEvents(p, events)[i])
  {
    if events != [] {
      var n := |events| - 1;
      if k <= n {
        MapEventsPrefix(p, events[..n], k);
        assert events[..n][..k] == events[..k];
      } else {
        MapEventsPrefix(p, events[..n], n);
        assert events[..k] == events;
      }
    }
  }

  lemma RefinementHolds(p: Params, events: seq<Event>)
    requires p.Valid() && p.pOverwrite < 1.0
    ensures Simulates(p, events, MapEvents(p, events))
  {
    MapEventsPrefix(p, events, |events|);
    forall k | 0 <= k <= |events|
      ensures Erase(Run(ES.ESRED, p, events[..k])) == Run(SR.SRED, p, MapEvents(p, events)[..k])
    {
      MapEventsPrefix(p, events, k);
      RunRefines(p, events[..k]);
    }
  }

  // ----- when every miss overwrites there is no such stream

  const FIRST_PACKET: Arrival := Arrival(Packet(0, 0), Hashed(1), Draws(0, 0.5, 0.0), 1.0)
  const LAST_PACKET: Arrival := Arrival(Packet(0, 0), Hashed(2), Draws(0, 0.5, 0.0), 1.0)

  /** One flow fills the list at time one; then a packet of another flow arrives. */
  function FillThenMiss(): seq<Event> {
    seq(MAX_ZOMBIE_LIST_SIZE, i => Arrive(FIRST_PACKET)) + [Arrive(LAST_PACKET)]
  }

  lemma {:induction false} FillingEsred(p: Params, events: seq<Event>)
    requires |events| <= MAX_ZOMBIE_LIST_SIZE && forall k :: 0 <= k < |events| ==> events[k] == Arrive(FIRST_PACKET)
    ensures Run(ES.ESRED, p, events).zombies == seq(|events|, i => ES.EZombie(1, 0, 1.0))
  {
    if events != [] {
      var n := |events| - 1;
      FillingEsred(p, events[..n]);
      EnqueueZombies(ES.ESRED, p, Run(ES.ESRED, p, events[..n]), FIRST_PACKET);
    }
  }

  lemma {:induction false} FillingSred(p: Params, events: seq<Event>)
    requires |events| <= MAX_ZOMBIE_LIST_SIZE && forall k :: 0 <= k < |events| ==> SameTraffic(Arrive(FIRST_PACKET), events[k])
    ensures Run(SR.SRED, p, events).zombies == seq(|events|, i => SR.Zombie(1, 0))
  {
    if events != [] {
      var n := |events| - 1;
      FillingSred(p, events[..n]);
      assert SameTraffic(Arrive(FIRST_PACKET), events[n]);
      EnqueueZombies(SR.SRED, p, Run(SR.SRED, p, events[..n]), events[n].a);
    }
  }

  /** The timestamped disc spares the zombie: the draw 0.5 is not below 1 / (1 + 1). */
  lemma EsredSpares(p: Params)
    requires p.pOverwrite == 1.0
    ensures forall z :: z in Run(ES.ESRED, p, FillThenMiss()).zombies ==> z.flowID == 1
  {
    var events, n := FillThenMiss(), MAX_ZOMBIE_LIST_SIZE;
    FillingEsred(p, events[..n]);
    var d := Run(ES.ESRED, p, events[..n]);
    EnqueueZombies(ES.ESRED, p, d, LAST_PACKET);
    assert ES.Threshold(p, d.zombies[0]) == 0.5;
    assert Run(ES.ESRED, p, events).zombies == d.zombies;
  }

  /** The plain disc overwrites whatever it draws. */
  lemma SredOverwrites(p: Params, events': seq<Event>)
    requires p.pOverwrite == 1.0 && |events'| == |FillThenMiss()|
    requires forall k :: 0 <= k < |events'| ==> SameTraffic(FillThenMiss()[k], events'[k])
    ensures exists z :: z in Run(SR.SRED, p, events').zombies && z.flowID == 2
  {
    var n := MAX_ZOMBIE_LIST_SIZE;
    forall k: nat | k < n ensures SameTraffic(Arrive(FIRST_PACKET), events'[..n][k]) {
      assert SameTraffic(FillThenMiss()[k], events'[k]);
    }
    FillingSred(p, events'[..n]);
    var d := Run(SR.SRED, p, events'[..n]);
    assert SameTraffic(FillThenMiss()[n], events'[n]);
    var a := events'[n].a;
    EnqueueZombies(SR.SRED, p, d, a);
    assert SR.Visit(p, d.zombies[a.draws.index], 2, a) == (SR.Zombie(2, 0), false);
    assert Run(SR.SRED, p, events').zombies[a.draws.index] == SR.Zombie(2, 0);
  }

  lemma NoSimulationAtOne(p: Params, events': seq<Event>)
    requires p.pOverwrite == 1.0
    ensures !Simulates(p, FillThenMiss(), events')
  {
    var events := FillThenMiss();
    if |events'| == |events| && forall k :: 0 <= k < |events| ==> SameTraffic(events[k], events'[k]) {
      EsredSpares(p);
      SredOverwrites(p, events');
      var d, d' := Run(ES.ESRED, p, events), Run(SR.SRED, p, events');
      var z :| z in d'.zombies && z.flowID == 2;
      assert events[..|events|] == events && events'[..|events'|] == events';
      assert forall i :: 0 <= i < |d.zombies| ==> EraseList(d.zombies)[i].flowID == 1;
    }
  }

  /**
   Main result, with its exact condition: every run of the timestamped disc is a run of
   the plain disc under other draws if and only if the overwrite probability is below one.
   */
  lemma RefinementIff(p: Params)
    requires p.Valid()
    ensures p.pOverwrite < 1.0 <==> forall events :: IsPlainRun(p, events)
  {
    if p.pOverwrite < 1.0 {
      forall events ensures IsPlainRun(p, events) {
        RefinementHolds(p, events);
      }
    } else {
      forall events' ensures !Simulates(p, FillThenMiss(), events') {
        NoSimulationAtOne(p, events');
      }
      assert !IsPlainRun(p, FillThenMiss());
    }
  }
}
