/**
 The queue disc shared by Stabilized RED and its timestamped extension: a bounded list of
 zombies, an exponentially weighted hit frequency, a zap probability and a drop-tail FIFO.
 The two discs differ in how an arrival treats the zombie it is compared with, which is a
 parameter here. Random draws, flow classification and the clock are inputs.
 */
module RedQueue {
  import opened Options
  import opened RealFacts
  import opened Sums

  const MAX_ZOMBIE_LIST_SIZE: nat := 1000

  // ----- configuration and traffic

  datatype Unit = Packets | Bytes

  datatype Params = Params(pOverwrite: real, pMax: real, mode: int, unit: Unit, capacity: nat) {
    /** The ranges the attribute checkers of both discs enforce. */
    ghost predicate Valid() {
      0.0 <= pOverwrite <= 1.0 && 0.0 <= pMax <= 1.0
    }

    function Alpha(): real {
      pOverwrite / (MAX_ZOMBIE_LIST_SIZE as real)
    }
  }

  type uint32 = x: nat | x < 0x1_0000_0000
  type int32 = x: int | -0x8000_0000 <= x < 0x8000_0000
  type Uniform = r: real | 0.0 <= r < 1.0
  type Slot = n: nat | n < MAX_ZOMBIE_LIST_SIZE
  type Time = t: real | 0.0 <= t

  datatype Packet = Packet(uid: nat, size: nat)

  /** Without packet filters the flow is a hash; with them it is what they return, -1 for no match. */
  datatype Flow = Hashed(hash: uint32) | Filtered(ret: int32)

  /** The draws one arrival may use: a zombie's index, and two uniform values. */
  datatype Draws = Draws(index: Slot, overwrite: Uniform, zap: Uniform)

  datatype Arrival = Arrival(packet: Packet, flow: Flow, draws: Draws, now: Time)

  datatype Event = Arrive(a: Arrival) | Dequeue | Peek

  function ToUint32(x: int32): uint32 {
    if x < 0 then x + 0x1_0000_0000 else x
  }

  function ToInt32(x: uint32): int32 {
    if x >= 0x8000_0000 then x - 0x1_0000_0000 else x
  }

  const NO_MATCH: int32 := -1

  /** The flow id, or none when the filters match nothing. */
  function FlowId(flow: Flow): Option<int32> {
    match flow
    case Hashed(h) => Some(ToInt32(h))
    case Filtered(r) => if r == NO_MATCH then None else Some(ToInt32(ToUint32(r)))
  }

  // ----- state

  /** A pair of counters of the base class, one of packets and one of bytes. */
  datatype Volume = Volume(packets: nat, bytes: nat) {
    function Plus(packet: Packet): Volume {
      Volume(packets + 1, bytes + packet.size)
    }
  }

  const NOTHING := Volume(0, 0)

  datatype Stats = Stats(received: Volume, dropped: Volume, enqueued: Volume, dequeued: Volume)

  datatype Disc<Z> = Disc(zombies: seq<Z>, hitFreq: real, queue: seq<Packet>, stats: Stats)

  /**
   How one arrival of a flow treats zombies: the zombie it appends while there is room, and
   what becomes of the zombie it is compared with, together with whether that was a hit.
   */
  datatype Rule<!Z> = Rule(newZombie: (int32, Arrival) -> Z, visit: (Params, Z, int32, Arrival) -> (Z, bool))

  function Init<Z>(): Disc<Z> {
    Disc([], 0.0, [], Stats(NOTHING, NOTHING, NOTHING, NOTHING))
  }

  // ----- the internal FIFO

  function PacketSize(p: Packet): nat {
    p.size
  }

  function QueuedBytes(queue: seq<Packet>): nat {
    Sum(queue, PacketSize)
  }

  /** The queue's size in the unit of its limit. */
  function CurrentSize(p: Params, queue: seq<Packet>): nat {
    if p.unit == Packets then |queue| else QueuedBytes(queue)
  }

  function Increment(p: Params, packet: Packet): nat {
    if p.unit == Packets then 1 else packet.size
  }

  function Drop<Z>(d: Disc<Z>, packet: Packet): Disc<Z> {
    d.(stats := d.stats.(dropped := d.stats.dropped.Plus(packet)))
  }

  /** The drop-tail FIFO takes a packet unless that would exceed its limit; a refusal counts as a drop. */
  function InternalEnqueue<Z>(p: Params, d: Disc<Z>, packet: Packet): (Disc<Z>, bool) {
    if CurrentSize(p, d.queue) + Increment(p, packet) > p.capacity then (Drop(d, packet), false)
    else (d.(queue := d.queue + [packet], stats := d.stats.(enqueued := d.stats.enqueued.Plus(packet))), true)
  }

  // ----- probabilities

  /** The values a double takes in the zap formulas; division by a zero frequency leaves the reals. */
  datatype Double = Finite(value: real) | Infinite | NotANumber

  /** Comparison of a draw with a double: false for a value that is not a number. */
  predicate Below(r: real, d: Double) {
    match d
    case Finite(v) => r < v
    case Infinite => true
    case NotANumber => false
  }

  function StabilizedProbability(p: Params, bytes: nat): real {
    var third := p.capacity as real / 3.0;
    var sixth := p.capacity as real / 6.0;
    if third <= bytes as real && bytes <= p.capacity then p.pMax
    else if sixth <= bytes as real && (bytes as real) < third then p.pMax / 4.0
    else 0.0
  }

  /** The divisor in the zap formulas. */
  function ZapDivisor(hitFreq: real): real {
    256.0 * Square(hitFreq)
  }

  /** At frequency zero the factor is infinite, hence not below one. */
  function ZapSimple(pSred: real, hitFreq: real): real {
    if hitFreq == 0.0 then pSred
    else
      var factor := 1.0 / ZapDivisor(hitFreq);
      if factor < 1.0 then pSred * factor else pSred
  }

  /**
   At frequency zero the first factor is infinite, and so is the second if `hit` is not
   zero; the product with zero is not a number.
   */
  function ZapFull(pSred: real, hitFreq: real, hit: nat): Double {
    if hitFreq == 0.0 then (if hit == 0 || pSred == 0.0 then NotANumber else Infinite)
    else
      var factor := 1.0 / ZapDivisor(hitFreq);
      var gain := 1.0 + hit as real / hitFreq;
      Finite(if factor < 1.0 then pSred * factor * gain else pSred * gain)
  }

  function ZapProbability(p: Params, bytes: nat, hitFreq: real): Double {
    var pSred := StabilizedProbability(p, bytes);
    if p.mode == 1 then Finite(ZapSimple(pSred, hitFreq))
    else if p.mode == 2 then ZapFull(pSred, hitFreq, 1)
    else Finite(0.0)
  }

  function NextFrequency(p: Params, hitFreq: real, hit: bool): real {
    (1.0 - p.Alpha()) * hitFreq + (if hit then p.Alpha() else 0.0)
  }

  /** The update as the code writes it, with the hit as a number. */
  lemma NextFrequencyOfCount(p: Params, hitFreq: real, hit: nat)
    requires hit <= 1
    ensures (1.0 - p.Alpha()) * hitFreq + p.Alpha() * hit as real == NextFrequency(p, hitFreq, hit == 1)
  {
    assert hit as real == (if hit == 1 then 1.0 else 0.0);
  }

  // ----- one arrival

  /** While the list has room only the FIFO's limit decides, packets being compared by their bytes. */
  function AdmitFilling<Z>(p: Params, d: Disc<Z>, packet: Packet): (Disc<Z>, bool) {
    if CurrentSize(p, d.queue) + packet.size <= p.capacity then InternalEnqueue(p, d, packet)
    else (Drop(d, packet), false)
  }

  function AdmitFull<Z>(p: Params, d: Disc<Z>, packet: Packet, zap: Uniform): (Disc<Z>, bool) {
    if Below(zap, ZapProbability(p, QueuedBytes(d.queue), d.hitFreq)) then (Drop(d, packet), false)
    else if CurrentSize(p, d.queue) < p.capacity then InternalEnqueue(p, d, packet)
    else (Drop(d, packet), false)
  }

  /** The list and the frequency after an arrival of flow `f`. */
  function Observe<Z>(rule: Rule<Z>, p: Params, d: Disc<Z>, f: int32, a: Arrival): Disc<Z> {
    if |d.zombies| < MAX_ZOMBIE_LIST_SIZE then d.(zombies := d.zombies + [rule.newZombie(f, a)])
    else
      var (z, hit) := rule.visit(p, d.zombies[a.draws.index], f, a);
      d.(zombies := d.zombies[a.draws.index := z], hitFreq := NextFrequency(p, d.hitFreq, hit))
  }

  /**
   An arrival at the disc. A flow id of -1 is counted as a drop and then treated like any other,
   because nothing returns at that point.
   */
  function DoEnqueue<Z>(rule: Rule<Z>, p: Params, d: Disc<Z>, a: Arrival): (Disc<Z>, bool) {
    match FlowId(a.flow)
    case None => (Drop(d, a.packet), false)
    case Some(f) =>
      var d := if f == -1 then Drop(d, a.packet) else d;
      var seen := Observe(rule, p, d, f, a);
      if |d.zombies| < MAX_ZOMBIE_LIST_SIZE then AdmitFilling(p, seen, a.packet)
      else AdmitFull(p, seen, a.packet, a.draws.zap)
  }

  /** The base class counts an arrival and leaves it to the disc. */
  function Enqueue<Z>(rule: Rule<Z>, p: Params, d: Disc<Z>, a: Arrival): (Disc<Z>, bool) {
    DoEnqueue(rule, p, d.(stats := d.stats.(received := d.stats.received.Plus(a.packet))), a)
  }

  function DoDequeue<Z>(d: Disc<Z>): (Disc<Z>, Option<Packet>) {
    if d.queue == [] then (d, None)
    else (d.(queue := d.queue[1..], stats := d.stats.(dequeued := d.stats.dequeued.Plus(d.queue[0]))), Some(d.queue[0]))
  }

  function DoPeek<Z>(d: Disc<Z>): Option<Packet> {
    if d.queue == [] then None else Some(d.queue[0])
  }

  // ----- runs

  function Step<Z>(rule: Rule<Z>, p: Params, d: Disc<Z>, e: Event): Disc<Z> {
    match e
    case Arrive(a) => Enqueue(rule, p, d, a).0
    case Dequeue => DoDequeue(d).0
    case Peek => d
  }

  function Run<Z>(rule: Rule<Z>, p: Params, events: seq<Event>): Disc<Z> {
    if events == [] then Init()
    else Step(rule, p, Run(rule, p, events[..|events| - 1]), events[|events| - 1])
  }

  // ----- the history of a run

  function Arrivals(events: seq<Event>): seq<Arrival> {
    if events == [] then []
    else
      var e := events[|events| - 1];
      Arrivals(events[..|events| - 1]) + (if e.Arrive? then [e.a] else [])
  }

  /** The packets the disc reported as accepted, in order of arrival. */
  function Accepted<Z>(rule: Rule<Z>, p: Params, events: seq<Event>): seq<Packet> {
    if events == [] then []
    else
      var front, e := events[..|events| - 1], events[|events| - 1];
      Accepted(rule, p, front)
      + (if e.Arrive? && Enqueue(rule, p, Run(rule, p, front), e.a).1 then [e.a.packet] else [])
  }

  /** The packets handed out by dequeues, in order. */
  function Departures<Z>(rule: Rule<Z>, p: Params, events: seq<Event>): seq<Packet> {
    if events == [] then []
    else
      var front, e := events[..|events| - 1], events[|events| - 1];
      var out := DoDequeue(Run(rule, p, front)).1;
      Departures(rule, p, front) + (if e.Dequeue? && out.Some? then [out.value] else [])
  }

  /** Of the arrivals that met a full list, whether each was a hit. */
  function Hits<Z>(rule: Rule<Z>, p: Params, events: seq<Event>): seq<bool> {
    if events == [] then []
    else
      var front, e := events[..|events| - 1], events[|events| - 1];
      var d := Run(rule, p, front);
      Hits(rule, p, front)
      + (if e.Arrive? && FlowId(e.a.flow).Some? && |d.zombies| >= MAX_ZOMBIE_LIST_SIZE
         then [rule.visit(p, d.zombies[e.a.draws.index], FlowId(e.a.flow).value, e.a).1] else [])
  }
}
