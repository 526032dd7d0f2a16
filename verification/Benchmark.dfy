/**
 The self-rescheduling benchmark: each callback schedules one more event until a total has
 been reached. Delays, and the order in which pending events fire, are arbitrary.
 */
module Benchmark {

  class Bench {
    var population: nat
    var total: nat
    var count: nat

    constructor (population: nat, total: nat)
      ensures this.population == population && this.total == total && count == 0
    {
      this.population, this.total, count := population, total, 0;
    }

    method SetPopulation(population: nat)
      modifies this`population
      ensures this.population == population
    {
      this.population := population;
    }

    method SetTotal(total: nat)
      modifies this`total
      ensures this.total == total
    {
      this.total := total;
    }

    /** One callback; the event it schedules, if any, is added to the pending ones. */
    method Cb(pending: seq<int>, now: int, delay: int) returns (pending': seq<int>)
      modifies this`count
      ensures old(count) >= total ==> count == old(count) && pending' == pending
      ensures old(count) < total ==> count == old(count) + 1 && pending' == pending + [now + delay]
    {
      if count >= total {
        return pending;
      }
      pending' := pending + [now + delay];
      count := count + 1;
    }

    /**
     A run, whatever was counted before: it ends, after population + total callbacks if
     there is any event to begin with, and then the count is the total.
     */
    method RunBench(delays: nat -> int, choose: nat -> nat) returns (fired: nat)
      modifies this`count
      ensures fired == (if population == 0 then 0 else population + total)
      ensures count == (if population == 0 then 0 else total)
    {
      count := 0;
      var pending := [];
      for i := 0 to population
        invariant |pending| == i
        invariant count == 0
      {
        pending := pending + [delays(i)];
      }
      fired := 0;
      while pending != []
        invariant count <= total
        invariant fired + |pending| == population + count
        invariant count < total ==> |pending| == population
        invariant population == 0 ==> count == 0
        decreases total - count, |pending|
      {
        var k := choose(fired) % |pending|;
        var now := pending[k];
        pending := pending[..k] + pending[k + 1..];
        pending := Cb(pending, now, delays(population + fired));
        fired := fired + 1;
      }
    }
  }
}
