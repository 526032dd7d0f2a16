/**
 Per-flow accounting in the zombie list, for any rule under which a visit is a hit, an
 overwrite, or a miss that is ignored.
 */
module RedCredit {
  import opened Options
  import opened Sums
  import opened RedQueue

  /** The flow a zombie stands for, and its count of hits. */
  datatype Reading<!Z> = Reading(flow: Z -> int32, count: Z -> nat)

  /** What a visit of flow `f` may do to zombie `z`. */
  ghost predicate LawfulVisit<Z>(r: Reading<Z>, z: Z, f: int32, z': Z, hit: bool) {
    && (hit <==> r.flow(z) == f)
    && (if hit then r.flow(z') == f && r.count(z') == r.count(z) + 1
        else z' == z || (r.flow(z') == f && r.count(z') == 0))
  }

  ghost predicate Lawful<Z(!new)>(rule: Rule<Z>, r: Reading<Z>) {
    && (forall f: int32, a: Arrival :: r.flow(rule.newZombie(f, a)) == f && r.count(rule.newZombie(f, a)) == 0)
    && (forall p: Params, z: Z, f: int32, a: Arrival ::
          LawfulVisit(r, z, f, rule.visit(p, z, f, a).0, rule.visit(p, z, f, a).1))
  }

  /** A zombie's credit towards flow `f`. */
  function Credit<Z(!new)>(r: Reading<Z>, f: int32): Z -> nat {
    var flow, count := r.flow, r.count;
    (z: Z) => if flow(z) == f then count(z) + 1 else 0
  }

  function OfFlow(f: int32): Arrival -> nat {
    (a: Arrival) => if FlowId(a.flow) == Some(f) then 1 else 0
  }

  lemma ObserveCredit<Z(!new)>(rule: Rule<Z>, r: Reading<Z>, p: Params, d: Disc<Z>, g: int32, a: Arrival, f: int32)
    requires Lawful(rule, r)
    ensures Sum(Observe(rule, p, d, g, a).zombies, Credit(r, f))
            <= Sum(d.zombies, Credit(r, f)) + (if g == f then 1 else 0)
  {
    if |d.zombies| < MAX_ZOMBIE_LIST_SIZE {
      SumAppend(d.zombies, rule.newZombie(g, a), Credit(r, f));
    } else {
      var z := d.zombies[a.draws.index];
      var (z', hit) := rule.visit(p, z, g, a);
      assert LawfulVisit(r, z, g, z', hit);
      SumUpdate(d.zombies, a.draws.index, z', Credit(r, f));
    }
  }

  /** Admission does not touch the list. */
  lemma EnqueueZombies<Z>(rule: Rule<Z>, p: Params, d: Disc<Z>, a: Arrival)
    ensures Enqueue(rule, p, d, a).0.zombies
            == if FlowId(a.flow).Some? then Observe(rule, p, d, FlowId(a.flow).value, a).zombies else d.zombies
  {
  }

  /**
   Main result: after every run, the zombies of a flow never claim more arrivals (hits plus
   the arrival that made the zombie) than the flow has had.
   */
  lemma {:induction false} CreditBounded<Z(!new)>(rule: Rule<Z>, r: Reading<Z>, p: Params, events: seq<Event>, f: int32)
    requires Lawful(rule, r)
    ensures Sum(Run(rule, p, events).zombies, Credit(r, f)) <= Sum(Arrivals(events), OfFlow(f))
  {
    if events != [] {
      var front, e := events[..|events| - 1], events[|events| - 1];
      CreditBounded(rule, r, p, front, f);
      var d := Run(rule, p, front);
      if e.Arrive? {
        EnqueueZombies(rule, p, d, e.a);
        SumAppend(Arrivals(front), e.a, OfFlow(f));
        if FlowId(e.a.flow).Some? {
          ObserveCredit(rule, r, p, d, FlowId(e.a.flow).value, e.a, f);
        }
      } else {
        assert Arrivals(events) == Arrivals(front);
      }
    }
  }

  function Classified(a: Arrival): nat {
    if FlowId(a.flow).Some? then 1 else 0
  }

  /** The list holds one zombie per classified arrival until it has 1000, and then stays at 1000. */
  lemma {:induction false} ListFills<Z>(rule: Rule<Z>, p: Params, events: seq<Event>)
    ensures var n := Sum(Arrivals(events), Classified);
            |Run(rule, p, events).zombies| == if n < 1000 then n else 1000
  {
    if events != [] {
      var front, e := events[..|events| - 1], events[|events| - 1];
      ListFills(rule, p, front);
      if e.Arrive? {
        EnqueueZombies(rule, p, Run(rule, p, front), e.a);
        SumAppend(Arrivals(front), e.a, Classified);
      } else {
        assert Arrivals(events) == Arrivals(front);
      }
    }
  }
}
