/**
 * Worked scenarios: a village plan building a two-step facility, and the
 * backup of that simulation, which the copy constructor as written empties.
 */
module Scenarios {
  import opened Wrappers
  import opened Facilities
  import opened Settlements
  import opened Policies
  import Plans
  import Simulations
  import Actions

  /** The top-up of a village plan with no site and a Naive policy, on a one-entry catalog. */
  lemma VillageTopUp(p: Plans.Plan, kind: FacilityType)
    requires p.settlement.kind == Village && p.underConstruction == [] && p.policy.NaiveSelection?
    ensures Plans.TopUp(p, [kind]) ==
      Plans.Ticked(p.(policy := NaiveSelection(0), underConstruction := [NewFacility(kind, p.settlement.name)]), true)
  {
    assert Select(p.policy, [kind]) == Some(Pick(0, NaiveSelection(0)));
  }

  /** From either cursor, an Economy policy on `[a, b]` with only `b` of category economy picks `b`. */
  lemma EconomyPicksSecond(a: FacilityType, b: FacilityType, last: Cursor)
    requires a.category == LifeQuality && b.category == Economy && last in {-1, 1}
    ensures Select(EconomySelection(last), [a, b]) == Some(Pick(1, EconomySelection(1)))
  {
    var catalog := [a, b];
    assert Ahead(catalog, last, 1) == a;
    assert Ahead(catalog, last, 2) == b;
    assert ScanFrom(catalog, Economy, last, 1) == Some(2);
  }

  /**
   * A city plan with a fresh Economy policy on a catalog whose first entry is
   * of another category: both free sites are started from the economy entry,
   * and the other entry is never chosen.
   */
  lemma EconomyCityTopUp(p: Plans.Plan, a: FacilityType, b: FacilityType)
    requires p.settlement.kind == City && p.underConstruction == [] && p.policy == EconomySelection(-1)
    requires a.category == LifeQuality && b.category == Economy
    ensures var site := NewFacility(b, p.settlement.name);
      Plans.TopUp(p, [a, b]) == Plans.Ticked(p.(policy := EconomySelection(1), underConstruction := [site, site]), true)
  {
    EconomyPicksSecond(a, b, -1);
    EconomyPicksSecond(a, b, 1);
    assert Picks(EconomySelection(-1), [a, b], 2) == [1, 1];
    var r := Plans.TopUp(p, [a, b]);
    assert r.plan.underConstruction == [r.plan.underConstruction[0], r.plan.underConstruction[1]];
  }

  /** The pass over a single construction site. */
  lemma AdvanceOne(p: Plans.Plan, f: Facility)
    requires p.underConstruction == [f]
    ensures var g := Facilities.Step(f);
      Plans.Advance(p) ==
        if g.status == Operational then p.(operational := p.operational + [g], underConstruction := [], scores := p.scores.Plus(g.kind.scores))
        else p.(underConstruction := [g])
  {
    var g := Facilities.Step(f);
    assert Plans.Stepped([f]) == [g];
    if g.status == Operational {
      assert Plans.Keep([g], Operational) == [g] && Plans.Keep([g], UnderConstruction) == [];
      assert Plans.SumScores([g]) == g.kind.scores.Plus(NoScores);
    } else {
      assert Plans.Keep([g], Operational) == [] && Plans.Keep([g], UnderConstruction) == [g];
    }
  }

  /** The first tick: the site is started and advanced once; the plan is BUSY. */
  lemma VillageTick1(p0: Plans.Plan, kind: FacilityType)
    requires kind.price == 2 && p0.settlement.kind == Village && p0.underConstruction == [] && p0.policy.NaiveSelection?
    ensures Plans.Step(p0, [kind]) == Plans.Ticked(p0.(policy := NaiveSelection(0), status := Plans.Busy,
      underConstruction := [Facility(kind, p0.settlement.name, UnderConstruction, 1)]), true)
  {
    var f := NewFacility(kind, p0.settlement.name);
    var q := p0.(policy := NaiveSelection(0), underConstruction := [f]);
    VillageTopUp(p0, kind);
    assert Facilities.Step(f) == Facility(kind, p0.settlement.name, UnderConstruction, 1);
    AdvanceOne(q, f);
  }

  /** The second tick: the site finishes, its scores are counted once, and the plan is AVAILABLE. */
  lemma VillageTick2(p1: Plans.Plan, kind: FacilityType)
    requires kind.price == 2 && p1.settlement.kind == Village && p1.scores == NoScores && p1.operational == []
    requires p1.underConstruction == [Facility(kind, p1.settlement.name, UnderConstruction, 1)]
    ensures Plans.Step(p1, [kind]) == Plans.Ticked(p1.(status := Plans.Available, underConstruction := [],
      operational := [Facility(kind, p1.settlement.name, Operational, 0)], scores := kind.scores), true)
  {
    AdvanceOne(p1, p1.underConstruction[0]);
    assert NoScores.Plus(kind.scores) == kind.scores;
  }

  /**
   * A fresh village plan with a Naive policy and a one-entry catalog of
   * price 2: tick 1 starts the facility (BUSY, one step left), tick 2
   * finishes it (its scores counted once, AVAILABLE), tick 3 starts the
   * next one while the finished one stays counted.
   */
  lemma VillageTicks(p0: Plans.Plan, kind: FacilityType)
    requires kind.price == 2 && p0.settlement.kind == Village && p0.policy.NaiveSelection?
    requires p0.underConstruction == [] && p0.operational == [] && p0.scores == NoScores
    ensures var site := Facility(kind, p0.settlement.name, UnderConstruction, 1);
      var p1 := p0.(policy := NaiveSelection(0), status := Plans.Busy, underConstruction := [site]);
      var p2 := p1.(status := Plans.Available, underConstruction := [],
        operational := [Facility(kind, p0.settlement.name, Operational, 0)], scores := kind.scores);
      && Plans.Step(p0, [kind]) == Plans.Ticked(p1, true)
      && Plans.Step(p1, [kind]) == Plans.Ticked(p2, true)
      && Plans.Step(p2, [kind]) == Plans.Ticked(p2.(status := Plans.Busy, underConstruction := [site]), true)
  {
    VillageTick1(p0, kind);
    var p1 := Plans.Step(p0, [kind]).plan;
    VillageTick2(p1, kind);
    VillageTick1(Plans.Step(p1, [kind]).plan, kind);
  }

  /** A simulation with a single plan steps as that plan does. */
  lemma SinglePlanStep(sim: Simulations.Simulation, q: Plans.Plan)
    requires |sim.plans| == 1 && Plans.Step(sim.plans[0], sim.catalog) == Plans.Ticked(q, true)
    ensures Simulations.Step(sim) == Simulations.Tick(sim.(plans := [q]), true)
  {
  }

  /** Two successful ticks in a row are what `step 2` does. */
  lemma TwoTicks(sim: Simulations.Simulation, s1: Simulations.Simulation, s2: Simulations.Simulation)
    requires Simulations.Step(sim) == Simulations.Tick(s1, true)
    requires Simulations.Step(s1) == Simulations.Tick(s2, true)
    ensures Actions.StepTimes(sim, 2) == Simulations.Tick(s2, true)
  {
    assert Actions.Iterate(Simulations.Step, s2, 0) == Simulations.Tick(s2, true);
    assert Actions.Iterate(Simulations.Step, s1, 1) == Simulations.Tick(s2, true);
  }

  /**
   * A well-formed simulation whose single plan is a fresh village plan with
   * a Naive policy, on a one-entry catalog of price 2: after two ticks the
   * plan has one facility in operation and its scores; the corrected
   * snapshot gives the simulation back, the copy constructor as written
   * returns a plan with no facilities and zero scores.
   */
  lemma BackupAfterTwoTicks(sim0: Simulations.Simulation, kind: FacilityType)
    requires Simulations.WellFormed(sim0) && |sim0.plans| == 1 && sim0.catalog == [kind] && kind.price == 2
    requires var p0 := sim0.plans[0];
      && p0.settlement.kind == Village && p0.policy.NaiveSelection?
      && p0.underConstruction == [] && p0.operational == [] && p0.scores == NoScores
    ensures var t := Actions.StepTimes(sim0, 2);
      && t.ok
      && t.sim.plans[0].scores == kind.scores
      && Simulations.Snapshot(t.sim) == t.sim
      && Simulations.SnapshotAsWritten(t.sim).plans[0].scores == NoScores
      && Simulations.SnapshotAsWritten(t.sim) != t.sim
  {
    var p0 := sim0.plans[0];
    var site := Facility(kind, p0.settlement.name, UnderConstruction, 1);
    var p1 := p0.(policy := NaiveSelection(0), status := Plans.Busy, underConstruction := [site]);
    var p2 := p1.(status := Plans.Available, underConstruction := [],
      operational := [Facility(kind, p0.settlement.name, Operational, 0)], scores := kind.scores);
    var s2 := sim0.(plans := [p2]);
    assert Actions.StepTimes(sim0, 2) == Simulations.Tick(s2, true) by {
      VillageTicks(p0, kind);
      SinglePlanStep(sim0, p1);
      SinglePlanStep(sim0.(plans := [p1]), p2);
      TwoTicks(sim0, sim0.(plans := [p1]), s2);
    }
    assert Simulations.WellFormed(s2) by {
      Actions.StepTimesWellFormed(sim0, 2);
    }
    Simulations.SnapshotRestores(s2);
    Simulations.SnapshotAsWrittenLoses(s2, 0);
  }

  /** The village simulation of the scenario is well formed and fits the lemma above. */
  lemma VillageBackup(kind: FacilityType, settlement: Settlement)
    requires kind.price == 2 && settlement.kind == Village
    ensures var sim0 := Simulations.Simulation(1, [Plans.NewPlan(0, settlement, NaiveSelection(-1))], [settlement], [kind]);
      var t := Actions.StepTimes(sim0, 2);
      && Simulations.WellFormed(sim0)
      && t.ok && t.sim.plans[0].scores == kind.scores
      && Simulations.SnapshotAsWritten(t.sim) != t.sim
  {
    var sim0 := Simulations.Simulation(1, [Plans.NewPlan(0, settlement, NaiveSelection(-1))], [settlement], [kind]);
    Plans.NewPlanValid(0, settlement, NaiveSelection(-1));
    BackupAfterTwoTicks(sim0, kind);
  }
}
