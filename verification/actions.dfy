/**
 * The decision logic of the user's actions, over already split arguments:
 * each action starts in ERROR, and only a completed action reports
 * COMPLETED; a refused action leaves the simulation as it was.
 */
module Actions {
  import opened Wrappers
  import opened Facilities
  import opened Settlements
  import opened Policies
  import Plans
  import Simulations

  datatype ActionStatus = Completed | Error

  /** The state `BaseAction` keeps: its status and the message of its last error. */
  datatype ActionRecord = ActionRecord(status: ActionStatus, errorMsg: string)

  /** A newly constructed action: ERROR, with no message, until it completes. */
  const Pending := ActionRecord(Error, "")

  /** `BaseAction::complete`. */
  function Complete(a: ActionRecord): (r: ActionRecord)
    ensures r.status == Completed && r.errorMsg == a.errorMsg
  {
    a.(status := Completed)
  }

  /** `BaseAction::error`: the message is recorded; the status is left alone. */
  function Fail(a: ActionRecord, msg: string): (r: ActionRecord)
    ensures r.status == a.status && r.errorMsg == msg
  {
    a.(errorMsg := msg)
  }

  /** The simulation after an action, and the action's own record. */
  datatype Acted = Acted(sim: Simulations.Simulation, action: ActionRecord)

  /** An action that completed: COMPLETED, with no message. */
  function Done(sim: Simulations.Simulation): (r: Acted)
    ensures r.sim == sim && r.action.status == Completed && r.action.errorMsg == ""
  {
    Acted(sim, Complete(Pending))
  }

  /** An action that failed: it is still ERROR, carries `msg`, and the simulation is untouched. */
  function Refused(sim: Simulations.Simulation, msg: string): (r: Acted)
    ensures r.sim == sim && r.action.status == Error && r.action.errorMsg == msg
  {
    Acted(sim, Fail(Pending, msg))
  }

  // ----------------------------------------------------------------- step

  /** `k` applications of `tick` in a row, stopping at the first one that fails. */
  function Iterate(tick: Simulations.Simulation -> Simulations.Tick, sim: Simulations.Simulation, k: nat): Simulations.Tick
    decreases k
  {
    if k == 0 then Simulations.Tick(sim, true)
    else
      var t := tick(sim);
      if !t.ok then t else Iterate(tick, t.sim, k - 1)
  }

  /** `k` ticks in a row, stopping at the first one in which a plan's selection throws. */
  function StepTimes(sim: Simulations.Simulation, k: nat): (r: Simulations.Tick)
    decreases k
    ensures k == 0 ==> r == Simulations.Tick(sim, true)
    ensures k > 0 ==> r == (var t := Simulations.Step(sim); if t.ok then StepTimes(t.sim, k - 1) else t)
    ensures r.sim.(plans := sim.plans) == sim
    ensures |r.sim.plans| == |sim.plans|
  {
    TicksTouchOnlyPlans(sim, k);
    Iterate(Simulations.Step, sim, k)
  }

  /**
   * When `k` ticks do not all succeed, some `j < k` ticks succeeded and the
   * result is the next tick from there, the one that threw, with whatever it
   * had done before the throw.
   */
  lemma {:induction false} IterateStopsAt(tick: Simulations.Simulation -> Simulations.Tick, sim: Simulations.Simulation, k: nat)
      returns (j: nat)
    requires !Iterate(tick, sim, k).ok
    ensures j < k && Iterate(tick, sim, j).ok && Iterate(tick, sim, k) == tick(Iterate(tick, sim, j).sim)
    decreases k
  {
    var t := tick(sim);
    if !t.ok {
      j := 0;
    } else {
      var j' := IterateStopsAt(tick, t.sim, k - 1);
      j := j' + 1;
    }
  }

  /** A failed run of `k` ticks is `j < k` successful ticks followed by one tick that threw. */
  lemma StepTimesStopsAt(sim: Simulations.Simulation, k: nat) returns (j: nat)
    requires !StepTimes(sim, k).ok
    ensures j < k && StepTimes(sim, j).ok
    ensures StepTimes(sim, k) == Simulations.Step(StepTimes(sim, j).sim)
  {
    j := IterateStopsAt(Simulations.Step, sim, k);
  }

  /** The ticks of `StepTimes` change the plans and nothing else. */
  lemma TicksTouchOnlyPlans(sim: Simulations.Simulation, k: nat)
    ensures Iterate(Simulations.Step, sim, k).sim.(plans := sim.plans) == sim
    ensures |Iterate(Simulations.Step, sim, k).sim.plans| == |sim.plans|
  {
    IterateTouchesOnlyPlans(Simulations.Step, sim, k);
  }

  /** Iterating a tick that changes only the plans, and not their number, changes only the plans. */
  lemma {:induction false} IterateTouchesOnlyPlans(tick: Simulations.Simulation -> Simulations.Tick, sim: Simulations.Simulation, k: nat)
    requires forall s :: tick(s).sim.(plans := s.plans) == s && |tick(s).sim.plans| == |s.plans|
    ensures Iterate(tick, sim, k).sim.(plans := sim.plans) == sim
    ensures |Iterate(tick, sim, k).sim.plans| == |sim.plans|
    decreases k
  {
    if k > 0 {
      IterateTouchesOnlyPlans(tick, tick(sim).sim, k - 1);
    }
  }

  /**
   * `SimulateStep::act`: `n` ticks, then COMPLETED. A throwing tick escapes
   * the action, which then never completes; the ticks already taken, and the
   * part of the failing tick before the throw, stay done.
   */
  function SimulateStep(sim: Simulations.Simulation, n: int): (r: Acted)
    ensures r.action.errorMsg == ""
    ensures r.sim == StepTimes(sim, if n < 0 then 0 else n).sim
    ensures r.sim.(plans := sim.plans) == sim
    ensures n <= 0 ==> r == Done(sim)
    ensures r.action.status == Completed <==> StepTimes(sim, if n < 0 then 0 else n).ok
  {
    var t := StepTimes(sim, if n < 0 then 0 else n);
    if t.ok then Done(t.sim) else Acted(t.sim, Pending)
  }

  /** Iterating `a` times and then `b` times is iterating `a + b` times, for any tick. */
  lemma {:induction false} IterateAdd(tick: Simulations.Simulation -> Simulations.Tick, sim: Simulations.Simulation, a: nat, b: nat)
    requires Iterate(tick, sim, a).ok
    ensures Iterate(tick, sim, a + b) == Iterate(tick, Iterate(tick, sim, a).sim, b)
    decreases a
  {
    if a > 0 {
      IterateAdd(tick, tick(sim).sim, a - 1, b);
      assert a + b - 1 == (a - 1) + b;
    }
  }

  /** Stepping `a` times and then `b` times is stepping `a + b` times. */
  lemma StepTimesAdd(sim: Simulations.Simulation, a: nat, b: nat)
    requires StepTimes(sim, a).ok
    ensures StepTimes(sim, a + b) == StepTimes(StepTimes(sim, a).sim, b)
  {
    IterateAdd(Simulations.Step, sim, a, b);
  }

  /** Iterating a tick that preserves `inv` preserves `inv`, including when a tick fails. */
  lemma {:induction false} IteratePreserves(tick: Simulations.Simulation -> Simulations.Tick,
                                            inv: Simulations.Simulation -> bool, sim: Simulations.Simulation, k: nat)
    requires forall s :: inv(s) ==> inv(tick(s).sim)
    requires inv(sim)
    ensures inv(Iterate(tick, sim, k).sim)
    decreases k
  {
    if k > 0 {
      IteratePreserves(tick, inv, tick(sim).sim, k - 1);
    }
  }

  /** Any number of ticks keeps the registry well formed, including a tick that threw. */
  lemma StepTimesWellFormed(sim: Simulations.Simulation, k: nat)
    requires Simulations.WellFormed(sim)
    ensures Simulations.WellFormed(StepTimes(sim, k).sim)
  {
    forall s | Simulations.WellFormed(s)
      ensures Simulations.WellFormed(Simulations.Step(s).sim)
    {
      Simulations.StepWellFormed(s);
    }
    IteratePreserves(Simulations.Step, Simulations.WellFormed, sim, k);
  }

  // ------------------------------------------------------------- add plan

  /** The policy codes of the `plan` and `changePolicy` commands; they are the codes `toString` returns. */
  function ActionPolicy(code: string): (r: Option<Policy>)
    ensures r.Some? <==> code in {"eco", "bal", "sus", "nve"}
    ensures r.Some? ==> Code(r.value) == code
    ensures r.Some? ==> r.value.BalancedSelection? || r.value.last == -1
    ensures r.Some? && r.value.BalancedSelection? ==> r.value.totals == NoScores
  {
    if code == "eco" then Some(EconomySelection(-1))
    else if code == "bal" then Some(BalancedSelection(NoScores))
    else if code == "sus" then Some(SustainabilitySelection(-1))
    else if code == "nve" then Some(NaiveSelection(-1))
    else None
  }

  /** Every policy's code is accepted by the commands and names a policy of the same variant. */
  lemma ActionPolicyOfCode(p: Policy)
    ensures ActionPolicy(Code(p)).Some? && SameKind(ActionPolicy(Code(p)).value, p)
  {
  }

  /**
   * The configuration file and the commands agree on "nve", "bal" and "eco",
   * but the Sustainability policy is "env" in the file and "sus" in a command.
   */
  lemma ConfigAndCommandCodes(code: string)
    ensures code !in {"env", "sus"} ==> Simulations.ConfigPolicy(code) == ActionPolicy(code)
    ensures Simulations.ConfigPolicy("env") == ActionPolicy("sus")
    ensures ActionPolicy("env").None? && Simulations.ConfigPolicy("sus").None?
  {
  }

  /** `AddPlan::act`. */
  function AddPlan(sim: Simulations.Simulation, settlementName: string, code: string): (r: Acted)
    ensures r.action.status == Completed <==>
      Simulations.IsSettlementExists(sim, settlementName) && code in {"eco", "bal", "sus", "nve"}
    ensures r.action.status == Error ==> r.sim == sim && r.action.errorMsg == "Cannot create this plan"
    ensures r.action.status == Completed ==> r.action.errorMsg == ""
  {
    if !Simulations.IsSettlementExists(sim, settlementName) then Refused(sim, "Cannot create this plan")
    else match ActionPolicy(code)
      case None => Refused(sim, "Cannot create this plan")
      case Some(policy) =>
        Done(Simulations.AddPlan(sim, Simulations.GetSettlement(sim, settlementName).value, policy))
  }

  /**
   * A completed `AddPlan` adds exactly one plan, for the named settlement,
   * with the requested policy, under the next id, and keeps the registry well
   * formed.
   */
  lemma AddPlanEffect(sim: Simulations.Simulation, settlementName: string, code: string)
    requires Simulations.WellFormed(sim)
    ensures var r := AddPlan(sim, settlementName, code);
      && Simulations.WellFormed(r.sim)
      && (r.action.status == Completed ==>
            && |r.sim.plans| == |sim.plans| + 1
            && r.sim.plans[..|sim.plans|] == sim.plans
            && var p := r.sim.plans[|sim.plans|];
               p.id == sim.planCounter && p.settlement.name == settlementName
               && Code(p.policy) == code && p.policy == ActionPolicy(code).value && p.scores == NoScores
               && p.operational == [] && p.underConstruction == [])
  {
    if Simulations.IsSettlementExists(sim, settlementName) && ActionPolicy(code).Some? {
      Simulations.AddPlanWellFormed(sim, Simulations.GetSettlement(sim, settlementName).value, ActionPolicy(code).value);
    }
  }

  // ---------------------------------------------- add settlement, facility

  /** `AddSettlement::act`: refused when the name is taken. */
  function AddSettlement(sim: Simulations.Simulation, name: string, kind: SettlementType): (r: Acted)
    ensures r.action.status == Completed <==> !Simulations.IsSettlementExists(sim, name)
    ensures r.action.status == Error ==> r.sim == sim && r.action.errorMsg == "Settlement already exists"
    ensures r.action.status == Completed ==> r.sim.settlements == sim.settlements + [Settlement(name, kind)]
    ensures r.sim.(settlements := sim.settlements) == sim
  {
    if Simulations.IsSettlementExists(sim, name) then Refused(sim, "Settlement already exists")
    else Done(Simulations.AddSettlement(sim, Settlement(name, kind)))
  }

  /**
   * `AddFacility::act`: refused when the name is taken. The category arrives
   * as the command's integer code, cast to the enumeration as the interactive
   * loop does, so codes 0..2 are always the named categories.
   */
  function AddFacility(sim: Simulations.Simulation, name: string, categoryCode: int,
                       price: int, lifeQuality: int, economy: int, environment: int): (r: Acted)
    ensures r.action.status == Completed <==> !Simulations.IsFacilityExists(sim, name)
    ensures r.action.status == Error ==> r.sim == sim && r.action.errorMsg == "Facility already exists"
    ensures r.action.status == Completed ==>
      r.sim.catalog == sim.catalog + [FacilityType(name, CategoryOf(categoryCode), price, Scores(lifeQuality, economy, environment))]
    ensures r.action.status == Completed ==> CategoryCode(r.sim.catalog[|sim.catalog|].category) == categoryCode
    ensures r.sim.(catalog := sim.catalog) == sim
  {
    var kind := FacilityType(name, CategoryOf(categoryCode), price, Scores(lifeQuality, economy, environment));
    if Simulations.IsFacilityExists(sim, name) then Refused(sim, "Facility already exists")
    else Done(Simulations.AddFacility(sim, kind))
  }

  /** Both actions keep the registry well formed; repeating one with the same name is refused the second time. */
  lemma AddSettlementThenAgain(sim: Simulations.Simulation, name: string, a: SettlementType, b: SettlementType)
    requires Simulations.WellFormed(sim)
    ensures Simulations.WellFormed(AddSettlement(sim, name, a).sim)
    ensures var second := AddSettlement(AddSettlement(sim, name, a).sim, name, b);
      second.action.status == Error && second.sim == AddSettlement(sim, name, a).sim
  {
    if !Simulations.IsSettlementExists(sim, name) {
      Simulations.AddSettlementWellFormed(sim, Settlement(name, a));
    }
  }

  lemma AddFacilityThenAgain(sim: Simulations.Simulation, name: string, categoryCode: int,
                             price: int, lifeQuality: int, economy: int, environment: int)
    requires Simulations.WellFormed(sim)
    ensures Simulations.WellFormed(AddFacility(sim, name, categoryCode, price, lifeQuality, economy, environment).sim)
    ensures var first := AddFacility(sim, name, categoryCode, price, lifeQuality, economy, environment).sim;
      AddFacility(first, name, categoryCode, price, lifeQuality, economy, environment).action.status == Error
  {
    var kind := FacilityType(name, CategoryOf(categoryCode), price, Scores(lifeQuality, economy, environment));
    if !Simulations.IsFacilityExists(sim, name) {
      Simulations.AddFacilityWellFormed(sim, kind);
    }
  }

  // ---------------------------------------------------------- plan status

  /** `PrintPlanStatus::act`, without the printing: completes exactly when the plan exists. */
  function PrintPlanStatus(sim: Simulations.Simulation, id: int): (r: Acted)
    ensures r.sim == sim
    ensures r.action.status == Completed <==> Simulations.IsPlanExists(sim, id)
    ensures r.action.status == Error ==> r.action.errorMsg == "Plan doesn't exists"
  {
    if Simulations.IsPlanExists(sim, id) then Done(sim) else Refused(sim, "Plan doesn't exists")
  }

  // -------------------------------------------------------- change policy

  /**
   * The Balanced policy a plan switches to: its totals start at the plan's
   * scores plus the scores of its construction sites.
   */
  function Reseed(plan: Plans.Plan): Policy {
    BalancedSelection(plan.scores.Plus(Plans.SumScores(plan.underConstruction)))
  }

  /** The policy `ChangePlanPolicy` builds for a command code. */
  function PolicyFor(plan: Plans.Plan, code: string): (r: Option<Policy>)
    ensures r.Some? <==> code in {"eco", "bal", "sus", "nve"}
    ensures r.Some? ==> Code(r.value) == code
    ensures code == "bal" ==> r == Some(Reseed(plan))
    ensures code != "bal" ==> r == ActionPolicy(code)
  {
    if code == "bal" then Some(Reseed(plan)) else ActionPolicy(code)
  }

  /** `ChangePlanPolicy::act` on the first plan with id `id`. */
  function ChangePlanPolicy(sim: Simulations.Simulation, id: int, code: string): (r: Acted)
    ensures r.action.status == Completed <==>
      && Simulations.IsPlanExists(sim, id)
      && Code(Simulations.GetPlan(sim, id).value.policy) != code
      && code in {"eco", "bal", "sus", "nve"}
    ensures r.action.status == Error ==> r.sim == sim && r.action.errorMsg == "Cannot change selection policy"
    ensures r.sim.(plans := sim.plans) == sim && |r.sim.plans| == |sim.plans|
  {
    match Simulations.FindPlan(sim.plans, id)
    case None => Refused(sim, "Cannot change selection policy")
    case Some(i) =>
      var plan := sim.plans[i];
      if Code(plan.policy) == code then Refused(sim, "Cannot change selection policy")
      else match PolicyFor(plan, code)
        case None => Refused(sim, "Cannot change selection policy")
        case Some(policy) =>
          Done(sim.(plans := sim.plans[i := Plans.SetSelectionPolicy(plan, policy)]))
  }

  /**
   * A completed change touches only the policy of the plan with that id: the
   * new policy has the requested code, a rotating one is fresh (cursor -1), a
   * Balanced one is seeded with the plan's scores plus its construction
   * sites' scores, and every other plan is unchanged.
   */
  lemma ChangePolicyEffect(sim: Simulations.Simulation, id: int, code: string)
    requires ChangePlanPolicy(sim, id, code).action.status == Completed
    ensures var i := Simulations.FindPlan(sim.plans, id).value;
      var q := ChangePlanPolicy(sim, id, code).sim.plans[i];
      && Code(q.policy) == code
      && q.policy == PolicyFor(sim.plans[i], code).value
      && (code != "bal" ==> !q.policy.BalancedSelection? && q.policy.last == -1)
      && q.(policy := sim.plans[i].policy) == sim.plans[i]
      && (code == "bal" ==> q.policy.totals == sim.plans[i].scores.Plus(Plans.SumScores(sim.plans[i].underConstruction)))
      && forall j :: 0 <= j < |sim.plans| && j != i ==> ChangePlanPolicy(sim, id, code).sim.plans[j] == sim.plans[j]
  {
  }

  /** A change keeps the registry well formed: the reseeded totals are exactly what a Balanced plan must carry. */
  lemma ChangePolicyWellFormed(sim: Simulations.Simulation, id: int, code: string)
    requires Simulations.WellFormed(sim)
    ensures Simulations.WellFormed(ChangePlanPolicy(sim, id, code).sim)
  {
    var r := ChangePlanPolicy(sim, id, code);
    if r.action.status == Completed {
      var i := Simulations.FindPlan(sim.plans, id).value;
      Plans.ReseedIsStartedTotal(sim.plans[i]);
      assert Plans.Valid(r.sim.plans[i]);
    }
  }

  /** Asking for the same change twice: the second request is refused, because the plan already has that code. */
  lemma ChangePolicyTwice(sim: Simulations.Simulation, id: int, code: string)
    ensures var first := ChangePlanPolicy(sim, id, code).sim;
      ChangePlanPolicy(first, id, code).action.status == Error
  {
    var r := ChangePlanPolicy(sim, id, code);
    if r.action.status == Completed {
      var i := Simulations.FindPlan(sim.plans, id).value;
      assert forall j :: 0 <= j < |sim.plans| ==> r.sim.plans[j].id == sim.plans[j].id;
      assert Simulations.FindPlan(r.sim.plans, id) == Some(i) by {
        var k := Simulations.FindPlan(r.sim.plans, id);
        assert k.Some?;
      }
    }
  }

  // ------------------------------------------------------ backup, restore

  /**
   * `BackupSimulation::act`: the copy kept as the backup, taken with the
   * corrected snapshot (the copy constructor as written empties every plan;
   * see `Simulations.SnapshotAsWritten`). The action always completes.
   */
  function BackupSimulation(sim: Simulations.Simulation): (saved: Simulations.Simulation)
    ensures saved.(plans := sim.plans) == sim && |saved.plans| == |sim.plans|
    ensures forall i :: 0 <= i < |sim.plans| ==> saved.plans[i].(settlement := sim.plans[i].settlement) == sim.plans[i]
  {
    Simulations.Snapshot(sim)
  }

  /** `RestoreSimulation::act`: refused when no backup was taken, otherwise the backup replaces the simulation. */
  function RestoreSimulation(sim: Simulations.Simulation, backup: Option<Simulations.Simulation>): (r: Acted)
    ensures r.action.status == Completed <==> backup.Some?
    ensures backup.None? ==> r.sim == sim && r.action.errorMsg == "No backup available"
    ensures backup.Some? ==> r.sim == backup.value
  {
    match backup
    case None => Refused(sim, "No backup available")
    case Some(saved) => Done(saved)
  }

  /** Whatever happens after a backup of a well-formed simulation, restoring it gives that simulation back. */
  lemma BackupThenRestore(sim: Simulations.Simulation, later: Simulations.Simulation)
    requires Simulations.WellFormed(sim)
    ensures RestoreSimulation(later, Some(BackupSimulation(sim))) == Done(sim)
  {
    Simulations.SnapshotRestores(sim);
  }

  /** With the copy as written, restoring after a backup loses every facility a plan had finished. */
  lemma RestoreAsWrittenLoses(sim: Simulations.Simulation, later: Simulations.Simulation, i: nat)
    requires i < |sim.plans| && sim.plans[i].operational != []
    ensures RestoreSimulation(later, Some(Simulations.SnapshotAsWritten(sim))).sim != sim
    ensures RestoreSimulation(later, Some(Simulations.SnapshotAsWritten(sim))).sim.plans[i].operational == []
  {
    Simulations.SnapshotAsWrittenLoses(sim, i);
  }
}
