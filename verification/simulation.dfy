/**
 * The simulation's registry: the settlements, the facility catalog and the
 * plans, with sequential plan ids, the name and id lookups, the tick that
 * steps every plan, the per-line dispatch of the configuration file, and the
 * copy the backup takes.
 */
module Simulations {
  import opened Wrappers
  import opened Decimal
  import opened Facilities
  import opened Settlements
  import opened Policies
  import Plans

  /**
   * `Simulation`, without the action log and the running flag (see the
   * README). Plans are held by value, in creation order.
   */
  datatype Simulation = Simulation(
    planCounter: int,
    plans: seq<Plans.Plan>,
    settlements: seq<Settlement>,
    catalog: seq<FacilityType>)

  /** The state before the first configuration line: nothing registered yet, and well formed. */
  function Initial(): (r: Simulation)
    ensures WellFormed(r)
  {
    Simulation(0, [], [], [])
  }

  // ------------------------------------------------------------- registry

  /** `Simulation::addPlan`: the new plan takes the counter as its id, then the counter moves on. */
  function AddPlan(sim: Simulation, settlement: Settlement, policy: Policy): (r: Simulation)
    ensures r.planCounter == sim.planCounter + 1
    ensures |r.plans| == |sim.plans| + 1 && r.plans[..|sim.plans|] == sim.plans
    ensures r.plans[|sim.plans|] == Plans.NewPlan(sim.planCounter, settlement, policy)
    ensures r.settlements == sim.settlements && r.catalog == sim.catalog
  {
    sim.(planCounter := sim.planCounter + 1,
         plans := sim.plans + [Plans.NewPlan(sim.planCounter, settlement, policy)])
  }

  /** `Simulation::addSettlement`: appended, with no check of its own. */
  function AddSettlement(sim: Simulation, s: Settlement): (r: Simulation)
    ensures r.settlements == sim.settlements + [s]
    ensures r.(settlements := sim.settlements) == sim
  {
    sim.(settlements := sim.settlements + [s])
  }

  /** `Simulation::addFacility`: appended at the end of the catalog, duplicates included. */
  function AddFacility(sim: Simulation, kind: FacilityType): (r: Simulation)
    ensures r.catalog == sim.catalog + [kind]
    ensures r.(catalog := sim.catalog) == sim
  {
    sim.(catalog := sim.catalog + [kind])
  }

  // -------------------------------------------------------------- lookups

  predicate HasSettlementNamed(settlements: seq<Settlement>, name: string) {
    exists i :: 0 <= i < |settlements| && settlements[i].name == name
  }

  predicate HasFacilityNamed(catalog: seq<FacilityType>, name: string) {
    exists i :: 0 <= i < |catalog| && catalog[i].name == name
  }

  predicate HasPlanWithId(plans: seq<Plans.Plan>, id: int) {
    exists i :: 0 <= i < |plans| && plans[i].id == id
  }

  /** The position of the first settlement called `name`. */
  function FindSettlement(settlements: seq<Settlement>, name: string): (r: Option<nat>)
    ensures r.Some? ==> r.value < |settlements| && settlements[r.value].name == name
    ensures r.Some? ==> forall j :: 0 <= j < r.value ==> settlements[j].name != name
    ensures r.None? <==> !HasSettlementNamed(settlements, name)
  {
    FirstIndex(settlements, (s: Settlement) => s.name == name)
  }

  /** The position of the first catalog entry called `name`. */
  function FindFacility(catalog: seq<FacilityType>, name: string): (r: Option<nat>)
    ensures r.Some? ==> r.value < |catalog| && catalog[r.value].name == name
    ensures r.Some? ==> forall j :: 0 <= j < r.value ==> catalog[j].name != name
    ensures r.None? <==> !HasFacilityNamed(catalog, name)
  {
    FirstIndex(catalog, (f: FacilityType) => f.name == name)
  }

  /** The position of the first plan with id `id`. */
  function FindPlan(plans: seq<Plans.Plan>, id: int): (r: Option<nat>)
    ensures r.Some? ==> r.value < |plans| && plans[r.value].id == id
    ensures r.Some? ==> forall j :: 0 <= j < r.value ==> plans[j].id != id
    ensures r.None? <==> !HasPlanWithId(plans, id)
  {
    FirstIndex(plans, (p: Plans.Plan) => p.id == id)
  }

  /** `Simulation::isSettlementExists`: an exact name-membership test. */
  function IsSettlementExists(sim: Simulation, name: string): (b: bool)
    ensures b <==> HasSettlementNamed(sim.settlements, name)
  {
    FindSettlement(sim.settlements, name).Some?
  }

  /** `Simulation::isFacilityExists`: an exact name-membership test. */
  function IsFacilityExists(sim: Simulation, name: string): (b: bool)
    ensures b <==> HasFacilityNamed(sim.catalog, name)
  {
    FindFacility(sim.catalog, name).Some?
  }

  /** `Simulation::isPlanExists`. */
  function IsPlanExists(sim: Simulation, id: int): (b: bool)
    ensures b <==> HasPlanWithId(sim.plans, id)
  {
    FindPlan(sim.plans, id).Some?
  }

  /** `Simulation::getSettlement`: the first settlement with that name, or the exception. */
  function GetSettlement(sim: Simulation, name: string): (r: Result<Settlement>)
    ensures r.Ok? <==> IsSettlementExists(sim, name)
    ensures r.Ok? ==> r.value in sim.settlements && r.value.name == name
    ensures r.Err? ==> r.message == "Settlement not found"
  {
    match FindSettlement(sim.settlements, name)
    case Some(i) => Ok(sim.settlements[i])
    case None => Err("Settlement not found")
  }

  /** `Simulation::getPlan`: the first plan with that id, or the exception. */
  function GetPlan(sim: Simulation, id: int): (r: Result<Plans.Plan>)
    ensures r.Ok? <==> IsPlanExists(sim, id)
    ensures r.Ok? ==> r.value in sim.plans && r.value.id == id
    ensures r.Err? ==> r.message == "Plan not found"
  {
    match FindPlan(sim.plans, id)
    case Some(i) => Ok(sim.plans[i])
    case None => Err("Plan not found")
  }

  // -------------------------------------------------------------- stepping

  /**
   * The plans after a tick, and the position of the plan whose selection
   * threw, if one did: the plans before it were stepped, it and the plans
   * after it were not.
   */
  datatype Sweep = Sweep(plans: seq<Plans.Plan>, failedAt: Option<nat>)

  /** `plans[j]` as the tick leaves it when the tick stopped at `failedAt`. */
  predicate SweptAs(plans: seq<Plans.Plan>, catalog: seq<FacilityType>, failedAt: Option<nat>, j: nat, q: Plans.Plan)
    requires j < |plans|
  {
    if failedAt.None? || j < failedAt.value then q == Plans.Step(plans[j], catalog).plan
    else q == plans[j]
  }

  /** The loop of `Simulation::step` from position `i` on; the plans before `i` are done. */
  function StepFrom(plans: seq<Plans.Plan>, catalog: seq<FacilityType>, i: nat): (r: Sweep)
    requires i <= |plans|
    decreases |plans| - i
    ensures |r.plans| == |plans|
    ensures forall j :: 0 <= j < i ==> r.plans[j] == plans[j]
    ensures r.failedAt.Some? ==>
      && i <= r.failedAt.value < |plans|
      && !Plans.Step(plans[r.failedAt.value], catalog).ok
      && forall j :: i <= j < r.failedAt.value ==> Plans.Step(plans[j], catalog).ok
    ensures r.failedAt.None? ==> forall j :: i <= j < |plans| ==> Plans.Step(plans[j], catalog).ok
    ensures forall j :: i <= j < |plans| ==> SweptAs(plans, catalog, r.failedAt, j, r.plans[j])
  {
    if i == |plans| then Sweep(plans, None)
    else
      var t := Plans.Step(plans[i], catalog);
      if !t.ok then Sweep(plans, Some(i))
      else
        var next := plans[i := t.plan];
        assert forall j :: i < j < |plans| ==> next[j] == plans[j];
        StepFrom(next, catalog, i + 1)
  }

  /** A tick's result; `ok` is false when a plan's selection threw and the tick stopped there. */
  datatype Tick = Tick(sim: Simulation, ok: bool)

  /** `Simulation::step`: `Plan::step` on every plan, in order, until one throws. */
  function Step(sim: Simulation): (r: Tick)
    ensures r.sim.(plans := sim.plans) == sim
    ensures |r.sim.plans| == |sim.plans|
    ensures r.ok <==> forall j :: 0 <= j < |sim.plans| ==> Plans.Step(sim.plans[j], sim.catalog).ok
    ensures r.ok ==> forall j :: 0 <= j < |sim.plans| ==> r.sim.plans[j] == Plans.Step(sim.plans[j], sim.catalog).plan
  {
    var sw := StepFrom(sim.plans, sim.catalog, 0);
    Tick(sim.(plans := sw.plans), sw.failedAt.None?)
  }

  // ----------------------------------------------------------- invariants

  predicate DistinctSettlementNames(settlements: seq<Settlement>) {
    forall i, j :: 0 <= i < j < |settlements| ==> settlements[i].name != settlements[j].name
  }

  predicate DistinctFacilityNames(catalog: seq<FacilityType>) {
    forall i, j :: 0 <= i < j < |catalog| ==> catalog[i].name != catalog[j].name
  }

  /**
   * What every simulation reachable from the configuration and the actions
   * satisfies: plan ids are the creation positions and the counter is the
   * next one, every plan keeps its bookkeeping, belongs to a known
   * settlement, and settlement and facility names are unique.
   */
  predicate WellFormed(sim: Simulation) {
    && sim.planCounter == |sim.plans|
    && (forall i :: 0 <= i < |sim.plans| ==> sim.plans[i].id == i)
    && (forall i :: 0 <= i < |sim.plans| ==> Plans.Valid(sim.plans[i]))
    && (forall i :: 0 <= i < |sim.plans| ==> sim.plans[i].settlement in sim.settlements)
    && DistinctSettlementNames(sim.settlements)
    && DistinctFacilityNames(sim.catalog)
  }

  /** Plan ids are 0, 1, 2, ... : the plan with id `id` exists exactly when `id` is below the counter, and sits at position `id`. */
  lemma PlanLookup(sim: Simulation, id: int)
    requires WellFormed(sim)
    ensures IsPlanExists(sim, id) <==> 0 <= id < sim.planCounter
    ensures 0 <= id < sim.planCounter ==> FindPlan(sim.plans, id) == Some(id) && GetPlan(sim, id) == Ok(sim.plans[id])
  {
    if 0 <= id < sim.planCounter {
      assert sim.plans[id].id == id;
    }
  }

  /** Adding a plan for a known settlement keeps the registry well formed, and the new plan is found under the old counter. */
  lemma AddPlanWellFormed(sim: Simulation, settlement: Settlement, policy: Policy)
    requires WellFormed(sim)
    requires settlement in sim.settlements
    requires policy.BalancedSelection? ==> policy.totals == NoScores
    ensures WellFormed(AddPlan(sim, settlement, policy))
    ensures IsPlanExists(AddPlan(sim, settlement, policy), sim.planCounter)
    ensures GetPlan(AddPlan(sim, settlement, policy), sim.planCounter) == Ok(Plans.NewPlan(sim.planCounter, settlement, policy))
  {
    var r := AddPlan(sim, settlement, policy);
    Plans.NewPlanValid(sim.planCounter, settlement, policy);
    assert forall i :: 0 <= i < |sim.plans| ==> r.plans[i] == sim.plans[i];
    PlanLookup(r, sim.planCounter);
  }

  /** Adding a settlement whose name is new keeps the registry well formed. */
  lemma AddSettlementWellFormed(sim: Simulation, s: Settlement)
    requires WellFormed(sim)
    requires !IsSettlementExists(sim, s.name)
    ensures WellFormed(AddSettlement(sim, s))
    ensures IsSettlementExists(AddSettlement(sim, s), s.name)
  {
    var r := AddSettlement(sim, s);
    assert r.settlements[|sim.settlements|] == s;
  }

  /** Adding a catalog entry whose name is new keeps the registry well formed. */
  lemma AddFacilityWellFormed(sim: Simulation, kind: FacilityType)
    requires WellFormed(sim)
    requires !IsFacilityExists(sim, kind.name)
    ensures WellFormed(AddFacility(sim, kind))
    ensures IsFacilityExists(AddFacility(sim, kind), kind.name)
  {
    var r := AddFacility(sim, kind);
    assert r.catalog[|sim.catalog|] == kind;
  }

  /** `addFacility` does not deduplicate: a second entry with a known name is appended, and lookups still find the first. */
  lemma AddFacilityKeepsFirst(sim: Simulation, kind: FacilityType)
    requires IsFacilityExists(sim, kind.name)
    ensures |AddFacility(sim, kind).catalog| == |sim.catalog| + 1
    ensures FindFacility(AddFacility(sim, kind).catalog, kind.name) == FindFacility(sim.catalog, kind.name)
  {
    var r := AddFacility(sim, kind);
    var k := FindFacility(sim.catalog, kind.name).value;
    assert r.catalog[k] == sim.catalog[k];
    assert forall j :: 0 <= j < |sim.catalog| ==> r.catalog[j] == sim.catalog[j];
  }

  /** A tick keeps the registry well formed, whether or not a plan's selection threw. */
  lemma StepWellFormed(sim: Simulation)
    requires WellFormed(sim)
    ensures WellFormed(Step(sim).sim)
  {
    var sw := StepFrom(sim.plans, sim.catalog, 0);
    var r := Step(sim).sim;
    forall j | 0 <= j < |sim.plans|
      ensures r.plans[j].id == j && Plans.Valid(r.plans[j]) && r.plans[j].settlement in r.settlements
    {
      assert SweptAs(sim.plans, sim.catalog, sw.failedAt, j, r.plans[j]);
      Plans.StepPreservesValid(sim.plans[j], sim.catalog);
    }
  }

  /**
   * A tick that stopped at plan `k` stepped exactly the plans before it and
   * left that plan and every later one as they were.
   */
  lemma StepStopsAtFailure(sim: Simulation)
    requires !Step(sim).ok
    ensures var sw := StepFrom(sim.plans, sim.catalog, 0);
      && sw.failedAt.Some?
      && (forall j :: 0 <= j < sw.failedAt.value ==> Step(sim).sim.plans[j] == Plans.Step(sim.plans[j], sim.catalog).plan)
      && Step(sim).sim.plans[sw.failedAt.value..] == sim.plans[sw.failedAt.value..]
  {
    var sw := StepFrom(sim.plans, sim.catalog, 0);
    var k := sw.failedAt.value;
    forall j | k <= j < |sim.plans|
      ensures sw.plans[j] == sim.plans[j]
    {
      assert SweptAs(sim.plans, sim.catalog, sw.failedAt, j, sw.plans[j]);
    }
    forall j | 0 <= j < k
      ensures sw.plans[j] == Plans.Step(sim.plans[j], sim.catalog).plan
    {
      assert SweptAs(sim.plans, sim.catalog, sw.failedAt, j, sw.plans[j]);
    }
  }

  // ----------------------------------------------------- configuration file

  /** The policy codes of a configuration `plan` line; note "env", where the actions say "sus". */
  function ConfigPolicy(code: string): (r: Option<Policy>)
    ensures r.Some? <==> code in {"nve", "bal", "eco", "env"}
    ensures r.Some? && code != "env" ==> Code(r.value) == code
    ensures code == "env" ==> r == Some(SustainabilitySelection(-1))
    ensures r.Some? ==> r.value.BalancedSelection? || r.value.last == -1
    ensures r.Some? && r.value.BalancedSelection? ==> r.value.totals == NoScores
  {
    if code == "nve" then Some(NaiveSelection(-1))
    else if code == "bal" then Some(BalancedSelection(NoScores))
    else if code == "eco" then Some(EconomySelection(-1))
    else if code == "env" then Some(SustainabilitySelection(-1))
    else None
  }

  /** `stoi` on each argument in turn; the first failure is the one reported. */
  function ParseAll(args: seq<string>): (r: Result<seq<int>>)
    ensures r.Ok? ==> |r.value| == |args|
    ensures r.Ok? ==> forall i :: 0 <= i < |args| ==> ParseInt(args[i]) == Ok(r.value[i])
    ensures r.Ok? <==> forall i :: 0 <= i < |args| ==> ParseInt(args[i]).Ok?
  {
    if |args| == 0 then Ok([])
    else match ParseInt(args[0])
      case Err(m) => Err(m)
      case Ok(v) =>
        match ParseAll(args[1..])
        case Err(m) => Err(m)
        case Ok(vs) => Ok([v] + vs)
  }

  /** A blank line, or one whose first argument starts with '#'. */
  predicate Skipped(args: seq<string>) {
    |args| == 0 || (|args[0]| > 0 && args[0][0] == '#')
  }

  /** The handling of a `settlement` line. */
  function ConfigSettlement(sim: Simulation, args: seq<string>): (r: Result<Simulation>)
    requires |args| > 0 && args[0] == "settlement"
  {
    if |args| != 3 then Err("Invalid settlement configuration")
    else if IsSettlementExists(sim, args[1]) then Ok(sim)
    else match ParseInt(args[2])
      case Err(m) => Err(m)
      case Ok(code) =>
        match SettlementTypeOf(code)
        case None => Err("Invalid settlement type")
        case Some(t) => Ok(AddSettlement(sim, Settlement(args[1], t)))
  }

  /** The handling of a `facility` line: name, category, price and three scores. */
  function ConfigFacility(sim: Simulation, args: seq<string>): (r: Result<Simulation>)
    requires |args| > 0 && args[0] == "facility"
  {
    if |args| != 7 then Err("Invalid facility configuration")
    else if IsFacilityExists(sim, args[1]) then Ok(sim)
    else match ParseAll(args[2..])
      case Err(m) => Err(m)
      case Ok(v) =>
        Ok(AddFacility(sim, FacilityType(args[1], CategoryOf(v[0]), v[1], Scores(v[2], v[3], v[4]))))
  }

  /** The handling of a `plan` line: a settlement name and a policy code. */
  function ConfigPlan(sim: Simulation, args: seq<string>): (r: Result<Simulation>)
    requires |args| > 0 && args[0] == "plan"
  {
    if |args| != 3 then Err("Invalid plan configuration")
    else match GetSettlement(sim, args[1])
      case Err(_) => Err("Settlement not found for plan")
      case Ok(s) =>
        match ConfigPolicy(args[2])
        case None => Err("Unknown selection policy")
        case Some(policy) => Ok(AddPlan(sim, s, policy))
  }

  /** One line of the configuration file, already split into arguments. */
  function ApplyConfigLine(sim: Simulation, args: seq<string>): (r: Result<Simulation>)
  {
    if Skipped(args) then Ok(sim)
    else if args[0] == "settlement" then ConfigSettlement(sim, args)
    else if args[0] == "facility" then ConfigFacility(sim, args)
    else if args[0] == "plan" then ConfigPlan(sim, args)
    else Ok(sim)
  }

  /** The configuration constructor over the file's split lines: the first exception aborts it. */
  function LoadFrom(sim: Simulation, lines: seq<seq<string>>): (r: Result<Simulation>)
    decreases |lines|
  {
    if |lines| == 0 then Ok(sim)
    else match ApplyConfigLine(sim, lines[0])
      case Err(m) => Err(m)
      case Ok(next) => LoadFrom(next, lines[1..])
  }

  function LoadConfig(lines: seq<seq<string>>): Result<Simulation> {
    LoadFrom(Initial(), lines)
  }

  /** Comment lines, blank lines and lines with an unknown keyword change nothing. */
  lemma IgnoredLines(sim: Simulation, args: seq<string>)
    requires Skipped(args) || args[0] !in {"settlement", "facility", "plan"}
    ensures ApplyConfigLine(sim, args) == Ok(sim)
  {
  }

  /** A settlement line naming a known settlement is skipped before its type is even parsed. */
  lemma DuplicateSettlementSkipped(sim: Simulation, name: string, code: string)
    requires IsSettlementExists(sim, name)
    ensures ApplyConfigLine(sim, ["settlement", name, code]) == Ok(sim)
  {
    var args := ["settlement", name, code];
    assert !Skipped(args) && args[0] == "settlement" && args[1] == name;
  }

  /** A facility line naming a known entry is skipped before its numbers are even parsed. */
  lemma DuplicateFacilitySkipped(sim: Simulation, args: seq<string>)
    requires |args| == 7 && args[0] == "facility" && IsFacilityExists(sim, args[1])
    ensures ApplyConfigLine(sim, args) == Ok(sim)
  {
    assert !Skipped(args);
  }

  /**
   * A `plan` line succeeds exactly when it names a known settlement and one
   * of the four configuration codes, and then adds one plan, numbered by the
   * counter.
   */
  lemma PlanLineEffect(sim: Simulation, name: string, code: string)
    ensures forall args: seq<string> {:trigger ApplyConfigLine(sim, args)} ::
      |args| > 0 && args[0] == "plan" && |args| != 3 ==> ApplyConfigLine(sim, args) == Err("Invalid plan configuration")
    ensures var r := ApplyConfigLine(sim, ["plan", name, code]);
      && (r.Ok? <==> IsSettlementExists(sim, name) && ConfigPolicy(code).Some?)
      && (!IsSettlementExists(sim, name) ==> r == Err("Settlement not found for plan"))
      && (IsSettlementExists(sim, name) && ConfigPolicy(code).None? ==> r == Err("Unknown selection policy"))
      && (r.Ok? ==> r.value == AddPlan(sim, GetSettlement(sim, name).value, ConfigPolicy(code).value))
  {
    var args := ["plan", name, code];
    assert !Skipped(args) && args[0] == "plan" && args[1] == name && args[2] == code;
  }

  /**
   * A `settlement` line must have three arguments. One naming a new settlement
   * succeeds exactly when its type code parses and names a settlement type,
   * and then adds exactly that settlement.
   */
  lemma SettlementLineEffect(sim: Simulation, args: seq<string>)
    requires |args| > 0 && args[0] == "settlement"
    ensures |args| != 3 ==> ApplyConfigLine(sim, args) == Err("Invalid settlement configuration")
    ensures |args| == 3 && !IsSettlementExists(sim, args[1]) ==>
      var r := ApplyConfigLine(sim, args);
      var code := ParseInt(args[2]);
      && (r.Ok? <==> code.Ok? && SettlementTypeOf(code.value).Some?)
      && (code.Err? ==> r == Err(code.message))
      && (code.Ok? && SettlementTypeOf(code.value).None? ==> r == Err("Invalid settlement type"))
      && (r.Ok? ==> r.value == AddSettlement(sim, Settlement(args[1], SettlementTypeOf(code.value).value)))
  {
    assert !Skipped(args);
  }

  /**
   * A `facility` line must have seven arguments. One naming a new entry
   * succeeds exactly when its five numbers parse, and then appends exactly
   * the entry they describe, its category cast from the first number.
   */
  lemma FacilityLineEffect(sim: Simulation, args: seq<string>)
    requires |args| > 0 && args[0] == "facility"
    ensures |args| != 7 ==> ApplyConfigLine(sim, args) == Err("Invalid facility configuration")
    ensures |args| == 7 && !IsFacilityExists(sim, args[1]) ==>
      var r := ApplyConfigLine(sim, args);
      var v := ParseAll(args[2..]);
      && (r.Ok? <==> v.Ok?)
      && (v.Err? ==> r == Err(v.message))
      && (r.Ok? ==> r.value == AddFacility(sim, FacilityType(args[1], CategoryOf(v.value[0]), v.value[1],
                                                 Scores(v.value[2], v.value[3], v.value[4]))))
  {
    assert !Skipped(args);
  }

  /** Every configuration line that is accepted keeps the registry well formed. */
  lemma ConfigLineWellFormed(sim: Simulation, args: seq<string>)
    requires WellFormed(sim)
    ensures ApplyConfigLine(sim, args).Ok? ==> WellFormed(ApplyConfigLine(sim, args).value)
  {
    if !Skipped(args) && |args| == 3 {
      if args[0] == "settlement" && !IsSettlementExists(sim, args[1]) {
        var r := ParseInt(args[2]);
        if r.Ok? && SettlementTypeOf(r.value).Some? {
          AddSettlementWellFormed(sim, Settlement(args[1], SettlementTypeOf(r.value).value));
        }
      } else if args[0] == "plan" && IsSettlementExists(sim, args[1]) && ConfigPolicy(args[2]).Some? {
        AddPlanWellFormed(sim, GetSettlement(sim, args[1]).value, ConfigPolicy(args[2]).value);
      }
    } else if !Skipped(args) && |args| == 7 && args[0] == "facility" && !IsFacilityExists(sim, args[1]) {
      var v := ParseAll(args[2..]);
      if v.Ok? {
        var vs := v.value;
        AddFacilityWellFormed(sim, FacilityType(args[1], CategoryOf(vs[0]), vs[1], Scores(vs[2], vs[3], vs[4])));
      }
    }
  }

  /** A configuration that loads yields a well-formed simulation. */
  lemma {:induction false} LoadWellFormed(sim: Simulation, lines: seq<seq<string>>)
    requires WellFormed(sim)
    ensures LoadFrom(sim, lines).Ok? ==> WellFormed(LoadFrom(sim, lines).value)
    decreases |lines|
  {
    if |lines| > 0 {
      ConfigLineWellFormed(sim, lines[0]);
      var r := ApplyConfigLine(sim, lines[0]);
      if r.Ok? {
        LoadWellFormed(r.value, lines[1..]);
      }
    }
  }

  lemma LoadConfigWellFormed(lines: seq<seq<string>>)
    ensures LoadConfig(lines).Ok? ==> WellFormed(LoadConfig(lines).value)
  {
    LoadWellFormed(Initial(), lines);
  }

  // ------------------------------------------------------------ snapshots

  /** The settlement of the copy with the same name as `s`; the source dereferences null when there is none. */
  function Rebind(settlements: seq<Settlement>, s: Settlement): Settlement {
    match FindSettlement(settlements, s.name)
    case Some(i) => settlements[i]
    case None => s
  }

  /**
   * The copy constructor as written: every plan is rebuilt with the `Plan`
   * constructor from its id, its settlement and a clone of its policy, so its
   * facilities, scores and status are those of a new plan.
   */
  function SnapshotAsWritten(sim: Simulation): (r: Simulation)
    ensures r.(plans := sim.plans) == sim
    ensures |r.plans| == |sim.plans|
  {
    sim.(plans := seq(|sim.plans|, i requires 0 <= i < |sim.plans| =>
      Plans.NewPlan(sim.plans[i].id, Rebind(sim.settlements, sim.plans[i].settlement), sim.plans[i].policy)))
  }

  /**
   * The copy the backup evidently means to take: every plan copied as the
   * `Plan` copy constructor copies it, with its settlement rebound to the
   * copy's settlement of the same name.
   */
  function Snapshot(sim: Simulation): (r: Simulation)
    ensures r.(plans := sim.plans) == sim
    ensures |r.plans| == |sim.plans|
  {
    sim.(plans := seq(|sim.plans|, i requires 0 <= i < |sim.plans| =>
      sim.plans[i].(settlement := Rebind(sim.settlements, sim.plans[i].settlement))))
  }

  /** Rebinding by name finds the plan's own settlement when names are unique. */
  lemma RebindFindsOwn(settlements: seq<Settlement>, s: Settlement)
    requires DistinctSettlementNames(settlements)
    requires s in settlements
    ensures Rebind(settlements, s) == s
  {
    var k :| 0 <= k < |settlements| && settlements[k] == s;
    assert FindSettlement(settlements, s.name).Some?;
  }

  /** The corrected snapshot of a well-formed simulation is that simulation: a restore gives back what was backed up. */
  lemma SnapshotRestores(sim: Simulation)
    requires WellFormed(sim)
    ensures Snapshot(sim) == sim
  {
    var r := Snapshot(sim);
    forall i | 0 <= i < |sim.plans|
      ensures r.plans[i] == sim.plans[i]
    {
      RebindFindsOwn(sim.settlements, sim.plans[i].settlement);
    }
  }

  /**
   * The copy as written wipes every plan: no facilities, zero scores,
   * AVAILABLE; so a backup of a plan that has built anything differs from
   * the simulation it was taken of.
   */
  lemma SnapshotAsWrittenLoses(sim: Simulation, i: nat)
    requires i < |sim.plans|
    ensures SnapshotAsWritten(sim).plans[i].operational == []
    ensures SnapshotAsWritten(sim).plans[i].underConstruction == []
    ensures SnapshotAsWritten(sim).plans[i].scores == NoScores
    ensures SnapshotAsWritten(sim).plans[i].status == Plans.Available
    ensures sim.plans[i].operational != [] ==> SnapshotAsWritten(sim) != sim
  {
    if sim.plans[i].operational != [] {
      assert SnapshotAsWritten(sim).plans[i].operational != sim.plans[i].operational;
    }
  }
}
