# Reconstruction-Simulation scheduler, modelled in Dafny

This project models the construction scheduler of a turn-based settlement
reconstruction simulation, written in C++. Each part of the scheduler is a
Dafny module of immutable datatypes and pure functions.

- **Facilities** (`facility.dfy`). Catalog entries (`FacilityType`) carry a name, a category, a price and three scores. Facility instances count `timeLeft` down from the price and flip once from under construction to operational.
- **Settlements** (`settlement.dfy`). A name and a type (village, city, metropolis).
- **Policies** (`policies.dfy`). The four selection policies:
  - Naive: a round-robin cursor.
  - Economy and Sustainability: a round robin restricted to one category.
  - Balanced: the earliest entry minimising max − min of the running totals plus the entry's scores.

  Each is a pure "select and return the new policy state" function that fails where the source throws.
- **Plans** (`plan.dfy`). A plan's step does three things in order:
  - a capacity top-up (1, 2 or 3 by settlement type) driven by the policy;
  - one pass that advances every construction site, moves the finished ones to the end of the operational list and adds their scores exactly once;
  - the derived BUSY/AVAILABLE status.

  `AdvanceByErase` is the source's erase-in-place loop, proved to compute the functional pass.
- **Simulations** (`simulation.dfy`). The registry:
  - sequential plan ids and the name and id lookups;
  - the tick that steps every plan in order and stops at the first plan whose selection throws;
  - the per-line dispatch of the configuration file, over lines already split into arguments (`std::stoi` is modelled in `decimal.dfy`);
  - the copy of the simulation that the backup takes.
- **Actions** (`actions.dfy`). The decision logic of the user's commands:
  - `step`, `plan`, `settlement`, `facility`, `planStatus` and `changePolicy`;
  - `backup` and `restore`;
  - the action status, which is ERROR until `complete()`.
- **Scenarios** (`scenarios.dfy`). A village plan worked through three ticks, and the backup of that simulation.

The layout of a plan (`Skeleton/include/Plan.h`) is the datatype `Plans.Plan`:
an id, the settlement, the policy, the `PlanStatus` (AVAILABLE or BUSY), the
operational list, the construction sites and the three scores (`Facilities.Scores`).

A C++ exception becomes a `Result`/`Option`, and a null "no best yet" pointer
becomes an `Option`. A method that mutates its object becomes a function
returning the new value. A `Plan` holds its settlement by value, and the
facility catalog is passed to `Plans.Step` rather than stored. The catalog is
held by const reference in the source, so a plan never changes it.

An exception thrown by a selection escapes `Plan::step`, `Simulation::step`
and `SimulateStep::act` alike. Whatever was mutated before the throw stays
mutated. The model returns the partially stepped state together with an `ok`
flag (`Plans.Ticked`, `Simulations.Tick`).

## Model

| member | source | states |
|---|---|---|
| Facilities.NewFacility | Reconstruction-Simulation/src/Facility.cpp:55-61 | a new facility copies its type, is under construction, and has `timeLeft` equal to the price |
| Facilities.Step | Reconstruction-Simulation/src/Facility.cpp:81-89 | a site under construction with time left loses exactly one step. The result is operational iff the facility was operational or had exactly one step left. An operational facility is unchanged, and so is a site under construction with no time left (a price of 0 or less). `timeLeft` never grows and never goes below 0 from a non-negative start |
| Facilities.RunUnderConstruction | Reconstruction-Simulation/src/Facility.cpp:82-86 | a site with `m >= 1` steps left is still under construction after `k < m` steps, with `m - k` left. From step `m` on it is operational with 0 left |
| Facilities.OperationalIsFixed | Reconstruction-Simulation/src/Facility.cpp:82-88 | any number of steps leaves an operational facility unchanged |
| Facilities.FinishesAfterPrice | Reconstruction-Simulation/src/Facility.cpp:82-86 | a new facility of price `p >= 1` is operational after `k` steps iff `k >= p`. Before that it has `p - k` steps left |
| Facilities.NeverFinishes | Reconstruction-Simulation/src/Facility.cpp:82-87 | a new facility of price `<= 0` is left unchanged by any number of steps, so it never becomes operational |
| Facilities.CategoryOf | Skeleton/src/Simulation.cpp:37 | the cast of a configuration code to a category: codes 0..2 are the named categories, and any other code is kept as an unlisted category |
| Settlements.SettlementTypeOf | Skeleton/src/Simulation.cpp:30 | codes 0..2 name the three settlement types, and no other code does |
| Policies.NaiveSelect | Skeleton/src/SelectionPolicy.cpp:13-20 | fails exactly on an empty catalog. Otherwise it picks index `(last + 1) mod n` and moves its cursor there |
| Policies.NaiveWalks | Skeleton/src/SelectionPolicy.cpp:18-19 | `k` successive Naive picks from cursor `last` are `(last + 1 + j) mod n` for `j < k` |
| Policies.NaiveCycles | Skeleton/src/SelectionPolicy.cpp:10-19 | from the initial cursor -1, the `j`-th pick is `j mod n`. The first `n` picks return every entry once, in catalog order |
| Policies.ScanFrom | Skeleton/src/SelectionPolicy.cpp:89-95 | the scan returns the first forward distance from the cursor that lands on the target category. If there is none, no distance in range lands on it |
| Policies.CategorySelect | Skeleton/src/SelectionPolicy.cpp:88-96 | fails iff no entry has the category, including on an empty catalog. Otherwise it returns an entry of that category, the first one strictly after the cursor, cyclically |
| Policies.NoneMeansAbsent | Skeleton/src/SelectionPolicy.cpp:89-96 | a full turn of the rotation without a hit means the catalog has no entry of the category |
| Policies.Spread | Skeleton/src/SelectionPolicy.cpp:51-53 | max − min of the three scores is non-negative, and is 0 iff the three are equal |
| Policies.BestFrom | Skeleton/src/SelectionPolicy.cpp:42-59 | the scan finds an index iff the catalog is non-empty. It is the earliest index of minimal spread, because a later entry replaces the best only when strictly smaller |
| Policies.BalancedSelect | Skeleton/src/SelectionPolicy.cpp:41-67 | fails exactly on an empty catalog. Otherwise it picks the earliest entry of minimal spread and adds exactly that entry's scores to the totals |
| Policies.Select | Skeleton/src/SelectionPolicy.cpp:13-126 | every policy succeeds exactly when its variant can select from the catalog, and stays the same variant. A rotating policy's cursor becomes the picked index. Balanced adds the picked scores to its totals. Economy picks only economy entries and Sustainability only environment entries |
| Policies.Picks | Skeleton/src/Plan.cpp:125-129 | `k` successive selections on the same catalog give `k` picks when the policy can select and none otherwise. Every pick is a catalog index, an Economy policy picks only economy entries, and a Sustainability policy only environment entries |
| Policies.After | Skeleton/src/Plan.cpp:125-129 | after `k` successive selections the policy keeps its variant. A rotating policy's cursor is its last pick |
| Policies.FirstOfTwo | Skeleton/src/SelectionPolicy.cpp:55-58 | of two entries, Balanced takes the first when its spread is strictly smaller |
| Policies.BalancedPrefersEvenSpread | Skeleton/src/SelectionPolicy.cpp:45-64 | from zero totals, Balanced picks (3,3,3) over (10,0,0), and its totals become (3,3,3) |
| Plans.Capacity | Skeleton/src/Plan.cpp:119-123 | a village, a city and a metropolis allow 1, 2 and 3 sites, one more than the type's code |
| Plans.NewPlan | Skeleton/src/Plan.cpp:8-20 | a new plan has the given id, settlement and policy, is AVAILABLE, has zero scores and has two empty lists |
| Plans.AddFacility | Skeleton/src/Plan.cpp:154-160 | a facility is appended to the list its status names, and nothing else changes |
| Plans.SetSelectionPolicy | Skeleton/src/Plan.cpp:108-113 | only the policy is replaced |
| Plans.TopUp | Skeleton/src/Plan.cpp:125-129 | the top-up only appends fresh sites of catalog entries for the plan's settlement, and changes nothing but the sites and the policy. It succeeds iff the plan is full, the catalog is empty, or the policy can select. On success, a non-empty catalog fills the plan to capacity. On failure, the plan is as it was |
| Plans.TopUpFollowsPolicy | Skeleton/src/Plan.cpp:125-129 | a successful top-up asks for one selection per free site, appends a fresh facility of each pick in turn, and leaves the policy in the state those picks put it in |
| Plans.Step | Skeleton/src/Plan.cpp:116-151 | the id and settlement are kept. The step fails only when a selection throws, and then the plan is unchanged. On success the plan is BUSY iff its sites number exactly the capacity |
| Plans.StepFollowsPolicy | Skeleton/src/Plan.cpp:125-129 | after a successful step the policy is in the state the top-up's successive picks leave it in |
| Plans.TopUpStartsPolicyCategory | Skeleton/src/Plan.cpp:125-129 | an Economy plan's top-up starts only economy facilities, and a Sustainability plan's only environment ones |
| Plans.AdvanceByErase | Skeleton/src/Plan.cpp:132-144 | the erase-in-place loop over the sites computes exactly the functional pass `Advance` |
| Plans.EraseStep | Skeleton/src/Plan.cpp:131-143 | one round of the erase loop: a finished site is erased without moving the index and appended to the operational list with its scores added; an unfinished one is replaced by its stepped self and the index moves on |
| Plans.AdvanceMovesFinished | Skeleton/src/Plan.cpp:132-144 | the pass keeps the old operational list as a prefix. Only finished facilities are appended, and the rest stay under construction, with none lost. The scores grow by exactly the appended facilities' scores |
| Plans.TopUpAccounted | Skeleton/src/Plan.cpp:125-129 | the top-up keeps a plan's bookkeeping, including a Balanced policy's totals equalling the scores of every started facility |
| Plans.AdvanceAccounted | Skeleton/src/Plan.cpp:132-144 | the pass keeps a plan's bookkeeping: list statuses, capacity bound, and scores equal to the operational facilities' sum |
| Plans.StepPreservesValid | Skeleton/src/Plan.cpp:116-151 | a plan step keeps the bookkeeping and the derived BUSY/AVAILABLE status exact |
| Plans.NewPlanValid | Skeleton/src/Plan.cpp:8-20 | a new plan is valid when a Balanced policy starts from zero totals |
| Plans.StepRunsPass | Skeleton/src/Plan.cpp:116-151 | a successful step steps every site the top-up left exactly once. The finished ones are appended in order to the operational list with their scores added, and the rest stay under construction in order |
| Plans.StepEffect | Skeleton/src/Plan.cpp:132-150 | after a successful step the capacity is respected, and the operational list only grows at its end, by at most the capacity, with exactly the topped-up sites that finished in this step. The rest of those sites stay under construction, and the scores grow by exactly the new facilities' scores |
| Plans.ReseedIsStartedTotal | Skeleton/src/Action.cpp:246-257 | the plan's scores plus its sites' scores are the scores of every started facility, so reseeding Balanced with them keeps the bookkeeping |
| Simulations.AddPlan | Skeleton/src/Simulation.cpp:281-283 | the new plan is appended as a fresh plan with the counter as its id. The counter grows by one, and nothing else changes |
| Simulations.AddSettlement | Skeleton/src/Simulation.cpp:291-294 | the settlement is appended without a check, and nothing else changes |
| Simulations.AddFacility | Skeleton/src/Simulation.cpp:297-300 | the entry is appended at the end of the catalog, duplicates included, and nothing else changes |
| Simulations.FindPlan | Skeleton/src/Simulation.cpp:343-349 | the first position holding that id, or none iff no plan has it |
| Simulations.IsSettlementExists | Skeleton/src/Simulation.cpp:303-310 | true iff some settlement has exactly that name |
| Simulations.IsFacilityExists | Skeleton/src/Simulation.cpp:313-320 | true iff some catalog entry has exactly that name |
| Simulations.IsPlanExists | Skeleton/src/Simulation.cpp:323-330 | true iff some plan has that id |
| Simulations.GetSettlement | Skeleton/src/Simulation.cpp:333-340 | succeeds iff the name exists, returning a registered settlement of that name. Otherwise it fails with "Settlement not found" |
| Simulations.GetPlan | Skeleton/src/Simulation.cpp:343-350 | succeeds iff the id exists, returning a registered plan with that id. Otherwise it fails with "Plan not found" |
| Simulations.StepFrom | Skeleton/src/Simulation.cpp:358-362 | plans are stepped in order until one throws. The earlier ones are stepped, and that plan and the later ones are left as they were |
| Simulations.Step | Skeleton/src/Simulation.cpp:358-362 | a tick changes only the plans, not their number. It succeeds iff every plan's step succeeds, and then each plan is that plan stepped once |
| Simulations.StepStopsAtFailure | Skeleton/src/Simulation.cpp:358-362 | a failed tick stepped exactly the plans before the failing one, and left the rest untouched |
| Simulations.Initial | Skeleton/src/Simulation.cpp:7-8 | the registry before the first configuration line is well formed |
| Simulations.PlanLookup | Skeleton/src/Simulation.cpp:282 | in a well-formed registry, ids are 0, 1, 2, …: id `k` exists iff `0 <= k < counter`, and it is found at position `k` |
| Simulations.AddPlanWellFormed | Skeleton/src/Simulation.cpp:281-283 | adding a plan keeps the registry well formed, and the new plan is found under the old counter |
| Simulations.AddSettlementWellFormed | Skeleton/src/Simulation.cpp:291-294 | adding a settlement with a new name keeps the registry well formed, and the name is then found |
| Simulations.AddFacilityWellFormed | Skeleton/src/Simulation.cpp:297-300 | adding an entry with a new name keeps the registry well formed, and the name is then found |
| Simulations.AddFacilityKeepsFirst | Skeleton/src/Simulation.cpp:297-300 | appending a duplicate name grows the catalog, and lookups still find the first entry |
| Simulations.StepWellFormed | Skeleton/src/Simulation.cpp:358-362 | a tick keeps the registry well formed, whether or not a selection threw |
| Simulations.ConfigPolicy | Skeleton/src/Simulation.cpp:48-53 | a configuration plan line accepts exactly nve/bal/eco/env. "env" is Sustainability, and Balanced starts from zero totals |
| Simulations.ParseAll | Skeleton/src/Simulation.cpp:37-38 | the numeric arguments parse iff each one does, and each value is what `stoi` reads from its argument |
| Simulations.IgnoredLines | Skeleton/src/Simulation.cpp:21-24 | blank lines, comment lines and unknown keywords change nothing |
| Simulations.DuplicateSettlementSkipped | Skeleton/src/Simulation.cpp:27-32 | a settlement line with a known name is skipped silently, before its type is parsed |
| Simulations.DuplicateFacilitySkipped | Skeleton/src/Simulation.cpp:34-40 | a facility line with a known name is skipped silently, before its numbers are parsed |
| Simulations.PlanLineEffect | Skeleton/src/Simulation.cpp:42-56 | a plan line succeeds iff its settlement exists and its code is a configuration code, and it then adds exactly that plan. The arity error and the two lookup errors are stated |
| Simulations.SettlementLineEffect | Skeleton/src/Simulation.cpp:27-32 | a settlement line without exactly three arguments fails with "Invalid settlement configuration". For a new name the line succeeds iff the code parses and names a settlement type, and it then adds exactly that settlement. A parse failure reports the parser's message |
| Simulations.FacilityLineEffect | Skeleton/src/Simulation.cpp:34-40 | a facility line without exactly seven arguments fails with "Invalid facility configuration". For a new name the line succeeds iff all five numbers parse, and it then appends exactly the entry they describe: category cast from the first number, then price and the three scores |
| Simulations.ConfigLineWellFormed | Skeleton/src/Simulation.cpp:26-56 | every accepted configuration line keeps the registry well formed |
| Simulations.LoadWellFormed | Skeleton/src/Simulation.cpp:18-57 | a configuration that loads from a well-formed registry yields a well-formed registry |
| Simulations.LoadConfigWellFormed | Skeleton/src/Simulation.cpp:7-60 | a configuration that loads yields a well-formed simulation |
| Simulations.RebindFindsOwn | Skeleton/src/Simulation.cpp:78-87 | with unique names, matching a plan's settlement by name finds that settlement |
| Simulations.SnapshotAsWrittenLoses | Skeleton/src/Simulation.cpp:90-93 | the copy as written gives every plan empty lists, zero scores and AVAILABLE. So it differs from the original once a plan has finished a facility |
| Simulations.SnapshotRestores | Skeleton/src/Simulation.cpp:72-94 | the corrected copy of a well-formed simulation equals it |
| Decimal.ParseShowInt | Skeleton/src/Simulation.cpp:30 | `stoi` reads back any 32-bit integer written in decimal, whatever non-digit text follows |
| Decimal.ParseSkipsLeadingSpace | Skeleton/src/Simulation.cpp:30 | leading white space does not change what `stoi` reads |
| Decimal.InIntRange | Skeleton/src/Simulation.cpp:38 | a value is accepted iff it fits a 32-bit `int`, and it is then kept unchanged |
| Actions.Complete | Skeleton/src/Action.cpp:18-20 | completing sets COMPLETED and keeps the message |
| Actions.Fail | Skeleton/src/Action.cpp:23-26 | an error records the message and leaves the status alone |
| Actions.StepTimes | Skeleton/src/Action.cpp:42-44 | `k` ticks are `Simulations.Step` applied `k` times in a row: none for `k = 0`; otherwise one tick, then `k - 1` more if it succeeded, or that failed tick as the result. Only the plans change, never their number |
| Actions.StepTimesStopsAt | Skeleton/src/Action.cpp:42-44 | a failed run of `k` ticks is `j < k` successful ticks followed by the one tick that threw |
| Actions.SimulateStep | Skeleton/src/Action.cpp:41-46 | the simulation afterwards is the one after `n` ticks (`StepTimes`), and the action completes iff all `n` ticks succeed. `n <= 0` completes at once, with nothing stepped. Only plans change, and no error message is recorded |
| Actions.StepTimesAdd | Skeleton/src/Action.cpp:42-44 | stepping `a` times and then `b` times is stepping `a + b` times |
| Actions.StepTimesWellFormed | Skeleton/src/Action.cpp:42-44 | any number of ticks keeps the registry well formed |
| Actions.ActionPolicy | Skeleton/src/Action.cpp:78-88 | a command accepts exactly eco/bal/sus/nve. It builds a fresh policy whose code is the requested one, and Balanced starts from zero totals |
| Actions.ActionPolicyOfCode | Skeleton/src/SelectionPolicy.cpp:23-131 | every policy's code is accepted by the commands and names the same variant |
| Actions.ConfigAndCommandCodes | Skeleton/src/Simulation.cpp:49-53 | the file and the commands agree except that Sustainability is "env" in the file and "sus" in a command |
| Actions.AddPlan | Skeleton/src/Action.cpp:70-94 | completes iff the settlement exists and the code is valid. Otherwise the simulation is unchanged and the message is "Cannot create this plan" |
| Actions.AddPlanEffect | Skeleton/src/Action.cpp:73-90 | a completed AddPlan appends exactly one new plan for that settlement, with the next id and exactly the fresh policy the code names (cursor -1, or Balanced from zero totals), and keeps the registry well formed |
| Actions.AddSettlement | Skeleton/src/Action.cpp:118-129 | completes iff the name is new, appending exactly that settlement. Otherwise the simulation is unchanged and the message is "Settlement already exists" |
| Actions.AddFacility | Skeleton/src/Action.cpp:156-168 | completes iff the name is new, appending exactly that entry, whose category is the command's code cast to the enumeration. Otherwise the simulation is unchanged and the message is "Facility already exists" |
| Actions.AddSettlementThenAgain | Skeleton/src/Action.cpp:118-125 | adding a settlement keeps the registry well formed, and repeating the name is refused with nothing changed |
| Actions.AddFacilityThenAgain | Skeleton/src/Action.cpp:156-164 | adding an entry keeps the registry well formed, and repeating the name is refused |
| Actions.PrintPlanStatus | Skeleton/src/Action.cpp:194-204 | completes iff the plan exists, and otherwise fails with "Plan doesn't exists". The simulation is unchanged |
| Actions.PolicyFor | Skeleton/src/Action.cpp:240-264 | a change accepts exactly eco/bal/sus/nve with the requested code. Balanced is seeded with the plan's scores plus its sites' scores |
| Actions.ChangePlanPolicy | Skeleton/src/Action.cpp:228-273 | completes iff the plan exists, its current code differs and the code is valid. Otherwise the simulation is unchanged and the message is "Cannot change selection policy". Only the plans change |
| Actions.ChangePolicyEffect | Skeleton/src/Action.cpp:241-268 | a completed change gives that plan exactly the policy `PolicyFor` builds: eco, sus and nve are fresh (cursor -1), and bal is reseeded as above. Nothing else of that plan, and no other plan, changes |
| Actions.ChangePolicyWellFormed | Skeleton/src/Action.cpp:246-257 | a change keeps the registry well formed |
| Actions.ChangePolicyTwice | Skeleton/src/Action.cpp:236-238 | repeating a change is refused, because the plan already has that code |
| Actions.BackupSimulation | Skeleton/src/Action.cpp:347-353 | the backup is the corrected copy: the same registry, with each plan equal up to its rebound settlement |
| Actions.RestoreSimulation | Skeleton/src/Action.cpp:373-386 | refused with "No backup available" iff there is no backup. Otherwise the backup replaces the simulation |
| Actions.BackupThenRestore | Skeleton/src/Action.cpp:347-386 | restoring a backup of a well-formed simulation gives it back, whatever happened in between |
| Actions.RestoreAsWrittenLoses | Skeleton/src/Simulation.cpp:90-93 | with the copy as written, a restore loses the facilities a plan had finished |
| Scenarios.VillageTicks | Skeleton/src/Plan.cpp:116-151 | a fresh Naive village plan on a price-2 catalog: tick 1 starts a site (BUSY, one step left), tick 2 finishes it (AVAILABLE, its scores counted once), tick 3 starts the next one |
| Scenarios.EconomyCityTopUp | Skeleton/src/SelectionPolicy.cpp:88-96 | a city plan with a fresh Economy policy on a catalog of a life-quality entry and then an economy entry starts both sites from the economy entry, and its cursor ends on it |
| Scenarios.BackupAfterTwoTicks | Skeleton/src/Simulation.cpp:90-93 | after those two ticks the corrected copy equals the simulation, while the copy as written has zero scores and differs from it |
| Scenarios.VillageBackup | Skeleton/src/Simulation.cpp:90-93 | the concrete one-village simulation of the scenario is well formed. After two ticks its plan scores the facility, and the copy as written differs from it |

## Left out

- The interactive loop `Simulation::start`, `open`, `close`, and all console output: I/O. The per-command argument checks and `stoi` calls in the loop are not modelled. The actions take their arguments already converted, except that `Actions.AddFacility` takes the category's integer code and applies the same cast as the configuration file (`Facilities.CategoryOf`).
- Reading the configuration file and `Auxiliary::parseArguments`: I/O, and the tokeniser is not part of this model. `Simulations.LoadConfig` takes the lines already split into arguments.
- Every `toString`, `Plan::printStatus` and the console output inside the actions: presentation only. The policy codes that `toString` returns are modelled as `Policies.Code`.
- The action log, `addAction`, `PrintActionsLog`, `Close` and the `isRunning` flag: log and I/O bookkeeping with no effect on the scheduler.
- `clone`, the `Plan` copy constructor, move constructors, move and copy assignment, and destructors: with value semantics a copy is the value itself. The deleted `Plan` assignments have no counterpart.
- The global `backup` pointer and the references a `Plan` holds: `Actions.BackupSimulation` returns the saved copy, and `Actions.RestoreSimulation` takes it as an `Option`. Here the model does not follow the source. A restore runs `Simulation::operator=`, which copies each plan with the `Plan` copy constructor (Skeleton/src/Simulation.cpp:134-136). That constructor keeps the references to the backup's settlement and the backup's catalog (Skeleton/src/Plan.cpp:23-32). So after a restore, a `facility` command extends the live catalog, but the restored plans keep selecting from the backup's catalog and never pick the new entry. In the model, `Simulations.Step` gives every plan the live catalog, so they do. A later `backup` deletes the old backup, and the restored plans' settlement and catalog references then dangle, which is undefined behaviour. The model has no references, so it has neither effect.
- `Facility::setStatus`: an unguarded mutator that nothing in the scheduler calls.
- 32-bit overflow of scores, totals, spreads and the plan counter: integers are unbounded. The `INT_MAX` start of the Balanced scan is an `Option` ("no best yet"). Only `stoi`'s range check is modelled exactly (`Decimal.InIntRange`).
- `Policies.BalancedSelect`: on an empty catalog the source dereferences a null pointer. The model fails instead. `Plan::step` never selects from an empty catalog, so this case is unreachable there.
- `Settlements.SettlementTypeOf`: a settlement code outside 0..2 is cast to a value of no enumerator in the source. `Plan::step` then leaves its capacity uninitialised, which is undefined behaviour. The model rejects such a configuration line with an error of its own, "Invalid settlement type". Because that error aborts the whole load, the model rejects a configuration file that the source loads and runs without harm, as long as no plan is placed on that settlement.
- The orders of the `FacilityCategory` and `SettlementType` enumerators are taken as (life quality, economy, environment) and (village, city, metropolis). `Facility.h` and `Settlement.h` are not part of this model.
- `Simulations.ParseAll`: C++ leaves unspecified the order in which the four `stoi` calls of a facility line's constructor arguments run. The model parses left to right. Which error is reported can differ only when several arguments are invalid. The exception messages of `stoi` are implementation-defined, so the model uses its own.
- `Simulations.Snapshot`: the copy constructor as written is modelled too (`Simulations.SnapshotAsWritten`). See Findings.
- `Actions.BackupSimulation`: the source's `backup` takes the copy constructor as written (Skeleton/src/Action.cpp:347-353, Skeleton/src/Simulation.cpp:72-94), which empties every plan. The model's action takes the corrected copy `Simulations.Snapshot` instead. What the action as written loses is stated by `Simulations.SnapshotAsWrittenLoses` and `Actions.RestoreAsWrittenLoses`.
- A simulation that throws during `step` is left with the partially stepped plans, as in the source. The failed action is discarded by the interactive loop, which is not modelled.

## Findings

| source | as written | input that shows it | evidently intended | confidence | as-written member | corrected member |
|---|---|---|---|---|---|---|
| Skeleton/src/Simulation.cpp:90-93 | the copy constructor, which `backup` uses, rebuilds each plan with the `Plan` constructor from its id, settlement and a cloned policy. Its facilities, scores and status are lost | one village plan with a Naive policy, a catalog of one entry of price 2, then `step 2`, `backup`, `restore`: the plan had one operational facility and its scores, and after the restore it has none, zero scores and AVAILABLE | copy each plan whole, as the `Plan` copy constructor (Skeleton/src/Plan.cpp:23-45) does, rebinding its settlement to the copy's settlement of the same name | high, not executed | Simulations.SnapshotAsWritten (Scenarios.VillageBackup, Actions.RestoreAsWrittenLoses) | Simulations.Snapshot (Simulations.SnapshotRestores, Actions.BackupThenRestore) |
