/**
 * A plan: one settlement's construction schedule. Each step tops the
 * construction sites up to the settlement's capacity using the selection
 * policy, advances every site once, moves the finished ones to the
 * operational list while adding their scores, and derives BUSY/AVAILABLE.
 */
module Plans {
  import opened Facilities
  import opened Settlements
  import opened Policies

  datatype PlanStatus = Available | Busy

  /**
   * `Plan`. The settlement is held by value (it is immutable and only read);
   * the facility catalog is not stored but passed to `Step`, so a plan can
   * never change it.
   */
  datatype Plan = Plan(
    id: int,
    settlement: Settlement,
    policy: Policy,
    status: PlanStatus,
    operational: seq<Facility>,
    underConstruction: seq<Facility>,
    scores: Scores)

  /** How many facilities a settlement may have under construction at once. */
  function Capacity(t: SettlementType): (c: nat)
    ensures c == TypeCode(t) + 1
  {
    match t
    case Village => 1
    case City => 2
    case Metropolis => 3
  }

  function CapacityOf(p: Plan): nat {
    Capacity(p.settlement.kind)
  }

  /** The `Plan` constructor: nothing built, no scores, available. */
  function NewPlan(id: int, settlement: Settlement, policy: Policy): (p: Plan)
    ensures p.id == id && p.settlement == settlement && p.policy == policy
    ensures p.status == Available && p.scores == NoScores
    ensures p.operational == [] && p.underConstruction == []
  {
    Plan(id, settlement, policy, Available, [], [], NoScores)
  }

  /** `Plan::addFacility`: a facility goes to the list its status names. */
  function AddFacility(p: Plan, f: Facility): (r: Plan)
    ensures f.status == UnderConstruction ==> r == p.(underConstruction := p.underConstruction + [f])
    ensures f.status == Operational ==> r == p.(operational := p.operational + [f])
  {
    if f.status == UnderConstruction then p.(underConstruction := p.underConstruction + [f])
    else p.(operational := p.operational + [f])
  }

  /** `Plan::setSelectionPolicy`: the policy is replaced and nothing else changes. */
  function SetSelectionPolicy(p: Plan, policy: Policy): (r: Plan)
    ensures r.policy == policy
    ensures r.(policy := p.policy) == p
  {
    p.(policy := policy)
  }

  // ------------------------------------------------------------ sequences

  /** The summed scores of a list of facilities. */
  function SumScores(fs: seq<Facility>): Scores {
    if |fs| == 0 then NoScores else fs[0].kind.scores.Plus(SumScores(fs[1..]))
  }

  /** Every facility of the list, stepped once. */
  function Stepped(fs: seq<Facility>): (r: seq<Facility>)
    ensures |r| == |fs|
  {
    if |fs| == 0 then [] else [Facilities.Step(fs[0])] + Stepped(fs[1..])
  }

  /** The facilities of the list with status `st`, in their order. */
  function Keep(fs: seq<Facility>, st: FacilityStatus): (r: seq<Facility>)
    ensures |r| <= |fs|
  {
    if |fs| == 0 then []
    else if fs[0].status == st then [fs[0]] + Keep(fs[1..], st)
    else Keep(fs[1..], st)
  }

  predicate AllStatus(fs: seq<Facility>, st: FacilityStatus) {
    forall i :: 0 <= i < |fs| ==> fs[i].status == st
  }

  // ------------------------------------------------------------- stepping

  /** A plan step's result; `ok` is false when a selection failed and the step was abandoned. */
  datatype Ticked = Ticked(plan: Plan, ok: bool)

  /** `f` is a fresh construction site of a catalog entry for the settlement named `name`. */
  predicate FreshFrom(f: Facility, catalog: seq<FacilityType>, name: string) {
    f.kind in catalog && f == NewFacility(f.kind, name)
  }

  /** How many selections the top-up asks the policy for: the free sites, unless the catalog is empty. */
  function Wanted(p: Plan, catalog: seq<FacilityType>): nat {
    if |catalog| == 0 || CapacityOf(p) <= |p.underConstruction| then 0
    else CapacityOf(p) - |p.underConstruction|
  }

  /**
   * The capacity top-up at the start of `Plan::step`: while fewer sites than
   * the capacity are under construction and the catalog is not empty, ask the
   * policy for an entry and start building it. A failed selection throws out
   * of the step; since success depends only on the policy variant and the
   * catalog, that can only happen on the first selection, so the plan is then
   * untouched.
   */
  function TopUp(p: Plan, catalog: seq<FacilityType>): (r: Ticked)
    decreases CapacityOf(p) - |p.underConstruction|
    ensures r.plan.(underConstruction := p.underConstruction, policy := p.policy) == p
    ensures SameKind(r.plan.policy, p.policy)
    ensures |p.underConstruction| <= |r.plan.underConstruction|
    ensures r.plan.underConstruction[..|p.underConstruction|] == p.underConstruction
    ensures forall i :: |p.underConstruction| <= i < |r.plan.underConstruction| ==>
              FreshFrom(r.plan.underConstruction[i], catalog, p.settlement.name)
    ensures r.ok <==> CapacityOf(p) <= |p.underConstruction| || |catalog| == 0 || Selectable(p.policy, catalog)
    ensures !r.ok ==> r.plan == p
    ensures CapacityOf(p) <= |p.underConstruction| || |catalog| == 0 ==> r.plan == p
    ensures r.ok && |catalog| > 0 && |p.underConstruction| < CapacityOf(p) ==> |r.plan.underConstruction| == CapacityOf(p)
  {
    if |p.underConstruction| < CapacityOf(p) && |catalog| != 0 then
      match Select(p.policy, catalog)
      case None => Ticked(p, false)
      case Some(pick) =>
        var f := NewFacility(catalog[pick.index], p.settlement.name);
        var r := TopUp(AddFacility(p.(policy := pick.next), f), catalog);
        PrefixOfSnoc(p.underConstruction, f, r.plan.underConstruction);
        r
    else Ticked(p, true)
  }

  /** Fresh construction sites, for the settlement named `name`, of the catalog entries at `picks`. */
  function Started(picks: seq<nat>, catalog: seq<FacilityType>, name: string): (r: seq<Facility>)
    requires forall i :: 0 <= i < |picks| ==> picks[i] < |catalog|
    ensures |r| == |picks|
    ensures forall i :: 0 <= i < |picks| ==> r[i] == NewFacility(catalog[picks[i]], name)
  {
    if |picks| == 0 then [] else [NewFacility(catalog[picks[0]], name)] + Started(picks[1..], catalog, name)
  }

  /**
   * The top-up follows the policy: it asks for one selection per free site,
   * starts a fresh facility of each pick in turn, and leaves the policy in the
   * state those picks put it in.
   */
  lemma {:induction false} TopUpFollowsPolicy(p: Plan, catalog: seq<FacilityType>)
    ensures var r := TopUp(p, catalog);
      r.ok ==>
        && r.plan.underConstruction
             == p.underConstruction + Started(Picks(p.policy, catalog, Wanted(p, catalog)), catalog, p.settlement.name)
        && r.plan.policy == After(p.policy, catalog, Wanted(p, catalog))
    decreases CapacityOf(p) - |p.underConstruction|
  {
    if |p.underConstruction| < CapacityOf(p) && |catalog| != 0 && Select(p.policy, catalog).Some? {
      var q := TopUpOnce(p, catalog);
      TopUpFollowsPolicy(q, catalog);
      var pick, w, name := Select(p.policy, catalog).value, Wanted(p, catalog), p.settlement.name;
      PicksStep(p.policy, catalog, w);
      var qs := Picks(q.policy, catalog, w - 1);
      StartedCons(pick.index, qs, catalog, name);
      AppendAssoc(p.underConstruction, [NewFacility(catalog[pick.index], name)], Started(qs, catalog, name));
    }
  }

  /**
   * One round of the top-up loop on a plan with a free site and a catalog the
   * policy can select from: the picked entry is started, and the rest of the
   * top-up continues from there.
   */
  lemma TopUpOnce(p: Plan, catalog: seq<FacilityType>) returns (q: Plan)
    requires |p.underConstruction| < CapacityOf(p) && |catalog| != 0 && Select(p.policy, catalog).Some?
    ensures var pick := Select(p.policy, catalog).value;
      && q == p.(policy := pick.next, underConstruction := p.underConstruction + [NewFacility(catalog[pick.index], p.settlement.name)])
      && TopUp(p, catalog) == TopUp(q, catalog)
      && Wanted(q, catalog) == Wanted(p, catalog) - 1
  {
    var pick := Select(p.policy, catalog).value;
    q := AddFacility(p.(policy := pick.next), NewFacility(catalog[pick.index], p.settlement.name));
  }

  lemma StartedCons(x: nat, picks: seq<nat>, catalog: seq<FacilityType>, name: string)
    requires x < |catalog| && forall i :: 0 <= i < |picks| ==> picks[i] < |catalog|
    ensures Started([x] + picks, catalog, name) == [NewFacility(catalog[x], name)] + Started(picks, catalog, name)
  {
    assert ([x] + picks)[1..] == picks;
  }

  /**
   * The top-up only starts what the policy picks: an Economy plan starts only
   * economy facilities, and a Sustainability plan only environment ones.
   */
  lemma TopUpStartsPolicyCategory(p: Plan, catalog: seq<FacilityType>)
    ensures var r := TopUp(p, catalog);
      forall i :: |p.underConstruction| <= i < |r.plan.underConstruction| ==>
        && (p.policy.EconomySelection? ==> r.plan.underConstruction[i].kind.category == Economy)
        && (p.policy.SustainabilitySelection? ==> r.plan.underConstruction[i].kind.category == Environment)
  {
    var r := TopUp(p, catalog);
    if r.ok {
      TopUpFollowsPolicy(p, catalog);
      var started := Started(Picks(p.policy, catalog, Wanted(p, catalog)), catalog, p.settlement.name);
      if p.policy.EconomySelection? {
        StartedOfCategory(Picks(p.policy, catalog, Wanted(p, catalog)), catalog, p.settlement.name, Economy);
      } else if p.policy.SustainabilitySelection? {
        StartedOfCategory(Picks(p.policy, catalog, Wanted(p, catalog)), catalog, p.settlement.name, Environment);
      }
      SuffixAt(p.underConstruction, started);
    }
  }

  /** Sites started from picks of one category are all of that category. */
  lemma StartedOfCategory(picks: seq<nat>, catalog: seq<FacilityType>, name: string, c: FacilityCategory)
    requires forall i :: 0 <= i < |picks| ==> picks[i] < |catalog| && catalog[picks[i]].category == c
    ensures forall i :: 0 <= i < |picks| ==> Started(picks, catalog, name)[i].kind.category == c
  {
  }

  /** The elements of `xs + ys` past `xs` are those of `ys`. */
  lemma SuffixAt<T>(xs: seq<T>, ys: seq<T>)
    ensures forall i :: |xs| <= i < |xs + ys| ==> (xs + ys)[i] == ys[i - |xs|]
  {
  }

  /**
   * The pass over the construction sites in `Plan::step`: every site is stepped
   * once; those now operational are appended, in order, to the operational
   * list and their scores added; the others stay, in order.
   */
  function Advance(p: Plan): (r: Plan)
    ensures r.(operational := p.operational, underConstruction := p.underConstruction, scores := p.scores) == p
  {
    var s := Stepped(p.underConstruction);
    var done := Keep(s, Operational);
    p.(operational := p.operational + done,
       underConstruction := Keep(s, UnderConstruction),
       scores := p.scores.Plus(SumScores(done)))
  }

  /** `Plan::step`. */
  function Step(p: Plan, catalog: seq<FacilityType>): (r: Ticked)
    ensures r.plan.id == p.id && r.plan.settlement == p.settlement
    ensures r.ok <==> CapacityOf(p) <= |p.underConstruction| || |catalog| == 0 || Selectable(p.policy, catalog)
    ensures !r.ok ==> r.plan == p
    ensures r.ok ==> (r.plan.status == Busy <==> |r.plan.underConstruction| == CapacityOf(p))
  {
    var t := TopUp(p, catalog);
    if !t.ok then t
    else
      var a := Advance(t.plan);
      Ticked(a.(status := if |a.underConstruction| == CapacityOf(p) then Busy else Available), true)
  }

  /** After a successful step the policy is in the state the top-up's picks put it in. */
  lemma StepFollowsPolicy(p: Plan, catalog: seq<FacilityType>)
    ensures Step(p, catalog).ok ==> Step(p, catalog).plan.policy == After(p.policy, catalog, Wanted(p, catalog))
  {
    TopUpFollowsPolicy(p, catalog);
  }

  /**
   * The source's loop over `underConstruction`, which erases a finished site
   * and does not advance the index, so that no site is skipped or visited
   * twice: it computes exactly `Advance`.
   */
  method AdvanceByErase(p: Plan) returns (q: Plan)
    ensures q == Advance(p)
  {
    var uc := p.underConstruction;
    var operational := p.operational;
    var scores := p.scores;
    ghost var k := 0;
    var i := 0;
    while i < |uc|
      invariant 0 <= k <= |p.underConstruction|
      invariant ErasedUpTo(p, k, uc, i, operational, scores)
      decreases |uc| - i
    {
      EraseStep(p, k, uc, i, operational, scores);
      var f := Facilities.Step(uc[i]);
      if f.status == Operational {
        operational := operational + [f];
        scores := scores.Plus(f.kind.scores);
        uc := uc[..i] + uc[i + 1..];
      } else {
        uc := uc[i := f];
        i := i + 1;
      }
      k := k + 1;
    }
    assert k == |p.underConstruction|;
    assert p.underConstruction[..k] == p.underConstruction;
    q := p.(operational := operational, underConstruction := uc, scores := scores);
  }

  /**
   * The state of the erase loop after visiting the first `k` sites: the
   * unfinished ones among them, stepped, sit before index `i`, followed by the
   * sites not yet visited; the finished ones were appended to the operational
   * list and their scores added.
   */
  predicate ErasedUpTo(p: Plan, k: nat, uc: seq<Facility>, i: int, operational: seq<Facility>, scores: Scores)
    requires k <= |p.underConstruction|
  {
    var s := Stepped(p.underConstruction[..k]);
    && uc == Keep(s, UnderConstruction) + p.underConstruction[k..]
    && i == |Keep(s, UnderConstruction)|
    && operational == p.operational + Keep(s, Operational)
    && scores == p.scores.Plus(SumScores(Keep(s, Operational)))
  }

  /** One round of the erase loop moves its state from `k` visited sites to `k + 1`. */
  lemma EraseStep(p: Plan, k: nat, uc: seq<Facility>, i: int, operational: seq<Facility>, scores: Scores)
    requires k <= |p.underConstruction| && 0 <= i < |uc|
    requires ErasedUpTo(p, k, uc, i, operational, scores)
    ensures k < |p.underConstruction|
    ensures var f := Facilities.Step(uc[i]);
      && (f.status == Operational ==>
            ErasedUpTo(p, k + 1, uc[..i] + uc[i + 1..], i, operational + [f], scores.Plus(f.kind.scores)))
      && (f.status != Operational ==> ErasedUpTo(p, k + 1, uc[i := f], i + 1, operational, scores))
  {
    var s := Stepped(p.underConstruction[..k]);
    var kept, done := Keep(s, UnderConstruction), Keep(s, Operational);
    var f := Facilities.Step(uc[i]);
    Splice(kept, p.underConstruction, k, f);
    StepOne(p.underConstruction, k);
    if f.status == Operational {
      SumSnoc(done, f);
      PlusAssoc(p.scores, SumScores(done), f.kind.scores);
    }
  }

  lemma AppendAssoc<T>(a: seq<T>, b: seq<T>, c: seq<T>)
    ensures (a + b) + c == a + (b + c)
  {
  }

  /** A sequence that starts with `xs + [x]` starts with `xs`, followed by `x`. */
  lemma PrefixOfSnoc<T>(xs: seq<T>, x: T, ys: seq<T>)
    requires |xs| + 1 <= |ys| && ys[..|xs| + 1] == xs + [x]
    ensures ys[..|xs|] == xs && ys[|xs|] == x
  {
    assert ys[..|xs|] == ys[..|xs| + 1][..|xs|];
  }

  /** Erasing or replacing the element at the seam of `kept + us[k..]`. */
  lemma Splice<T>(kept: seq<T>, us: seq<T>, k: nat, f: T)
    requires k < |us|
    ensures var uc := kept + us[k..];
      && uc[|kept|] == us[k]
      && uc[..|kept|] + uc[|kept| + 1..] == kept + us[k + 1..]
      && uc[|kept| := f] == (kept + [f]) + us[k + 1..]
  {
    var uc := kept + us[k..];
    assert uc[..|kept|] == kept;
    assert uc[|kept| + 1..] == us[k + 1..];
  }

  /** Stepping one more site sends it to exactly one of the two parts. */
  lemma StepOne(us: seq<Facility>, k: nat)
    requires k < |us|
    ensures var f := Facilities.Step(us[k]);
      var before, after := Stepped(us[..k]), Stepped(us[..k + 1]);
      && (f.status == Operational ==>
            Keep(after, Operational) == Keep(before, Operational) + [f]
            && Keep(after, UnderConstruction) == Keep(before, UnderConstruction))
      && (f.status == UnderConstruction ==>
            Keep(after, Operational) == Keep(before, Operational)
            && Keep(after, UnderConstruction) == Keep(before, UnderConstruction) + [f])
  {
    var f := Facilities.Step(us[k]);
    assert us[..k + 1] == us[..k] + [us[k]];
    SteppedAppend(us[..k], [us[k]]);
    assert Stepped([us[k]]) == [f];
    KeepAppend(Stepped(us[..k]), [f], UnderConstruction);
    KeepAppend(Stepped(us[..k]), [f], Operational);
    if f.status == Operational {
      assert Keep([f], Operational) == [f] && Keep([f], UnderConstruction) == [];
    } else {
      assert Keep([f], Operational) == [] && Keep([f], UnderConstruction) == [f];
    }
  }

  lemma SumSnoc(fs: seq<Facility>, f: Facility)
    ensures SumScores(fs + [f]) == SumScores(fs).Plus(f.kind.scores)
  {
    SumAppend(fs, [f]);
    assert SumScores([f]) == f.kind.scores.Plus(NoScores);
  }

  lemma PlusAssoc(a: Scores, b: Scores, c: Scores)
    ensures a.Plus(b).Plus(c) == a.Plus(b.Plus(c))
  {
  }

  // ------------------------------------------------------------- lemmas

  lemma {:induction false} SumAppend(a: seq<Facility>, b: seq<Facility>)
    ensures SumScores(a + b) == SumScores(a).Plus(SumScores(b))
  {
    if |a| > 0 {
      assert (a + b)[1..] == a[1..] + b;
      SumAppend(a[1..], b);
    } else {
      assert a + b == b;
    }
  }

  lemma {:induction false} SteppedAppend(a: seq<Facility>, b: seq<Facility>)
    ensures Stepped(a + b) == Stepped(a) + Stepped(b)
  {
    if |a| > 0 {
      assert (a + b)[1..] == a[1..] + b;
      SteppedAppend(a[1..], b);
    } else {
      assert a + b == b;
    }
  }

  lemma {:induction false} KeepAppend(a: seq<Facility>, b: seq<Facility>, st: FacilityStatus)
    ensures Keep(a + b, st) == Keep(a, st) + Keep(b, st)
  {
    if |a| > 0 {
      assert (a + b)[1..] == a[1..] + b;
      KeepAppend(a[1..], b, st);
    } else {
      assert a + b == b;
    }
  }

  /** Stepping a facility never changes its type, so the sum of scores is unchanged. */
  lemma {:induction false} SumStepped(fs: seq<Facility>)
    ensures SumScores(Stepped(fs)) == SumScores(fs)
  {
    if |fs| > 0 {
      SumStepped(fs[1..]);
    }
  }

  /** Splitting a list by status splits its scores. */
  lemma {:induction false} SumPartition(fs: seq<Facility>)
    ensures SumScores(Keep(fs, UnderConstruction)).Plus(SumScores(Keep(fs, Operational))) == SumScores(fs)
  {
    if |fs| > 0 {
      var h, t := fs[0], fs[1..];
      SumPartition(t);
      var u, o := Keep(t, UnderConstruction), Keep(t, Operational);
      assert SumScores(fs) == h.kind.scores.Plus(SumScores(t));
      Regroup(h.kind.scores, SumScores(u), SumScores(o), SumScores(t));
      if h.status == UnderConstruction {
        assert Keep(fs, UnderConstruction) == [h] + u;
        assert Keep(fs, Operational) == o;
        SumCons(h, u);
        assert SumScores(Keep(fs, UnderConstruction)) == h.kind.scores.Plus(SumScores(u));
        assert SumScores(Keep(fs, Operational)) == SumScores(o);
        assert h.kind.scores.Plus(SumScores(u)).Plus(SumScores(o)) == h.kind.scores.Plus(SumScores(t));
      } else {
        assert Keep(fs, UnderConstruction) == u;
        assert Keep(fs, Operational) == [h] + o;
        SumCons(h, o);
        assert SumScores(Keep(fs, UnderConstruction)) == SumScores(u);
        assert SumScores(Keep(fs, Operational)) == h.kind.scores.Plus(SumScores(o));
      }
    } else {
      assert Keep(fs, UnderConstruction) == [];
      assert Keep(fs, Operational) == [];
      assert SumScores([]) == NoScores;
      assert NoScores.Plus(NoScores) == NoScores;
    }
  }
  lemma KeepHead(fs: seq<Facility>, st: FacilityStatus)
    requires |fs| > 0 && fs[0].status == st
    ensures Keep(fs, st) == [fs[0]] + Keep(fs[1..], st)
  {
  }

  lemma KeepSkip(fs: seq<Facility>, st: FacilityStatus)
    requires |fs| > 0 && fs[0].status != st
    ensures Keep(fs, st) == Keep(fs[1..], st)
  {
  }

  /** Every facility `Keep` retains has the status asked for. */
  lemma {:induction false} KeepStatus(fs: seq<Facility>, st: FacilityStatus)
    ensures AllStatus(Keep(fs, st), st)
  {
    if |fs| > 0 {
      KeepStatus(fs[1..], st);
      if fs[0].status == st {
        KeepHead(fs, st);
      } else {
        KeepSkip(fs, st);
      }
    }
  }

  /** Splitting a list by status loses no facility. */
  lemma {:induction false} KeepLengths(fs: seq<Facility>)
    ensures |Keep(fs, UnderConstruction)| + |Keep(fs, Operational)| == |fs|
  {
    if |fs| > 0 {
      KeepLengths(fs[1..]);
    }
  }

  lemma SumCons(h: Facility, u: seq<Facility>)
    ensures SumScores([h] + u) == h.kind.scores.Plus(SumScores(u))
  {
    assert ([h] + u)[1..] == u;
  }

  lemma Regroup(a: Scores, b: Scores, c: Scores, d: Scores)
    requires d == b.Plus(c)
    ensures a.Plus(b).Plus(c) == a.Plus(d)
    ensures b.Plus(a.Plus(c)) == a.Plus(d)
  {
  }

  /**
   * The pass over the construction sites moves every finished site, and only
   * those, to the end of the operational list, keeps the rest, and adds to the
   * plan's scores exactly the scores of the facilities that just finished.
   */
  lemma AdvanceMovesFinished(p: Plan)
    ensures var r := Advance(p);
      && r.operational[..|p.operational|] == p.operational
      && |r.operational| - |p.operational| + |r.underConstruction| == |p.underConstruction|
      && AllStatus(r.operational[|p.operational|..], Operational)
      && AllStatus(r.underConstruction, UnderConstruction)
      && r.scores == p.scores.Plus(SumScores(r.operational[|p.operational|..]))
  {
    var r := Advance(p);
    var done := Keep(Stepped(p.underConstruction), Operational);
    assert r.operational[|p.operational|..] == done;
    assert r.operational[..|p.operational|] == p.operational;
    SumPartition(Stepped(p.underConstruction));
    KeepLengths(Stepped(p.underConstruction));
    KeepStatus(Stepped(p.underConstruction), Operational);
    KeepStatus(Stepped(p.underConstruction), UnderConstruction);
  }

  /**
   * The bookkeeping a plan keeps between steps: sites and operational
   * facilities carry the status of their list, at most `capacity` sites, the
   * scores are those of the operational facilities, and a Balanced policy's
   * totals are those of every facility the plan has started.
   */
  predicate Accounted(p: Plan) {
    && |p.underConstruction| <= CapacityOf(p)
    && AllStatus(p.underConstruction, UnderConstruction)
    && AllStatus(p.operational, Operational)
    && p.scores == SumScores(p.operational)
    && (p.policy.BalancedSelection? ==> p.policy.totals == SumScores(p.operational + p.underConstruction))
  }

  /** `Accounted`, and the stored status is the one `Plan::step` derives. */
  predicate Valid(p: Plan) {
    && Accounted(p)
    && (p.status == Busy <==> |p.underConstruction| == CapacityOf(p))
  }

  lemma {:induction false} TopUpAccounted(p: Plan, catalog: seq<FacilityType>)
    requires Accounted(p)
    ensures Accounted(TopUp(p, catalog).plan)
    decreases CapacityOf(p) - |p.underConstruction|
  {
    if |p.underConstruction| < CapacityOf(p) && |catalog| != 0 {
      match Select(p.policy, catalog)
      case None =>
      case Some(pick) =>
        var f := NewFacility(catalog[pick.index], p.settlement.name);
        var q := AddFacility(p.(policy := pick.next), f);
        SumAppend(p.operational + p.underConstruction, [f]);
        assert p.operational + q.underConstruction == (p.operational + p.underConstruction) + [f];
        assert SumScores([f]) == f.kind.scores;
        TopUpAccounted(q, catalog);
    }
  }

  /** The pass regroups the facilities a plan has started without changing their summed scores. */
  lemma PassKeepsStartedTotal(operational: seq<Facility>, sites: seq<Facility>)
    ensures var s := Stepped(sites);
      SumScores((operational + Keep(s, Operational)) + Keep(s, UnderConstruction)) == SumScores(operational + sites)
  {
    var s := Stepped(sites);
    var done, rest := Keep(s, Operational), Keep(s, UnderConstruction);
    SumAppend(operational + done, rest);
    SumAppend(operational, done);
    SumAppend(operational, sites);
    SumPartition(s);
    SumStepped(sites);
  }

  lemma AdvanceAccounted(p: Plan)
    requires Accounted(p)
    ensures Accounted(Advance(p))
  {
    var s := Stepped(p.underConstruction);
    var done, rest := Keep(s, Operational), Keep(s, UnderConstruction);
    var r := Advance(p);
    assert r == p.(operational := p.operational + done, underConstruction := rest,
                   scores := p.scores.Plus(SumScores(done)));
    assert |r.underConstruction| <= CapacityOf(r) by {
      KeepLengths(s);
    }
    assert AllStatus(r.underConstruction, UnderConstruction) by {
      KeepStatus(s, UnderConstruction);
    }
    assert AllStatus(r.operational, Operational) by {
      KeepStatus(s, Operational);
    }
    assert r.scores == SumScores(r.operational) by {
      SumAppend(p.operational, done);
    }
    assert r.policy.BalancedSelection? ==> r.policy.totals == SumScores(r.operational + r.underConstruction) by {
      PassKeepsStartedTotal(p.operational, p.underConstruction);
    }
  }

  /** Every plan step keeps the plan's bookkeeping and its derived status exact. */
  lemma StepPreservesValid(p: Plan, catalog: seq<FacilityType>)
    requires Valid(p)
    ensures Valid(Step(p, catalog).plan)
  {
    var t := TopUp(p, catalog);
    TopUpAccounted(p, catalog);
    if t.ok {
      AdvanceAccounted(t.plan);
    }
  }

  /** A new plan is valid when a Balanced policy starts from zero totals. */
  lemma NewPlanValid(id: int, settlement: Settlement, policy: Policy)
    requires policy.BalancedSelection? ==> policy.totals == NoScores
    ensures Valid(NewPlan(id, settlement, policy))
  {
  }

  /**
   * A successful step runs the pass over the sites the top-up left: every
   * site is stepped exactly once, the finished ones are appended in order to
   * the operational list with their scores added, and the rest stay, in
   * order, under construction.
   */
  lemma StepRunsPass(p: Plan, catalog: seq<FacilityType>)
    ensures var t := TopUp(p, catalog); var r := Step(p, catalog);
      var s := Stepped(t.plan.underConstruction);
      r.ok ==>
        && r.plan.operational == p.operational + Keep(s, Operational)
        && r.plan.underConstruction == Keep(s, UnderConstruction)
        && r.plan.scores == p.scores.Plus(SumScores(Keep(s, Operational)))
  {
  }

  /**
   * What one successful step does to a valid plan: the capacity is never
   * exceeded, the operational list only grows at its end, by at most
   * `capacity` facilities, and the scores grow by exactly the scores of those
   * facilities.
   */
  lemma StepEffect(p: Plan, catalog: seq<FacilityType>)
    requires Valid(p)
    ensures var r := Step(p, catalog);
      r.ok ==>
        && |r.plan.underConstruction| <= CapacityOf(p)
        && |p.operational| <= |r.plan.operational| <= |p.operational| + CapacityOf(p)
        && r.plan.operational[..|p.operational|] == p.operational
        && r.plan.scores == p.scores.Plus(SumScores(r.plan.operational[|p.operational|..]))
        && var s := Stepped(TopUp(p, catalog).plan.underConstruction);
           && r.plan.operational == p.operational + Keep(s, Operational)
           && r.plan.underConstruction == Keep(s, UnderConstruction)
  {
    var t := TopUp(p, catalog);
    StepRunsPass(p, catalog);
    if t.ok {
      AdvanceMovesFinished(t.plan);
      StepPreservesValid(p, catalog);
    }
  }

  /**
   * The totals `ChangePlanPolicy` seeds a new Balanced policy with, the
   * plan's scores plus those of its construction sites, are the scores of
   * every facility the plan has started; so the reseeded plan keeps its
   * bookkeeping.
   */
  lemma ReseedIsStartedTotal(p: Plan)
    requires Accounted(p)
    ensures p.scores.Plus(SumScores(p.underConstruction)) == SumScores(p.operational + p.underConstruction)
    ensures Accounted(SetSelectionPolicy(p, BalancedSelection(p.scores.Plus(SumScores(p.underConstruction)))))
  {
    SumAppend(p.operational, p.underConstruction);
  }
}
