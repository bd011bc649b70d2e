/**
 * The selection policies: deterministic strategies that pick the next facility
 * type to build from the catalog and return their own updated state.
 */
module Policies {
  import opened Wrappers
  import opened Facilities
  import Modular

  /** The last index a rotating policy returned; -1 before its first pick. */
  type Cursor = i: int | -1 <= i witness -1

  datatype Policy =
    | NaiveSelection(last: Cursor)
    | BalancedSelection(totals: Scores)
    | EconomySelection(last: Cursor)
    | SustainabilitySelection(last: Cursor)

  /** The policy code `toString` returns. */
  function Code(p: Policy): string {
    match p
    case NaiveSelection(_) => "nve"
    case BalancedSelection(_) => "bal"
    case EconomySelection(_) => "eco"
    case SustainabilitySelection(_) => "sus"
  }

  /** Two policies of the same variant, whatever their state. */
  predicate SameKind(p: Policy, q: Policy) {
    Code(p) == Code(q)
  }

  /** A successful selection: the catalog index chosen and the policy's new state. */
  datatype Pick = Pick(index: nat, next: Policy)

  predicate HasCategory(catalog: seq<FacilityType>, c: FacilityCategory) {
    exists i :: 0 <= i < |catalog| && catalog[i].category == c
  }

  /**
   * When a selection succeeds. It depends on the variant and the catalog only,
   * never on the cursor or the running totals.
   */
  predicate Selectable(p: Policy, catalog: seq<FacilityType>) {
    match p
    case EconomySelection(_) => HasCategory(catalog, Economy)
    case SustainabilitySelection(_) => HasCategory(catalog, Environment)
    case _ => |catalog| > 0
  }

  // ---------------------------------------------------------------- Naive

  /** `NaiveSelection::selectFacility`: the entry after the last one, wrapping around. */
  function NaiveSelect(last: Cursor, catalog: seq<FacilityType>): (r: Option<Pick>)
    ensures r.None? <==> |catalog| == 0
    ensures r.Some? ==> r.value.index == (last + 1) % |catalog|
    ensures r.Some? ==> r.value.next == NaiveSelection(r.value.index)
  {
    if |catalog| == 0 then None
    else
      var i := (last + 1) % |catalog|;
      Some(Pick(i, NaiveSelection(i)))
  }

  // ------------------------------------------------ Economy / Sustainability

  /** The entry at forward distance `j` from the cursor, wrapping around. */
  function Ahead(catalog: seq<FacilityType>, last: Cursor, j: int): FacilityType
    requires |catalog| > 0
  {
    catalog[(last + j) % |catalog|]
  }

  /**
   * The loop of `EconomySelection::selectFacility` from `i` on: the first
   * forward distance `k` in `i..|catalog|` from the cursor that lands on an
   * entry of category `target`.
   */
  function ScanFrom(catalog: seq<FacilityType>, target: FacilityCategory, last: Cursor, i: nat): (r: Option<nat>)
    requires |catalog| > 0 && 1 <= i
    decreases |catalog| + 1 - i
    ensures r.Some? ==> i <= r.value <= |catalog|
    ensures r.Some? ==> Ahead(catalog, last, r.value).category == target
    ensures r.Some? ==> forall j :: i <= j < r.value ==> Ahead(catalog, last, j).category != target
    ensures r.None? ==> forall j :: i <= j <= |catalog| ==> Ahead(catalog, last, j).category != target
  {
    if i > |catalog| then None
    else if Ahead(catalog, last, i).category == target then Some(i)
    else ScanFrom(catalog, target, last, i + 1)
  }

  /**
   * The rotation shared by the Economy and Sustainability policies: the first
   * entry of category `target` strictly after the cursor, cyclically; it fails,
   * cursor untouched, when the catalog holds no such entry.
   */
  function CategorySelect(last: Cursor, catalog: seq<FacilityType>, target: FacilityCategory): (r: Option<nat>)
    ensures r.None? <==> !HasCategory(catalog, target)
    ensures r.Some? ==> r.value < |catalog| && catalog[r.value].category == target
    ensures r.Some? ==> exists k :: 1 <= k <= |catalog| && r.value == (last + k) % |catalog| && FirstAfter(catalog, target, last, k)
  {
    if |catalog| == 0 then None
    else match ScanFrom(catalog, target, last, 1)
      case None =>
        NoneMeansAbsent(catalog, target, last);
        None
      case Some(k) =>
        assert FirstAfter(catalog, target, last, k);
        Some((last + k) % |catalog|)
  }

  /** No entry at forward distances 1..k-1 from the cursor has category `target`. */
  predicate FirstAfter(catalog: seq<FacilityType>, target: FacilityCategory, last: Cursor, k: int)
    requires |catalog| > 0
  {
    forall j :: 1 <= j < k ==> Ahead(catalog, last, j).category != target
  }

  lemma NoneMeansAbsent(catalog: seq<FacilityType>, target: FacilityCategory, last: Cursor)
    requires |catalog| > 0
    requires forall j :: 1 <= j <= |catalog| ==> Ahead(catalog, last, j).category != target
    ensures !HasCategory(catalog, target)
  {
    forall i | 0 <= i < |catalog|
      ensures catalog[i].category != target
    {
      var k := Modular.RotationCovers(last, i, |catalog|);
      assert Ahead(catalog, last, k).category != target;
    }
  }

  // ---------------------------------------------------------------- Balanced

  function Max3(a: int, b: int, c: int): (m: int)
    ensures m >= a && m >= b && m >= c
    ensures m == a || m == b || m == c
  {
    if a >= b && a >= c then a else if b >= c then b else c
  }

  function Min3(a: int, b: int, c: int): (m: int)
    ensures m <= a && m <= b && m <= c
    ensures m == a || m == b || m == c
  {
    if a <= b && a <= c then a else if b <= c then b else c
  }

  /** max - min of the three dimensions: 0 exactly when they are all equal. */
  function Spread(s: Scores): (d: int)
    ensures d >= 0
    ensures d == 0 <==> s.lifeQuality == s.economy == s.environment
  {
    Max3(s.lifeQuality, s.economy, s.environment) - Min3(s.lifeQuality, s.economy, s.environment)
  }

  /** The spread the totals would have after building `kind`. */
  function SpreadWith(totals: Scores, kind: FacilityType): int {
    Spread(totals.Plus(kind.scores))
  }

  /** `b` minimises the spread among entries `0..upto-1`, and is the earliest that does. */
  predicate EarliestMinimum(catalog: seq<FacilityType>, totals: Scores, b: nat, upto: nat)
    requires upto <= |catalog|
  {
    && b < upto
    && (forall j :: 0 <= j < upto ==> SpreadWith(totals, catalog[b]) <= SpreadWith(totals, catalog[j]))
    && (forall j :: 0 <= j < b ==> SpreadWith(totals, catalog[b]) < SpreadWith(totals, catalog[j]))
  }

  /**
   * The scan of `BalancedSelection::selectFacility` from entry `i` on, with
   * `best` the best entry so far (`None` for the `INT_MAX` start); an entry
   * replaces the best only when its spread is strictly smaller.
   */
  function BestFrom(catalog: seq<FacilityType>, totals: Scores, i: nat, best: Option<nat>): (r: Option<nat>)
    requires i <= |catalog|
    requires best.None? <==> i == 0
    requires best.Some? ==> EarliestMinimum(catalog, totals, best.value, i)
    decreases |catalog| - i
    ensures r.Some? <==> |catalog| > 0
    ensures r.Some? ==> EarliestMinimum(catalog, totals, r.value, |catalog|)
  {
    if i == |catalog| then best
    else if best.None? || SpreadWith(totals, catalog[i]) < SpreadWith(totals, catalog[best.value]) then
      BestFrom(catalog, totals, i + 1, Some(i))
    else
      BestFrom(catalog, totals, i + 1, best)
  }

  /**
   * `BalancedSelection::selectFacility`: the earliest entry minimising the
   * spread of totals plus its scores; those scores are then added to the totals.
   */
  function BalancedSelect(totals: Scores, catalog: seq<FacilityType>): (r: Option<Pick>)
    ensures r.None? <==> |catalog| == 0
    ensures r.Some? ==> EarliestMinimum(catalog, totals, r.value.index, |catalog|)
    ensures r.Some? ==> r.value.next == BalancedSelection(totals.Plus(catalog[r.value.index].scores))
  {
    match BestFrom(catalog, totals, 0, None)
    case None => None
    case Some(b) => Some(Pick(b, BalancedSelection(totals.Plus(catalog[b].scores))))
  }

  // ---------------------------------------------------------------- dispatch

  /** `SelectionPolicy::selectFacility` on the policy's own variant. */
  function Select(p: Policy, catalog: seq<FacilityType>): (r: Option<Pick>)
    ensures r.Some? <==> Selectable(p, catalog)
    ensures r.Some? ==> r.value.index < |catalog| && SameKind(r.value.next, p)
    ensures r.Some? && !p.BalancedSelection? ==> r.value.next.last == r.value.index
    ensures r.Some? && p.BalancedSelection? ==> r.value.next.totals == p.totals.Plus(catalog[r.value.index].scores)
    ensures r.Some? && p.EconomySelection? ==> catalog[r.value.index].category == Economy
    ensures r.Some? && p.SustainabilitySelection? ==> catalog[r.value.index].category == Environment
  {
    match p
    case NaiveSelection(last) => NaiveSelect(last, catalog)
    case BalancedSelection(totals) => BalancedSelect(totals, catalog)
    case EconomySelection(last) =>
      (match CategorySelect(last, catalog, Economy)
       case None => None
       case Some(i) => Some(Pick(i, EconomySelection(i))))
    case SustainabilitySelection(last) =>
      (match CategorySelect(last, catalog, Environment)
       case None => None
       case Some(i) => Some(Pick(i, SustainabilitySelection(i))))
  }

  /**
   * The indices returned by `k` successive selections on an unchanged catalog,
   * up to the first failure: all `k` of them when the policy can select, every
   * one a catalog index, and of the policy's category for a rotating category
   * policy.
   */
  function Picks(p: Policy, catalog: seq<FacilityType>, k: nat): (r: seq<nat>)
    decreases k
    ensures |r| == (if Selectable(p, catalog) then k else 0)
    ensures forall i :: 0 <= i < |r| ==> r[i] < |catalog|
    ensures p.EconomySelection? ==> forall i :: 0 <= i < |r| ==> catalog[r[i]].category == Economy
    ensures p.SustainabilitySelection? ==> forall i :: 0 <= i < |r| ==> catalog[r[i]].category == Environment
  {
    if k == 0 then []
    else match Select(p, catalog)
      case None => []
      case Some(s) => [s.index] + Picks(s.next, catalog, k - 1)
  }

  /** The policy's state after `k` successive selections, up to the first failure. */
  function After(p: Policy, catalog: seq<FacilityType>, k: nat): (r: Policy)
    decreases k
    ensures SameKind(r, p)
    ensures k > 0 && Selectable(p, catalog) && !p.BalancedSelection? ==> r.last == Picks(p, catalog, k)[k - 1]
  {
    if k == 0 then p
    else match Select(p, catalog)
      case None => p
      case Some(s) => After(s.next, catalog, k - 1)
  }

  /** A run of `k > 0` selections is the first selection followed by `k - 1` more from the policy it leaves. */
  lemma PicksStep(p: Policy, catalog: seq<FacilityType>, k: nat)
    requires k > 0 && Select(p, catalog).Some?
    ensures var s := Select(p, catalog).value;
      && Picks(p, catalog, k) == [s.index] + Picks(s.next, catalog, k - 1)
      && After(p, catalog, k) == After(s.next, catalog, k - 1)
  {
    match Select(p, catalog)
    case Some(s) =>
      assert Picks(p, catalog, k) == [s.index] + Picks(s.next, catalog, k - 1);
  }

  /** Successive Naive picks walk the catalog in order from just after the cursor. */
  lemma {:induction false} NaiveWalks(catalog: seq<FacilityType>, last: Cursor, k: nat)
    requires |catalog| > 0
    ensures |Picks(NaiveSelection(last), catalog, k)| == k
    ensures forall j :: 0 <= j < k ==> Picks(NaiveSelection(last), catalog, k)[j] == (last + 1 + j) % |catalog|
    decreases k
  {
    if k > 0 {
      var n := |catalog|;
      var first := (last + 1) % n;
      NaiveWalks(catalog, first, k - 1);
      var ps := Picks(NaiveSelection(last), catalog, k);
      assert ps == [first] + Picks(NaiveSelection(first), catalog, k - 1);
      forall j | 1 <= j < k
        ensures ps[j] == (last + 1 + j) % n
      {
        Modular.ModAddLeft(last + 1, 1 + (j - 1), n);
      }
    }
  }

  /**
   * A fresh Naive policy returns entry `j mod n` on its `j`-th call: the first
   * `n` calls return every entry once, in catalog order, and then it cycles.
   */
  lemma NaiveCycles(catalog: seq<FacilityType>, k: nat)
    requires |catalog| > 0
    ensures |Picks(NaiveSelection(-1), catalog, k)| == k
    ensures forall j :: 0 <= j < k ==> Picks(NaiveSelection(-1), catalog, k)[j] == j % |catalog|
    ensures k == |catalog| ==> forall j :: 0 <= j < k ==> Picks(NaiveSelection(-1), catalog, k)[j] == j
  {
    NaiveWalks(catalog, -1, k);
    var ps := Picks(NaiveSelection(-1), catalog, k);
    forall j | 0 <= j < k
      ensures ps[j] == j % |catalog|
      ensures k == |catalog| ==> ps[j] == j
    {
      assert -1 + 1 + j == j;
      if k == |catalog| {
        Modular.DivModUnique(j, 0, j, |catalog|);
      }
    }
  }

  /** The example of two entries (3,3,3) and (10,0,0) from zero totals: spreads 0 and 10. */
  lemma ExampleSpreads(a: FacilityType, b: FacilityType)
    requires a.scores == Scores(3, 3, 3) && b.scores == Scores(10, 0, 0)
    ensures SpreadWith(NoScores, a) == 0 && SpreadWith(NoScores, b) == 10
  {
    assert NoScores.Plus(a.scores) == Scores(3, 3, 3);
    assert NoScores.Plus(b.scores) == Scores(10, 0, 0);
  }

  /** Balanced picks (3,3,3) over (10,0,0) from zero totals, and its totals become (3,3,3). */
  lemma BalancedPrefersEvenSpread(a: FacilityType, b: FacilityType)
    requires a.scores == Scores(3, 3, 3) && b.scores == Scores(10, 0, 0)
    ensures Select(BalancedSelection(NoScores), [a, b]) == Some(Pick(0, BalancedSelection(Scores(3, 3, 3))))
  {
    ExampleSpreads(a, b);
    FirstOfTwo(a, b, NoScores);
  }

  /** Of two entries, Balanced takes the first when its spread is strictly smaller. */
  lemma FirstOfTwo(a: FacilityType, b: FacilityType, totals: Scores)
    requires SpreadWith(totals, a) < SpreadWith(totals, b)
    ensures Select(BalancedSelection(totals), [a, b]) == Some(Pick(0, BalancedSelection(totals.Plus(a.scores))))
  {
    var catalog := [a, b];
    assert EarliestMinimum(catalog, totals, 0, 1);
    assert EarliestMinimum(catalog, totals, 0, 2);
    assert BestFrom(catalog, totals, 0, None) == Some(0);
  }
}
