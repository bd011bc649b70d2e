/**
 * Facility types (catalog entries) and facility instances with their
 * construction state machine.
 */
module Facilities {

  /** The three score dimensions a facility contributes to a plan. */
  datatype Scores = Scores(lifeQuality: int, economy: int, environment: int) {
    function Plus(other: Scores): Scores {
      Scores(lifeQuality + other.lifeQuality, economy + other.economy, environment + other.environment)
    }
  }

  const NoScores := Scores(0, 0, 0)

  /**
   * `FacilityCategory`. The source casts any configuration integer to the
   * enumeration, so a code outside 0..2 yields a category matching no named
   * one; `Unlisted` keeps that code.
   */
  datatype FacilityCategory = LifeQuality | Economy | Environment | Unlisted(code: int)

  function CategoryCode(c: FacilityCategory): int {
    match c
    case LifeQuality => 0
    case Economy => 1
    case Environment => 2
    case Unlisted(code) => code
  }

  /** `static_cast<FacilityCategory>(code)`. */
  function CategoryOf(code: int): (c: FacilityCategory)
    ensures CategoryCode(c) == code
    ensures c.Unlisted? <==> !(0 <= code <= 2)
  {
    if code == 0 then LifeQuality
    else if code == 1 then Economy
    else if code == 2 then Environment
    else Unlisted(code)
  }

  /** A catalog entry; `price` is both its cost and its construction time in steps. */
  datatype FacilityType = FacilityType(name: string, category: FacilityCategory, price: int, scores: Scores)

  datatype FacilityStatus = UnderConstruction | Operational

  /** A facility instance: a snapshot of its type, bound to a settlement, with its progress. */
  datatype Facility = Facility(kind: FacilityType, settlementName: string, status: FacilityStatus, timeLeft: int)

  /** `Facility(const FacilityType &, const string &)`: a fresh construction site. */
  function NewFacility(kind: FacilityType, settlementName: string): (f: Facility)
    ensures f.kind == kind && f.settlementName == settlementName
    ensures f.status == UnderConstruction && f.timeLeft == kind.price
  {
    Facility(kind, settlementName, UnderConstruction, kind.price)
  }

  /** `Facility::step`: one step of construction; the new status is `r.status`. */
  function Step(f: Facility): (r: Facility)
    ensures r.kind == f.kind && r.settlementName == f.settlementName
    ensures r.timeLeft <= f.timeLeft
    ensures f.timeLeft >= 0 ==> r.timeLeft >= 0
    ensures f.status == UnderConstruction && f.timeLeft > 0 ==> r.timeLeft == f.timeLeft - 1
    ensures r.status == Operational <==> f.status == Operational || (f.status == UnderConstruction && f.timeLeft == 1)
    ensures f.status == Operational ==> r == f
    ensures f.status == UnderConstruction && f.timeLeft <= 0 ==> r == f
  {
    if f.status == UnderConstruction && f.timeLeft > 0 then
      var t := f.timeLeft - 1;
      f.(timeLeft := t, status := if t == 0 then Operational else UnderConstruction)
    else f
  }

  /** `k` successive calls of `Step`. */
  function Run(f: Facility, k: nat): Facility
    decreases k
  {
    if k == 0 then f else Run(Step(f), k - 1)
  }

  /**
   * A facility under construction with `m >= 1` steps left stays under
   * construction, one step less each time, for `m - 1` steps and is operational
   * with nothing left from step `m` on.
   */
  lemma {:induction false} RunUnderConstruction(f: Facility, k: nat)
    requires f.status == UnderConstruction && f.timeLeft >= 1
    ensures k < f.timeLeft ==> Run(f, k) == f.(timeLeft := f.timeLeft - k)
    ensures k >= f.timeLeft ==> Run(f, k) == f.(timeLeft := 0, status := Operational)
    decreases k
  {
    if k > 0 {
      var g := Step(f);
      if f.timeLeft == 1 {
        OperationalIsFixed(g, k - 1);
      } else {
        RunUnderConstruction(g, k - 1);
      }
    }
  }

  /** Once operational, stepping changes nothing. */
  lemma {:induction false} OperationalIsFixed(f: Facility, k: nat)
    requires f.status == Operational
    ensures Run(f, k) == f
    decreases k
  {
    if k > 0 {
      OperationalIsFixed(Step(f), k - 1);
    }
  }

  /** A facility of price `p >= 1` becomes operational on its `p`-th step and not before. */
  lemma FinishesAfterPrice(kind: FacilityType, settlementName: string, k: nat)
    requires kind.price >= 1
    ensures Run(NewFacility(kind, settlementName), k).status == Operational <==> k >= kind.price
    ensures k <= kind.price ==> Run(NewFacility(kind, settlementName), k).timeLeft == kind.price - k
  {
    RunUnderConstruction(NewFacility(kind, settlementName), k);
  }

  /** A facility of price `p <= 0` never leaves construction: stepping it is a no-op. */
  lemma {:induction false} NeverFinishes(kind: FacilityType, settlementName: string, k: nat)
    requires kind.price <= 0
    ensures Run(NewFacility(kind, settlementName), k) == NewFacility(kind, settlementName)
    decreases k
  {
    if k > 0 {
      NeverFinishes(kind, settlementName, k - 1);
    }
  }
}
