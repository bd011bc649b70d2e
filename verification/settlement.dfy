/** Settlements: a name and a type that fixes how many facilities may be built at once. */
module Settlements {
  import opened Wrappers

  datatype SettlementType = Village | City | Metropolis

  datatype Settlement = Settlement(name: string, kind: SettlementType)

  function TypeCode(t: SettlementType): int {
    match t
    case Village => 0
    case City => 1
    case Metropolis => 2
  }

  /**
   * `static_cast<SettlementType>(code)` restricted to the three enumerators; a
   * code outside them is refused (see the README on why).
   */
  function SettlementTypeOf(code: int): (r: Option<SettlementType>)
    ensures r.Some? <==> 0 <= code <= 2
    ensures r.Some? ==> TypeCode(r.value) == code
  {
    if code == 0 then Some(Village)
    else if code == 1 then Some(City)
    else if code == 2 then Some(Metropolis)
    else None
  }
}
