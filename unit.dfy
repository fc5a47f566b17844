/**
 * The unit catalogue: seven tables from a short unit name ("ml", "mM",
 * "K", ...) to a unit, the unit-type names the front end sends, and
 * lookup of one unit across all tables.
 *
 * A table value is the expression the unit macro is given (`[m litre]`,
 * `[u mole] / [_ litre]`); the full definition the macro expands to
 * (its display name and SI base units) belongs to the EnzymeML library.
 */
module UnitTables {
  import opened Wrappers
  import opened EnzymeML

  datatype UnitType = Volume | Mass | Time | Moles | Concentration | MassConcentration | Temperature

  /** The lowercase name the front end uses for each unit type. */
  function TypeName(t: UnitType): string
  {
    match t
    case Volume => "volume"
    case Mass => "mass"
    case Time => "time"
    case Moles => "moles"
    case Concentration => "concentration"
    case MassConcentration => "mass_concentration"
    case Temperature => "temperature"
  }

  /** `UnitType::from(String)`: exactly the seven lowercase names; anything else panics. */
  function UnitTypeFrom(s: string): (r: Outcome<UnitType>)
    ensures r.Returned? <==> s in {"volume", "mass", "time", "moles", "concentration", "mass_concentration", "temperature"}
    ensures r.Returned? ==> TypeName(r.value) == s
    ensures r.Panicked? ==> r.message == "Invalid unit type"
  {
    if s == "volume" then Returned(Volume)
    else if s == "mass" then Returned(Mass)
    else if s == "time" then Returned(Time)
    else if s == "moles" then Returned(Moles)
    else if s == "concentration" then Returned(Concentration)
    else if s == "mass_concentration" then Returned(MassConcentration)
    else if s == "temperature" then Returned(Temperature)
    else Panicked("Invalid unit type")
  }

  /** Every unit type round-trips through its name. */
  lemma UnitTypeFromName(t: UnitType)
    ensures UnitTypeFrom(TypeName(t)) == Returned(t)
  {
  }

  /** `[p base]`. */
  function Simple(p: Prefix, b: BaseUnit): UnitExpr { UnitExpr(Factor(p, b), None) }

  /** `[p base] / [q base']`. */
  function Ratio(p: Prefix, b: BaseUnit, q: Prefix, c: BaseUnit): UnitExpr { UnitExpr(Factor(p, b), Some(Factor(q, c))) }

  function VolumeUnits(): map<string, UnitExpr>
  {
    map["l" := Simple(NoPrefix, Litre), "ml" := Simple(Milli, Litre), "ul" := Simple(Micro, Litre),
        "nl" := Simple(Nano, Litre), "pl" := Simple(Pico, Litre)]
  }

  function MassUnits(): map<string, UnitExpr>
  {
    map["g" := Simple(NoPrefix, Gram), "mg" := Simple(Milli, Gram), "ug" := Simple(Micro, Gram),
        "ng" := Simple(Nano, Gram), "pg" := Simple(Pico, Gram)]
  }

  /** The time table as `time_units` builds it: "days" is entered with the hours unit. */
  function TimeUnitsAsWritten(): map<string, UnitExpr>
  {
    map["days" := Simple(NoPrefix, Hours), "hours" := Simple(NoPrefix, Hours), "mins" := Simple(NoPrefix, Minutes),
        "s" := Simple(NoPrefix, Second), "ms" := Simple(Milli, Second), "us" := Simple(Micro, Second),
        "ns" := Simple(Nano, Second), "ps" := Simple(Pico, Second)]
  }

  /** The intended time table, with "days" bound to the day unit; a reference only, the lookups use the table as written. */
  function TimeUnits(): map<string, UnitExpr>
  {
    TimeUnitsAsWritten()["days" := Simple(NoPrefix, Day)]
  }

  function MolesUnits(): map<string, UnitExpr>
  {
    map["mol" := Simple(NoPrefix, Mole), "mmol" := Simple(Milli, Mole), "umol" := Simple(Micro, Mole),
        "nmol" := Simple(Nano, Mole), "pmol" := Simple(Pico, Mole)]
  }

  function ConcentrationUnits(): map<string, UnitExpr>
  {
    map["M" := Ratio(NoPrefix, Mole, NoPrefix, Litre), "mM" := Ratio(Milli, Mole, NoPrefix, Litre),
        "uM" := Ratio(Micro, Mole, NoPrefix, Litre), "nM" := Ratio(Nano, Mole, NoPrefix, Litre),
        "pM" := Ratio(Pico, Mole, NoPrefix, Litre)]
  }

  function MassConcentrationUnits(): map<string, UnitExpr>
  {
    map["g/l" := Ratio(NoPrefix, Gram, NoPrefix, Litre), "mg/l" := Ratio(Milli, Gram, NoPrefix, Litre),
        "ug/l" := Ratio(Micro, Gram, NoPrefix, Litre), "ng/l" := Ratio(Nano, Gram, NoPrefix, Litre),
        "pg/l" := Ratio(Pico, Gram, NoPrefix, Litre)]
  }

  function TemperatureUnits(): map<string, UnitExpr>
  {
    map["K" := Simple(NoPrefix, Kelvin)]
  }

  /** `UnitDefinitions::default()`, one table per type. */
  function Table(t: UnitType): map<string, UnitExpr>
  {
    match t
    case Volume => VolumeUnits()
    case Mass => MassUnits()
    case Time => TimeUnitsAsWritten()
    case Moles => MolesUnits()
    case Concentration => ConcentrationUnits()
    case MassConcentration => MassConcentrationUnits()
    case Temperature => TemperatureUnits()
  }

  /** `get_units`: always succeeds, with the table of the type. */
  function GetUnits(t: UnitType): (r: Result<map<string, UnitExpr>, string>)
    ensures r.Ok? && r.value == Table(t)
  {
    Ok(Table(t))
  }

  /** `get_unit`: the tables are searched volume, mass, time, moles, concentration, mass concentration, temperature. */
  function GetUnit(name: string): (r: Result<UnitExpr, string>)
    ensures r.Err? ==> r.error == "Unit not found"
  {
    if name in VolumeUnits() then Ok(VolumeUnits()[name])
    else if name in MassUnits() then Ok(MassUnits()[name])
    else if name in TimeUnitsAsWritten() then Ok(TimeUnitsAsWritten()[name])
    else if name in MolesUnits() then Ok(MolesUnits()[name])
    else if name in ConcentrationUnits() then Ok(ConcentrationUnits()[name])
    else if name in MassConcentrationUnits() then Ok(MassConcentrationUnits()[name])
    else if name in TemperatureUnits() then Ok(TemperatureUnits()[name])
    else Err("Unit not found")
  }

  /** Which table a name can belong to, read off its last characters. */
  function KindOf(name: string): Option<UnitType>
  {
    if |name| == 0 then None
    else
      var last := name[|name| - 1];
      if last == 'M' then Some(Concentration)
      else if last == 'g' then Some(Mass)
      else if last == 's' then Some(Time)
      else if last == 'K' then Some(Temperature)
      else if last == 'l' then
        if |name| <= 2 then Some(Volume)
        else if name[|name| - 2] == '/' then Some(MassConcentration)
        else Some(Moles)
      else None
  }

  lemma KindOfTable(t: UnitType, name: string)
    requires name in Table(t)
    ensures KindOf(name) == Some(t)
  {
    match t
    case Volume =>
      assert name in {"l", "ml", "ul", "nl", "pl"};
    case Mass =>
      assert name in {"g", "mg", "ug", "ng", "pg"};
    case Time =>
      assert name in {"days", "hours", "mins", "s", "ms", "us", "ns", "ps"};
    case Moles =>
      assert name in {"mol", "mmol", "umol", "nmol", "pmol"};
    case Concentration =>
      assert name in {"M", "mM", "uM", "nM", "pM"};
    case MassConcentration =>
      assert name in {"g/l", "mg/l", "ug/l", "ng/l", "pg/l"};
    case Temperature =>
  }

  /** No unit name is in two tables (the names are case-sensitive: "M" is not "m"). */
  lemma TablesDisjoint(t: UnitType, u: UnitType, name: string)
    requires t != u && name in Table(t)
    ensures name !in Table(u)
  {
    KindOfTable(t, name);
    if name in Table(u) {
      KindOfTable(u, name);
    }
  }

  /** A name of the table `t` is in no other table. */
  lemma NotInOtherTable(t: UnitType, name: string)
    requires name in Table(t)
    ensures t != Volume ==> name !in VolumeUnits()
    ensures t != Mass ==> name !in MassUnits()
    ensures t != Time ==> name !in TimeUnitsAsWritten()
    ensures t != Moles ==> name !in MolesUnits()
    ensures t != Concentration ==> name !in ConcentrationUnits()
    ensures t != MassConcentration ==> name !in MassConcentrationUnits()
  {
    if t != Volume { TablesDisjoint(t, Volume, name); }
    if t != Mass { TablesDisjoint(t, Mass, name); }
    if t != Time { TablesDisjoint(t, Time, name); }
    if t != Moles { TablesDisjoint(t, Moles, name); }
    if t != Concentration { TablesDisjoint(t, Concentration, name); }
    if t != MassConcentration { TablesDisjoint(t, MassConcentration, name); }
  }

  /** Because the tables are disjoint the search order never matters: a name is found in the one table holding it. */
  lemma GetUnitFindsTable(t: UnitType, name: string)
    requires name in Table(t)
    ensures GetUnit(name) == Ok(Table(t)[name])
  {
    NotInOtherTable(t, name);
  }

  /** `get_unit` fails exactly for names in no table. */
  lemma GetUnitNotFound(name: string)
    ensures GetUnit(name).Err? <==> forall t :: name !in Table(t)
  {
    if GetUnit(name).Ok? {
      assert name in Table(Volume) || name in Table(Mass) || name in Table(Time) || name in Table(Moles) ||
        name in Table(Concentration) || name in Table(MassConcentration) || name in Table(Temperature);
    }
  }

  /** The temperature table holds only "K". */
  lemma TemperatureIsKelvinOnly()
    ensures Table(Temperature).Keys == {"K"}
  {
  }

  /** As written, "days" and "hours" are the same unit, and a lookup of "days" yields hours. */
  lemma DaysAreHoursAsWritten()
    ensures "days" in TimeUnitsAsWritten() && "hours" in TimeUnitsAsWritten()
    ensures TimeUnitsAsWritten()["days"] == TimeUnitsAsWritten()["hours"]
    ensures GetUnit("days") == GetUnit("hours") == Ok(Simple(NoPrefix, Hours))
  {
    GetUnitFindsTable(Time, "days");
    GetUnitFindsTable(Time, "hours");
  }

  /** The intended table differs from the one written only in the value of "days". */
  lemma TimeTablesDifferInDaysOnly(name: string)
    ensures name in TimeUnits() <==> name in TimeUnitsAsWritten()
    ensures name in TimeUnits() && name != "days" ==> TimeUnits()[name] == TimeUnitsAsWritten()[name]
    ensures TimeUnits()["days"] != TimeUnitsAsWritten()["days"]
  {
  }

  /** With "days" bound to the day unit, no two time names denote the same unit. */
  lemma TimeUnitsInjective(a: string, b: string)
    requires a in TimeUnits() && b in TimeUnits() && a != b
    ensures TimeUnits()[a] != TimeUnits()[b]
  {
  }
}
