/**
 * The unit commands: one table, the union of several tables, and a single
 * unit by name. Errors would be turned into strings; none occur.
 */
module Units {
  import opened Wrappers
  import opened EnzymeML
  import opened UnitTables

  /** `get_unit_group`: the table of the type. */
  function GetUnitGroup(t: UnitType): (r: Result<map<string, UnitExpr>, string>)
    ensures r.Ok? && r.value == Table(t)
  {
    GetUnits(t)
  }

  /** The map `get_unit_groups` builds: each listed table in turn extends it, a later entry replacing an earlier one. */
  function Merged(types: seq<UnitType>): map<string, UnitExpr>
    decreases |types|
  {
    if types == [] then map[] else Merged(types[..|types| - 1]) + Table(types[|types| - 1])
  }

  method GetUnitGroups(types: seq<UnitType>) returns (r: Result<map<string, UnitExpr>, string>)
    ensures r == Ok(Merged(types))
  {
    var units: map<string, UnitExpr> := map[];
    for i := 0 to |types|
      invariant units == Merged(types[..i])
    {
      var group := GetUnits(types[i]);
      assert types[..i + 1][..i] == types[..i];
      units := units + group.value;
    }
    assert types[..|types|] == types;
    r := Ok(units);
  }

  /** No types, no units. */
  lemma MergedEmpty()
    ensures Merged([]) == map[]
  {
  }

  /** The merged names are exactly the names of the listed tables. */
  lemma {:induction false} MergedKeys(types: seq<UnitType>, name: string)
    ensures name in Merged(types) <==> exists i :: 0 <= i < |types| && name in Table(types[i])
    decreases |types|
  {
    if types != [] {
      var front := types[..|types| - 1];
      MergedKeys(front, name);
      assert forall i :: 0 <= i < |front| ==> front[i] == types[i];
      if name in Merged(types) && name !in Table(types[|types| - 1]) {
        var i :| 0 <= i < |front| && name in Table(front[i]);
        assert name in Table(types[i]);
      }
    }
  }

  /** Every merged name maps to the unit of any listed table holding it: the tables never disagree. */
  lemma {:induction false} MergedValue(types: seq<UnitType>, i: nat, name: string)
    requires i < |types| && name in Table(types[i])
    ensures name in Merged(types) && Merged(types)[name] == Table(types[i])[name]
    decreases |types|
  {
    var last := types[|types| - 1];
    var front := types[..|types| - 1];
    if i == |types| - 1 {
    } else {
      assert front[i] == types[i];
      MergedValue(front, i, name);
      if name in Table(last) {
        if last != types[i] {
          TablesDisjoint(types[i], last, name);
        }
      }
    }
  }

  /** The merged map depends only on which types are listed, so listing a type twice changes nothing. */
  lemma MergedSameTypes(ts: seq<UnitType>, us: seq<UnitType>)
    requires forall t :: t in ts <==> t in us
    ensures Merged(ts) == Merged(us)
  {
    forall name
      ensures name in Merged(ts) <==> name in Merged(us)
    {
      MergedKeys(ts, name);
      MergedKeys(us, name);
      if name in Merged(ts) {
        var i :| 0 <= i < |ts| && name in Table(ts[i]);
        assert ts[i] in us;
        var j :| 0 <= j < |us| && us[j] == ts[i];
      }
      if name in Merged(us) {
        var j :| 0 <= j < |us| && name in Table(us[j]);
        assert us[j] in ts;
        var i :| 0 <= i < |ts| && ts[i] == us[j];
      }
    }
    forall name | name in Merged(ts)
      ensures Merged(ts)[name] == Merged(us)[name]
    {
      MergedKeys(ts, name);
      var i :| 0 <= i < |ts| && name in Table(ts[i]);
      assert ts[i] in us;
      var j :| 0 <= j < |us| && us[j] == ts[i];
      MergedValue(ts, i, name);
      MergedValue(us, j, name);
    }
  }

  /** Listing a type again at the end gives the same map. */
  lemma ListedTwice(ts: seq<UnitType>, t: UnitType)
    requires t in ts
    ensures Merged(ts + [t]) == Merged(ts)
  {
    MergedSameTypes(ts + [t], ts);
  }

  /** `get_unit` (the command): found exactly when some table holds the name, and then with that table's unit. */
  function GetUnitByName(name: string): (r: Result<UnitExpr, string>)
    ensures r.Ok? <==> exists t :: name in Table(t)
    ensures forall t :: name in Table(t) ==> r == Ok(Table(t)[name])
    ensures r.Err? ==> r.error == "Unit not found"
  {
    GetUnitNotFound(name);
    forall t | name in Table(t)
      ensures GetUnit(name) == Ok(Table(t)[name])
    {
      GetUnitFindsTable(t, name);
    }
    GetUnit(name)
  }
}
