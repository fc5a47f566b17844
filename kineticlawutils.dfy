/**
 * Helpers of the kinetic-law builder: the font size chosen for an
 * equation, the colour groups handed to the LaTeX renderer, and the
 * colouring of assigned species in an equation. Species placeholders are
 * coloured by role.
 */
module KineticLawUtils {
  import opened Wrappers
  import opened Text
  import opened Seqs
  import opened KineticLaws

  // ---------------------------------------------------------------------
  // getEquationSize
  // ---------------------------------------------------------------------

  /** `getEquationSize(equation)`: the display size, by the equation's length. */
  function GetEquationSize(equation: string): (r: string)
    ensures r == "large" || r == "normal" || r == "small"
    ensures r == "large" <==> |equation| < 45
    ensures r == "small" <==> |equation| >= 70
  {
    if |equation| < 45 then "large"
    else if |equation| < 70 then "normal"
    else "small"
  }

  /** Sizes from largest to smallest. */
  function SizeRank(size: string): nat
  {
    if size == "large" then 0 else if size == "normal" then 1 else 2
  }

  /** A longer equation is never shown in a larger size. */
  lemma SizeShrinksWithLength(a: string, b: string)
    requires |a| <= |b|
    ensures SizeRank(GetEquationSize(a)) <= SizeRank(GetEquationSize(b))
  {
  }

  // ---------------------------------------------------------------------
  // SPECIES_ROLE_COLORS
  // ---------------------------------------------------------------------

  /** `SPECIES_ROLE_COLORS[role]`, `None` for a role that is not a key. */
  function RoleColor(role: string): Option<string>
  {
    if role == "substrate" then Some("#1890ff")
    else if role == "product" then Some("#52c41a")
    else if role == "inhibitor" then Some("#f5222d")
    else if role == "activator" then Some("#722ed1")
    else if role == "enzyme" then Some("#fa8c16")
    else if role == "modifier" then Some("#13c2c2")
    else None
  }

  /** Each role has a colour of its own. */
  lemma RoleColorsDistinct(a: string, b: string)
    requires RoleColor(a).Some? && RoleColor(a) == RoleColor(b)
    ensures a == b
  {
  }

  /** Every species of the normalised catalogue has a role with a colour. */
  lemma CatalogueRolesColoured(s: JsonSpeciesDefinition)
    ensures RoleColor(TransformSpecies(s).role).Some?
  {
    var r := TransformSpecies(s).role;
    assert r in AppRoles;
  }

  // ---------------------------------------------------------------------
  // createColoredSymbolsMap
  // ---------------------------------------------------------------------

  /** One entry of the renderer's colour map. */
  datatype ColoredSymbols = ColoredSymbols(symbols: seq<string>, color: string)

  /**
   * The symbol a placeholder contributes: its own id when no form values
   * are given, else the species assigned to it in the form, if any (an
   * empty assignment counts as none).
   */
  function SymbolOf(p: SpeciesDefinition, formValues: Option<map<string, string>>): Option<string>
  {
    match formValues
    case None => Some(p.id)
    case Some(m) =>
      var key := "species_" + p.id;
      if key in m && m[key] != "" then Some(m[key]) else None
  }

  function OptionToSeq(o: Option<string>): seq<string>
  {
    match o
    case None => []
    case Some(x) => [x]
  }

  /**
   * The dictionary `colorGroups`: its symbol lists, and its keys in
   * insertion order, which is the order `Object.entries` lists them in
   * since no colour key looks like an array index.
   */
  datatype Groups = Groups(order: seq<string>, symbols: map<string, seq<string>>)

  ghost predicate WellFormed(g: Groups)
  {
    NoDup(g.order) && forall c :: c in g.symbols <==> c in g.order
  }

  /** One `forEach` step: the placeholder's colour group is created if missing, and its symbol appended. */
  function AddPlaceholder(g: Groups, p: SpeciesDefinition, formValues: Option<map<string, string>>): Groups
  {
    match RoleColor(p.role)
    case None => g
    case Some(c) =>
      var order := if c in g.symbols then g.order else g.order + [c];
      var current := if c in g.symbols then g.symbols[c] else [];
      Groups(order, g.symbols[c := current + OptionToSeq(SymbolOf(p, formValues))])
  }

  /** The groups after visiting `species` in order. */
  function Fill(species: seq<SpeciesDefinition>, formValues: Option<map<string, string>>): (g: Groups)
    ensures WellFormed(g)
    decreases |species|
  {
    if species == [] then Groups([], map[])
    else AddPlaceholder(Fill(species[..|species| - 1], formValues), species[|species| - 1], formValues)
  }

  /** The colour map of a law, `[]` when no law is selected. */
  function ColoredSymbolsMap(law: Option<KineticLawDefinition>, formValues: Option<map<string, string>>): seq<ColoredSymbols>
  {
    match law
    case None => []
    case Some(l) =>
      var g := Fill(l.species, formValues);
      seq(|g.order|, k requires 0 <= k < |g.order| => ColoredSymbols(g.symbols[g.order[k]], g.order[k]))
  }

  /** The `forEach` callback: one placeholder's symbol joins its colour group, which is created when missing. */
  method AddToColorGroup(order: seq<string>, groups: map<string, seq<string>>, p: SpeciesDefinition,
                         formValues: Option<map<string, string>>)
    returns (order': seq<string>, groups': map<string, seq<string>>)
    ensures Groups(order', groups') == AddPlaceholder(Groups(order, groups), p, formValues)
  {
    order', groups' := order, groups;
    var color := RoleColor(p.role);
    if color.Some? {
      var c := color.value;
      if c !in groups' {
        groups' := groups'[c := []];
        order' := order' + [c];
      }
      ghost var current := groups'[c];
      assert current == if c in groups then groups[c] else [];
      assert groups' == groups[c := current];
      match formValues {
        case Some(m) =>
          var key := "species_" + p.id;
          assert !(key in m && m[key] != "") ==> current + OptionToSeq(SymbolOf(p, formValues)) == current;
          if key in m && m[key] != "" {
            groups' := groups'[c := groups'[c] + [m[key]]];
          }
        case None =>
          groups' := groups'[c := groups'[c] + [p.id]];
      }
      assert groups' == groups[c := current + OptionToSeq(SymbolOf(p, formValues))];
    }
  }

  /** `createColoredSymbolsMap(selectedLaw, formValues)`. */
  method CreateColoredSymbolsMap(law: Option<KineticLawDefinition>, formValues: Option<map<string, string>>)
    returns (r: seq<ColoredSymbols>)
    ensures r == ColoredSymbolsMap(law, formValues)
  {
    if law.None? {
      return [];
    }
    var species := law.value.species;
    var order: seq<string> := [];
    var groups: map<string, seq<string>> := map[];
    for i := 0 to |species|
      invariant Groups(order, groups) == Fill(species[..i], formValues)
    {
      assert species[..i + 1][..i] == species[..i];
      order, groups := AddToColorGroup(order, groups, species[i], formValues);
    }
    assert species[..|species|] == species;
    r := seq(|order|, k requires 0 <= k < |order| => ColoredSymbols(groups[order[k]], order[k]));
  }

  /** The colours of the placeholders that have one, in placeholder order, with repeats. */
  function ColorsOf(species: seq<SpeciesDefinition>): seq<string>
    decreases |species|
  {
    if species == [] then []
    else
      var front := ColorsOf(species[..|species| - 1]);
      match RoleColor(species[|species| - 1].role)
      case None => front
      case Some(c) => front + [c]
  }

  /** There is one group per distinct colour, in order of first appearance. */
  lemma {:induction false} GroupsInFirstAppearanceOrder(species: seq<SpeciesDefinition>, formValues: Option<map<string, string>>)
    ensures Fill(species, formValues).order == Dedup(ColorsOf(species))
    decreases |species|
  {
    if species != [] {
      var front := species[..|species| - 1];
      GroupsInFirstAppearanceOrder(front, formValues);
      var c := RoleColor(species[|species| - 1].role);
      if c.Some? {
        DedupSnoc(ColorsOf(front), c.value);
      }
    }
  }

  /** The placeholder `species[k]` contributes `sym` to the group of colour `c`. */
  predicate Contributes(species: seq<SpeciesDefinition>, formValues: Option<map<string, string>>, k: nat, c: string, sym: string)
    requires k < |species|
  {
    RoleColor(species[k].role) == Some(c) && SymbolOf(species[k], formValues) == Some(sym)
  }

  /** One step adds at most the visited placeholder's symbol, and only to its own colour's group. */
  lemma AddPlaceholderMembers(g: Groups, p: SpeciesDefinition, formValues: Option<map<string, string>>, c: string, sym: string)
    ensures var g' := AddPlaceholder(g, p, formValues);
      (c in g'.symbols && sym in g'.symbols[c]) <==>
      (c in g.symbols && sym in g.symbols[c]) || (RoleColor(p.role) == Some(c) && SymbolOf(p, formValues) == Some(sym))
  {
  }

  /** A placeholder of `species` contributes when one of its front does, or the last one does. */
  lemma ContributesSnoc(species: seq<SpeciesDefinition>, formValues: Option<map<string, string>>, c: string, sym: string)
    requires species != []
    ensures var n := |species| - 1;
      (exists k :: 0 <= k < |species| && Contributes(species, formValues, k, c, sym)) <==>
      (exists k :: 0 <= k < n && Contributes(species[..n], formValues, k, c, sym)) || Contributes(species, formValues, n, c, sym)
  {
    var n := |species| - 1;
    var front := species[..n];
    if exists k :: 0 <= k < |species| && Contributes(species, formValues, k, c, sym) {
      var k :| 0 <= k < |species| && Contributes(species, formValues, k, c, sym);
      if k < n {
        assert front[k] == species[k];
        assert Contributes(front, formValues, k, c, sym);
      }
    }
    if exists k :: 0 <= k < n && Contributes(front, formValues, k, c, sym) {
      var k :| 0 <= k < n && Contributes(front, formValues, k, c, sym);
      assert front[k] == species[k];
      assert Contributes(species, formValues, k, c, sym);
    }
  }

  /** A symbol is in a colour's group exactly when some placeholder of that colour contributes it. */
  lemma {:induction false} GroupMembers(species: seq<SpeciesDefinition>, formValues: Option<map<string, string>>, c: string, sym: string)
    ensures var g := Fill(species, formValues);
      (c in g.symbols && sym in g.symbols[c]) <==> exists k :: 0 <= k < |species| && Contributes(species, formValues, k, c, sym)
    decreases |species|
  {
    if species != [] {
      var n := |species| - 1;
      var front := species[..n];
      assert Fill(species, formValues) == AddPlaceholder(Fill(front, formValues), species[n], formValues);
      GroupMembers(front, formValues, c, sym);
      AddPlaceholderMembers(Fill(front, formValues), species[n], formValues, c, sym);
      ContributesSnoc(species, formValues, c, sym);
    }
  }


  /** A role's group exists as soon as one placeholder has that role, whether or not anything was assigned to it. */
  lemma {:induction false} GroupPerColour(species: seq<SpeciesDefinition>, formValues: Option<map<string, string>>, k: nat)
    requires k < |species| && RoleColor(species[k].role).Some?
    ensures RoleColor(species[k].role).value in Fill(species, formValues).symbols
    decreases |species|
  {
    var n := |species| - 1;
    if k < n {
      GroupPerColour(species[..n], formValues, k);
    }
  }

  /** Without form values every placeholder id appears in the group of its role's colour. */
  lemma PlaceholderIdsListed(species: seq<SpeciesDefinition>, k: nat)
    requires k < |species| && RoleColor(species[k].role).Some?
    ensures var c := RoleColor(species[k].role).value;
      c in Fill(species, None).symbols && species[k].id in Fill(species, None).symbols[c]
  {
    GroupMembers(species, None, RoleColor(species[k].role).value, species[k].id);
  }

  /** With form values every listed symbol is a non-empty species assignment of a placeholder of that colour. */
  lemma OnlyAssignedListed(species: seq<SpeciesDefinition>, m: map<string, string>, c: string, sym: string)
    requires c in Fill(species, Some(m)).symbols && sym in Fill(species, Some(m)).symbols[c]
    ensures sym != ""
    ensures exists k :: (0 <= k < |species| && RoleColor(species[k].role) == Some(c) &&
      "species_" + species[k].id in m && m["species_" + species[k].id] == sym)
  {
    GroupMembers(species, Some(m), c, sym);
    var k :| 0 <= k < |species| && Contributes(species, Some(m), k, c, sym);
  }

  /** A substrate placeholder with nothing assigned still gets its (empty) group. */
  lemma EmptyGroupExample()
    ensures ColoredSymbolsMap(
      Some(KineticLawDefinition("v", "Rate", "chemical", "k*[s]", "", [], [SpeciesDefinition("s", "S", "substrate", true, "")])),
      Some(map[])) == [ColoredSymbols([], "#1890ff")]
  {
    var species := [SpeciesDefinition("s", "S", "substrate", true, "")];
    assert species[..0] == [];
  }

  // ---------------------------------------------------------------------
  // colorizeEquation
  // ---------------------------------------------------------------------

  /** Global literal replacement, left to right and without overlaps. */
  function ReplaceAll(s: string, pat: string, rep: string): string
    requires pat != []
    decreases |s|
  {
    if |s| < |pat| then s
    else if s[..|pat|] == pat then rep + ReplaceAll(s[|pat|..], pat, rep)
    else [s[0]] + ReplaceAll(s[1..], pat, rep)
  }

  /** Replacing a pattern that does not occur changes nothing. */
  lemma {:induction false} ReplaceAllAbsent(s: string, pat: string, rep: string)
    requires pat != [] && !Contains(s, pat)
    ensures ReplaceAll(s, pat, rep) == s
    decreases |s|
  {
    if |s| >= |pat| {
      assert !OccursAt(s, pat, 0);
      assert !Contains(s[1..], pat) by {
        forall i | 0 <= i <= |s[1..]| - |pat|
          ensures !OccursAt(s[1..], pat, i)
        {
          assert s[1..][i..i + |pat|] == s[i + 1..i + 1 + |pat|];
          assert !OccursAt(s, pat, i + 1);
        }
      }
      ReplaceAllAbsent(s[1..], pat, rep);
      assert s == [s[0]] + s[1..];
    }
  }

  /** The colour as the template literal renders it. */
  function ColorText(color: Option<string>): string
  {
    match color
    case None => "undefined"
    case Some(c) => c
  }

  /** One `forEach` step: an assigned species `[id]` is wrapped in `\textcolor{colour}{...}` everywhere. */
  function ColorizeStep(equation: string, p: SpeciesDefinition, formValues: map<string, string>): string
  {
    var key := "species_" + p.id;
    if key in formValues && formValues[key] != "" then
      var id := formValues[key];
      ReplaceAll(equation, "[" + id + "]", "\\textcolor{" + ColorText(RoleColor(p.role)) + "}{[" + id + "]}")
    else equation
  }

  /** The equation after visiting `species` in order. */
  function Colorized(equation: string, species: seq<SpeciesDefinition>, formValues: map<string, string>): string
    decreases |species|
  {
    if species == [] then equation
    else ColorizeStep(Colorized(equation, species[..|species| - 1], formValues), species[|species| - 1], formValues)
  }

  /** `colorizeEquation(equation, selectedLaw, formValues)`. */
  method ColorizeEquation(equation: string, law: Option<KineticLawDefinition>, formValues: map<string, string>)
    returns (r: string)
    ensures law.None? ==> r == equation
    ensures law.Some? ==> r == Colorized(equation, law.value.species, formValues)
  {
    if law.None? {
      return equation;
    }
    var species := law.value.species;
    r := equation;
    for i := 0 to |species|
      invariant r == Colorized(equation, species[..i], formValues)
    {
      assert species[..i + 1][..i] == species[..i];
      var p := species[i];
      var key := "species_" + p.id;
      if key in formValues && formValues[key] != "" {
        var id := formValues[key];
        r := ReplaceAll(r, "[" + id + "]", "\\textcolor{" + ColorText(RoleColor(p.role)) + "}{[" + id + "]}");
      }
    }
    assert species[..|species|] == species;
  }

  /** With no species assigned in the form, the equation is returned unchanged. */
  lemma {:induction false} ColorizeWithoutAssignments(equation: string, species: seq<SpeciesDefinition>, formValues: map<string, string>)
    requires forall k :: 0 <= k < |species| ==> ("species_" + species[k].id) !in formValues || formValues["species_" + species[k].id] == ""
    ensures Colorized(equation, species, formValues) == equation
    decreases |species|
  {
    if species != [] {
      ColorizeWithoutAssignments(equation, species[..|species| - 1], formValues);
    }
  }
}
