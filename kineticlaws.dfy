/**
 * The kinetic-law catalogue of the frontend: the bundled JSON definitions
 * are normalised into the application's law, parameter and species
 * records, laws repeated under one id are dropped, and the JSON
 * categories are mapped onto the five application categories. The JSON
 * asset itself is a parameter.
 */
module KineticLaws {
  import opened Wrappers
  import opened Seqs
  import opened ByIdMacros

  datatype JsonParameterDefinition = JsonParameterDefinition(
    id: string, symbol: string, shortDescription: string, longDescription: string)

  datatype JsonSpeciesDefinition = JsonSpeciesDefinition(
    id: string, role: string, required: bool, shortDescription: string, longDescription: string)

  datatype JsonKineticLaw = JsonKineticLaw(
    id: string, name: string, category: string, equation: string, description: string,
    parameters: seq<JsonParameterDefinition>, species: seq<JsonSpeciesDefinition>)

  datatype ParameterDefinition = ParameterDefinition(id: string, name: string, symbol: string, description: string)

  datatype SpeciesDefinition = SpeciesDefinition(id: string, name: string, role: string, required: bool, description: string)

  datatype KineticLawDefinition = KineticLawDefinition(
    id: string, name: string, category: string, equation: string, description: string,
    parameters: seq<ParameterDefinition>, species: seq<SpeciesDefinition>)

  /** A category of the catalogue's menu. */
  datatype KineticLawCategory = KineticLawCategory(key: string, labelText: string, color: string)

  /** The six species roles of the application. */
  const AppRoles: set<string> := {"substrate", "product", "inhibitor", "activator", "enzyme", "modifier"}

  /** The five law categories of the application. */
  const AppCategories: set<string> := {"chemical", "enzymatic", "cooperative", "inhibition", "transport"}

  /** `roleMap` of `transformSpecies`. */
  function RoleMap(role: string): Option<string>
  {
    if role == "Reactant" || role == "Substrate" then Some("substrate")
    else if role == "Product" then Some("product")
    else if role == "Inhibitor" then Some("inhibitor")
    else if role == "Activator" then Some("activator")
    else if role == "Enzyme" then Some("enzyme")
    else if role == "Modifier" then Some("modifier")
    else None
  }

  /** `categoryMap` of `transformKineticLaw`. */
  function CategoryMap(category: string): Option<string>
  {
    if category == "Mass Action Rate Law" then Some("chemical")
    else if category == "Enzymatic Rate Law" then Some("enzymatic")
    else if category == "Hill-type Rate Law, Generalised Form" then Some("cooperative")
    else if category == "Inhibition" then Some("inhibition")
    else if category == "Activation" then Some("enzymatic")
    else if category == "Transport" then Some("transport")
    else None
  }

  /** `categoryMappings` of the category extraction. */
  function CategoryMapping(category: string): Option<KineticLawCategory>
  {
    if category == "Mass Action Rate Law" then Some(KineticLawCategory("chemical", "Chemical", "#52c41a"))
    else if category == "Enzymatic Rate Law" then Some(KineticLawCategory("enzymatic", "Enzymatic", "#1890ff"))
    else if category == "Hill-type Rate Law, Generalised Form" then Some(KineticLawCategory("cooperative", "Cooperative", "#722ed1"))
    else if category == "Inhibition" then Some(KineticLawCategory("inhibition", "Inhibition", "#ff4d4f"))
    else if category == "Activation" then Some(KineticLawCategory("enzymatic", "Enzymatic", "#1890ff"))
    else if category == "Transport" then Some(KineticLawCategory("transport", "Transport", "#13c2c2"))
    else None
  }

  /**
   * The two tables agree: a JSON category is mapped to a law category by
   * `categoryMap` exactly when `categoryMappings` has an entry with that key.
   */
  lemma CategoryTablesAgree(category: string)
    ensures CategoryMap(category).Some? <==> CategoryMapping(category).Some?
    ensures CategoryMap(category).Some? ==> CategoryMap(category).value == CategoryMapping(category).value.key
    ensures CategoryMap(category).Some? ==> CategoryMap(category).value in AppCategories
  {
  }

  /** `transformParameter`: the short description is both name and description. */
  function TransformParameter(p: JsonParameterDefinition): (r: ParameterDefinition)
    ensures r.id == p.id && r.symbol == p.symbol
    ensures r.name == r.description == p.shortDescription
  {
    ParameterDefinition(p.id, p.shortDescription, p.symbol, p.shortDescription)
  }

  /** `transformSpecies`: the role through `roleMap`, `substrate` when unknown; the long description unless it is empty. */
  function TransformSpecies(s: JsonSpeciesDefinition): (r: SpeciesDefinition)
    ensures r.id == s.id && r.required == s.required && r.name == s.shortDescription
    ensures r.role in AppRoles
    ensures RoleMap(s.role).None? ==> r.role == "substrate"
    ensures r.description == if s.longDescription != "" then s.longDescription else s.shortDescription
  {
    SpeciesDefinition(
      s.id, s.shortDescription,
      match RoleMap(s.role) case Some(role) => role case None => "substrate",
      s.required,
      if s.longDescription != "" then s.longDescription else s.shortDescription)
  }

  /** The role table covers the application's roles: each is reached from a JSON role name. */
  lemma RoleMapOnto(role: string)
    requires role in AppRoles
    ensures exists json :: RoleMap(json) == Some(role)
  {
    if role == "substrate" { assert RoleMap("Substrate") == Some(role); }
    else if role == "product" { assert RoleMap("Product") == Some(role); }
    else if role == "inhibitor" { assert RoleMap("Inhibitor") == Some(role); }
    else if role == "activator" { assert RoleMap("Activator") == Some(role); }
    else if role == "enzyme" { assert RoleMap("Enzyme") == Some(role); }
    else { assert RoleMap("Modifier") == Some(role); }
  }

  /** `transformKineticLaw`: the category through `categoryMap`, `chemical` when unknown. */
  function TransformKineticLaw(law: JsonKineticLaw): (r: KineticLawDefinition)
    ensures r.id == law.id && r.name == law.name && r.equation == law.equation && r.description == law.description
    ensures r.category in AppCategories
    ensures CategoryMap(law.category).None? ==> r.category == "chemical"
    ensures |r.parameters| == |law.parameters| && |r.species| == |law.species|
    ensures forall k :: 0 <= k < |r.parameters| ==> r.parameters[k] == TransformParameter(law.parameters[k])
    ensures forall k :: 0 <= k < |r.species| ==> r.species[k] == TransformSpecies(law.species[k])
  {
    KineticLawDefinition(
      law.id, law.name,
      match CategoryMap(law.category) case Some(c) => c case None => "chemical",
      law.equation, law.description,
      seq(|law.parameters|, k requires 0 <= k < |law.parameters| => TransformParameter(law.parameters[k])),
      seq(|law.species|, k requires 0 <= k < |law.species| => TransformSpecies(law.species[k])))
  }

  function LawId(law: KineticLawDefinition): string { law.id }

  /** The law at `i` is the first with its id: the `findIndex` of its id is `i`. */
  predicate FirstOfId(laws: seq<KineticLawDefinition>, i: nat)
    requires i < |laws|
  {
    forall j :: 0 <= j < i ==> laws[j].id != laws[i].id
  }

  /** The filter's test is the first-occurrence test. */
  lemma FindIndexIsFirst(laws: seq<KineticLawDefinition>, i: nat)
    requires i < |laws|
    ensures IndexWhere(laws, (l: KineticLawDefinition) => l.id == laws[i].id) == Some(i) <==> FirstOfId(laws, i)
  {
    if FirstOfId(laws, i) {
      IndexWhereFirst(laws, (l: KineticLawDefinition) => l.id == laws[i].id, i);
    }
  }

  /** The laws `filter((law, index, self) => index === self.findIndex(l => l.id === law.id))` keeps. */
  function UniqueLaws(laws: seq<KineticLawDefinition>): (r: seq<KineticLawDefinition>)
    ensures |r| <= |laws|
    ensures forall k :: 0 <= k < |r| ==> r[k] in laws
    decreases |laws|
  {
    if laws == [] then []
    else
      var n := |laws| - 1;
      UniqueLaws(laws[..n]) + (if FirstOfId(laws, n) then [laws[n]] else [])
  }

  /** The deduplicated catalogue holds each id at most once. */
  lemma {:induction false} UniqueLawsDistinct(laws: seq<KineticLawDefinition>)
    ensures UniqueKeys(UniqueLaws(laws), LawId)
    decreases |laws|
  {
    if laws != [] {
      var n := |laws| - 1;
      var front := laws[..n];
      UniqueLawsDistinct(front);
      var u := UniqueLaws(front);
      if FirstOfId(laws, n) {
        forall k | 0 <= k < |u|
          ensures u[k].id != laws[n].id
        {
          var j :| 0 <= j < |front| && front[j] == u[k];
        }
      }
    }
  }

  /** A read of any id in the deduplicated catalogue finds the same law as in the full list: the first with that id. */
  lemma {:induction false} UniqueLawsLookup(laws: seq<KineticLawDefinition>, id: string)
    ensures GetById(UniqueLaws(laws), LawId, id) == GetById(laws, LawId, id)
    decreases |laws|
  {
    if laws != [] {
      var n := |laws| - 1;
      var front, x := laws[..n], laws[n];
      var u := UniqueLaws(front);
      assert laws == front + [x];
      UniqueLawsLookup(front, id);
      GetByIdSnoc(front, LawId, x, id);
      if FirstOfId(laws, n) {
        assert UniqueLaws(laws) == u + [x];
        GetByIdSnoc(u, LawId, x, id);
      } else {
        assert UniqueLaws(laws) == u;
      }
    }
  }

  /** `getKineticLawById(id)`: the first law with the id, if any. */
  function GetKineticLawById(laws: seq<KineticLawDefinition>, id: string): (r: Option<KineticLawDefinition>)
    ensures r.None? <==> forall j :: 0 <= j < |laws| ==> laws[j].id != id
    ensures r.Some? ==> r.value.id == id && r.value in laws
  {
    match GetById(laws, LawId, id)
    case Ok(law) => Some(law)
    case Err(_) => None
  }

  /** Looking a law up in the deduplicated catalogue gives the first law of that id in the JSON order. */
  lemma CatalogueLookup(laws: seq<KineticLawDefinition>, id: string)
    ensures GetKineticLawById(UniqueLaws(laws), id) == GetKineticLawById(laws, id)
  {
    UniqueLawsLookup(laws, id);
  }

  /** `getKineticLawsByCategory(categoryKey)`. */
  function GetKineticLawsByCategory(laws: seq<KineticLawDefinition>, categoryKey: string): (r: seq<KineticLawDefinition>)
    ensures forall k :: 0 <= k < |r| ==> r[k].category == categoryKey && r[k] in laws
    ensures forall k :: 0 <= k < |laws| && laws[k].category == categoryKey ==> laws[k] in r
  {
    Filter(laws, (l: KineticLawDefinition) => l.category == categoryKey)
  }

  function CategoryKey(c: KineticLawCategory): string { c.key }

  /** The keys of a categories map. */
  function KeysOf(entries: seq<KineticLawCategory>): set<string>
  {
    set e | e in entries :: e.key
  }

  /** `Map.set(key, value)` on an insertion-ordered map: an existing key keeps its place and takes the new value. */
  function SetEntry(entries: seq<KineticLawCategory>, m: KineticLawCategory): (r: seq<KineticLawCategory>)
    ensures UniqueKeys(entries, CategoryKey) ==> UniqueKeys(r, CategoryKey)
    ensures KeysOf(r) == KeysOf(entries) + {m.key}
    ensures forall e :: e in r ==> e == m || e in entries
    ensures m in r
  {
    match IndexWhere(entries, (e: KineticLawCategory) => e.key == m.key)
    case None =>
      assert KeysOf(entries + [m]) == KeysOf(entries) + {m.key};
      entries + [m]
    case Some(i) =>
      var r := entries[i := m];
      assert forall e :: e in r ==> e == m || e in entries by {
        forall e | e in r
          ensures e == m || e in entries
        {
          var j :| 0 <= j < |r| && r[j] == e;
          if j != i { assert e == entries[j]; }
        }
      }
      assert forall e :: e in entries ==> e.key in KeysOf(r) by {
        forall e | e in entries
          ensures e.key in KeysOf(r)
        {
          var j :| 0 <= j < |entries| && entries[j] == e;
          if j == i { assert r[i] == m; } else { assert r[j] == e; }
        }
      }
      assert r[i] == m;
      r
  }

  /** The keys the JSON categories are mapped to. */
  function MappedKeys(categories: seq<string>): set<string>
  {
    set c | c in categories && CategoryMapping(c).Some? :: CategoryMapping(c).value.key
  }

  /** The entries the JSON categories are mapped to. */
  function MappedValues(categories: seq<string>): set<KineticLawCategory>
  {
    set c | c in categories && CategoryMapping(c).Some? :: CategoryMapping(c).value
  }

  /** The categories map after visiting `categories` in order. */
  function MappedCategories(categories: seq<string>): seq<KineticLawCategory>
    decreases |categories|
  {
    if categories == [] then []
    else
      var front := MappedCategories(categories[..|categories| - 1]);
      match CategoryMapping(categories[|categories| - 1])
      case None => front
      case Some(m) => SetEntry(front, m)
  }

  /**
   * The category extraction: the distinct JSON categories in order of
   * first appearance (`new Set(...)`), each mapped entry set under its key.
   */
  method ExtractCategories(jsonCategories: seq<string>) returns (categories: seq<KineticLawCategory>)
    ensures categories == MappedCategories(Dedup(jsonCategories))
  {
    var distinct := Dedup(jsonCategories);
    categories := [];
    for i := 0 to |distinct|
      invariant categories == MappedCategories(distinct[..i])
    {
      assert distinct[..i + 1][..i] == distinct[..i];
      var mapping := CategoryMapping(distinct[i]);
      if mapping.Some? {
        categories := SetEntry(categories, mapping.value);
      }
    }
    assert distinct[..|distinct|] == distinct;
  }

  /**
   * The extracted categories have distinct keys, a key is present exactly
   * when some JSON category maps to it, and each entry is the mapping of a
   * JSON category.
   */
  lemma {:induction false} MappedCategoriesSpec(categories: seq<string>)
    ensures UniqueKeys(MappedCategories(categories), CategoryKey)
    ensures KeysOf(MappedCategories(categories)) == MappedKeys(categories)
    ensures forall e :: e in MappedCategories(categories) ==> e in MappedValues(categories)
    decreases |categories|
  {
    if categories != [] {
      var front := categories[..|categories| - 1];
      var last := categories[|categories| - 1];
      assert categories == front + [last];
      MappedCategoriesSpec(front);
      assert MappedKeys(categories) == MappedKeys(front) + (if CategoryMapping(last).Some? then {CategoryMapping(last).value.key} else {});
      assert MappedValues(front) <= MappedValues(categories);
    }
  }

  /** 'Activation' and 'Enzymatic Rate Law' map to one and the same entry, so the merge loses nothing. */
  lemma ActivationMergesWithEnzymatic()
    ensures CategoryMapping("Activation") == CategoryMapping("Enzymatic Rate Law")
    ensures MappedCategories(["Enzymatic Rate Law", "Activation"]) == [CategoryMapping("Enzymatic Rate Law").value]
  {
    var cs := ["Enzymatic Rate Law", "Activation"];
    assert cs[..1] == ["Enzymatic Rate Law"];
    assert cs[..1][..0] == [];
  }

  /** Every law whose JSON category is mapped has its category in the categories list. */
  lemma LawCategoryListed(law: JsonKineticLaw, jsonCategories: seq<string>)
    requires law.category in jsonCategories && CategoryMap(law.category).Some?
    ensures TransformKineticLaw(law).category in KeysOf(MappedCategories(Dedup(jsonCategories)))
  {
    DedupSpec(jsonCategories);
    CategoryTablesAgree(law.category);
    MappedCategoriesSpec(Dedup(jsonCategories));
    assert law.category in Dedup(jsonCategories);
  }
}
