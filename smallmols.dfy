/**
 * The small-molecule commands: single and batch adds under fresh "s"
 * identifiers, creation from builder defaults, the listings, and the
 * delete that also drops the species' equation.
 */
module SmallMols {
  import opened Wrappers
  import opened EnzymeML
  import opened States
  import opened Ids
  import opened ByIdMacros
  import opened EnzmlDoc

  function SmallMoleculeIdOf(m: SmallMolecule): string { m.id }

  function EquationSpeciesOf(e: Equation): string { e.speciesId }

  /** The assignment `object.id = id`. */
  function SetSmallMoleculeId(m: SmallMolecule, id: string): (m': SmallMolecule)
    ensures m'.id == id && m' == m.(id := id)
  {
    m.(id := id)
  }

  /** `add_small_mol`: the molecule is appended under the next free "s" identifier, which is returned. */
  method AddSmallMol(st: EnzymeMLState, obj: SmallMolecule) returns (id: string)
    modifies st
    ensures id == FreshId(SmallMoleculeIds(old(st.doc.smallMolecules)), SmallMoleculePrefix)
    ensures st.doc == old(st.doc).(smallMolecules := old(st.doc.smallMolecules) + [SetSmallMoleculeId(obj, id)])
    ensures st.paramBuffer == old(st.paramBuffer) && st.title == old(st.title) && st.id == old(st.id)
  {
    id := GenerateId(SmallMoleculeIds(st.doc.smallMolecules), SmallMoleculePrefix);
    st.doc := st.doc.(smallMolecules := st.doc.smallMolecules + [SetSmallMoleculeId(obj, id)]);
  }

  /** The added molecule carries an identifier no other molecule had and reads back as added. */
  lemma AddSmallMolReadable(ms: seq<SmallMolecule>, obj: SmallMolecule)
    ensures var id := FreshId(SmallMoleculeIds(ms), SmallMoleculePrefix);
      id !in SmallMoleculeIds(ms) &&
      GetById(ms + [SetSmallMoleculeId(obj, id)], SmallMoleculeIdOf, id) == Ok(SetSmallMoleculeId(obj, id))
  {
    var existing := SmallMoleculeIds(ms);
    BatchOfOne(existing, SmallMoleculePrefix);
    BatchReadable(ms, SmallMoleculeIdOf, existing, SmallMoleculePrefix, [SetSmallMoleculeId(obj, FreshId(existing, SmallMoleculePrefix))], 0);
  }

  /** `add_small_mols`: every molecule gets the next batch identifier, then all are appended in input order. */
  method AddSmallMols(st: EnzymeMLState, data: seq<SmallMolecule>) returns (ids: seq<string>)
    modifies st
    ensures ids == BatchIds(SmallMoleculeIds(old(st.doc.smallMolecules)), SmallMoleculePrefix, |data|)
    ensures st.doc == old(st.doc).(smallMolecules := old(st.doc.smallMolecules) + WithKeys(data, ids, SetSmallMoleculeId))
    ensures st.paramBuffer == old(st.paramBuffer) && st.title == old(st.title) && st.id == old(st.id)
  {
    var objects;
    objects, ids := AssignIds(data, SmallMoleculeIds(st.doc.smallMolecules), SmallMoleculePrefix, SetSmallMoleculeId);
    st.doc := st.doc.(smallMolecules := st.doc.smallMolecules + objects);
  }

  /** A batch's identifiers are one per input, pairwise distinct, new, and each reads back its molecule. */
  lemma AddSmallMolsSpec(ms: seq<SmallMolecule>, data: seq<SmallMolecule>)
    ensures var ids := BatchIds(SmallMoleculeIds(ms), SmallMoleculePrefix, |data|);
      |ids| == |data| &&
      (forall i :: 0 <= i < |ids| ==> ids[i] !in SmallMoleculeIds(ms)) &&
      (forall i, j :: 0 <= i < j < |ids| ==> ids[i] != ids[j]) &&
      (forall k :: 0 <= k < |ids| ==>
        GetById(ms + WithKeys(data, ids, SetSmallMoleculeId), SmallMoleculeIdOf, ids[k]) == Ok(SetSmallMoleculeId(data[k], ids[k])))
  {
    var existing := SmallMoleculeIds(ms);
    var ids := BatchIds(existing, SmallMoleculePrefix, |data|);
    BatchIdsFresh(existing, SmallMoleculePrefix, |data|);
    var objects := WithKeys(data, ids, SetSmallMoleculeId);
    forall k | 0 <= k < |data|
      ensures GetById(ms + objects, SmallMoleculeIdOf, ids[k]) == Ok(objects[k])
    {
      BatchReadable(ms, SmallMoleculeIdOf, existing, SmallMoleculePrefix, objects, k);
    }
  }

  /** The molecule `create_small_mol` builds: "New Small Molecule", not constant. */
  function NewSmallMolecule(defaults: SmallMolecule, id: string): (m: SmallMolecule)
    ensures m.id == id && m.name == "New Small Molecule" && !m.constant
    ensures m.canonicalSmiles == defaults.canonicalSmiles && m.references == defaults.references
  {
    defaults.(id := id, name := "New Small Molecule", constant := false)
  }

  /** `create_small_mol`: a new molecule under the next free "s" identifier; no equation is added. */
  method CreateSmallMol(st: EnzymeMLState, defaults: SmallMolecule) returns (id: string)
    modifies st
    ensures id == FreshId(SmallMoleculeIds(old(st.doc.smallMolecules)), SmallMoleculePrefix)
    ensures st.doc == old(st.doc).(smallMolecules := old(st.doc.smallMolecules) + [NewSmallMolecule(defaults, id)])
    ensures st.paramBuffer == old(st.paramBuffer) && st.title == old(st.title) && st.id == old(st.id)
  {
    id := GenerateId(SmallMoleculeIds(st.doc.smallMolecules), SmallMoleculePrefix);
    st.doc := st.doc.(smallMolecules := st.doc.smallMolecules + [NewSmallMolecule(defaults, id)]);
  }

  /** `list_small_mols`: identifier and name of each molecule, in document order. */
  function ListSmallMols(doc: Document): (r: seq<(string, string)>)
    ensures |r| == |doc.smallMolecules|
    ensures forall k :: 0 <= k < |r| ==> r[k] == (doc.smallMolecules[k].id, doc.smallMolecules[k].name)
  {
    seq(|doc.smallMolecules|, k requires 0 <= k < |doc.smallMolecules| => (doc.smallMolecules[k].id, doc.smallMolecules[k].name))
  }

  /** The SMILES a listing shows for a molecule: its canonical SMILES, or "NO_SMILES". */
  function SmilesOf(m: SmallMolecule): (s: string)
    ensures m.canonicalSmiles.Some? ==> s == m.canonicalSmiles.value
    ensures m.canonicalSmiles.None? ==> s == "NO_SMILES"
  {
    match m.canonicalSmiles {
      case Some(s) => s
      case None => "NO_SMILES"
    }
  }

  /**
   * `list_small_mol_smiles`: the molecules collected into a map from
   * identifier to SMILES; like collecting into a `HashMap`, a later
   * molecule with the same identifier overwrites an earlier one.
   */
  function SmilesMap(ms: seq<SmallMolecule>): map<string, string>
    decreases |ms|
  {
    if ms == [] then map[]
    else
      var last := ms[|ms| - 1];
      SmilesMap(ms[..|ms| - 1])[last.id := SmilesOf(last)]
  }

  /** The map has exactly the molecules' identifiers as keys. */
  lemma {:induction false} SmilesMapKeys(ms: seq<SmallMolecule>)
    ensures SmilesMap(ms).Keys == set k | 0 <= k < |ms| :: ms[k].id
    decreases |ms|
  {
    if ms != [] {
      var front := ms[..|ms| - 1];
      SmilesMapKeys(front);
      assert forall k :: 0 <= k < |front| ==> front[k] == ms[k];
      assert (set k | 0 <= k < |ms| :: ms[k].id) == (set k | 0 <= k < |front| :: front[k].id) + {ms[|ms| - 1].id};
    }
  }

  /** A molecule that no later molecule shares an identifier with is listed under its own SMILES. */
  lemma {:induction false} SmilesMapValue(ms: seq<SmallMolecule>, i: nat)
    requires i < |ms|
    requires forall j :: i < j < |ms| ==> ms[j].id != ms[i].id
    ensures ms[i].id in SmilesMap(ms) && SmilesMap(ms)[ms[i].id] == SmilesOf(ms[i])
    decreases |ms|
  {
    if i < |ms| - 1 {
      var front := ms[..|ms| - 1];
      SmilesMapValue(front, i);
    }
  }

  /**
   * `delete_small_mol`: the molecule is removed, then the equation whose
   * species is that identifier. Each removal panics when nothing matches;
   * a panic in the second leaves the first removal in place.
   */
  function DeleteSmallMolEffect(doc: Document, id: string): (Outcome<Result<Unit, string>>, Document)
  {
    match DeleteById(doc.smallMolecules, SmallMoleculeIdOf, id) {
      case Panicked(m) => (Panicked(m), doc)
      case Returned(ms) =>
        var doc1 := doc.(smallMolecules := ms);
        match DeleteById(doc1.equations, EquationSpeciesOf, id) {
          case Panicked(m) => (Panicked(m), doc1)
          case Returned(es) => (Returned(Ok(Unit)), doc1.(equations := es))
        }
    }
  }

  method DeleteSmallMol(st: EnzymeMLState, id: string) returns (r: Outcome<Result<Unit, string>>)
    modifies st
    ensures (r, st.doc) == DeleteSmallMolEffect(old(st.doc), id)
    ensures st.paramBuffer == old(st.paramBuffer) && st.title == old(st.title) && st.id == old(st.id)
  {
    var removed := DeleteById(st.doc.smallMolecules, SmallMoleculeIdOf, id);
    if removed.Panicked? {
      return Panicked(removed.message);
    }
    st.doc := st.doc.(smallMolecules := removed.value);
    var dropped := DeleteById(st.doc.equations, EquationSpeciesOf, id);
    if dropped.Panicked? {
      return Panicked(dropped.message);
    }
    st.doc := st.doc.(equations := dropped.value);
    r := Returned(Ok(Unit));
  }

  /**
   * With unique keys, a successful delete leaves neither the molecule nor
   * its equation readable, keeps every other molecule readable, and
   * touches nothing but the two collections. Without a molecule of that
   * identifier it panics and changes nothing; without an equation it
   * panics after the molecule is gone.
   */
  lemma DeleteSmallMolSpec(doc: Document, id: string, other: string)
    requires UniqueKeys(doc.smallMolecules, SmallMoleculeIdOf) && UniqueKeys(doc.equations, EquationSpeciesOf)
    ensures var (r, d) := DeleteSmallMolEffect(doc, id);
      r == Returned(Ok(Unit)) ==>
        GetById(d.smallMolecules, SmallMoleculeIdOf, id).Err? &&
        GetById(d.equations, EquationSpeciesOf, id).Err? &&
        (other != id ==> GetById(d.smallMolecules, SmallMoleculeIdOf, other) == GetById(doc.smallMolecules, SmallMoleculeIdOf, other)) &&
        d == doc.(smallMolecules := d.smallMolecules, equations := d.equations)
    ensures (forall j :: 0 <= j < |doc.smallMolecules| ==> doc.smallMolecules[j].id != id) ==>
      DeleteSmallMolEffect(doc, id) == (Panicked("Item not found"), doc)
    ensures ((exists j :: 0 <= j < |doc.smallMolecules| && doc.smallMolecules[j].id == id) &&
             (forall j :: 0 <= j < |doc.equations| ==> doc.equations[j].speciesId != id)) ==>
      DeleteSmallMolEffect(doc, id).0 == Panicked("Item not found") &&
      GetById(DeleteSmallMolEffect(doc, id).1.smallMolecules, SmallMoleculeIdOf, id).Err?
  {
    var removed := DeleteById(doc.smallMolecules, SmallMoleculeIdOf, id);
    if removed.Returned? {
      GetAfterDelete(doc.smallMolecules, SmallMoleculeIdOf, id, other);
      var dropped := DeleteById(doc.equations, EquationSpeciesOf, id);
      if dropped.Returned? {
        GetAfterDelete(doc.equations, EquationSpeciesOf, id, id);
      }
    }
  }
}
