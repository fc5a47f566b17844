/**
 * The protein commands: single and batch adds under fresh "p"
 * identifiers, creation from builder defaults, the listing, and a delete
 * that, unlike the small-molecule one, leaves the equations alone.
 */
module Proteins {
  import opened Wrappers
  import opened EnzymeML
  import opened States
  import opened Ids
  import opened ByIdMacros
  import opened EnzmlDoc

  function ProteinIdOf(p: Protein): string { p.id }

  /** The assignment `object.id = id`. */
  function SetProteinId(p: Protein, id: string): (p': Protein)
    ensures p'.id == id && p' == p.(id := id)
  {
    p.(id := id)
  }

  /** `add_protein`: the protein is appended under the next free "p" identifier, which is returned. */
  method AddProtein(st: EnzymeMLState, obj: Protein) returns (id: string)
    modifies st
    ensures id == FreshId(ProteinIds(old(st.doc.proteins)), ProteinPrefix)
    ensures st.doc == old(st.doc).(proteins := old(st.doc.proteins) + [SetProteinId(obj, id)])
    ensures st.paramBuffer == old(st.paramBuffer) && st.title == old(st.title) && st.id == old(st.id)
  {
    id := GenerateId(ProteinIds(st.doc.proteins), ProteinPrefix);
    st.doc := st.doc.(proteins := st.doc.proteins + [SetProteinId(obj, id)]);
  }

  /** The added protein carries an identifier no other protein had and reads back as added. */
  lemma AddProteinReadable(ps: seq<Protein>, obj: Protein)
    ensures var id := FreshId(ProteinIds(ps), ProteinPrefix);
      id !in ProteinIds(ps) &&
      GetById(ps + [SetProteinId(obj, id)], ProteinIdOf, id) == Ok(SetProteinId(obj, id))
  {
    var existing := ProteinIds(ps);
    BatchOfOne(existing, ProteinPrefix);
    BatchReadable(ps, ProteinIdOf, existing, ProteinPrefix, [SetProteinId(obj, FreshId(existing, ProteinPrefix))], 0);
  }

  /** `add_proteins`: every protein gets the next batch identifier, then all are appended in input order. */
  method AddProteins(st: EnzymeMLState, data: seq<Protein>) returns (ids: seq<string>)
    modifies st
    ensures ids == BatchIds(ProteinIds(old(st.doc.proteins)), ProteinPrefix, |data|)
    ensures st.doc == old(st.doc).(proteins := old(st.doc.proteins) + WithKeys(data, ids, SetProteinId))
    ensures st.paramBuffer == old(st.paramBuffer) && st.title == old(st.title) && st.id == old(st.id)
  {
    var objects;
    objects, ids := AssignIds(data, ProteinIds(st.doc.proteins), ProteinPrefix, SetProteinId);
    st.doc := st.doc.(proteins := st.doc.proteins + objects);
  }

  /** A batch's identifiers are one per input, pairwise distinct, new, and each reads back its protein. */
  lemma AddProteinsSpec(ps: seq<Protein>, data: seq<Protein>)
    ensures var ids := BatchIds(ProteinIds(ps), ProteinPrefix, |data|);
      |ids| == |data| &&
      (forall i :: 0 <= i < |ids| ==> ids[i] !in ProteinIds(ps)) &&
      (forall i, j :: 0 <= i < j < |ids| ==> ids[i] != ids[j]) &&
      (forall k :: 0 <= k < |ids| ==>
        GetById(ps + WithKeys(data, ids, SetProteinId), ProteinIdOf, ids[k]) == Ok(SetProteinId(data[k], ids[k])))
  {
    var existing := ProteinIds(ps);
    var ids := BatchIds(existing, ProteinPrefix, |data|);
    BatchIdsFresh(existing, ProteinPrefix, |data|);
    var objects := WithKeys(data, ids, SetProteinId);
    forall k | 0 <= k < |data|
      ensures GetById(ps + objects, ProteinIdOf, ids[k]) == Ok(objects[k])
    {
      BatchReadable(ps, ProteinIdOf, existing, ProteinPrefix, objects, k);
    }
  }

  /** The protein `create_protein` builds: "New Protein", constant. */
  function NewProtein(defaults: Protein, id: string): (p: Protein)
    ensures p.id == id && p.name == "New Protein" && p.constant
    ensures p.sequence == defaults.sequence && p.organism == defaults.organism
  {
    defaults.(id := id, name := "New Protein", constant := true)
  }

  /** `create_protein`: a new protein under the next free "p" identifier. */
  method CreateProtein(st: EnzymeMLState, defaults: Protein) returns (id: string)
    modifies st
    ensures id == FreshId(ProteinIds(old(st.doc.proteins)), ProteinPrefix)
    ensures st.doc == old(st.doc).(proteins := old(st.doc.proteins) + [NewProtein(defaults, id)])
    ensures st.paramBuffer == old(st.paramBuffer) && st.title == old(st.title) && st.id == old(st.id)
  {
    id := GenerateId(ProteinIds(st.doc.proteins), ProteinPrefix);
    st.doc := st.doc.(proteins := st.doc.proteins + [NewProtein(defaults, id)]);
  }

  /** `list_proteins`: identifier and name of each protein, in document order. */
  function ListProteins(doc: Document): (r: seq<(string, string)>)
    ensures |r| == |doc.proteins|
    ensures forall k :: 0 <= k < |r| ==> r[k] == (doc.proteins[k].id, doc.proteins[k].name)
  {
    seq(|doc.proteins|, k requires 0 <= k < |doc.proteins| => (doc.proteins[k].id, doc.proteins[k].name))
  }

  /** `delete_protein`: the protein is removed; a missing one panics and changes nothing. */
  method DeleteProtein(st: EnzymeMLState, id: string) returns (r: Outcome<Result<Unit, string>>)
    modifies st
    ensures r.Panicked? <==> DeleteById(old(st.doc.proteins), ProteinIdOf, id).Panicked?
    ensures r.Panicked? ==> r.message == "Item not found" && st.doc == old(st.doc)
    ensures r.Returned? ==> r.value == Ok(Unit)
    ensures r.Returned? ==> st.doc == old(st.doc).(proteins := DeleteById(old(st.doc.proteins), ProteinIdOf, id).value)
    ensures st.paramBuffer == old(st.paramBuffer) && st.title == old(st.title) && st.id == old(st.id)
  {
    var removed := DeleteById(st.doc.proteins, ProteinIdOf, id);
    if removed.Panicked? {
      return Panicked(removed.message);
    }
    st.doc := st.doc.(proteins := removed.value);
    r := Returned(Ok(Unit));
  }
}
