/**
 * The vessel commands: single and batch adds under fresh "v"
 * identifiers, creation from builder defaults, and the listing.
 */
module Vessels {
  import opened Wrappers
  import opened EnzymeML
  import opened States
  import opened Ids
  import opened ByIdMacros
  import opened UnitTables

  function VesselIdOf(v: Vessel): string { v.id }

  function VesselIds(vs: seq<Vessel>): (ids: seq<string>)
    ensures |ids| == |vs| && forall k :: 0 <= k < |vs| ==> ids[k] == vs[k].id
  {
    seq(|vs|, k requires 0 <= k < |vs| => vs[k].id)
  }

  /** The assignment `object.id = id`. */
  function SetVesselId(v: Vessel, id: string): (v': Vessel)
    ensures v'.id == id && v' == v.(id := id)
  {
    v.(id := id)
  }

  /** `add_vessel`: the vessel is appended under the next free "v" identifier, which is returned. */
  method AddVessel(st: EnzymeMLState, obj: Vessel) returns (id: string)
    modifies st
    ensures id == FreshId(VesselIds(old(st.doc.vessels)), VesselPrefix)
    ensures st.doc == old(st.doc).(vessels := old(st.doc.vessels) + [SetVesselId(obj, id)])
    ensures st.paramBuffer == old(st.paramBuffer) && st.title == old(st.title) && st.id == old(st.id)
  {
    id := GenerateId(VesselIds(st.doc.vessels), VesselPrefix);
    st.doc := st.doc.(vessels := st.doc.vessels + [SetVesselId(obj, id)]);
  }

  /** The added vessel carries an identifier no other vessel had and reads back as added. */
  lemma AddVesselReadable(vs: seq<Vessel>, obj: Vessel)
    ensures var id := FreshId(VesselIds(vs), VesselPrefix);
      id !in VesselIds(vs) &&
      GetById(vs + [SetVesselId(obj, id)], VesselIdOf, id) == Ok(SetVesselId(obj, id))
  {
    var existing := VesselIds(vs);
    BatchOfOne(existing, VesselPrefix);
    BatchReadable(vs, VesselIdOf, existing, VesselPrefix, [SetVesselId(obj, FreshId(existing, VesselPrefix))], 0);
  }

  /** `add_vessels`: every vessel gets the next batch identifier, then all are appended in input order. */
  method AddVessels(st: EnzymeMLState, data: seq<Vessel>) returns (ids: seq<string>)
    modifies st
    ensures ids == BatchIds(VesselIds(old(st.doc.vessels)), VesselPrefix, |data|)
    ensures st.doc == old(st.doc).(vessels := old(st.doc.vessels) + WithKeys(data, ids, SetVesselId))
    ensures st.paramBuffer == old(st.paramBuffer) && st.title == old(st.title) && st.id == old(st.id)
  {
    var objects;
    objects, ids := AssignIds(data, VesselIds(st.doc.vessels), VesselPrefix, SetVesselId);
    st.doc := st.doc.(vessels := st.doc.vessels + objects);
  }

  /** A batch's identifiers are one per input, pairwise distinct, new, and each reads back its vessel. */
  lemma AddVesselsSpec(vs: seq<Vessel>, data: seq<Vessel>)
    ensures var ids := BatchIds(VesselIds(vs), VesselPrefix, |data|);
      |ids| == |data| &&
      (forall i :: 0 <= i < |ids| ==> ids[i] !in VesselIds(vs)) &&
      (forall i, j :: 0 <= i < j < |ids| ==> ids[i] != ids[j]) &&
      (forall k :: 0 <= k < |ids| ==>
        GetById(vs + WithKeys(data, ids, SetVesselId), VesselIdOf, ids[k]) == Ok(SetVesselId(data[k], ids[k])))
  {
    var existing := VesselIds(vs);
    var ids := BatchIds(existing, VesselPrefix, |data|);
    BatchIdsFresh(existing, VesselPrefix, |data|);
    var objects := WithKeys(data, ids, SetVesselId);
    forall k | 0 <= k < |data|
      ensures GetById(vs + objects, VesselIdOf, ids[k]) == Ok(objects[k])
    {
      BatchReadable(vs, VesselIdOf, existing, VesselPrefix, objects, k);
    }
  }

  /**
   * The vessel `create_vessel` builds: "New Vessel" of volume 1.0 in the
   * unit `get_unit("ml")` returns; `mlName` is the display name the unit
   * library attaches to it.
   */
  function NewVessel(defaults: Vessel, id: string, unit: UnitExpr, mlName: Option<string>): (v: Vessel)
    ensures v.id == id && v.name == "New Vessel" && v.volume == 1.0
    ensures v.unit == UnitDefinition(mlName, unit) && v.constant == defaults.constant
  {
    defaults.(id := id, name := "New Vessel", volume := 1.0, unit := UnitDefinition(mlName, unit))
  }

  /** `create_vessel`: a new vessel in millilitres under the next free "v" identifier. */
  method CreateVessel(st: EnzymeMLState, defaults: Vessel, mlName: Option<string>) returns (id: string)
    modifies st
    ensures id == FreshId(VesselIds(old(st.doc.vessels)), VesselPrefix)
    ensures GetUnit("ml").Ok? && GetUnit("ml").value == Simple(Milli, Litre)
    ensures st.doc == old(st.doc).(vessels := old(st.doc.vessels) + [NewVessel(defaults, id, GetUnit("ml").value, mlName)])
    ensures st.paramBuffer == old(st.paramBuffer) && st.title == old(st.title) && st.id == old(st.id)
  {
    var ml := GetUnit("ml");
    assert "ml" in VolumeUnits();
    id := GenerateId(VesselIds(st.doc.vessels), VesselPrefix);
    st.doc := st.doc.(vessels := st.doc.vessels + [NewVessel(defaults, id, ml.value, mlName)]);
  }

  /** `list_vessels`: identifier and name of each vessel, in document order. */
  function ListVessels(doc: Document): (r: seq<(string, string)>)
    ensures |r| == |doc.vessels|
    ensures forall k :: 0 <= k < |r| ==> r[k] == (doc.vessels[k].id, doc.vessels[k].name)
  {
    seq(|doc.vessels|, k requires 0 <= k < |doc.vessels| => (doc.vessels[k].id, doc.vessels[k].name))
  }
}
