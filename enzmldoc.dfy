/**
 * Document-level queries and the title command: species identifiers and
 * names across the three species kinds, and the non-constant species.
 */
module EnzmlDoc {
  import opened Wrappers
  import opened EnzymeML
  import opened Seqs
  import opened States

  function SmallMoleculeIds(ms: seq<SmallMolecule>): (ids: seq<string>)
    ensures |ids| == |ms| && forall i :: 0 <= i < |ms| ==> ids[i] == ms[i].id
  {
    seq(|ms|, i requires 0 <= i < |ms| => ms[i].id)
  }

  function ProteinIds(ps: seq<Protein>): (ids: seq<string>)
    ensures |ids| == |ps| && forall i :: 0 <= i < |ps| ==> ids[i] == ps[i].id
  {
    seq(|ps|, i requires 0 <= i < |ps| => ps[i].id)
  }

  function ComplexIds(cs: seq<Complex>): (ids: seq<string>)
    ensures |ids| == |cs| && forall i :: 0 <= i < |cs| ==> ids[i] == cs[i].id
  {
    seq(|cs|, i requires 0 <= i < |cs| => cs[i].id)
  }

  /** `extract_species_ids`: small molecules, then proteins, then complexes. */
  function SpeciesIds(doc: Document): (ids: seq<string>)
    ensures |ids| == |doc.smallMolecules| + |doc.proteins| + |doc.complexes|
    ensures forall s :: s in ids <==>
      (exists i :: 0 <= i < |doc.smallMolecules| && doc.smallMolecules[i].id == s) ||
      (exists i :: 0 <= i < |doc.proteins| && doc.proteins[i].id == s) ||
      (exists i :: 0 <= i < |doc.complexes| && doc.complexes[i].id == s)
  {
    var a := SmallMoleculeIds(doc.smallMolecules);
    var b := ProteinIds(doc.proteins);
    var c := ComplexIds(doc.complexes);
    assert forall s :: s in a + b + c <==> s in a || s in b || s in c;
    a + b + c
  }

  /** `get_all_species_ids_and_names`: (id, name) pairs in the same order as `SpeciesIds`. */
  function SpeciesIdsAndNames(doc: Document): (r: seq<(string, string)>)
  {
    seq(|doc.smallMolecules|, i requires 0 <= i < |doc.smallMolecules| =>
        (doc.smallMolecules[i].id, doc.smallMolecules[i].name))
    + seq(|doc.proteins|, i requires 0 <= i < |doc.proteins| => (doc.proteins[i].id, doc.proteins[i].name))
    + seq(|doc.complexes|, i requires 0 <= i < |doc.complexes| => (doc.complexes[i].id, doc.complexes[i].name))
  }

  /** The pairs list exactly the species identifiers, position by position. */
  lemma PairsMatchIds(doc: Document)
    ensures |SpeciesIdsAndNames(doc)| == |SpeciesIds(doc)|
    ensures forall i :: 0 <= i < |SpeciesIds(doc)| ==> SpeciesIdsAndNames(doc)[i].0 == SpeciesIds(doc)[i]
  {
  }

  /** `get_species_name`: the name of the first species with the identifier. */
  function GetSpeciesName(doc: Document, speciesId: string): (r: Result<string, string>)
    ensures r.Err? ==> r.error == "Species with ID " + speciesId + " not found"
    ensures r.Ok? ==> (exists i :: 0 <= i < |SpeciesIdsAndNames(doc)| && SpeciesIdsAndNames(doc)[i].0 == speciesId &&
                         r.value == SpeciesIdsAndNames(doc)[i].1 &&
                         forall j :: 0 <= j < i ==> SpeciesIdsAndNames(doc)[j].0 != speciesId)
  {
    match FindWhere(SpeciesIdsAndNames(doc), (p: (string, string)) => p.0 == speciesId) {
      case None => Err("Species with ID " + speciesId + " not found")
      case Some(p) => Ok(p.1)
    }
  }

  /** A name is found exactly for the identifiers of the document's species. */
  lemma GetSpeciesNameFound(doc: Document, speciesId: string)
    ensures GetSpeciesName(doc, speciesId).Ok? <==> speciesId in SpeciesIds(doc)
  {
    PairsMatchIds(doc);
    var pairs := SpeciesIdsAndNames(doc);
    var ids := SpeciesIds(doc);
    if speciesId in ids {
      var i :| 0 <= i < |ids| && ids[i] == speciesId;
      assert pairs[i].0 == speciesId;
    } else {
      assert forall i :: 0 <= i < |pairs| ==> pairs[i].0 != speciesId by {
        forall i | 0 <= i < |pairs|
          ensures pairs[i].0 != speciesId
        {
          assert pairs[i].0 == ids[i];
        }
      }
    }
  }

  /** A small molecule's name is reported for its identifier when it comes first. */
  lemma GetSpeciesNameFirstSmallMolecule(doc: Document)
    requires |doc.smallMolecules| > 0
    ensures GetSpeciesName(doc, doc.smallMolecules[0].id) == Ok(doc.smallMolecules[0].name)
  {
    IndexWhereFirst(SpeciesIdsAndNames(doc), (p: (string, string)) => p.0 == doc.smallMolecules[0].id, 0);
  }


  /** `get_all_non_constant_species_ids`: non-constant small molecules, then non-constant proteins. */
  function NonConstantSpeciesIds(doc: Document): (ids: seq<string>)
  {
    SmallMoleculeIds(Filter(doc.smallMolecules, (m: SmallMolecule) => !m.constant))
    + ProteinIds(Filter(doc.proteins, (p: Protein) => !p.constant))
  }

  /** The non-constant small molecules' identifiers are exactly those of the non-constant small molecules. */
  lemma NonConstantSmallMoleculeIds(ms: seq<SmallMolecule>, s: string)
    ensures s in SmallMoleculeIds(Filter(ms, (m: SmallMolecule) => !m.constant)) <==>
      exists i :: 0 <= i < |ms| && ms[i].id == s && !ms[i].constant
  {
    var fm := Filter(ms, (m: SmallMolecule) => !m.constant);
    var ids := SmallMoleculeIds(fm);
    if s in ids {
      var k :| 0 <= k < |ids| && ids[k] == s;
      var x := fm[k];
      assert x in ms && !x.constant && x.id == s;
      var i :| 0 <= i < |ms| && ms[i] == x;
      assert ms[i].id == s && !ms[i].constant;
    }
    if exists i :: 0 <= i < |ms| && ms[i].id == s && !ms[i].constant {
      var i :| 0 <= i < |ms| && ms[i].id == s && !ms[i].constant;
      assert ms[i] in fm;
      var k :| 0 <= k < |fm| && fm[k] == ms[i];
      assert ids[k] == s;
    }
  }

  /** The non-constant proteins' identifiers are exactly those of the non-constant proteins. */
  lemma NonConstantProteinIds(ps: seq<Protein>, s: string)
    ensures s in ProteinIds(Filter(ps, (p: Protein) => !p.constant)) <==>
      exists i :: 0 <= i < |ps| && ps[i].id == s && !ps[i].constant
  {
    var fp := Filter(ps, (p: Protein) => !p.constant);
    var ids := ProteinIds(fp);
    if s in ids {
      var k :| 0 <= k < |ids| && ids[k] == s;
      var x := fp[k];
      assert x in ps && !x.constant && x.id == s;
      var i :| 0 <= i < |ps| && ps[i] == x;
      assert ps[i].id == s && !ps[i].constant;
    }
    if exists i :: 0 <= i < |ps| && ps[i].id == s && !ps[i].constant {
      var i :| 0 <= i < |ps| && ps[i].id == s && !ps[i].constant;
      assert ps[i] in fp;
      var k :| 0 <= k < |fp| && fp[k] == ps[i];
      assert ids[k] == s;
    }
  }

  /** Every reported identifier is a non-constant small molecule or protein, and each such species is reported. */
  lemma NonConstantSpeciesIdsSpec(doc: Document, s: string)
    ensures s in NonConstantSpeciesIds(doc) <==>
      (exists i :: 0 <= i < |doc.smallMolecules| && doc.smallMolecules[i].id == s && !doc.smallMolecules[i].constant) ||
      (exists i :: 0 <= i < |doc.proteins| && doc.proteins[i].id == s && !doc.proteins[i].constant)
  {
    NonConstantSmallMoleculeIds(doc.smallMolecules, s);
    NonConstantProteinIds(doc.proteins, s);
    var a := SmallMoleculeIds(Filter(doc.smallMolecules, (m: SmallMolecule) => !m.constant));
    var b := ProteinIds(Filter(doc.proteins, (p: Protein) => !p.constant));
    assert s in a + b <==> s in a || s in b;
  }


  /**
   * `set_title`: the document's name and the state's title both become
   * `title`. `emitted` is how the "update_document" event went; its
   * failure is reported after the change is made.
   */
  method SetTitle(st: EnzymeMLState, title: string, emitted: Result<Unit, string>) returns (r: Result<Unit, string>)
    modifies st
    ensures st.title == title && st.doc == old(st.doc).(name := title)
    ensures st.paramBuffer == old(st.paramBuffer) && st.id == old(st.id)
    ensures r == emitted
  {
    st.doc := st.doc.(name := title);
    st.title := title;
    r := emitted;
  }
}
