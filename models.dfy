/**
 * The conversions from document records to database rows. A stored row
 * starts with database identifier 0; the "new" rows used for inserts
 * carry no identifier. A small molecule's references are stored as one
 * comma-separated string, or as no value when there are none.
 */
module Models {
  import opened Wrappers
  import opened EnzymeML
  import opened Text

  datatype DBSmallMolecule = DBSmallMolecule(
    id: int, name: string, canonicalSmiles: Option<string>, inchi: Option<string>,
    inchikey: Option<string>, references: Option<string>)

  datatype DBNewSmallMolecule = DBNewSmallMolecule(
    name: string, canonicalSmiles: Option<string>, inchi: Option<string>,
    inchikey: Option<string>, references: Option<string>)

  datatype DBProtein = DBProtein(
    id: int, name: string, sequence: Option<string>, ecnumber: Option<string>,
    organism: Option<string>, organismTaxId: Option<string>)

  datatype DBNewProtein = DBNewProtein(
    name: string, sequence: Option<string>, ecnumber: Option<string>,
    organism: Option<string>, organismTaxId: Option<string>)

  datatype DBVessel = DBVessel(id: int, name: string, volume: real, unit: string)

  datatype DBNewVessel = DBNewVessel(name: string, volume: real, unit: string)

  datatype DBCreator = DBCreator(id: int, givenName: string, familyName: string, mail: string)

  datatype DBNewCreator = DBNewCreator(givenName: string, familyName: string, mail: string)

  /** The stored form of a reference list: nothing when empty, else the entries joined with ",". */
  function StoredReferences(refs: seq<string>): (r: Option<string>)
    ensures r.None? <==> refs == []
    ensures r.Some? ==> r.value == Join(refs, ",")
  {
    if refs != [] then Some(Join(refs, ",")) else None
  }

  /** The reading of a stored reference list that the joining admits: split at each ",". */
  function ReadReferences(stored: Option<string>): seq<string>
  {
    match stored {
      case None => []
      case Some(s) => Split(s, ',')
    }
  }

  /** References without commas survive storing and reading back, the empty list included. */
  lemma ReferencesRoundTrip(refs: seq<string>)
    requires forall k :: 0 <= k < |refs| ==> ',' !in refs[k]
    ensures ReadReferences(StoredReferences(refs)) == refs
  {
    if refs != [] {
      SplitJoin(refs, ',');
    }
  }

  /** A comma inside a reference is not recoverable: two references and one joined reference are stored alike. */
  lemma ReferencesCommaAmbiguous()
    ensures StoredReferences(["a,b"]) == StoredReferences(["a", "b"])
  {
    var two := ["a", "b"];
    assert two[1..] == ["b"];
    assert Join(two, ",") == "a" + "," + "b";
    assert "a" + "," + "b" == "a,b";
    assert Join(["a,b"], ",") == "a,b";
  }

  /** `From<SmallMolecule> for DBSmallMolecule`. */
  function ToDBSmallMolecule(m: SmallMolecule): (r: DBSmallMolecule)
    ensures r.id == 0 && r.name == m.name && r.references == StoredReferences(m.references)
    ensures r.canonicalSmiles == m.canonicalSmiles && r.inchi == m.inchi && r.inchikey == m.inchikey
  {
    DBSmallMolecule(0, m.name, m.canonicalSmiles, m.inchi, m.inchikey, StoredReferences(m.references))
  }

  /** `From<&SmallMolecule> for DBNewSmallMolecule`. */
  function ToDBNewSmallMolecule(m: SmallMolecule): (r: DBNewSmallMolecule)
    ensures r.name == m.name && r.references == StoredReferences(m.references)
    ensures r.canonicalSmiles == m.canonicalSmiles && r.inchi == m.inchi && r.inchikey == m.inchikey
  {
    DBNewSmallMolecule(m.name, m.canonicalSmiles, m.inchi, m.inchikey, StoredReferences(m.references))
  }

  /** `From<Protein> for DBProtein`. */
  function ToDBProtein(p: Protein): (r: DBProtein)
    ensures r.id == 0 && r.name == p.name && r.sequence == p.sequence && r.ecnumber == p.ecnumber
    ensures r.organism == p.organism && r.organismTaxId == p.organismTaxId
  {
    DBProtein(0, p.name, p.sequence, p.ecnumber, p.organism, p.organismTaxId)
  }

  /** `From<&Protein> for DBNewProtein`. */
  function ToDBNewProtein(p: Protein): (r: DBNewProtein)
    ensures r.name == p.name && r.sequence == p.sequence && r.ecnumber == p.ecnumber
    ensures r.organism == p.organism && r.organismTaxId == p.organismTaxId
  {
    DBNewProtein(p.name, p.sequence, p.ecnumber, p.organism, p.organismTaxId)
  }

  /** The stored unit of a vessel: the unit's name, or "" when it has none. */
  function StoredUnit(u: UnitDefinition): (s: string)
    ensures u.name.Some? ==> s == u.name.value
    ensures u.name.None? ==> s == ""
  {
    match u.name {
      case Some(n) => n
      case None => ""
    }
  }

  /** `From<Vessel> for DBVessel`. */
  function ToDBVessel(v: Vessel): (r: DBVessel)
    ensures r.id == 0 && r.name == v.name && r.volume == v.volume && r.unit == StoredUnit(v.unit)
  {
    DBVessel(0, v.name, v.volume, StoredUnit(v.unit))
  }

  /** `From<&Vessel> for DBNewVessel`. */
  function ToDBNewVessel(v: Vessel): (r: DBNewVessel)
    ensures r.name == v.name && r.volume == v.volume && r.unit == StoredUnit(v.unit)
  {
    DBNewVessel(v.name, v.volume, StoredUnit(v.unit))
  }

  /** `From<Creator> for DBCreator`. */
  function ToDBCreator(c: Creator): (r: DBCreator)
    ensures r.id == 0 && r.givenName == c.givenName && r.familyName == c.familyName && r.mail == c.mail
  {
    DBCreator(0, c.givenName, c.familyName, c.mail)
  }

  /** `From<&Creator> for DBNewCreator`. */
  function ToDBNewCreator(c: Creator): (r: DBNewCreator)
    ensures r.givenName == c.givenName && r.familyName == c.familyName && r.mail == c.mail
  {
    DBNewCreator(c.givenName, c.familyName, c.mail)
  }

  /** The insert rows and the stored rows agree in every field but the database identifier. */
  lemma NewRowsAgree(m: SmallMolecule, p: Protein, v: Vessel, c: Creator)
    ensures var n := ToDBNewSmallMolecule(m); ToDBSmallMolecule(m) == DBSmallMolecule(0, n.name, n.canonicalSmiles, n.inchi, n.inchikey, n.references)
    ensures var n := ToDBNewProtein(p); ToDBProtein(p) == DBProtein(0, n.name, n.sequence, n.ecnumber, n.organism, n.organismTaxId)
    ensures var n := ToDBNewVessel(v); ToDBVessel(v) == DBVessel(0, n.name, n.volume, n.unit)
    ensures var n := ToDBNewCreator(c); ToDBCreator(c) == DBCreator(0, n.givenName, n.familyName, n.mail)
  {
  }
}
