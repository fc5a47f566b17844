/**
 * The parameter commands: listing the parameter identifiers and the
 * duplicate-guarded creation of a parameter by name.
 */
module Parameters {
  import opened Wrappers
  import opened EnzymeML
  import opened States
  import opened Reconciler

  /** `list_parameters`: the parameter identifiers in document order. */
  function ListParameters(doc: Document): (ids: seq<string>)
    ensures |ids| == |doc.parameters|
    ensures forall k :: 0 <= k < |ids| ==> ids[k] == doc.parameters[k].id
  {
    ParameterIds(doc.parameters)
  }

  /** The parameter list after `create_parameter(name)`: unchanged when the identifier is taken, else one fresh parameter appended. */
  function Created(ps: seq<Parameter>, name: string): (r: seq<Parameter>)
    ensures name in IdSet(ps) ==> r == ps
    ensures name !in IdSet(ps) ==> |r| == |ps| + 1 && r[..|ps|] == ps && r[|ps|] == NewParameter(name)
  {
    if exists k :: 0 <= k < |ps| && ps[k].id == name then ps else ps + [NewParameter(name)]
  }

  method CreateParameter(st: EnzymeMLState, name: string)
    modifies st
    ensures st.doc == old(st.doc).(parameters := Created(old(st.doc.parameters), name))
    ensures st.paramBuffer == old(st.paramBuffer) && st.title == old(st.title) && st.id == old(st.id)
  {
    if name in IdSet(st.doc.parameters) {
      return;
    }
    st.doc := st.doc.(parameters := st.doc.parameters + [NewParameter(name)]);
  }

  /** Creation keeps parameter identifiers unique, and the name is a parameter afterwards. */
  lemma CreatedUnique(ps: seq<Parameter>, name: string)
    requires UniqueIds(ps)
    ensures UniqueIds(Created(ps, name))
    ensures name in IdSet(Created(ps, name))
  {
    var r := Created(ps, name);
    if name !in IdSet(ps) {
      assert r[|ps|].id == name;
      forall i, j | 0 <= i < j < |r|
        ensures r[i].id != r[j].id
      {
        if j < |ps| {
          assert r[i] == ps[i] && r[j] == ps[j];
        } else {
          assert r[i] == ps[i];
        }
      }
    }
  }

  /** Creating the same name twice is creating it once. */
  lemma CreatedIdempotent(ps: seq<Parameter>, name: string)
    ensures Created(Created(ps, name), name) == Created(ps, name)
  {
    var r := Created(ps, name);
    if name !in IdSet(ps) {
      assert r[|ps|].id == name;
    }
  }
}
