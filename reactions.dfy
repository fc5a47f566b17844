/**
 * The reaction commands. A reaction's kinetic law is reconciled like any
 * equation (parameters are created for its free symbols) before the
 * reaction itself is stored.
 */
module Reactions {
  import opened Wrappers
  import opened EnzymeML
  import opened States
  import opened Ids
  import opened ByIdMacros
  import opened Reconciler
  import opened Equations

  function ReactionIdOf(r: Reaction): string { r.id }

  function ReactionIds(rs: seq<Reaction>): (ids: seq<string>)
    ensures |ids| == |rs| && forall k :: 0 <= k < |rs| ==> ids[k] == rs[k].id
  {
    seq(|rs|, k requires 0 <= k < |rs| => rs[k].id)
  }

  /** `process_kinetic_law`: nothing to do without a law, otherwise the law's equation is reconciled. */
  function LawEffect(parse: Parser, doc: Document, buf: seq<Parameter>, law: Option<Equation>): (r: Effect<Result<Unit, string>>)
    ensures law.None? ==> r == Effect(Ok(Unit), doc, buf)
    ensures law.Some? ==> r == Process(parse, doc, buf, law.value.equation)
  {
    match law {
      case None => Effect(Ok(Unit), doc, buf)
      case Some(l) => Process(parse, doc, buf, l.equation)
    }
  }

  method ProcessKineticLaw(st: EnzymeMLState, parse: Parser, law: Option<Equation>) returns (r: Result<Unit, string>)
    modifies st
    ensures Effect(r, st.doc, st.paramBuffer) == LawEffect(parse, old(st.doc), old(st.paramBuffer), law)
    ensures st.title == old(st.title) && st.id == old(st.id)
  {
    if law.None? {
      return Ok(Unit);
    }
    r := ProcessEquation(st, parse, law.value);
  }

  /**
   * The kinetic laws of a batch processed in order; the first failure
   * stops the batch with "Could not process equation: <error>", keeping
   * the parameters the earlier laws created.
   */
  function LawsEffect(parse: Parser, doc: Document, buf: seq<Parameter>, data: seq<Reaction>): (r: Effect<Result<Unit, string>>)
    ensures r.doc == doc.(parameters := r.doc.parameters)
    decreases |data|
  {
    if data == [] then Effect(Ok(Unit), doc, buf)
    else
      var first := LawEffect(parse, doc, buf, data[0].kineticLaw);
      if first.outcome.Err? then Effect(Err("Could not process equation: " + first.outcome.error), first.doc, first.buffer)
      else LawsEffect(parse, first.doc, first.buffer, data[1..])
  }

  /** The batch from position `i` on: the law at `i` first, then, unless it failed, the rest. */
  lemma LawsEffectStep(parse: Parser, doc: Document, buf: seq<Parameter>, data: seq<Reaction>, i: nat)
    requires i < |data|
    ensures var first := LawEffect(parse, doc, buf, data[i].kineticLaw);
      LawsEffect(parse, doc, buf, data[i..]) ==
        if first.outcome.Err? then Effect(Err("Could not process equation: " + first.outcome.error), first.doc, first.buffer)
        else LawsEffect(parse, first.doc, first.buffer, data[i + 1..])
  {
    assert data[i..][1..] == data[i + 1..];
  }

  /** The identifier assignment `o.id = id` of the batch loop. */
  function SetReactionId(r: Reaction, id: string): (r': Reaction)
    ensures r'.id == id && r' == r.(id := id)
  {
    r.(id := id)
  }

  /**
   * `add_reactions`: every kinetic law is processed first; only when all
   * succeed are the reactions, under fresh identifiers, appended.
   */
  function AddReactionsEffect(parse: Parser, doc: Document, buf: seq<Parameter>, data: seq<Reaction>): Effect<Result<seq<string>, string>>
  {
    var laws := LawsEffect(parse, doc, buf, data);
    if laws.outcome.Err? then Effect(Err(laws.outcome.error), laws.doc, laws.buffer)
    else
      var ids := BatchIds(ReactionIds(doc.reactions), ReactionPrefix, |data|);
      Effect(Ok(ids), laws.doc.(reactions := doc.reactions + WithKeys(data, ids, SetReactionId)), laws.buffer)
  }

  method AddReactions(st: EnzymeMLState, parse: Parser, data: seq<Reaction>) returns (r: Result<seq<string>, string>)
    modifies st
    ensures Effect(r, st.doc, st.paramBuffer) == AddReactionsEffect(parse, old(st.doc), old(st.paramBuffer), data)
    ensures st.title == old(st.title) && st.id == old(st.id)
  {
    var existing := ReactionIds(st.doc.reactions);
    var taken := existing;
    var ids: seq<string> := [];
    var objects: seq<Reaction> := [];
    for i := 0 to |data|
      invariant LawsEffect(parse, st.doc, st.paramBuffer, data[i..]) == LawsEffect(parse, old(st.doc), old(st.paramBuffer), data)
      invariant st.doc == old(st.doc).(parameters := st.doc.parameters)
      invariant ids == BatchIds(existing, ReactionPrefix, i) && taken == existing + ids
      invariant objects == WithKeys(data[..i], ids, SetReactionId)
      invariant st.title == old(st.title) && st.id == old(st.id)
    {
      LawsEffectStep(parse, st.doc, st.paramBuffer, data, i);
      var processed := ProcessKineticLaw(st, parse, data[i].kineticLaw);
      if processed.Err? {
        assert LawsEffect(parse, old(st.doc), old(st.paramBuffer), data) ==
          Effect(Err("Could not process equation: " + processed.error), st.doc, st.paramBuffer);
        return Err("Could not process equation: " + processed.error);
      }
      var id := NextBatchId(existing, ReactionPrefix, ids, taken);
      WithKeysSnoc(data, ids, SetReactionId, i, id);
      ids := ids + [id];
      taken := taken + [id];
      objects := objects + [SetReactionId(data[i], id)];
    }
    assert data[|data|..] == [];
    assert data[..|data|] == data;
    assert LawsEffect(parse, old(st.doc), old(st.paramBuffer), data) == Effect(Ok(Unit), st.doc, st.paramBuffer);
    st.doc := st.doc.(reactions := st.doc.reactions + objects);
    r := Ok(ids);
  }

  /** A failed batch adds no reaction; a successful one adds one reaction per input, in order, under distinct fresh identifiers, each readable by its identifier. */
  lemma AddReactionsSpec(parse: Parser, doc: Document, buf: seq<Parameter>, data: seq<Reaction>)
    ensures var e := AddReactionsEffect(parse, doc, buf, data);
      e.outcome.Err? ==> e.doc.reactions == doc.reactions
    ensures var e := AddReactionsEffect(parse, doc, buf, data);
      e.outcome.Ok? ==>
        var ids := e.outcome.value;
        |ids| == |data| &&
        e.doc.reactions == doc.reactions + WithKeys(data, ids, SetReactionId) &&
        (forall i :: 0 <= i < |ids| ==> ids[i] !in ReactionIds(doc.reactions)) &&
        (forall i, j :: 0 <= i < j < |ids| ==> ids[i] != ids[j]) &&
        (forall k :: 0 <= k < |ids| ==> GetById(e.doc.reactions, ReactionIdOf, ids[k]) == Ok(SetReactionId(data[k], ids[k])))
  {
    var existing := ReactionIds(doc.reactions);
    var ids := BatchIds(existing, ReactionPrefix, |data|);
    BatchIdsFresh(existing, ReactionPrefix, |data|);
    var objects := WithKeys(data, ids, SetReactionId);
    forall k | 0 <= k < |data|
      ensures GetById(doc.reactions + objects, ReactionIdOf, ids[k]) == Ok(objects[k])
    {
      BatchReadable(doc.reactions, ReactionIdOf, existing, ReactionPrefix, objects, k);
    }
  }

  /**
   * `update_reaction`: the law is processed first; on failure nothing is
   * replaced, otherwise the reaction with the same identifier is (a
   * panic when there is none, after the law's parameters were added).
   */
  function UpdateReactionEffect(parse: Parser, doc: Document, buf: seq<Parameter>, data: Reaction): Effect<Outcome<Result<Unit, string>>>
  {
    var law := LawEffect(parse, doc, buf, data.kineticLaw);
    if law.outcome.Err? then Effect(Returned(Err(law.outcome.error)), law.doc, law.buffer)
    else match UpdateById(law.doc.reactions, ReactionIdOf, data) {
      case Panicked(m) => Effect(Panicked(m), law.doc, law.buffer)
      case Returned(rs) => Effect(Returned(Ok(Unit)), law.doc.(reactions := rs), law.buffer)
    }
  }

  method UpdateReaction(st: EnzymeMLState, parse: Parser, data: Reaction) returns (r: Outcome<Result<Unit, string>>)
    modifies st
    ensures Effect(r, st.doc, st.paramBuffer) == UpdateReactionEffect(parse, old(st.doc), old(st.paramBuffer), data)
    ensures st.title == old(st.title) && st.id == old(st.id)
  {
    var processed := ProcessKineticLaw(st, parse, data.kineticLaw);
    if processed.Err? {
      return Returned(processed);
    }
    var updated := UpdateById(st.doc.reactions, ReactionIdOf, data);
    if updated.Panicked? {
      return Panicked(updated.message);
    }
    st.doc := st.doc.(reactions := updated.value);
    r := Returned(Ok(Unit));
  }

  /** A law that does not parse leaves the whole document as it was; a successful update reads back as the new reaction. */
  lemma UpdateReactionSpec(parse: Parser, doc: Document, buf: seq<Parameter>, data: Reaction)
    ensures LawEffect(parse, doc, buf, data.kineticLaw).outcome.Err? ==>
      UpdateReactionEffect(parse, doc, buf, data) == Effect(Returned(Err("Could not parse equation")), doc, buf)
    ensures UpdateReactionEffect(parse, doc, buf, data).outcome == Returned(Ok(Unit)) ==>
      GetById(UpdateReactionEffect(parse, doc, buf, data).doc.reactions, ReactionIdOf, data.id) == Ok(data)
  {
    var law := LawEffect(parse, doc, buf, data.kineticLaw);
    if law.outcome.Ok? && UpdateById(law.doc.reactions, ReactionIdOf, data).Returned? {
      GetAfterUpdate(law.doc.reactions, ReactionIdOf, data);
    }
  }

  /** The reaction `create_reaction` builds from the builder's defaults. */
  function NewReaction(defaults: Reaction, id: string): (r: Reaction)
    ensures r.id == id && r.name == "New Reaction" && !r.reversible
    ensures r.reactants == defaults.reactants && r.products == defaults.products && r.kineticLaw == defaults.kineticLaw
  {
    defaults.(id := id, name := "New Reaction", reversible := false)
  }

  /** `create_reaction`: a "New Reaction", not reversible, under the next free "r" identifier. */
  method CreateReaction(st: EnzymeMLState, defaults: Reaction) returns (id: string)
    modifies st
    ensures id == FreshId(ReactionIds(old(st.doc.reactions)), ReactionPrefix)
    ensures st.doc == old(st.doc).(reactions := old(st.doc.reactions) + [NewReaction(defaults, id)])
    ensures st.paramBuffer == old(st.paramBuffer) && st.title == old(st.title) && st.id == old(st.id)
  {
    id := GenerateId(ReactionIds(st.doc.reactions), ReactionPrefix);
    st.doc := st.doc.(reactions := st.doc.reactions + [NewReaction(defaults, id)]);
  }

  /** The created reaction has an unused identifier and is what a read of that identifier returns. */
  lemma CreatedReactionReadable(rs: seq<Reaction>, defaults: Reaction)
    ensures var id := FreshId(ReactionIds(rs), ReactionPrefix);
      id !in ReactionIds(rs) &&
      GetById(rs + [NewReaction(defaults, id)], ReactionIdOf, id) == Ok(NewReaction(defaults, id))
  {
    var id := FreshId(ReactionIds(rs), ReactionPrefix);
    assert forall j :: 0 <= j < |rs| ==> ReactionIds(rs)[j] == rs[j].id;
    GetAfterAppend(rs, ReactionIdOf, NewReaction(defaults, id));
  }

  /** `list_reactions`: identifier and name of each reaction, in document order. */
  function ListReactions(doc: Document): (r: seq<(string, string)>)
    ensures |r| == |doc.reactions|
    ensures forall k :: 0 <= k < |r| ==> r[k] == (doc.reactions[k].id, doc.reactions[k].name)
  {
    seq(|doc.reactions|, k requires 0 <= k < |doc.reactions| => (doc.reactions[k].id, doc.reactions[k].name))
  }
}
