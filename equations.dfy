/**
 * The equation commands and the two passes that keep the parameter list
 * in step with the equations: `process_equation` after an equation
 * changes, `cleanup_parameters` afterwards, and `derive_from_reactions`,
 * which rewrites every ODE from the reactions' kinetic laws and then runs
 * both passes.
 *
 * Each command is a method on the application state, proved equal to a
 * function (`Process`, `CleanupEffect`, `Derive`, `Update`, `Delete`) of
 * the old document and buffer; the lemmas are about those functions.
 */
module Equations {
  import opened Wrappers
  import opened EnzymeML
  import opened Seqs
  import opened States
  import opened ByIdMacros
  import opened Derivation
  import opened Reconciler
  import EnzmlDoc

  /** What a command leaves behind: its outcome, the document and the buffer. */
  datatype Effect<T> = Effect(outcome: T, doc: Document, buffer: seq<Parameter>)

  function SpeciesIdOf(e: Equation): string { e.speciesId }

  predicate IsOde(e: Equation) { e.equationType == Ode }

  /** `process_equation` on the document: the parameters and the buffer change, nothing else. */
  function Process(parse: Parser, doc: Document, buf: seq<Parameter>, text: string): (r: Effect<Result<Unit, string>>)
    ensures r.outcome.Err? ==> r.doc == doc && r.buffer == buf
    ensures r.doc == doc.(parameters := r.doc.parameters)
  {
    match Reconcile(parse, BoundVariables(doc), Reconciled(doc.parameters, buf), text) {
      case Err(e) => Effect(Err(e), doc, buf)
      case Ok(s) => Effect(Ok(Unit), doc.(parameters := s.parameters), s.buffer)
    }
  }

  /** `cleanup_parameters` on the document; a panic happens before anything is changed. */
  function CleanupEffect(parse: Parser, doc: Document, buf: seq<Parameter>): (r: Effect<Outcome<Unit>>)
    ensures r.outcome.Panicked? ==> r.doc == doc && r.buffer == buf
    ensures r.doc == doc.(parameters := r.doc.parameters)
  {
    match Cleanup(parse, doc.equations, Reconciled(doc.parameters, buf)) {
      case Panicked(m) => Effect(Panicked(m), doc, buf)
      case Returned(c) => Effect(Returned(Unit), doc.(parameters := c.parameters), c.buffer)
    }
  }

  /** The bound variables do not depend on the parameters. */
  lemma BoundIgnoresParameters(doc: Document, ps: seq<Parameter>)
    ensures BoundVariables(doc.(parameters := ps)) == BoundVariables(doc)
  {
    assert EnzmlDoc.SpeciesIds(doc.(parameters := ps)) == EnzmlDoc.SpeciesIds(doc);
  }

  method ProcessEquation(st: EnzymeMLState, parse: Parser, equation: Equation) returns (r: Result<Unit, string>)
    modifies st
    ensures Effect(r, st.doc, st.paramBuffer) == Process(parse, old(st.doc), old(st.paramBuffer), equation.equation)
    ensures st.title == old(st.title) && st.id == old(st.id)
  {
    var parsed := parse(equation.equation);
    if parsed.None? {
      return Err("Could not parse equation");
    }
    var syms := parsed.value;
    var vars := BoundVariables(st.doc);
    var exist := IdSet(st.doc.parameters);
    for i := 0 to |syms|
      invariant AddUnbound(st.doc.parameters, st.paramBuffer, syms[i..], vars, exist) ==
        AddUnbound(old(st.doc.parameters), old(st.paramBuffer), syms, vars, exist)
      invariant st.doc == old(st.doc).(parameters := st.doc.parameters)
      invariant st.title == old(st.title) && st.id == old(st.id)
    {
      var symbol := syms[i];
      assert syms[i..][1..] == syms[i + 1..];
      if symbol !in vars && symbol !in exist {
        st.doc := st.doc.(parameters := st.doc.parameters + [CreateOrFromBuffer(st.paramBuffer, symbol)]);
        st.paramBuffer := WithoutId(st.paramBuffer, symbol);
      }
    }
    assert syms[|syms|..] == [];
    r := Ok(Unit);
  }

  lemma PushAllSnoc(buf: seq<Parameter>, f: seq<Parameter>, x: Parameter)
    ensures PushAll(buf, f + [x]) == MoveToBuffer(PushAll(buf, f), x)
  {
    assert (f + [x])[..|f|] == f;
  }

  lemma ParameterIdsSnoc(f: seq<Parameter>, x: Parameter)
    ensures ParameterIds(f + [x]) == ParameterIds(f) + [x.id]
  {
  }

  /**
   * The retiring loop of `cleanup_parameters`: each parameter no symbol
   * mentions is moved to the buffer in turn, and its id is noted for removal.
   */
  method RetireUnreferenced(ps: seq<Parameter>, symbols: seq<string>, buf0: seq<Parameter>)
    returns (buf: seq<Parameter>, toRemove: seq<string>)
    ensures buf == PushAll(buf0, Filter(ps, UnreferencedBy(symbols)))
    ensures toRemove == ParameterIds(Filter(ps, UnreferencedBy(symbols)))
  {
    buf, toRemove := buf0, [];
    ghost var retired: seq<Parameter> := [];
    for i := 0 to |ps|
      invariant retired == Filter(ps[..i], UnreferencedBy(symbols))
      invariant buf == PushAll(buf0, retired)
      invariant toRemove == ParameterIds(retired)
    {
      FilterSnoc(ps, i, UnreferencedBy(symbols));
      if ps[i].id !in symbols {
        PushAllSnoc(buf0, retired, ps[i]);
        ParameterIdsSnoc(retired, ps[i]);
        buf := MoveToBuffer(buf, ps[i]);
        toRemove := toRemove + [ps[i].id];
        retired := retired + [ps[i]];
      }
    }
    assert ps[..|ps|] == ps;
  }

  method CleanupParameters(st: EnzymeMLState, parse: Parser) returns (r: Outcome<Unit>)
    modifies st
    ensures Effect(r, st.doc, st.paramBuffer) == CleanupEffect(parse, old(st.doc), old(st.paramBuffer))
    ensures st.title == old(st.title) && st.id == old(st.id)
  {
    var found := AllSymbols(parse, st.doc.equations);
    if found.None? {
      return Panicked("called `Result::unwrap()` on an `Err` value");
    }
    var symbols := found.value;
    var ps := st.doc.parameters;
    var buf, toRemove := RetireUnreferenced(ps, symbols, st.paramBuffer);
    st.paramBuffer := buf;
    st.doc := st.doc.(parameters := Filter(ps, NotAmong(toRemove)));
    r := Returned(Unit);
  }

  // ---------------------------------------------------------------------
  // The equation commands

  /** `list_equations`: species identifier and type of each equation, in document order. */
  function ListEquations(doc: Document): (r: seq<(string, EquationType)>)
    ensures |r| == |doc.equations|
    ensures forall k :: 0 <= k < |r| ==> r[k] == (doc.equations[k].speciesId, doc.equations[k].equationType)
  {
    seq(|doc.equations|, k requires 0 <= k < |doc.equations| => (doc.equations[k].speciesId, doc.equations[k].equationType))
  }

  /** `get_equation`: the first equation for the species, or "<id> not found". */
  function GetEquation(doc: Document, id: string): (r: Result<Equation, string>)
    ensures r.Ok? ==> r.value in doc.equations && r.value.speciesId == id
    ensures r.Err? <==> forall k :: 0 <= k < |doc.equations| ==> doc.equations[k].speciesId != id
    ensures r.Err? ==> r.error == id + " not found"
  {
    GetById(doc.equations, SpeciesIdOf, id)
  }

  /** The blank equation `create_equation` appends: an Assignment with empty species and text. */
  const BlankEquation: Equation := Equation("", "", Assignment)

  /** `create_equation`: appends a blank Assignment equation; parameters are not touched. */
  method CreateEquation(st: EnzymeMLState) returns (r: Result<Unit, string>)
    modifies st
    ensures st.doc == old(st.doc).(equations := old(st.doc.equations) + [BlankEquation])
    ensures st.paramBuffer == old(st.paramBuffer) && st.title == old(st.title) && st.id == old(st.id)
    ensures r == Ok(Unit)
  {
    st.doc := st.doc.(equations := st.doc.equations + [BlankEquation]);
    r := Ok(Unit);
  }

  /** Right after `create_equation`, with no other equation for the empty species, the blank one is what `get_equation("")` returns. */
  lemma CreateThenGet(doc: Document)
    requires forall k :: 0 <= k < |doc.equations| ==> doc.equations[k].speciesId != ""
    ensures GetEquation(doc.(equations := doc.equations + [BlankEquation]), "") == Ok(BlankEquation)
  {
    var eqs := doc.equations + [BlankEquation];
    IndexWhereFirst(eqs, (x: Equation) => SpeciesIdOf(x) == "", |doc.equations|);
  }

  /**
   * `update_equation`: replace the equation for the species (panic when
   * there is none), reconcile its symbols, then clean up.
   */
  function Update(parse: Parser, doc: Document, buf: seq<Parameter>, data: Equation): (r: Effect<Outcome<Result<Unit, string>>>)
    ensures r.outcome.Panicked? && UpdateById(doc.equations, SpeciesIdOf, data).Panicked? ==> r.doc == doc && r.buffer == buf
    ensures UpdateById(doc.equations, SpeciesIdOf, data).Returned? ==> r.doc.equations == UpdateById(doc.equations, SpeciesIdOf, data).value
  {
    match UpdateById(doc.equations, SpeciesIdOf, data) {
      case Panicked(m) => Effect(Panicked(m), doc, buf)
      case Returned(eqs) =>
        var d1 := doc.(equations := eqs);
        var p := Process(parse, d1, buf, data.equation);
        if p.outcome.Err? then Effect(Returned(p.outcome), p.doc, p.buffer)
        else
          var c := CleanupEffect(parse, p.doc, p.buffer);
          if c.outcome.Panicked? then Effect(Panicked(c.outcome.message), c.doc, c.buffer)
          else Effect(Returned(Ok(Unit)), c.doc, c.buffer)
    }
  }

  method UpdateEquation(st: EnzymeMLState, parse: Parser, data: Equation) returns (r: Outcome<Result<Unit, string>>)
    modifies st
    ensures Effect(r, st.doc, st.paramBuffer) == Update(parse, old(st.doc), old(st.paramBuffer), data)
    ensures st.title == old(st.title) && st.id == old(st.id)
  {
    var updated := UpdateById(st.doc.equations, SpeciesIdOf, data);
    if updated.Panicked? {
      return Panicked(updated.message);
    }
    st.doc := st.doc.(equations := updated.value);
    var p := ProcessEquation(st, parse, data);
    if p.Err? {
      return Returned(p);
    }
    var c := CleanupParameters(st, parse);
    if c.Panicked? {
      return Panicked(c.message);
    }
    r := Returned(Ok(Unit));
  }

  /** `delete_equation`: drop the equation for the species (panic when there is none), then clean up. */
  function Delete(parse: Parser, doc: Document, buf: seq<Parameter>, id: string): (r: Effect<Outcome<Result<Unit, string>>>)
    ensures DeleteById(doc.equations, SpeciesIdOf, id).Panicked? ==> r.outcome.Panicked? && r.doc == doc && r.buffer == buf
    ensures DeleteById(doc.equations, SpeciesIdOf, id).Returned? ==> r.doc.equations == DeleteById(doc.equations, SpeciesIdOf, id).value
  {
    match DeleteById(doc.equations, SpeciesIdOf, id) {
      case Panicked(m) => Effect(Panicked(m), doc, buf)
      case Returned(eqs) =>
        var c := CleanupEffect(parse, doc.(equations := eqs), buf);
        if c.outcome.Panicked? then Effect(Panicked(c.outcome.message), c.doc, c.buffer)
        else Effect(Returned(Ok(Unit)), c.doc, c.buffer)
    }
  }

  method DeleteEquation(st: EnzymeMLState, parse: Parser, id: string) returns (r: Outcome<Result<Unit, string>>)
    modifies st
    ensures Effect(r, st.doc, st.paramBuffer) == Delete(parse, old(st.doc), old(st.paramBuffer), id)
    ensures st.title == old(st.title) && st.id == old(st.id)
  {
    var deleted := DeleteById(st.doc.equations, SpeciesIdOf, id);
    if deleted.Panicked? {
      return Panicked(deleted.message);
    }
    st.doc := st.doc.(equations := deleted.value);
    var c := CleanupParameters(st, parse);
    if c.Panicked? {
      return Panicked(c.message);
    }
    r := Returned(Ok(Unit));
  }

  // ---------------------------------------------------------------------
  // Invariants the passes establish

  /** Some equation's free symbols contain `id`. */
  predicate Referenced(parse: Parser, eqs: seq<Equation>, id: string)
  {
    exists k :: 0 <= k < |eqs| && parse(eqs[k].equation).Some? && id in parse(eqs[k].equation).value
  }

  /** Every symbol of `text` is bound or has a live parameter. */
  predicate Covered(parse: Parser, doc: Document, text: string)
  {
    parse(text).Some? &&
    forall s :: s in parse(text).value ==> s in BoundVariables(doc) || s in IdSet(doc.parameters)
  }

  /** After a successful cleanup every live parameter is referenced, and symbols that were covered stay covered. */
  lemma CleanupEffectSpec(parse: Parser, doc: Document, buf: seq<Parameter>, text: string)
    requires CleanupEffect(parse, doc, buf).outcome.Returned?
    ensures forall p :: p in CleanupEffect(parse, doc, buf).doc.parameters ==> Referenced(parse, doc.equations, p.id)
    ensures (Covered(parse, doc, text) && forall s :: s in parse(text).value ==> s in AllSymbols(parse, doc.equations).value) ==>
      Covered(parse, CleanupEffect(parse, doc, buf).doc, text)
  {
    var st := Reconciled(doc.parameters, buf);
    var syms := AllSymbols(parse, doc.equations).value;
    var after := CleanupEffect(parse, doc, buf).doc;
    CleanupKeepsReferenced(parse, doc.equations, st);
    AllSymbolsSpec(parse, doc.equations);
    forall p | p in after.parameters
      ensures Referenced(parse, doc.equations, p.id)
    {
      FilterMember(doc.parameters, ReferencedBy(syms), p);
    }
    BoundIgnoresParameters(doc, after.parameters);
    if Covered(parse, doc, text) && forall s :: s in parse(text).value ==> s in syms {
      forall s | s in parse(text).value && s !in BoundVariables(doc)
        ensures s in IdSet(after.parameters)
      {
        var k :| 0 <= k < |doc.parameters| && doc.parameters[k].id == s;
        assert doc.parameters[k] in after.parameters;
      }
    }
  }

  /** A successful reconcile covers the equation's symbols. */
  lemma ProcessCovers(parse: Parser, doc: Document, buf: seq<Parameter>, text: string)
    requires Process(parse, doc, buf, text).outcome.Ok?
    ensures Covered(parse, Process(parse, doc, buf, text).doc, text)
    ensures IdSet(doc.parameters) <= IdSet(Process(parse, doc, buf, text).doc.parameters)
  {
    var syms := parse(text).value;
    var bound := BoundVariables(doc);
    var after := Process(parse, doc, buf, text).doc;
    AddUnboundCovers(doc.parameters, buf, syms, bound, IdSet(doc.parameters));
    ProcessGrows(parse, doc, buf, text);
    BoundIgnoresParameters(doc, after.parameters);
  }

  /** Reconciling never loses a live identifier. */
  lemma ProcessGrows(parse: Parser, doc: Document, buf: seq<Parameter>, text: string)
    ensures IdSet(doc.parameters) <= IdSet(Process(parse, doc, buf, text).doc.parameters)
  {
    var after := Process(parse, doc, buf, text).doc;
    if parse(text).Some? {
      AddUnboundPrefix(doc.parameters, buf, parse(text).value, BoundVariables(doc), IdSet(doc.parameters));
      forall x | x in IdSet(doc.parameters)
        ensures x in IdSet(after.parameters)
      {
        var k :| 0 <= k < |doc.parameters| && doc.parameters[k].id == x;
        assert after.parameters[k] == doc.parameters[k];
      }
    }
  }

  /**
   * After a successful `update_equation` every live parameter is
   * referenced by some equation, and every symbol of the new equation is
   * a species, an assignment target or a live parameter.
   */
  lemma UpdateInvariant(parse: Parser, doc: Document, buf: seq<Parameter>, data: Equation)
    requires Update(parse, doc, buf, data).outcome == Returned(Ok(Unit))
    ensures forall p :: p in Update(parse, doc, buf, data).doc.parameters ==>
      Referenced(parse, Update(parse, doc, buf, data).doc.equations, p.id)
    ensures Covered(parse, Update(parse, doc, buf, data).doc, data.equation)
  {
    var eqs := UpdateById(doc.equations, SpeciesIdOf, data).value;
    var d1 := doc.(equations := eqs);
    var p := Process(parse, d1, buf, data.equation);
    ProcessCovers(parse, d1, buf, data.equation);
    var i :| 0 <= i < |doc.equations| && SpeciesIdOf(doc.equations[i]) == SpeciesIdOf(data) && eqs == doc.equations[i := data];
    assert p.doc.equations[i] == data;
    AllSymbolsSpec(parse, p.doc.equations);
    CleanupEffectSpec(parse, p.doc, p.buffer, data.equation);
  }

  /** After a successful `delete_equation` every live parameter is referenced by a remaining equation. */
  lemma DeleteInvariant(parse: Parser, doc: Document, buf: seq<Parameter>, id: string)
    requires Delete(parse, doc, buf, id).outcome == Returned(Ok(Unit))
    ensures forall p :: p in Delete(parse, doc, buf, id).doc.parameters ==>
      Referenced(parse, Delete(parse, doc, buf, id).doc.equations, p.id)
  {
    var eqs := DeleteById(doc.equations, SpeciesIdOf, id).value;
    CleanupEffectSpec(parse, doc.(equations := eqs), buf, "");
  }

  // ---------------------------------------------------------------------
  // derive_from_reactions

  predicate AllHaveLaws(rs: seq<Reaction>)
  {
    forall k :: 0 <= k < |rs| ==> rs[k].kineticLaw.Some?
  }

  /** The rewrite of one equation: an ODE gets the text derived from the reactions; other kinds are kept. */
  function Rewrite(e: Equation, rs: seq<Reaction>, fmt: real -> string): (r: Equation)
    ensures r.speciesId == e.speciesId && r.equationType == e.equationType
    ensures !IsOde(e) ==> r == e
  {
    if IsOde(e) then e.(equation := DerivedText(e.speciesId, rs, fmt)) else e
  }

  function RewriteAll(eqs: seq<Equation>, rs: seq<Reaction>, fmt: real -> string): (r: seq<Equation>)
    ensures |r| == |eqs| && forall k :: 0 <= k < |eqs| ==> r[k] == Rewrite(eqs[k], rs, fmt)
  {
    seq(|eqs|, k requires 0 <= k < |eqs| => Rewrite(eqs[k], rs, fmt))
  }

  /** The reconcile loop over the ODE snapshot; the first failure stops it and keeps what was done. */
  function ProcessAll(parse: Parser, doc: Document, buf: seq<Parameter>, eqs: seq<Equation>): (r: Effect<Result<Unit, string>>)
    ensures r.doc == doc.(parameters := r.doc.parameters)
    decreases |eqs|
  {
    if eqs == [] then Effect(Ok(Unit), doc, buf)
    else
      var p := Process(parse, doc, buf, eqs[0].equation);
      if p.outcome.Err? then p
      else ProcessAll(parse, p.doc, p.buffer, eqs[1..])
  }

  /**
   * `derive_from_reactions`: fail on an empty reaction list or on a
   * reaction without a kinetic law before writing anything; rewrite the
   * ODEs; reconcile the ODEs' symbols; clean up. `emitted` is how the
   * final "update_equations" event went.
   */
  function Derive(parse: Parser, fmt: real -> string, doc: Document, buf: seq<Parameter>, emitted: Result<Unit, string>): Effect<Outcome<Result<Unit, string>>>
  {
    if doc.reactions == [] then Effect(Returned(Err("No reactions found")), doc, buf)
    else if !AllHaveLaws(doc.reactions) then Effect(Returned(Err("Not all reactions have a rate equation")), doc, buf)
    else
      var d1 := doc.(equations := RewriteAll(doc.equations, doc.reactions, fmt));
      var pass := ProcessAll(parse, d1, buf, Filter(d1.equations, IsOde));
      if pass.outcome.Err? then Effect(Returned(pass.outcome), pass.doc, pass.buffer)
      else
        var c := CleanupEffect(parse, pass.doc, pass.buffer);
        if c.outcome.Panicked? then Effect(Panicked(c.outcome.message), c.doc, c.buffer)
        else Effect(Returned(emitted), c.doc, c.buffer)
  }

  /** The two checks before any write: the first failure message, or `None` when both pass. */
  method CheckReactions(reactions: seq<Reaction>) returns (failure: Option<string>)
    ensures reactions == [] ==> failure == Some("No reactions found")
    ensures reactions != [] && !AllHaveLaws(reactions) ==> failure == Some("Not all reactions have a rate equation")
    ensures failure.None? <==> reactions != [] && AllHaveLaws(reactions)
  {
    if |reactions| == 0 {
      return Some("No reactions found");
    }
    for i := 0 to |reactions|
      invariant forall k :: 0 <= k < i ==> reactions[k].kineticLaw.Some?
    {
      if reactions[i].kineticLaw.None? {
        return Some("Not all reactions have a rate equation");
      }
    }
    failure := None;
  }

  /** One pass of the rewrite loop: collect, sort and assemble the parts of an ODE. */
  method RewriteEquation(equation: Equation, reactions: seq<Reaction>, fmt: real -> string) returns (r: Equation)
    ensures r == Rewrite(equation, reactions, fmt)
  {
    if equation.equationType != Ode {
      return equation;
    }
    var parts := CollectParts(equation.speciesId, reactions);
    parts := SortBySign(parts);
    var text := AssembleEquation(parts, fmt);
    r := equation.(equation := text);
  }

  /** The `iter_mut` loop over the equations. */
  method RewriteOdes(equations: seq<Equation>, reactions: seq<Reaction>, fmt: real -> string) returns (eqs: seq<Equation>)
    ensures eqs == RewriteAll(equations, reactions, fmt)
  {
    eqs := equations;
    for i := 0 to |eqs|
      invariant |eqs| == |equations|
      invariant forall k :: 0 <= k < i ==> eqs[k] == Rewrite(equations[k], reactions, fmt)
      invariant forall k :: i <= k < |eqs| ==> eqs[k] == equations[k]
    {
      var e := RewriteEquation(eqs[i], reactions, fmt);
      eqs := eqs[i := e];
    }
  }

  /** The reconcile loop over the ODE snapshot, stopping at the first error. */
  method ProcessOdes(st: EnzymeMLState, parse: Parser, toProcess: seq<Equation>) returns (r: Result<Unit, string>)
    modifies st
    ensures Effect(r, st.doc, st.paramBuffer) == ProcessAll(parse, old(st.doc), old(st.paramBuffer), toProcess)
    ensures st.title == old(st.title) && st.id == old(st.id)
  {
    for i := 0 to |toProcess|
      invariant ProcessAll(parse, st.doc, st.paramBuffer, toProcess[i..]) == ProcessAll(parse, old(st.doc), old(st.paramBuffer), toProcess)
      invariant st.title == old(st.title) && st.id == old(st.id)
    {
      assert toProcess[i..][1..] == toProcess[i + 1..];
      var p := ProcessEquation(st, parse, toProcess[i]);
      if p.Err? {
        return p;
      }
    }
    assert toProcess[|toProcess|..] == [];
    r := Ok(Unit);
  }

  method DeriveFromReactions(st: EnzymeMLState, parse: Parser, fmt: real -> string, emitted: Result<Unit, string>)
    returns (r: Outcome<Result<Unit, string>>)
    modifies st
    ensures Effect(r, st.doc, st.paramBuffer) == Derive(parse, fmt, old(st.doc), old(st.paramBuffer), emitted)
    ensures st.title == old(st.title) && st.id == old(st.id)
  {
    var reactions := st.doc.reactions;
    var failure := CheckReactions(reactions);
    if failure.Some? {
      return Returned(Err(failure.value));
    }
    var eqs := RewriteOdes(st.doc.equations, reactions, fmt);
    st.doc := st.doc.(equations := eqs);
    var p := ProcessOdes(st, parse, Filter(st.doc.equations, IsOde));
    if p.Err? {
      return Returned(p);
    }
    var c := CleanupParameters(st, parse);
    if c.Panicked? {
      return Panicked(c.message);
    }
    r := Returned(emitted);
  }

  /** Both checks come before any write: an empty reaction list, or a reaction without a law, changes nothing. */
  lemma DeriveFailsEarly(parse: Parser, fmt: real -> string, doc: Document, buf: seq<Parameter>, emitted: Result<Unit, string>)
    ensures doc.reactions == [] ==>
      Derive(parse, fmt, doc, buf, emitted) == Effect(Returned(Err("No reactions found")), doc, buf)
    ensures (doc.reactions != [] && exists k :: 0 <= k < |doc.reactions| && doc.reactions[k].kineticLaw.None?) ==>
      Derive(parse, fmt, doc, buf, emitted) == Effect(Returned(Err("Not all reactions have a rate equation")), doc, buf)
  {
  }

  /** Once both checks pass, however the rest goes, only ODE texts change, and each becomes the derived text. */
  lemma DeriveRewritesOdes(parse: Parser, fmt: real -> string, doc: Document, buf: seq<Parameter>, emitted: Result<Unit, string>)
    requires doc.reactions != [] && AllHaveLaws(doc.reactions)
    ensures var after := Derive(parse, fmt, doc, buf, emitted).doc;
      after == doc.(equations := after.equations, parameters := after.parameters) &&
      |after.equations| == |doc.equations| &&
      (forall k :: 0 <= k < |doc.equations| && !IsOde(doc.equations[k]) ==> after.equations[k] == doc.equations[k]) &&
      (forall k :: 0 <= k < |doc.equations| && IsOde(doc.equations[k]) ==>
        after.equations[k] == doc.equations[k].(equation := DerivedText(doc.equations[k].speciesId, doc.reactions, fmt)))
  {
  }

  /** A successful reconcile loop covers every processed equation and only grows the live identifiers. */
  lemma {:induction false} ProcessAllCovers(parse: Parser, doc: Document, buf: seq<Parameter>, eqs: seq<Equation>)
    requires ProcessAll(parse, doc, buf, eqs).outcome.Ok?
    ensures IdSet(doc.parameters) <= IdSet(ProcessAll(parse, doc, buf, eqs).doc.parameters)
    ensures forall e :: e in eqs ==> Covered(parse, ProcessAll(parse, doc, buf, eqs).doc, e.equation)
    decreases |eqs|
  {
    if eqs != [] {
      var p := Process(parse, doc, buf, eqs[0].equation);
      var final := ProcessAll(parse, doc, buf, eqs).doc;
      ProcessCovers(parse, doc, buf, eqs[0].equation);
      ProcessAllCovers(parse, p.doc, p.buffer, eqs[1..]);
      assert final == ProcessAll(parse, p.doc, p.buffer, eqs[1..]).doc;
      BoundIgnoresParameters(p.doc, final.parameters);
      assert p.doc.(parameters := final.parameters) == final;
      forall e | e in eqs
        ensures Covered(parse, final, e.equation)
      {
        if e !in eqs[1..] {
          assert e == eqs[0];
        }
      }
    }
  }

  /** The reconcile loop over the ODEs followed by a cleanup leaves every ODE covered and every live parameter referenced. */
  lemma PassThenCleanup(parse: Parser, d1: Document, buf: seq<Parameter>)
    requires ProcessAll(parse, d1, buf, Filter(d1.equations, IsOde)).outcome.Ok?
    requires var pass := ProcessAll(parse, d1, buf, Filter(d1.equations, IsOde));
      CleanupEffect(parse, pass.doc, pass.buffer).outcome.Returned?
    ensures var pass := ProcessAll(parse, d1, buf, Filter(d1.equations, IsOde));
      var after := CleanupEffect(parse, pass.doc, pass.buffer).doc;
      forall k :: 0 <= k < |after.equations| && IsOde(after.equations[k]) ==> Covered(parse, after, after.equations[k].equation)
    ensures var pass := ProcessAll(parse, d1, buf, Filter(d1.equations, IsOde));
      var after := CleanupEffect(parse, pass.doc, pass.buffer).doc;
      forall p :: p in after.parameters ==> Referenced(parse, after.equations, p.id)
  {
    var odes := Filter(d1.equations, IsOde);
    var pass := ProcessAll(parse, d1, buf, odes);
    var after := CleanupEffect(parse, pass.doc, pass.buffer).doc;
    ProcessAllCovers(parse, d1, buf, odes);
    AllSymbolsSpec(parse, pass.doc.equations);
    forall k | 0 <= k < |after.equations| && IsOde(after.equations[k])
      ensures Covered(parse, after, after.equations[k].equation)
    {
      var e := after.equations[k];
      assert e == pass.doc.equations[k];
      assert e in odes;
      CleanupEffectSpec(parse, pass.doc, pass.buffer, e.equation);
    }
    CleanupEffectSpec(parse, pass.doc, pass.buffer, "");
  }

  /**
   * After a successful derivation every ODE's symbols are species,
   * assignment targets or live parameters, and every live parameter is
   * referenced by some equation.
   */
  lemma DeriveInvariant(parse: Parser, fmt: real -> string, doc: Document, buf: seq<Parameter>)
    requires Derive(parse, fmt, doc, buf, Ok(Unit)).outcome == Returned(Ok(Unit))
    ensures var after := Derive(parse, fmt, doc, buf, Ok(Unit)).doc;
      forall k :: 0 <= k < |after.equations| && IsOde(after.equations[k]) ==> Covered(parse, after, after.equations[k].equation)
    ensures var after := Derive(parse, fmt, doc, buf, Ok(Unit)).doc;
      forall p :: p in after.parameters ==> Referenced(parse, after.equations, p.id)
  {
    var d1 := doc.(equations := RewriteAll(doc.equations, doc.reactions, fmt));
    PassThenCleanup(parse, d1, buf);
  }
}
