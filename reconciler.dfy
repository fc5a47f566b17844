/**
 * The parameter reconciler of the equation engine, as functions of the
 * live parameters and the buffer of retired ones: `process_equation` adds
 * a parameter for every free symbol that is neither bound nor already a
 * parameter (restoring it from the buffer when it is there), and
 * `cleanup_parameters` retires every parameter no equation mentions into
 * the buffer, which keeps at most ten entries.
 */
module Reconciler {
  import opened Wrappers
  import opened EnzymeML
  import opened Seqs
  import EnzmlDoc

  /** The expression analyser: the free symbols of an expression, or `None` when it does not parse. */
  type Parser = string -> Option<seq<string>>

  const BufferCapacity: nat := 10

  /** The live parameters and the buffer of retired ones. */
  datatype Reconciled = Reconciled(parameters: seq<Parameter>, buffer: seq<Parameter>)

  function IdSet(ps: seq<Parameter>): (ids: set<string>)
    ensures forall s :: s in ids <==> exists i :: 0 <= i < |ps| && ps[i].id == s
  {
    set i | 0 <= i < |ps| :: ps[i].id
  }

  predicate UniqueIds(ps: seq<Parameter>)
  {
    forall i, j :: 0 <= i < j < |ps| ==> ps[i].id != ps[j].id
  }

  /** No identifier is both live and retired. */
  predicate Disjoint(live: seq<Parameter>, retired: seq<Parameter>)
  {
    forall p, q :: p in live && q in retired ==> p.id != q.id
  }

  predicate IsAssignmentKind(e: Equation)
  {
    e.equationType == Assignment || e.equationType == InitialAssignment
  }

  /** `extract_variables`: every species identifier and every Assignment/InitialAssignment target. */
  function BoundVariables(doc: Document): (vars: set<string>)
    ensures forall s :: s in vars <==> (s in EnzmlDoc.SpeciesIds(doc) ||
      exists i :: 0 <= i < |doc.equations| && IsAssignmentKind(doc.equations[i]) && doc.equations[i].speciesId == s)
  {
    (set s | s in EnzmlDoc.SpeciesIds(doc)) +
    (set i | 0 <= i < |doc.equations| && IsAssignmentKind(doc.equations[i]) :: doc.equations[i].speciesId)
  }

  /** A parameter built for a symbol: identifier, name and symbol are the symbol, no values. */
  function NewParameter(symbol: string): (p: Parameter)
    ensures p.id == symbol && p.name == symbol && p.symbol == symbol
    ensures p.value.None? && p.initialValue.None? && p.lowerBound.None? && p.upperBound.None?
  {
    Parameter(symbol, symbol, symbol, None, None, None, None)
  }

  predicate HasId(id: string, q: Parameter) { q.id == id }

  /** The first buffered parameter with this identifier. */
  function FindInBuffer(buf: seq<Parameter>, id: string): (r: Option<Parameter>)
    ensures r.None? <==> forall j :: 0 <= j < |buf| ==> buf[j].id != id
    ensures r.Some? ==> r.value in buf && r.value.id == id
  {
    FindWhere(buf, (q: Parameter) => HasId(id, q))
  }

  /** `create_or_from_buffer`: the buffered parameter if there is one, otherwise a fresh one. */
  function CreateOrFromBuffer(buf: seq<Parameter>, symbol: string): (p: Parameter)
    ensures p.id == symbol
    ensures FindInBuffer(buf, symbol).Some? ==> p == FindInBuffer(buf, symbol).value
    ensures FindInBuffer(buf, symbol).None? ==> p == NewParameter(symbol)
  {
    match FindInBuffer(buf, symbol) {
      case Some(q) => q
      case None => NewParameter(symbol)
    }
  }

  function NotId(id: string): Parameter -> bool { (q: Parameter) => q.id != id }

  /** `param_buffer.retain(|p| p.id != symbol)`. */
  function WithoutId(buf: seq<Parameter>, id: string): (r: seq<Parameter>)
    ensures forall q :: q in r <==> q in buf && q.id != id
  {
    var r := Filter(buf, NotId(id));
    assert forall q :: q in r ==> q in buf && q.id != id by {
      forall q | q in r
        ensures q in buf && q.id != id
      {
        var k :| 0 <= k < |r| && r[k] == q;
      }
    }
    assert forall q :: q in buf && q.id != id ==> q in r by {
      forall q | q in buf && q.id != id
        ensures q in r
      {
        var k :| 0 <= k < |buf| && buf[k] == q;
      }
    }
    r
  }

  /**
   * The loop of `process_equation` over the free symbols, front symbol
   * first. `exist` is the set of live identifiers taken before the loop,
   * so a repeated symbol is not seen as already live.
   */
  function AddUnbound(ps: seq<Parameter>, buf: seq<Parameter>, syms: seq<string>, bound: set<string>, exist: set<string>): (r: Reconciled)
    decreases |syms|
  {
    if syms == [] then Reconciled(ps, buf)
    else if syms[0] !in bound && syms[0] !in exist then
      AddUnbound(ps + [CreateOrFromBuffer(buf, syms[0])], WithoutId(buf, syms[0]), syms[1..], bound, exist)
    else AddUnbound(ps, buf, syms[1..], bound, exist)
  }

  /** `process_equation` on the reconciler's state; `bound` is `BoundVariables` of the document. */
  function Reconcile(parse: Parser, bound: set<string>, st: Reconciled, text: string): (r: Result<Reconciled, string>)
    ensures parse(text).None? <==> r.Err?
    ensures r.Err? ==> r.error == "Could not parse equation"
  {
    match parse(text) {
      case None => Err("Could not parse equation")
      case Some(syms) => Ok(AddUnbound(st.parameters, st.buffer, syms, bound, IdSet(st.parameters)))
    }
  }

  /** The symbols that get a parameter: free, not bound, not live before the loop. */
  function Unbound(syms: seq<string>, bound: set<string>, exist: set<string>): set<string>
  {
    set s | s in syms && s !in bound && s !in exist
  }

  /** The live parameters before the pass stay, in place, at the front. */
  lemma {:induction false} AddUnboundPrefix(ps: seq<Parameter>, buf: seq<Parameter>, syms: seq<string>, bound: set<string>, exist: set<string>)
    ensures |AddUnbound(ps, buf, syms, bound, exist).parameters| >= |ps|
    ensures AddUnbound(ps, buf, syms, bound, exist).parameters[..|ps|] == ps
    decreases |syms|
  {
    if syms != [] {
      if syms[0] !in bound && syms[0] !in exist {
        var ps' := ps + [CreateOrFromBuffer(buf, syms[0])];
        AddUnboundPrefix(ps', WithoutId(buf, syms[0]), syms[1..], bound, exist);
        var r := AddUnbound(ps', WithoutId(buf, syms[0]), syms[1..], bound, exist).parameters;
        assert r[..|ps|] == r[..|ps'|][..|ps|];
      } else {
        AddUnboundPrefix(ps, buf, syms[1..], bound, exist);
      }
    }
  }

  /** Every added parameter is for a free symbol that is neither bound nor already live. */
  lemma {:induction false} AddUnboundAddsOnlyUnbound(ps: seq<Parameter>, buf: seq<Parameter>, syms: seq<string>, bound: set<string>, exist: set<string>)
    ensures forall k :: |ps| <= k < |AddUnbound(ps, buf, syms, bound, exist).parameters| ==>
        AddUnbound(ps, buf, syms, bound, exist).parameters[k].id in Unbound(syms, bound, exist)
    decreases |syms|
  {
    AddUnboundPrefix(ps, buf, syms, bound, exist);
    if syms != [] {
      var r := AddUnbound(ps, buf, syms, bound, exist).parameters;
      if syms[0] !in bound && syms[0] !in exist {
        var ps' := ps + [CreateOrFromBuffer(buf, syms[0])];
        AddUnboundAddsOnlyUnbound(ps', WithoutId(buf, syms[0]), syms[1..], bound, exist);
        AddUnboundPrefix(ps', WithoutId(buf, syms[0]), syms[1..], bound, exist);
        assert r[|ps|] == ps'[|ps|];
        assert forall k :: |ps'| <= k < |r| ==> r[k].id in Unbound(syms[1..], bound, exist);
      } else {
        AddUnboundAddsOnlyUnbound(ps, buf, syms[1..], bound, exist);
      }
      assert Unbound(syms[1..], bound, exist) <= Unbound(syms, bound, exist);
    }
  }

  /** Afterwards every free symbol is bound, was live, or has a live parameter. */
  lemma {:induction false} AddUnboundCovers(ps: seq<Parameter>, buf: seq<Parameter>, syms: seq<string>, bound: set<string>, exist: set<string>)
    ensures forall s :: s in syms ==> s in bound || s in exist || s in IdSet(AddUnbound(ps, buf, syms, bound, exist).parameters)
    decreases |syms|
  {
    if syms != [] {
      var r := AddUnbound(ps, buf, syms, bound, exist).parameters;
      if syms[0] !in bound && syms[0] !in exist {
        var ps' := ps + [CreateOrFromBuffer(buf, syms[0])];
        AddUnboundCovers(ps', WithoutId(buf, syms[0]), syms[1..], bound, exist);
        AddUnboundPrefix(ps', WithoutId(buf, syms[0]), syms[1..], bound, exist);
        assert r[|ps|] == ps'[|ps|];
        assert syms[0] in IdSet(r);
      } else {
        AddUnboundCovers(ps, buf, syms[1..], bound, exist);
      }
      assert forall s :: s in syms ==> s == syms[0] || s in syms[1..];
    }
  }

  /** The buffer loses exactly the entries whose identifier got a parameter. */
  lemma {:induction false} AddUnboundBuffer(ps: seq<Parameter>, buf: seq<Parameter>, syms: seq<string>, bound: set<string>, exist: set<string>)
    ensures forall q :: q in AddUnbound(ps, buf, syms, bound, exist).buffer <==> q in buf && q.id !in Unbound(syms, bound, exist)
    decreases |syms|
  {
    if syms != [] {
      if syms[0] !in bound && syms[0] !in exist {
        AddUnboundBuffer(ps + [CreateOrFromBuffer(buf, syms[0])], WithoutId(buf, syms[0]), syms[1..], bound, exist);
        assert Unbound(syms, bound, exist) == {syms[0]} + Unbound(syms[1..], bound, exist);
      } else {
        AddUnboundBuffer(ps, buf, syms[1..], bound, exist);
        assert Unbound(syms, bound, exist) == Unbound(syms[1..], bound, exist);
      }
    }
  }

  /** When every symbol is bound or already live, nothing changes. */
  lemma {:induction false} AddUnboundNoop(ps: seq<Parameter>, buf: seq<Parameter>, syms: seq<string>, bound: set<string>, exist: set<string>)
    requires forall s :: s in syms ==> s in bound || s in exist
    ensures AddUnbound(ps, buf, syms, bound, exist) == Reconciled(ps, buf)
    decreases |syms|
  {
    if syms != [] {
      assert forall s :: s in syms[1..] ==> s in syms;
      AddUnboundNoop(ps, buf, syms[1..], bound, exist);
    }
  }

  /** Removing other identifiers from the buffer does not change which entry a lookup finds. */
  lemma {:induction false} FindWithoutOther(buf: seq<Parameter>, id: string, other: string)
    requires id != other
    ensures FindInBuffer(WithoutId(buf, other), id) == FindInBuffer(buf, id)
    decreases |buf|
  {
    if buf != [] {
      FindWithoutOther(buf[1..], id, other);
      assert WithoutId(buf, other) == if buf[0].id != other then [buf[0]] + WithoutId(buf[1..], other) else WithoutId(buf[1..], other);
      if buf[0].id == id {
        IndexWhereFirst(WithoutId(buf, other), (q: Parameter) => HasId(id, q), 0);
      } else {
        FindSkipsHead(buf, id);
        if buf[0].id != other {
          FindSkipsHead([buf[0]] + WithoutId(buf[1..], other), id);
          assert ([buf[0]] + WithoutId(buf[1..], other))[1..] == WithoutId(buf[1..], other);
        }
      }
    }
  }

  /** A lookup skips a head entry with another identifier. */
  lemma FindSkipsHead(buf: seq<Parameter>, id: string)
    requires buf != [] && buf[0].id != id
    ensures FindInBuffer(buf, id) == FindInBuffer(buf[1..], id)
  {
    var p := (q: Parameter) => HasId(id, q);
    match IndexWhere(buf[1..], p) {
      case None =>
      case Some(k) =>
        IndexWhereFirst(buf, p, k + 1);
    }
  }

  /** A symbol that gets a parameter and was buffered gets the buffered parameter back, values and all. */
  lemma {:induction false} AddUnboundRestores(ps: seq<Parameter>, buf: seq<Parameter>, syms: seq<string>, bound: set<string>, exist: set<string>, s: string, p: Parameter)
    requires s in syms && s !in bound && s !in exist
    requires FindInBuffer(buf, s) == Some(p)
    ensures p in AddUnbound(ps, buf, syms, bound, exist).parameters
    decreases |syms|
  {
    var t := syms[0];
    if t == s {
      var ps' := ps + [CreateOrFromBuffer(buf, s)];
      AddUnboundPrefix(ps', WithoutId(buf, s), syms[1..], bound, exist);
      var r := AddUnbound(ps', WithoutId(buf, s), syms[1..], bound, exist).parameters;
      assert r[|ps|] == ps'[|ps|] == p;
    } else {
      assert s in syms[1..];
      if t !in bound && t !in exist {
        FindWithoutOther(buf, s, t);
        AddUnboundRestores(ps + [CreateOrFromBuffer(buf, t)], WithoutId(buf, t), syms[1..], bound, exist, s, p);
      } else {
        AddUnboundRestores(ps, buf, syms[1..], bound, exist, s, p);
      }
    }
  }

  /** With distinct symbols, none of which that gets a parameter is already live, identifiers stay unique. */
  lemma {:induction false} AddUnboundUnique(ps: seq<Parameter>, buf: seq<Parameter>, syms: seq<string>, bound: set<string>, exist: set<string>)
    requires UniqueIds(ps) && NoDup(syms)
    requires forall s :: s in Unbound(syms, bound, exist) ==> s !in IdSet(ps)
    ensures UniqueIds(AddUnbound(ps, buf, syms, bound, exist).parameters)
    decreases |syms|
  {
    if syms != [] {
      var rest := syms[1..];
      assert NoDup(rest) by {
        forall i, j | 0 <= i < j < |rest|
          ensures rest[i] != rest[j]
        {
          assert rest[i] == syms[i + 1] && rest[j] == syms[j + 1];
        }
      }
      assert forall s :: s in rest ==> s != syms[0] by {
        forall s | s in rest
          ensures s != syms[0]
        {
          var k :| 0 <= k < |rest| && rest[k] == s;
          assert syms[k + 1] == s;
        }
      }
      assert Unbound(rest, bound, exist) <= Unbound(syms, bound, exist);
      if syms[0] !in bound && syms[0] !in exist {
        var p := CreateOrFromBuffer(buf, syms[0]);
        var ps' := ps + [p];
        assert syms[0] in Unbound(syms, bound, exist);
        assert UniqueIds(ps') by {
          forall i, j | 0 <= i < j < |ps'|
            ensures ps'[i].id != ps'[j].id
          {
            if j == |ps| {
              assert ps'[i].id == ps[i].id;
            }
          }
        }
        assert IdSet(ps') == IdSet(ps) + {syms[0]} by {
          forall x | x in IdSet(ps')
            ensures x in IdSet(ps) + {syms[0]}
          {
            var k :| 0 <= k < |ps'| && ps'[k].id == x;
            if k < |ps| { assert ps[k].id == x; }
          }
          forall x | x in IdSet(ps)
            ensures x in IdSet(ps')
          {
            var k :| 0 <= k < |ps| && ps[k].id == x;
            assert ps'[k].id == x;
          }
          assert ps'[|ps|].id == syms[0];
        }
        AddUnboundUnique(ps', WithoutId(buf, syms[0]), rest, bound, exist);
      } else {
        AddUnboundUnique(ps, buf, rest, bound, exist);
      }
    }
  }

  /** Reconciling keeps live and retired identifiers apart. */
  lemma AddUnboundDisjoint(ps: seq<Parameter>, buf: seq<Parameter>, syms: seq<string>, bound: set<string>, exist: set<string>)
    requires Disjoint(ps, buf)
    ensures Disjoint(AddUnbound(ps, buf, syms, bound, exist).parameters, AddUnbound(ps, buf, syms, bound, exist).buffer)
  {
    var r := AddUnbound(ps, buf, syms, bound, exist);
    AddUnboundPrefix(ps, buf, syms, bound, exist);
    AddUnboundAddsOnlyUnbound(ps, buf, syms, bound, exist);
    AddUnboundBuffer(ps, buf, syms, bound, exist);
    forall p, q | p in r.parameters && q in r.buffer
      ensures p.id != q.id
    {
      var i :| 0 <= i < |r.parameters| && r.parameters[i] == p;
      if i < |ps| {
        assert p == ps[i];
      }
    }
  }

  /** Reconciling twice is reconciling once. */
  lemma ReconcileIdempotent(parse: Parser, bound: set<string>, st: Reconciled, text: string)
    requires Reconcile(parse, bound, st, text).Ok?
    ensures Reconcile(parse, bound, Reconcile(parse, bound, st, text).value, text) == Reconcile(parse, bound, st, text)
  {
    var syms := parse(text).value;
    var after := Reconcile(parse, bound, st, text).value;
    AddUnboundCovers(st.parameters, st.buffer, syms, bound, IdSet(st.parameters));
    AddUnboundPrefix(st.parameters, st.buffer, syms, bound, IdSet(st.parameters));
    assert IdSet(st.parameters) <= IdSet(after.parameters) by {
      forall x | x in IdSet(st.parameters)
        ensures x in IdSet(after.parameters)
      {
        var k :| 0 <= k < |st.parameters| && st.parameters[k].id == x;
        assert after.parameters[k] == st.parameters[k];
      }
    }
    AddUnboundNoop(after.parameters, after.buffer, syms, bound, IdSet(after.parameters));
  }

  /**
   * `Vmax*S/(Km+S)` with species `S`, and neither `Vmax` nor `Km` live or
   * buffered: exactly two fresh parameters, `Vmax` and `Km`, are appended.
   */
  lemma ReconcileMichaelisMenten(parse: Parser, bound: set<string>, st: Reconciled)
    requires parse("Vmax*S/(Km+S)") == Some(["Vmax", "S", "Km"])
    requires "S" in bound && "Vmax" !in bound && "Km" !in bound
    requires "Vmax" !in IdSet(st.parameters) && "Km" !in IdSet(st.parameters)
    requires FindInBuffer(st.buffer, "Vmax").None? && FindInBuffer(st.buffer, "Km").None?
    ensures Reconcile(parse, bound, st, "Vmax*S/(Km+S)").Ok?
    ensures Reconcile(parse, bound, st, "Vmax*S/(Km+S)").value.parameters ==
      st.parameters + [NewParameter("Vmax"), NewParameter("Km")]
  {
    var syms := ["Vmax", "S", "Km"];
    var exist := IdSet(st.parameters);
    var b1 := WithoutId(st.buffer, "Vmax");
    assert syms[1..] == ["S", "Km"] && syms[1..][1..] == ["Km"] && ["Km"][1..] == [];
    FindWithoutOther(st.buffer, "Km", "Vmax");
    assert AddUnbound(st.parameters, st.buffer, syms, bound, exist) ==
      AddUnbound(st.parameters + [NewParameter("Vmax")], b1, ["S", "Km"], bound, exist);
  }

  // ---------------------------------------------------------------------
  // cleanup_parameters

  /** `extract_all_symbols`: the free symbols of every equation, in order; `None` when one fails to parse (the `unwrap` panics). */
  function AllSymbols(parse: Parser, eqs: seq<Equation>): (r: Option<seq<string>>)
    decreases |eqs|
  {
    if eqs == [] then Some([])
    else match parse(eqs[0].equation) {
      case None => None
      case Some(a) =>
        match AllSymbols(parse, eqs[1..]) {
          case None => None
          case Some(b) => Some(a + b)
        }
    }
  }

  /** The sweep succeeds exactly when every equation parses, and then holds every equation's symbols. */
  lemma {:induction false} AllSymbolsSpec(parse: Parser, eqs: seq<Equation>)
    ensures AllSymbols(parse, eqs).Some? <==> forall k :: 0 <= k < |eqs| ==> parse(eqs[k].equation).Some?
    ensures AllSymbols(parse, eqs).Some? ==>
      forall k, s :: 0 <= k < |eqs| && s in parse(eqs[k].equation).value ==> s in AllSymbols(parse, eqs).value
    ensures AllSymbols(parse, eqs).Some? ==>
      forall s :: s in AllSymbols(parse, eqs).value ==> exists k :: 0 <= k < |eqs| && s in parse(eqs[k].equation).value
    decreases |eqs|
  {
    if eqs != [] {
      AllSymbolsSpec(parse, eqs[1..]);
      assert forall k :: 1 <= k < |eqs| ==> eqs[k] == eqs[1..][k - 1];
      if AllSymbols(parse, eqs).Some? {
        var a := parse(eqs[0].equation).value;
        var b := AllSymbols(parse, eqs[1..]).value;
        forall s | s in AllSymbols(parse, eqs).value
          ensures exists k :: 0 <= k < |eqs| && s in parse(eqs[k].equation).value
        {
          if s !in a {
            assert s in b;
            var k :| 0 <= k < |eqs[1..]| && s in parse(eqs[1..][k].equation).value;
            assert eqs[k + 1] == eqs[1..][k];
          }
        }
      }
    }
  }

  /** `move_to_param_buffer`: append, then drop the oldest entry when there are more than ten. */
  function MoveToBuffer(buf: seq<Parameter>, p: Parameter): (r: seq<Parameter>)
    ensures |buf| <= BufferCapacity ==> |r| <= BufferCapacity
    ensures |r| > 0 && r[|r| - 1] == p
    ensures |buf| < BufferCapacity ==> r == buf + [p]
  {
    var grown := buf + [p];
    if |grown| > BufferCapacity then grown[1..] else grown
  }

  /** The buffer after retiring `ps` one after another. */
  function PushAll(buf: seq<Parameter>, ps: seq<Parameter>): seq<Parameter>
    decreases |ps|
  {
    if ps == [] then buf else MoveToBuffer(PushAll(buf, ps[..|ps| - 1]), ps[|ps| - 1])
  }

  /** The last (at most) ten entries of `s`. */
  function LastTen(s: seq<Parameter>): (r: seq<Parameter>)
    ensures |r| <= BufferCapacity
  {
    if |s| <= BufferCapacity then s else s[|s| - BufferCapacity..]
  }

  /** Retiring in sequence keeps exactly the ten most recent entries, oldest first. */
  lemma {:induction false} PushAllLastTen(buf: seq<Parameter>, ps: seq<Parameter>)
    requires |buf| <= BufferCapacity
    ensures PushAll(buf, ps) == LastTen(buf + ps)
    decreases |ps|
  {
    if ps == [] {
      assert buf + ps == buf;
    } else {
      var front := ps[..|ps| - 1];
      var x := ps[|ps| - 1];
      PushAllLastTen(buf, front);
      assert buf + ps == (buf + front) + [x];
      var y := buf + front;
      if |y| >= BufferCapacity {
        assert LastTen(y) + [x] == y[|y| - BufferCapacity..] + [x];
        assert (LastTen(y) + [x])[1..] == (y + [x])[|y + [x]| - BufferCapacity..];
      }
    }
  }

  /** Ten slots: eleven parameters retired into an empty buffer leave the ten most recent; the first is gone. */
  lemma ElevenRetired(ps: seq<Parameter>)
    requires |ps| == 11
    ensures PushAll([], ps) == ps[1..]
  {
    PushAllLastTen([], ps);
    assert [] + ps == ps;
  }

  function UnreferencedBy(syms: seq<string>): Parameter -> bool { (p: Parameter) => p.id !in syms }
  function ReferencedBy(syms: seq<string>): Parameter -> bool { (p: Parameter) => p.id in syms }
  function NotAmong(ids: seq<string>): Parameter -> bool { (p: Parameter) => p.id !in ids }

  /**
   * `cleanup_parameters`: every live parameter whose identifier no
   * equation mentions is moved to the buffer and its identifier recorded;
   * then the parameters with a recorded identifier are dropped.
   */
  function Cleanup(parse: Parser, eqs: seq<Equation>, st: Reconciled): (r: Outcome<Reconciled>)
    ensures r.Panicked? <==> AllSymbols(parse, eqs).None?
  {
    match AllSymbols(parse, eqs) {
      case None => Panicked("called `Result::unwrap()` on an `Err` value")
      case Some(syms) =>
        var retired := Filter(st.parameters, UnreferencedBy(syms));
        Returned(Reconciled(Filter(st.parameters, NotAmong(ParameterIds(retired))), PushAll(st.buffer, retired)))
    }
  }

  /** What is left live is exactly the referenced parameters, in their order. */
  lemma CleanupKeepsReferenced(parse: Parser, eqs: seq<Equation>, st: Reconciled)
    requires AllSymbols(parse, eqs).Some?
    ensures Cleanup(parse, eqs, st).value.parameters == Filter(st.parameters, ReferencedBy(AllSymbols(parse, eqs).value))
  {
    var syms := AllSymbols(parse, eqs).value;
    var ps := st.parameters;
    var retired := Filter(ps, UnreferencedBy(syms));
    var ids := ParameterIds(retired);
    forall j | 0 <= j < |ps|
      ensures NotAmong(ids)(ps[j]) == ReferencedBy(syms)(ps[j])
    {
      if ps[j].id !in syms {
        assert ps[j] in retired;
        var k :| 0 <= k < |retired| && retired[k] == ps[j];
        assert ids[k] == ps[j].id;
      }
    }
    FilterSame(ps, NotAmong(ids), ReferencedBy(syms));
  }

  /** The buffer receives the retired parameters in order and keeps the last ten. */
  lemma CleanupBuffer(parse: Parser, eqs: seq<Equation>, st: Reconciled)
    requires AllSymbols(parse, eqs).Some? && |st.buffer| <= BufferCapacity
    ensures Cleanup(parse, eqs, st).value.buffer ==
      LastTen(st.buffer + Filter(st.parameters, UnreferencedBy(AllSymbols(parse, eqs).value)))
  {
    PushAllLastTen(st.buffer, Filter(st.parameters, UnreferencedBy(AllSymbols(parse, eqs).value)));
  }

  /** Every survivor of cleanup is a referenced live parameter; every buffered one was buffered or retired. */
  lemma CleanupMembers(parse: Parser, eqs: seq<Equation>, st: Reconciled)
    requires AllSymbols(parse, eqs).Some? && |st.buffer| <= BufferCapacity
    ensures forall p :: p in Cleanup(parse, eqs, st).value.parameters ==>
      p in st.parameters && p.id in AllSymbols(parse, eqs).value
    ensures forall q :: q in Cleanup(parse, eqs, st).value.buffer ==>
      q in st.buffer || (q in st.parameters && q.id !in AllSymbols(parse, eqs).value)
  {
    var syms := AllSymbols(parse, eqs).value;
    var retired := Filter(st.parameters, UnreferencedBy(syms));
    var c := Cleanup(parse, eqs, st).value;
    CleanupKeepsReferenced(parse, eqs, st);
    CleanupBuffer(parse, eqs, st);
    forall p | p in c.parameters
      ensures p in st.parameters && p.id in syms
    {
      FilterMember(st.parameters, ReferencedBy(syms), p);
    }
    forall q | q in c.buffer
      ensures q in st.buffer || (q in st.parameters && q.id !in syms)
    {
      LastTenMember(st.buffer + retired, q);
      if q in retired {
        FilterMember(st.parameters, UnreferencedBy(syms), q);
      }
    }
  }

  lemma LastTenMember(s: seq<Parameter>, q: Parameter)
    requires q in LastTen(s)
    ensures q in s
  {
    var r := LastTen(s);
    var k :| 0 <= k < |r| && r[k] == q;
    if |s| > BufferCapacity {
      assert q == s[|s| - BufferCapacity + k];
    }
  }

  /** Cleanup keeps live and retired identifiers apart. */
  lemma CleanupDisjoint(parse: Parser, eqs: seq<Equation>, st: Reconciled)
    requires AllSymbols(parse, eqs).Some? && |st.buffer| <= BufferCapacity
    requires Disjoint(st.parameters, st.buffer)
    ensures Disjoint(Cleanup(parse, eqs, st).value.parameters, Cleanup(parse, eqs, st).value.buffer)
  {
    CleanupMembers(parse, eqs, st);
  }

  /** Keeping the last ten of `a + b` with `b` short enough keeps all of `b` behind a suffix of `a`. */
  lemma LastTenSplit(a: seq<Parameter>, b: seq<Parameter>) returns (d: nat)
    requires |b| <= BufferCapacity
    ensures d <= |a| && LastTen(a + b) == a[d..] + b
  {
    if |a + b| <= BufferCapacity {
      d := 0;
      assert a[0..] == a;
    } else {
      d := |a + b| - BufferCapacity;
      assert (a + b)[d..] == a[d..] + b;
    }
  }

  /** A lookup passes over a prefix that holds no entry with the identifier. */
  lemma {:induction false} FindSkipsPrefix(a: seq<Parameter>, b: seq<Parameter>, id: string)
    requires forall q :: q in a ==> q.id != id
    ensures FindInBuffer(a + b, id) == FindInBuffer(b, id)
    decreases |a|
  {
    if a == [] {
      assert a + b == b;
    } else {
      FindSkipsHead(a + b, id);
      assert (a + b)[1..] == a[1..] + b;
      FindSkipsPrefix(a[1..], b, id);
    }
  }

  /** Filtering keeps identifiers unique. */
  lemma {:induction false} FilterUnique(ps: seq<Parameter>, p: Parameter -> bool)
    requires UniqueIds(ps)
    ensures UniqueIds(Filter(ps, p))
    decreases |ps|
  {
    if ps != [] {
      assert UniqueIds(ps[1..]) by {
        forall i, j | 0 <= i < j < |ps[1..]|
          ensures ps[1..][i].id != ps[1..][j].id
        {
          assert ps[1..][i] == ps[i + 1] && ps[1..][j] == ps[j + 1];
        }
      }
      FilterUnique(ps[1..], p);
      if p(ps[0]) {
        var f := Filter(ps, p);
        forall j | 1 <= j < |f|
          ensures f[0].id != f[j].id
        {
          assert f[j] in Filter(ps[1..], p);
          FilterMember(ps[1..], p, f[j]);
          var k :| 0 <= k < |ps[1..]| && ps[1..][k] == f[j];
          assert ps[k + 1] == f[j];
        }
      }
    }
  }

  /** With unique identifiers, the lookup of a member's identifier finds that member. */
  lemma FindUnique(b: seq<Parameter>, p: Parameter)
    requires UniqueIds(b) && p in b
    ensures FindInBuffer(b, p.id) == Some(p)
  {
    var k :| 0 <= k < |b| && b[k] == p;
    IndexWhereFirst(b, (q: Parameter) => HasId(p.id, q), k);
  }

  /** A parameter retired by cleanup, ten or fewer being retired, is what the buffer lookup then finds. */
  lemma RetiredIsBuffered(parse: Parser, eqs: seq<Equation>, st: Reconciled, p: Parameter)
    requires UniqueIds(st.parameters) && Disjoint(st.parameters, st.buffer) && |st.buffer| <= BufferCapacity
    requires p in st.parameters
    requires AllSymbols(parse, eqs).Some? && p.id !in AllSymbols(parse, eqs).value
    requires |Filter(st.parameters, UnreferencedBy(AllSymbols(parse, eqs).value))| <= BufferCapacity
    ensures FindInBuffer(Cleanup(parse, eqs, st).value.buffer, p.id) == Some(p)
  {
    var syms := AllSymbols(parse, eqs).value;
    var retired := Filter(st.parameters, UnreferencedBy(syms));
    CleanupBuffer(parse, eqs, st);
    FilterUnique(st.parameters, UnreferencedBy(syms));
    var d := LastTenSplit(st.buffer, retired);
    FindSkipsPrefix(st.buffer[d..], retired, p.id);
    FindUnique(retired, p);
  }

  /**
   * Round trip through the buffer: a parameter retired by cleanup (with no
   * more than ten retired at once) comes back with its values when an
   * equation mentions its symbol again.
   */
  lemma RetireThenRestore(parse: Parser, eqs: seq<Equation>, st: Reconciled, p: Parameter, bound: set<string>, text: string)
    requires UniqueIds(st.parameters) && Disjoint(st.parameters, st.buffer) && |st.buffer| <= BufferCapacity
    requires p in st.parameters
    requires AllSymbols(parse, eqs).Some? && p.id !in AllSymbols(parse, eqs).value
    requires |Filter(st.parameters, UnreferencedBy(AllSymbols(parse, eqs).value))| <= BufferCapacity
    requires parse(text).Some? && p.id in parse(text).value && p.id !in bound
    ensures Reconcile(parse, bound, Cleanup(parse, eqs, st).value, text).Ok?
    ensures p in Reconcile(parse, bound, Cleanup(parse, eqs, st).value, text).value.parameters
  {
    var c := Cleanup(parse, eqs, st).value;
    RetiredIsBuffered(parse, eqs, st, p);
    CleanupMembers(parse, eqs, st);
    AddUnboundRestores(c.parameters, c.buffer, parse(text).value, bound, IdSet(c.parameters), p.id, p);
  }
}
