/**
 * Deriving an ODE right-hand side from the reactions a species takes part
 * in: one part per reaction (signed coefficient and kinetic law), a stable
 * sort that puts positive parts first, and the textual assembly.
 * `fmt` stands for Rust's `{}` rendering of an `f64`.
 */
module Derivation {
  import opened Wrappers
  import opened EnzymeML
  import opened Seqs

  /** One reaction's contribution to a species' rate of change. */
  datatype EquationPart = EquationPart(negative: bool, stoichiometry: real, equation: string)

  predicate IsFor(speciesId: string, e: ReactionElement) { e.speciesId == speciesId }

  /** `has_species_id`: some reactant or product refers to the species. */
  predicate HasSpeciesId(speciesId: string, r: Reaction)
  {
    FindElement(r.reactants, speciesId).Some? || FindElement(r.products, speciesId).Some?
  }

  /** `has_species_id` is the search over reactants chained with products. */
  lemma HasSpeciesIdSpec(speciesId: string, r: Reaction)
    ensures HasSpeciesId(speciesId, r) <==> exists e :: e in r.reactants + r.products && e.speciesId == speciesId
  {
    var all := r.reactants + r.products;
    if HasSpeciesId(speciesId, r) {
      var e := if FindElement(r.reactants, speciesId).Some? then FindElement(r.reactants, speciesId).value
               else FindElement(r.products, speciesId).value;
      assert e in all;
    } else {
      forall e | e in all
        ensures e.speciesId != speciesId
      {
        var k :| 0 <= k < |all| && all[k] == e;
        if k < |r.reactants| { assert r.reactants[k] == e; } else { assert r.products[k - |r.reactants|] == e; }
      }
    }
  }

  /** The first element of `elems` that refers to the species. */
  function FindElement(elems: seq<ReactionElement>, speciesId: string): (r: Option<ReactionElement>)
    ensures r.None? <==> forall j :: 0 <= j < |elems| ==> elems[j].speciesId != speciesId
    ensures r.Some? ==> r.value in elems && r.value.speciesId == speciesId
  {
    FindWhere(elems, (e: ReactionElement) => e.speciesId == speciesId)
  }

  /**
   * The signed coefficient of the species in the reaction: minus its first
   * reactant coefficient if it is a reactant, otherwise its first product
   * coefficient. A species that is both counts as a reactant.
   */
  function SignedStoichiometry(speciesId: string, r: Reaction): (c: real)
    requires HasSpeciesId(speciesId, r)
    ensures FindElement(r.reactants, speciesId).Some? ==> c == -FindElement(r.reactants, speciesId).value.stoichiometry
    ensures FindElement(r.reactants, speciesId).None? ==>
      FindElement(r.products, speciesId).Some? && c == FindElement(r.products, speciesId).value.stoichiometry
  {
    match FindElement(r.reactants, speciesId) {
      case Some(e) => -e.stoichiometry
      case None =>
        FindElement(r.products, speciesId).value.stoichiometry
    }
  }

  /**
   * `derive_part_from_reac`: the part for a reaction that mentions the
   * species. A reaction without a kinetic law contributes no part.
   */
  function DerivePart(speciesId: string, r: Reaction): (p: Option<EquationPart>)
    requires HasSpeciesId(speciesId, r)
    ensures p.Some? <==> r.kineticLaw.Some?
    ensures p.Some? ==> p.value.stoichiometry == SignedStoichiometry(speciesId, r)
    ensures p.Some? ==> (p.value.negative <==> p.value.stoichiometry < 0.0)
    ensures p.Some? ==> p.value.equation == r.kineticLaw.value.equation
  {
    var c := SignedStoichiometry(speciesId, r);
    match r.kineticLaw {
      case None => None
      case Some(law) => Some(EquationPart(c < 0.0, c, law.equation))
    }
  }

  /** A reactant with a positive coefficient gives a negative part; a pure product with a non-negative one a positive part. */
  lemma PartSign(speciesId: string, r: Reaction)
    requires HasSpeciesId(speciesId, r) && r.kineticLaw.Some?
    ensures FindElement(r.reactants, speciesId).Some? && FindElement(r.reactants, speciesId).value.stoichiometry > 0.0 ==>
      DerivePart(speciesId, r).value.negative
    ensures FindElement(r.reactants, speciesId).None? && FindElement(r.products, speciesId).value.stoichiometry >= 0.0 ==>
      !DerivePart(speciesId, r).value.negative
  {
  }

  /** What one reaction adds to the parts list of the species (the loop body of `derive_from_reactions`). */
  function PartOf(speciesId: string, r: Reaction): (ps: seq<EquationPart>)
    ensures |ps| <= 1
  {
    if !HasSpeciesId(speciesId, r) then []
    else match DerivePart(speciesId, r) {
      case None => []
      case Some(p) => [p]
    }
  }

  /** The parts of the species, one per reaction that mentions it and has a law, in reaction order. */
  function PartsFor(speciesId: string, rs: seq<Reaction>): (ps: seq<EquationPart>)
    ensures |ps| <= |rs|
    decreases |rs|
  {
    if rs == [] then [] else PartOf(speciesId, rs[0]) + PartsFor(speciesId, rs[1..])
  }

  predicate Mentions(speciesId: string, r: Reaction) { HasSpeciesId(speciesId, r) }

  /** When every reaction has a law, there is exactly one part per reaction that mentions the species. */
  lemma {:induction false} PartsForCount(speciesId: string, rs: seq<Reaction>)
    requires forall k :: 0 <= k < |rs| ==> rs[k].kineticLaw.Some?
    ensures |PartsFor(speciesId, rs)| == |Filter(rs, (r: Reaction) => Mentions(speciesId, r))|
    decreases |rs|
  {
    if rs != [] {
      PartsForCount(speciesId, rs[1..]);
    }
  }

  /** Every part comes from a reaction that mentions the species. */
  lemma {:induction false} PartsForSource(speciesId: string, rs: seq<Reaction>, p: EquationPart)
    requires p in PartsFor(speciesId, rs)
    ensures exists k :: 0 <= k < |rs| && HasSpeciesId(speciesId, rs[k]) && DerivePart(speciesId, rs[k]) == Some(p)
    decreases |rs|
  {
    if p in PartOf(speciesId, rs[0]) {
      assert HasSpeciesId(speciesId, rs[0]) && DerivePart(speciesId, rs[0]) == Some(p);
    } else {
      PartsForSource(speciesId, rs[1..], p);
      var k :| 0 <= k < |rs[1..]| && HasSpeciesId(speciesId, rs[1..][k]) && DerivePart(speciesId, rs[1..][k]) == Some(p);
      assert rs[k + 1] == rs[1..][k];
    }
  }

  predicate IsNegative(p: EquationPart) { p.negative }
  predicate IsPositive(p: EquationPart) { !p.negative }

  /**
   * `parts.sort_by(|a, b| a.negative.cmp(&b.negative))`: a stable sort on
   * the sign flag, so positive parts come first and each group keeps its order.
   */
  function SortBySign(parts: seq<EquationPart>): (r: seq<EquationPart>)
  {
    Filter(parts, IsPositive) + Filter(parts, IsNegative)
  }

  /** The sort is a permutation of the parts. */
  lemma SortBySignPermutation(parts: seq<EquationPart>)
    ensures multiset(SortBySign(parts)) == multiset(parts)
  {
    FilterMultiset(parts, IsPositive, IsNegative);
  }

  /** No negative part comes before a positive one. */
  lemma SortBySignSorted(parts: seq<EquationPart>)
    ensures forall i, j :: 0 <= i < j < |SortBySign(parts)| ==> !(SortBySign(parts)[i].negative && !SortBySign(parts)[j].negative)
  {
    var pos := Filter(parts, IsPositive);
    var neg := Filter(parts, IsNegative);
    var r := SortBySign(parts);
    assert forall i :: 0 <= i < |pos| ==> r[i] == pos[i] && !r[i].negative;
    assert forall i :: |pos| <= i < |r| ==> r[i] == neg[i - |pos|] && r[i].negative;
  }

  /** Each sign group keeps the order it had among the parts (the sort is stable). */
  lemma SortBySignStable(parts: seq<EquationPart>)
    ensures Filter(SortBySign(parts), IsPositive) == Filter(parts, IsPositive)
    ensures Filter(SortBySign(parts), IsNegative) == Filter(parts, IsNegative)
  {
    var pos := Filter(parts, IsPositive);
    var neg := Filter(parts, IsNegative);
    FilterConcat(pos, neg, IsPositive);
    FilterConcat(pos, neg, IsNegative);
    FilterAll(pos, IsPositive);
    FilterAll(neg, IsNegative);
    FilterNone(pos, IsNegative);
    FilterNone(neg, IsPositive);
    assert pos + [] == pos;
    assert [] + neg == neg;
  }

  function Abs(x: real): real { if x < 0.0 then -x else x }

  /** The law text, parenthesised when it contains a `+` or a `-` anywhere. */
  function Wrapped(law: string): (w: string)
    ensures ('+' in law || '-' in law) ==> w == "(" + law + ")"
    ensures !('+' in law || '-' in law) ==> w == law
  {
    if '+' in law || '-' in law then "(" + law + ")" else law
  }

  function SignText(p: EquationPart): string { if p.negative then "-" else "+" }

  /** The first term: no sign when positive, `-` when negative; a non-unit coefficient as `c * law`. */
  function FirstTerm(p: EquationPart, fmt: real -> string): string
  {
    if Abs(p.stoichiometry) == 1.0 then (if p.negative then "-" else "") + Wrapped(p.equation)
    else fmt(p.stoichiometry) + " * " + Wrapped(p.equation)
  }

  /**
   * A later term exactly as `assemble_equation` writes it: the sign, then
   * the coefficient as it is stored, which for a negative part is itself negative.
   */
  function LaterTermAsWritten(p: EquationPart, fmt: real -> string): string
  {
    if Abs(p.stoichiometry) == 1.0 then " " + SignText(p) + " " + Wrapped(p.equation)
    else " " + SignText(p) + " " + fmt(p.stoichiometry) + "*" + Wrapped(p.equation)
  }

  /** A later term with the coefficient's magnitude after the sign, as the sign-then-magnitude layout intends. */
  function LaterTerm(p: EquationPart, fmt: real -> string): string
  {
    if Abs(p.stoichiometry) == 1.0 then " " + SignText(p) + " " + Wrapped(p.equation)
    else " " + SignText(p) + " " + fmt(Abs(p.stoichiometry)) + "*" + Wrapped(p.equation)
  }

  /** The concatenation of the terms: the first part's term, then `later` applied to each further part. */
  function AssembleWith(parts: seq<EquationPart>, fmt: real -> string, later: EquationPart -> string): (s: string)
    decreases |parts|
  {
    if parts == [] then ""
    else if |parts| == 1 then FirstTerm(parts[0], fmt)
    else AssembleWith(parts[..|parts| - 1], fmt, later) + later(parts[|parts| - 1])
  }

  /** The intended layout: later coefficients written as magnitudes after the sign. */
  function Assembled(parts: seq<EquationPart>, fmt: real -> string): string
  {
    AssembleWith(parts, fmt, (p: EquationPart) => LaterTerm(p, fmt))
  }

  /** `assemble_equation` as the source writes it, and as the derive command stores it. */
  function AssembledAsWritten(parts: seq<EquationPart>, fmt: real -> string): string
  {
    AssembleWith(parts, fmt, (p: EquationPart) => LaterTermAsWritten(p, fmt))
  }

  /** The later terms of `parts`, concatenated. */
  function LaterTerms(parts: seq<EquationPart>, later: EquationPart -> string): string
    decreases |parts|
  {
    if parts == [] then "" else LaterTerms(parts[..|parts| - 1], later) + later(parts[|parts| - 1])
  }

  /** Assembling `a + b` is assembling `a` and appending one later term per part of `b`. */
  lemma {:induction false} AssembleConcat(a: seq<EquationPart>, b: seq<EquationPart>, fmt: real -> string, later: EquationPart -> string)
    requires a != []
    ensures AssembleWith(a + b, fmt, later) == AssembleWith(a, fmt, later) + LaterTerms(b, later)
    decreases |b|
  {
    if b == [] {
      assert a + b == a;
    } else {
      var ab, b' := a + b, b[..|b| - 1];
      assert ab[..|ab| - 1] == a + b';
      assert ab[|ab| - 1] == b[|b| - 1];
      assert AssembleWith(ab, fmt, later) == AssembleWith(a + b', fmt, later) + later(b[|b| - 1]);
      assert LaterTerms(b, later) == LaterTerms(b', later) + later(b[|b| - 1]);
      AssembleConcat(a, b', fmt, later);
    }
  }

  /** Method form of `assemble_equation`: one term per part, appended in order. */
  method AssembleEquation(parts: seq<EquationPart>, fmt: real -> string) returns (s: string)
    ensures s == AssembledAsWritten(parts, fmt)
  {
    s := "";
    for i := 0 to |parts|
      invariant s == AssembledAsWritten(parts[..i], fmt)
    {
      assert parts[..i + 1][..i] == parts[..i];
      if i == 0 {
        s := s + FirstTerm(parts[i], fmt);
      } else {
        s := s + LaterTermAsWritten(parts[i], fmt);
      }
    }
    assert parts[..|parts|] == parts;
  }

  lemma PartsForStep(speciesId: string, rs: seq<Reaction>, i: nat)
    requires i < |rs|
    ensures PartsFor(speciesId, rs[i..]) == PartOf(speciesId, rs[i]) + PartsFor(speciesId, rs[i + 1..])
  {
    assert rs[i..][1..] == rs[i + 1..];
  }

  /** `derive_part_from_reac`, called on a reaction that mentions the species: pushes its part, if it has a law. */
  method PushDerivedPart(speciesId: string, parts: seq<EquationPart>, r: Reaction) returns (out: seq<EquationPart>)
    requires HasSpeciesId(speciesId, r)
    ensures out == parts + PartOf(speciesId, r)
  {
    var p := DerivePart(speciesId, r);
    if p.Some? {
      out := parts + [p.value];
    } else {
      out := parts;
    }
  }

  /** The collecting loop of `derive_from_reactions` for one species. */
  method CollectParts(speciesId: string, rs: seq<Reaction>) returns (parts: seq<EquationPart>)
    ensures parts == PartsFor(speciesId, rs)
  {
    parts := [];
    for i := 0 to |rs|
      invariant parts + PartsFor(speciesId, rs[i..]) == PartsFor(speciesId, rs)
    {
      PartsForStep(speciesId, rs, i);
      ghost var before := parts;
      if HasSpeciesId(speciesId, rs[i]) {
        parts := PushDerivedPart(speciesId, parts, rs[i]);
      }
      assert parts == before + PartOf(speciesId, rs[i]);
      ConcatAssoc(before, PartOf(speciesId, rs[i]), PartsFor(speciesId, rs[i + 1..]));
    }
    assert rs[|rs|..] == [];
  }

  /** The derived right-hand side of the species' ODE. */
  function DerivedText(speciesId: string, rs: seq<Reaction>, fmt: real -> string): string
  {
    AssembledAsWritten(SortBySign(PartsFor(speciesId, rs)), fmt)
  }

  /**
   * Sign order: with at least one positive part, the text is the positive
   * parts assembled, followed by one ` - ` term per negative part.
   */
  lemma DerivedTextOrder(speciesId: string, rs: seq<Reaction>, fmt: real -> string)
    requires Filter(PartsFor(speciesId, rs), IsPositive) != []
    ensures DerivedText(speciesId, rs, fmt) ==
      AssembledAsWritten(Filter(PartsFor(speciesId, rs), IsPositive), fmt)
      + LaterTerms(Filter(PartsFor(speciesId, rs), IsNegative), (p: EquationPart) => LaterTermAsWritten(p, fmt))
  {
    var parts := PartsFor(speciesId, rs);
    AssembleConcat(Filter(parts, IsPositive), Filter(parts, IsNegative), fmt, (p: EquationPart) => LaterTermAsWritten(p, fmt));
  }

  /** In both layouts a later term starts with ` - ` exactly for a negative part, and with ` + ` otherwise. */
  lemma LaterTermSign(p: EquationPart, fmt: real -> string)
    ensures p.negative ==> LaterTermAsWritten(p, fmt)[..3] == " - " && LaterTerm(p, fmt)[..3] == " - "
    ensures !p.negative ==> LaterTermAsWritten(p, fmt)[..3] == " + " && LaterTerm(p, fmt)[..3] == " + "
  {
  }

  /** A coefficient of magnitude one is left out: the term is the sign and the (possibly parenthesised) law. */
  lemma UnitCoefficientOmitted(p: EquationPart, fmt: real -> string)
    requires Abs(p.stoichiometry) == 1.0
    ensures LaterTermAsWritten(p, fmt) == LaterTerm(p, fmt) == " " + SignText(p) + " " + Wrapped(p.equation)
    ensures FirstTerm(p, fmt) == (if p.negative then "-" else "") + Wrapped(p.equation)
  {
  }

  /** No parts, no text. */
  lemma AssembledEmpty(fmt: real -> string)
    ensures AssembledAsWritten([], fmt) == "" && Assembled([], fmt) == ""
  {
  }

  /** Rust's float rendering: a leading `-` exactly for negative values, never empty. */
  ghost predicate SignedRendering(fmt: real -> string)
  {
    forall x :: |fmt(x)| > 0 && (fmt(x)[0] == '-' <==> x < 0.0)
  }

  /** As written, a negative non-unit later part carries two minus signs: ` - -c*law`. */
  lemma AsWrittenDoublesSign(p: EquationPart, fmt: real -> string)
    requires SignedRendering(fmt)
    requires p.negative && p.stoichiometry < 0.0 && Abs(p.stoichiometry) != 1.0
    ensures LaterTermAsWritten(p, fmt)[..4] == " - -"
  {
    var c := fmt(p.stoichiometry);
    assert c[0] == '-';
    assert LaterTermAsWritten(p, fmt) == " - " + c + "*" + Wrapped(p.equation);
    assert (" - " + c + "*" + Wrapped(p.equation))[3] == c[0];
  }

  /** With magnitudes, a later term has exactly one sign: the character after ` - ` or ` + ` is never a `-`. */
  lemma LaterTermSingleSign(p: EquationPart, fmt: real -> string)
    requires SignedRendering(fmt)
    requires p.negative <==> p.stoichiometry < 0.0
    requires p.equation != ""
    ensures |LaterTerm(p, fmt)| > 3 && LaterTerm(p, fmt)[3] != '-'
    ensures (if LaterTerm(p, fmt)[1] == '-' then -1.0 else 1.0) * Abs(p.stoichiometry) == p.stoichiometry
  {
    if Abs(p.stoichiometry) != 1.0 {
      var c := fmt(Abs(p.stoichiometry));
      assert c[0] != '-';
      assert LaterTerm(p, fmt) == " " + SignText(p) + " " + c + "*" + Wrapped(p.equation);
      assert (" " + SignText(p) + " " + c + "*" + Wrapped(p.equation))[3] == c[0];
    } else {
      var w := Wrapped(p.equation);
      assert LaterTerm(p, fmt) == " " + SignText(p) + " " + w;
      if '+' in p.equation || '-' in p.equation {
        assert w[0] == '(';
      } else {
        assert w == p.equation;
        assert w[0] in p.equation;
      }
    }
  }

  /** A part whose written coefficient is non-negative or of magnitude one: both layouts render it alike. */
  predicate WrittenAlike(p: EquationPart)
  {
    p.stoichiometry >= 0.0 || Abs(p.stoichiometry) == 1.0
  }

  /**
   * The discrepancy is confined to negative non-unit later parts: when every
   * part after the first is written alike, the text as written is the
   * intended one.
   */
  lemma {:induction false} AsWrittenIsIntendedWithoutNegativeCoefficients(parts: seq<EquationPart>, fmt: real -> string)
    requires forall k :: 1 <= k < |parts| ==> WrittenAlike(parts[k])
    ensures AssembledAsWritten(parts, fmt) == Assembled(parts, fmt)
    decreases |parts|
  {
    if |parts| > 1 {
      var front := parts[..|parts| - 1];
      assert forall k :: 1 <= k < |front| ==> front[k] == parts[k];
      AsWrittenIsIntendedWithoutNegativeCoefficients(front, fmt);
      var p := parts[|parts| - 1];
      assert WrittenAlike(p);
      assert p.stoichiometry >= 0.0 ==> Abs(p.stoichiometry) == p.stoichiometry;
      assert LaterTermAsWritten(p, fmt) == LaterTerm(p, fmt);
    }
  }

  function ExampleR1(): Reaction
  {
    Reaction("r1", "R1", false, [ReactionElement("S", 2.0)], [], Some(Equation("", "k1*S", RateLaw)))
  }

  function ExampleR2(): Reaction
  {
    Reaction("r2", "R2", false, [ReactionElement("E", 1.0)], [ReactionElement("S", 1.0)], Some(Equation("", "k2*E", RateLaw)))
  }

  lemma ExampleParts()
    ensures PartsFor("S", [ExampleR1(), ExampleR2()]) ==
      [EquationPart(true, -2.0, "k1*S"), EquationPart(false, 1.0, "k2*E")]
  {
    var r1, r2 := ExampleR1(), ExampleR2();
    assert FindElement(r1.reactants, "S") == Some(ReactionElement("S", 2.0));
    assert FindElement(r2.reactants, "S") == None;
    assert FindElement(r2.products, "S") == Some(ReactionElement("S", 1.0));
    assert PartOf("S", r1) == [EquationPart(true, -2.0, "k1*S")];
    assert PartOf("S", r2) == [EquationPart(false, 1.0, "k2*E")];
    assert [r1, r2][1..] == [r2];
    assert [r2][1..] == [];
  }

  lemma ExampleSort(p1: EquationPart, p2: EquationPart)
    requires p1.negative && !p2.negative
    ensures SortBySign([p1, p2]) == [p2, p1]
  {
    assert [p1, p2][1..] == [p2];
    assert [p2][1..] == [];
    assert Filter([p1, p2], IsPositive) == [p2];
    assert Filter([p1, p2], IsNegative) == [p1];
  }

  /** The example species' parts, sorted by sign. */
  lemma ExampleSorted()
    ensures SortBySign(PartsFor("S", [ExampleR1(), ExampleR2()])) ==
      [EquationPart(false, 1.0, "k2*E"), EquationPart(true, -2.0, "k1*S")]
  {
    ExampleParts();
    ExampleSort(EquationPart(true, -2.0, "k1*S"), EquationPart(false, 1.0, "k2*E"));
  }

  /** Two parts assemble to the first term followed by one later term, in either layout. */
  lemma AssembleTwo(a: EquationPart, b: EquationPart, fmt: real -> string)
    ensures AssembledAsWritten([a, b], fmt) == FirstTerm(a, fmt) + LaterTermAsWritten(b, fmt)
    ensures Assembled([a, b], fmt) == FirstTerm(a, fmt) + LaterTerm(b, fmt)
  {
    var w := (p: EquationPart) => LaterTermAsWritten(p, fmt);
    var c := (p: EquationPart) => LaterTerm(p, fmt);
    assert [a, b][..1] == [a];
    assert AssembleWith([a], fmt, w) == FirstTerm(a, fmt) == AssembleWith([a], fmt, c);
    assert AssembleWith([a, b], fmt, w) == AssembleWith([a], fmt, w) + w(b);
    assert AssembleWith([a, b], fmt, c) == AssembleWith([a], fmt, c) + c(b);
  }

  /** The two example laws contain no `+` or `-`, so they are written bare. */
  lemma ExampleLawsBare()
    ensures Wrapped("k1*S") == "k1*S" && Wrapped("k2*E") == "k2*E"
  {
    assert "k1*S" == ['k', '1', '*', 'S'];
    assert "k2*E" == ['k', '2', '*', 'E'];
  }

  /** The terms of the example parts: no number for the unit coefficient, the sign and then the coefficient for the other. */
  lemma ExampleTerms(fmt: real -> string)
    ensures FirstTerm(EquationPart(false, 1.0, "k2*E"), fmt) == "k2*E"
    ensures LaterTermAsWritten(EquationPart(true, -2.0, "k1*S"), fmt) == " - " + fmt(-2.0) + "*k1*S"
    ensures LaterTerm(EquationPart(true, -2.0, "k1*S"), fmt) == " - " + fmt(2.0) + "*k1*S"
  {
    ExampleLawsBare();
  }


  /**
   * S is a reactant with coefficient 2 of R1 (law `k1*S`) and a product with
   * coefficient 1 of R2 (law `k2*E`): the positive part comes first, the
   * unit coefficient is left out and the other is written after the sign.
   * As written, the stored coefficient -2 follows the ` - `.
   */
  lemma WorkedExample(fmt: real -> string)
    ensures DerivedText("S", [ExampleR1(), ExampleR2()], fmt) == "k2*E - " + fmt(-2.0) + "*k1*S"
    ensures Assembled(SortBySign(PartsFor("S", [ExampleR1(), ExampleR2()])), fmt) == "k2*E - " + fmt(2.0) + "*k1*S"
  {
    ExampleDerivedAsWritten(fmt);
    ExampleAssembledIntended(fmt);
  }

  /** The text the derive command stores for the example species. */
  lemma ExampleDerivedAsWritten(fmt: real -> string)
    ensures DerivedText("S", [ExampleR1(), ExampleR2()], fmt) == "k2*E - " + fmt(-2.0) + "*k1*S"
  {
    ExampleSorted();
    AssembleTwo(EquationPart(false, 1.0, "k2*E"), EquationPart(true, -2.0, "k1*S"), fmt);
    ExampleTerms(fmt);
  }

  /** The text the corrected layout gives for the example species. */
  lemma ExampleAssembledIntended(fmt: real -> string)
    ensures Assembled(SortBySign(PartsFor("S", [ExampleR1(), ExampleR2()])), fmt) == "k2*E - " + fmt(2.0) + "*k1*S"
  {
    ExampleSorted();
    AssembleTwo(EquationPart(false, 1.0, "k2*E"), EquationPart(true, -2.0, "k1*S"), fmt);
    ExampleTerms(fmt);
  }

}
