/**
 * The string helpers of the frontend's equation utilities: LaTeX
 * subscripts for identifiers, the species-id underscore conversions, the
 * subscript merge applied to converted ASCII math, and the split of an
 * equation's symbols into species variables and parameters. Each regular
 * expression is written out as the scan it performs.
 */
module EquationUtils {
  import opened Wrappers
  import opened Text
  import opened Seqs

  // ---------------------------------------------------------------------
  // idToLatex: /(\d+)$/ -> '_{$1}'
  // ---------------------------------------------------------------------

  /** Where the maximal run of digits at the end of `s` starts (`|s|` when `s` ends in a non-digit). */
  function TrailingDigitsStart(s: string): (p: nat)
    ensures p <= |s|
    ensures forall k :: p <= k < |s| ==> IsDigit(s[k])
    ensures p > 0 ==> !IsDigit(s[p - 1])
    decreases |s|
  {
    if s != [] && IsDigit(s[|s| - 1]) then TrailingDigitsStart(s[..|s| - 1]) else |s|
  }

  /** `idToLatex(id)`: "" for a missing or empty id, else the trailing digits as a braced subscript. */
  function IdToLatex(id: Option<string>): (r: string)
    ensures (id.None? || id == Some("")) <==> r == ""
    ensures id.Some? && id.value != [] && !IsDigit(id.value[|id.value| - 1]) ==> r == id.value
  {
    match id
    case None => ""
    case Some(s) =>
      if s == "" then ""
      else
        var p := TrailingDigitsStart(s);
        if p == |s| then s else s[..p] + "_{" + s[p..] + "}"
  }

  /**
   * An identifier `stem + digits` with a stem that does not end in a digit
   * becomes `stem_{digits}`: exactly the whole run of trailing digits moves
   * into the subscript.
   */
  lemma IdToLatexSplits(stem: string, digits: string)
    requires digits != [] && AllDigits(digits)
    requires stem == [] || !IsDigit(stem[|stem| - 1])
    ensures IdToLatex(Some(stem + digits)) == stem + "_{" + digits + "}"
  {
    var s := stem + digits;
    var p := TrailingDigitsStart(s);
    assert forall k :: |stem| <= k < |s| ==> IsDigit(s[k]);
    assert stem != [] ==> !IsDigit(s[|stem| - 1]);
    assert p == |stem|;
    assert s[..p] == stem && s[p..] == digits;
  }

  lemma IdToLatexExamples()
    ensures IdToLatex(Some("k12")) == "k_{12}"
    ensures IdToLatex(Some("s1a")) == "s1a"
  {
    IdToLatexSplits("k", "12");
  }

  // ---------------------------------------------------------------------
  // speciesIDToUnderscore / underscoreToSpeciesID
  // ---------------------------------------------------------------------

  predicate IsSpeciesLetter(c: char) { c == 'p' || c == 's' || c == 'c' }

  /** `/([psc])(\d+)/` matches at `i`. */
  predicate LetterDigitAt(s: string, i: nat)
  {
    i + 1 < |s| && IsSpeciesLetter(s[i]) && IsDigit(s[i + 1])
  }

  /** `/([psc])_(\d+)/` matches at `i`. */
  predicate LetterUnderscoreDigitAt(s: string, i: nat)
  {
    i + 2 < |s| && IsSpeciesLetter(s[i]) && s[i + 1] == '_' && IsDigit(s[i + 2])
  }

  /** The leftmost position at or after `from` where `/([psc])(\d+)/` matches. */
  function FirstLetterDigit(s: string, from: nat): (r: Option<nat>)
    ensures r.Some? ==> from <= r.value && LetterDigitAt(s, r.value)
    ensures r.Some? ==> forall j :: from <= j < r.value ==> !LetterDigitAt(s, j)
    ensures r.None? ==> forall j :: from <= j ==> !LetterDigitAt(s, j)
    decreases |s| - from
  {
    if from + 1 >= |s| then None
    else if LetterDigitAt(s, from) then Some(from)
    else FirstLetterDigit(s, from + 1)
  }

  /** The leftmost position at or after `from` where `/([psc])_(\d+)/` matches. */
  function FirstLetterUnderscoreDigit(s: string, from: nat): (r: Option<nat>)
    ensures r.Some? ==> from <= r.value && LetterUnderscoreDigitAt(s, r.value)
    ensures r.Some? ==> forall j :: from <= j < r.value ==> !LetterUnderscoreDigitAt(s, j)
    ensures r.None? ==> forall j :: from <= j ==> !LetterUnderscoreDigitAt(s, j)
    decreases |s| - from
  {
    if from + 2 >= |s| then None
    else if LetterUnderscoreDigitAt(s, from) then Some(from)
    else FirstLetterUnderscoreDigit(s, from + 1)
  }

  /** `speciesIDToUnderscore(id)`: an "_" goes between the first species letter and the digits after it. */
  function SpeciesIdToUnderscore(id: string): (r: string)
    ensures |r| == |id| || |r| == |id| + 1
    ensures FirstLetterDigit(id, 0).None? ==> r == id
  {
    match FirstLetterDigit(id, 0)
    case None => id
    case Some(i) => id[..i + 1] + "_" + id[i + 1..]
  }

  /** `underscoreToSpeciesID(id)`: the "_" of the first species letter, "_", digit occurrence is dropped. */
  function UnderscoreToSpeciesId(id: string): (r: string)
    ensures |r| == |id| || |r| + 1 == |id|
    ensures FirstLetterUnderscoreDigit(id, 0).None? ==> r == id
  {
    match FirstLetterUnderscoreDigit(id, 0)
    case None => id
    case Some(i) => id[..i + 1] + id[i + 2..]
  }

  /** A species identifier of the suite's shape: `p`, `s` or `c` and then digits. */
  predicate SpeciesShaped(id: string)
  {
    |id| >= 2 && IsSpeciesLetter(id[0]) && forall k :: 1 <= k < |id| ==> IsDigit(id[k])
  }

  /** For a species-shaped id, the underscore form is letter, "_", digits, and converting back restores the id. */
  lemma UnderscoreRoundTrip(id: string)
    requires SpeciesShaped(id)
    ensures SpeciesIdToUnderscore(id) == id[..1] + "_" + id[1..]
    ensures UnderscoreToSpeciesId(SpeciesIdToUnderscore(id)) == id
  {
    assert LetterDigitAt(id, 0);
    var u := id[..1] + "_" + id[1..];
    assert LetterUnderscoreDigitAt(u, 0);
    assert u[..1] + u[2..] == id;
  }

  /** The other direction: a letter, "_", digits form converts to the species id and back to itself. */
  lemma SpeciesRoundTrip(u: string)
    requires |u| >= 3 && IsSpeciesLetter(u[0]) && u[1] == '_'
    requires forall k :: 2 <= k < |u| ==> IsDigit(u[k])
    ensures UnderscoreToSpeciesId(u) == u[..1] + u[2..]
    ensures SpeciesIdToUnderscore(UnderscoreToSpeciesId(u)) == u
  {
    assert LetterUnderscoreDigitAt(u, 0);
    var id := u[..1] + u[2..];
    UnderscoreRoundTrip(id);
    assert id[..1] + "_" + id[1..] == u;
  }

  // ---------------------------------------------------------------------
  // correctLatexUnderscript: /_\{([a-zA-Z])}([a-zA-Z]+)/g -> '_{$1$2}'
  // ---------------------------------------------------------------------

  predicate IsLetter(c: char) { 'a' <= c <= 'z' || 'A' <= c <= 'Z' }

  /** The length of the run of letters at the front of `s`. */
  function LetterRun(s: string): (n: nat)
    ensures n <= |s|
    ensures forall k :: 0 <= k < n ==> IsLetter(s[k])
    ensures n < |s| ==> !IsLetter(s[n])
    decreases |s|
  {
    if s != [] && IsLetter(s[0]) then 1 + LetterRun(s[1..]) else 0
  }

  /** The pattern's fixed part `_{x}y` starts the string. */
  predicate SubscriptAtFront(s: string)
  {
    |s| >= 5 && s[0] == '_' && s[1] == '{' && IsLetter(s[2]) && s[3] == '}' && IsLetter(s[4])
  }

  /**
   * The global replacement: at each position the match is tried, the
   * greedy letter run is moved inside the braces, and scanning resumes
   * after the match.
   */
  function CorrectLatexUnderscript(s: string): (r: string)
    ensures |r| == |s|
    decreases |s|
  {
    if s == [] then []
    else if SubscriptAtFront(s) then
      var n := LetterRun(s[4..]);
      "_{" + [s[2]] + s[4..4 + n] + "}" + CorrectLatexUnderscript(s[4 + n..])
    else
      [s[0]] + CorrectLatexUnderscript(s[1..])
  }

  /** The correction only moves a closing brace: every character is kept, as often as before. */
  lemma {:induction false} CorrectKeepsCharacters(s: string)
    ensures multiset(CorrectLatexUnderscript(s)) == multiset(s)
    decreases |s|
  {
    if s == [] {
    } else if SubscriptAtFront(s) {
      var n := LetterRun(s[4..]);
      var open, run, close, rest := s[..3], s[4..4 + n], s[3..4], s[4 + n..];
      assert s == open + close + run + rest;
      assert CorrectLatexUnderscript(s) == open + run + close + CorrectLatexUnderscript(rest) by {
        assert open == "_{" + [s[2]] && close == "}";
      }
      CorrectKeepsCharacters(rest);
      SwapMiddle(open, run, close, CorrectLatexUnderscript(rest));
    } else {
      CorrectKeepsCharacters(s[1..]);
      assert s == [s[0]] + s[1..];
    }
  }

  lemma SwapMiddle<T>(a: seq<T>, b: seq<T>, c: seq<T>, d: seq<T>)
    ensures multiset(a + b + c + d) == multiset(a + c + b + d)
  {
  }

  /** A string in which the pattern does not occur is left as it is. */
  lemma {:induction false} CorrectWithoutMatch(s: string)
    requires forall i :: 0 <= i <= |s| ==> !SubscriptAtFront(s[i..])
    ensures CorrectLatexUnderscript(s) == s
    decreases |s|
  {
    if s != [] {
      assert s[0..] == s;
      forall i | 0 <= i <= |s[1..]|
        ensures !SubscriptAtFront(s[1..][i..])
      {
        assert s[1..][i..] == s[i + 1..];
      }
      CorrectWithoutMatch(s[1..]);
      assert s == [s[0]] + s[1..];
    }
  }

  /** A single-letter subscript followed by letters absorbs the whole run. */
  lemma CorrectExample()
    ensures CorrectLatexUnderscript("_{k}cat") == "_{kcat}"
  {
    var s := "_{k}cat";
    assert SubscriptAtFront(s);
    assert s[4..] == "cat";
    assert "cat"[1..] == "at" && "at"[1..] == "t" && "t"[1..] == "";
    assert LetterRun("t") == 1;
    assert LetterRun("cat") == 3;
    assert s[4..7] == "cat" && s[7..] == "";
    assert CorrectLatexUnderscript(s) == "_{" + "k" + "cat" + "}" + CorrectLatexUnderscript("");
  }

  // ---------------------------------------------------------------------
  // distributeParamsAndVars
  // ---------------------------------------------------------------------

  /** `RateLawSetup`: parameter names and species variables of a rate law. */
  datatype RateLawSetup = RateLawSetup(params: seq<string>, vars: seq<string>)

  /** `isSpeciesID(name)`: the name in species-id form is a listed species. */
  predicate IsSpeciesName(name: string, speciesIds: seq<string>)
  {
    UnderscoreToSpeciesId(name) in speciesIds
  }

  /** The species names of `names`, converted to species-id form, in order and with repeats. */
  function VarsOf(names: seq<string>, speciesIds: seq<string>): seq<string>
    decreases |names|
  {
    if names == [] then []
    else
      var front := VarsOf(names[..|names| - 1], speciesIds);
      var n := names[|names| - 1];
      if IsSpeciesName(n, speciesIds) then front + [UnderscoreToSpeciesId(n)] else front
  }

  /** The remaining names, unchanged, in order and with repeats. */
  function ParamsOf(names: seq<string>, speciesIds: seq<string>): seq<string>
    decreases |names|
  {
    if names == [] then []
    else
      var front := ParamsOf(names[..|names| - 1], speciesIds);
      var n := names[|names| - 1];
      if IsSpeciesName(n, speciesIds) then front else front + [n]
  }

  /**
   * The result of `distributeParamsAndVars`. `names` is the parsed
   * expression's symbol nodes, `None` when parsing throws; `speciesIds` is
   * the species list, `None` when fetching it throws. The list is only
   * fetched for a symbol, so an expression without symbols succeeds even
   * when fetching would fail.
   */
  function Distribution(names: Option<seq<string>>, speciesIds: Option<seq<string>>): Option<RateLawSetup>
  {
    match names
    case None => None
    case Some(ns) =>
      if ns == [] then Some(RateLawSetup([], []))
      else if speciesIds.None? then None
      else Some(RateLawSetup(Dedup(ParamsOf(ns, speciesIds.value)), Dedup(VarsOf(ns, speciesIds.value))))
  }

  /** `distributeParamsAndVars`: the classification loop, then duplicate removal. */
  method DistributeParamsAndVars(names: Option<seq<string>>, speciesIds: Option<seq<string>>)
    returns (r: Option<RateLawSetup>)
    ensures r == Distribution(names, speciesIds)
  {
    if names.None? {
      return None;
    }
    var ns := names.value;
    var params: seq<string> := [];
    var vars: seq<string> := [];
    for i := 0 to |ns|
      invariant speciesIds.Some? || i == 0
      invariant speciesIds.Some? ==> params == ParamsOf(ns[..i], speciesIds.value)
      invariant speciesIds.Some? ==> vars == VarsOf(ns[..i], speciesIds.value)
      invariant speciesIds.None? ==> params == [] && vars == []
    {
      if speciesIds.None? {
        return None;
      }
      var ids := speciesIds.value;
      var name := ns[i];
      assert ns[..i + 1][..i] == ns[..i];
      if UnderscoreToSpeciesId(name) in ids {
        vars := vars + [UnderscoreToSpeciesId(name)];
      } else {
        params := params + [name];
      }
    }
    if ns != [] {
      assert ns[..|ns|] == ns;
    }
    r := Some(RateLawSetup(Dedup(params), Dedup(vars)));
  }

  lemma {:induction false} VarsOfMembers(names: seq<string>, speciesIds: seq<string>, x: string)
    ensures x in VarsOf(names, speciesIds) <==>
      exists k :: 0 <= k < |names| && IsSpeciesName(names[k], speciesIds) && UnderscoreToSpeciesId(names[k]) == x
    decreases |names|
  {
    if names != [] {
      var front := names[..|names| - 1];
      VarsOfMembers(front, speciesIds, x);
      assert forall k :: 0 <= k < |front| ==> front[k] == names[k];
    }
  }

  lemma {:induction false} ParamsOfMembers(names: seq<string>, speciesIds: seq<string>, x: string)
    ensures x in ParamsOf(names, speciesIds) <==> x in names && !IsSpeciesName(x, speciesIds)
    decreases |names|
  {
    if names != [] {
      var front := names[..|names| - 1];
      ParamsOfMembers(front, speciesIds, x);
      assert names == front + [names[|names| - 1]];
    }
  }

  /**
   * A successful distribution lists each species variable and each
   * parameter once; a variable is a listed species reached from some
   * symbol, and a parameter is a symbol that is not a species.
   */
  lemma DistributionSpec(ns: seq<string>, speciesIds: seq<string>, x: string)
    requires ns != []
    ensures var r := Distribution(Some(ns), Some(speciesIds)).value;
      NoDup(r.params) && NoDup(r.vars) &&
      (x in r.params <==> x in ns && !IsSpeciesName(x, speciesIds)) &&
      (x in r.vars <==> exists k :: 0 <= k < |ns| && IsSpeciesName(ns[k], speciesIds) && UnderscoreToSpeciesId(ns[k]) == x)
  {
    DedupSpec(ParamsOf(ns, speciesIds));
    DedupSpec(VarsOf(ns, speciesIds));
    ParamsOfMembers(ns, speciesIds, x);
    VarsOfMembers(ns, speciesIds, x);
  }

  /** Every variable is one of the listed species, whatever the symbols. */
  lemma VarsAreSpecies(ns: seq<string>, speciesIds: seq<string>, x: string)
    requires Distribution(Some(ns), Some(speciesIds)).Some?
    requires x in Distribution(Some(ns), Some(speciesIds)).value.vars
    ensures x in speciesIds
  {
    if ns != [] {
      DistributionSpec(ns, speciesIds, x);
    }
  }

  /** A malformed expression, or a failed species fetch with symbols to classify, gives `null`. */
  lemma DistributionFailures(names: Option<seq<string>>, speciesIds: Option<seq<string>>)
    ensures Distribution(names, speciesIds).None? <==>
      names.None? || (names.value != [] && speciesIds.None?)
  {
  }
}
