/**
 * Two helpers of the parameter table: the LaTeX form of a parameter's
 * symbol, and the CSS class of a table row.
 */
module ParameterTable {
  import opened Text
  import opened Seqs

  /** `symbol.slice(1)`: everything after the first character. */
  function Tail(s: string): string
  {
    if s == [] then [] else s[1..]
  }

  /** `symbol.charAt(0)`: the first character, or "" for the empty string. */
  function Head(s: string): string
  {
    if s == [] then [] else [s[0]]
  }

  /**
   * `formatSymbolForDisplay(symbol)`. The first test looks for the literal
   * two characters backslash and `d`, not for a digit.
   */
  function FormatSymbolForDisplay(symbol: string): (r: string)
    ensures Head(r) == Head(symbol)
    ensures '_' in symbol && !Contains(Tail(symbol), "\\d") ==> r == symbol
    ensures |symbol| <= 1 ==> r == symbol
  {
    if '_' in symbol && Contains(Tail(symbol), "\\d") then
      Head(symbol) + "_{" + Tail(symbol) + "}"
    else if '_' in symbol || |symbol| <= 1 then
      symbol
    else
      var subscript := Tail(symbol);
      if |subscript| > 1 then Head(symbol) + "_{" + subscript + "}"
      else Head(symbol) + "_" + subscript
  }

  /** Without an underscore, a two-character symbol gets a bare subscript, a longer one a braced subscript. */
  lemma FormatWithoutUnderscore(symbol: string)
    requires '_' !in symbol && |symbol| >= 2
    ensures |symbol| == 2 ==> FormatSymbolForDisplay(symbol) == [symbol[0]] + "_" + [symbol[1]]
    ensures |symbol| > 2 ==> FormatSymbolForDisplay(symbol) == [symbol[0]] + "_{" + symbol[1..] + "}"
  {
    if |symbol| == 2 {
      assert symbol[1..] == [symbol[1]];
    }
  }

  /** A symbol that already has a subscript with digits is shown unchanged, since the test is for a literal backslash-d. */
  lemma FormatDigitsAreNotSpecial()
    ensures FormatSymbolForDisplay("k_12") == "k_12"
    ensures FormatSymbolForDisplay("k_\\d") == "k_{_\\d}"
  {
    var t := "k_\\d"[1..];
    assert t == "_\\d";
    assert OccursAt(t, "\\d", 1);
    var u := "k_12"[1..];
    assert u == "_12";
    forall i | 0 <= i <= |u| - 2
      ensures !OccursAt(u, "\\d", i)
    {
      assert u[i] != '\\';
    }
  }

  /** Not one of the markup characters `_`, `{`, `}` a formatted symbol can gain. */
  predicate IsText(c: char) { c != '_' && c != '{' && c != '}' }

  /** The symbol with its markup characters removed. */
  function Plain(s: string): string
  {
    Filter(s, IsText)
  }

  lemma PlainConcat(a: string, b: string)
    ensures Plain(a + b) == Plain(a) + Plain(b)
  {
    FilterConcat(a, b, IsText);
  }

  /** Formatting only adds markup: with `_`, `{` and `}` removed, the shown text is the symbol's. */
  lemma FormatKeepsText(symbol: string)
    ensures Plain(FormatSymbolForDisplay(symbol)) == Plain(symbol)
  {
    var h, t := Head(symbol), Tail(symbol);
    if symbol != [] {
      assert symbol == h + t;
      PlainConcat(h, t);
      assert Plain("_{") == [] && Plain("}") == [] && Plain("_") == [];
      PlainConcat(h, "_{");
      PlainConcat(h + "_{", t);
      PlainConcat(h + "_{" + t, "}");
      PlainConcat(h, "_");
      PlainConcat(h + "_", t);
    }
  }

  /**
   * `rowClassName(_, idx, maxIndex)` builds its class string by appending.
   * JavaScript's `idx % 2 === 0` and the Euclidean test agree on every
   * integer, since both remainders are zero exactly for even numbers.
   */
  method RowClassName(idx: int, maxIndex: int) returns (className: string)
    ensures |className| >= 9 && className[..9] == "param-row"
    ensures idx % 2 == 0 <==> |className| >= 26 && className[9..26] == " param-row--zebra"
    ensures idx == maxIndex - 1 <==> |className| >= 12 && className[|className| - 12..] == " border-none"
  {
    className := "param-row";
    if idx % 2 == 0 {
      className := className + " param-row--zebra";
    }
    if idx == maxIndex - 1 {
      className := className + " border-none";
    }
    assert idx % 2 == 0 && idx != maxIndex - 1 ==> className[|className| - 1] == 'a';
  }
}
