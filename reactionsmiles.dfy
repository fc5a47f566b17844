/**
 * The reaction SMILES of a reaction form: the SMILES of the reactants and
 * of the products, each list joined by ".", on either side of ">>".
 * `smallMolecules` maps a small-molecule id to its SMILES.
 */
module ReactionSmiles {
  import opened Text

  /** The SMILES of the listed ids that have one. */
  function SmilesOf(ids: seq<string>, smallMolecules: map<string, string>): set<string>
  {
    set id | id in ids && id in smallMolecules :: smallMolecules[id]
  }

  /** `extractSMILES(ids, smallMolecules)`: the SMILES of the ids that have one, in the order of the ids. */
  function ExtractSmiles(ids: seq<string>, smallMolecules: map<string, string>): (r: seq<string>)
    ensures |r| <= |ids|
    ensures (forall k :: 0 <= k < |ids| ==> ids[k] in smallMolecules) ==>
      |r| == |ids| && forall k :: 0 <= k < |ids| ==> r[k] == smallMolecules[ids[k]]
    ensures forall k :: 0 <= k < |r| ==> r[k] in SmilesOf(ids, smallMolecules)
    decreases |ids|
  {
    if ids == [] then []
    else
      var rest := ExtractSmiles(ids[1..], smallMolecules);
      assert SmilesOf(ids[1..], smallMolecules) <= SmilesOf(ids, smallMolecules);
      if ids[0] in smallMolecules then [smallMolecules[ids[0]]] + rest else rest
  }

  /** Extraction works id by id: the SMILES of a concatenation is the concatenation of the SMILES. */
  lemma {:induction false} ExtractConcat(a: seq<string>, b: seq<string>, smallMolecules: map<string, string>)
    ensures ExtractSmiles(a + b, smallMolecules) == ExtractSmiles(a, smallMolecules) + ExtractSmiles(b, smallMolecules)
    decreases |a|
  {
    if a == [] {
      assert a + b == b;
    } else {
      assert (a + b)[1..] == a[1..] + b;
      ExtractConcat(a[1..], b, smallMolecules);
    }
  }

  /** Ids without an entry contribute nothing. */
  lemma {:induction false} ExtractSkipsUnknown(ids: seq<string>, smallMolecules: map<string, string>)
    requires forall k :: 0 <= k < |ids| ==> ids[k] !in smallMolecules
    ensures ExtractSmiles(ids, smallMolecules) == []
    decreases |ids|
  {
    if ids != [] {
      ExtractSkipsUnknown(ids[1..], smallMolecules);
    }
  }

  /** `createReactionSMILES(reactantIds, productIds, smallMolecules)`. */
  function CreateReactionSmiles(reactantIds: seq<string>, productIds: seq<string>, smallMolecules: map<string, string>): (r: string)
    ensures (ExtractSmiles(reactantIds, smallMolecules) == [] && ExtractSmiles(productIds, smallMolecules) == []) ==> r == ">>"
  {
    Join(ExtractSmiles(reactantIds, smallMolecules), ".") + ">>" + Join(ExtractSmiles(productIds, smallMolecules), ".")
  }

  /** No SMILES in the table holds `c`. */
  predicate FreeOf(smallMolecules: map<string, string>, c: char)
  {
    forall id :: id in smallMolecules ==> c !in smallMolecules[id]
  }

  /**
   * Reading a reaction SMILES back: when no SMILES contains '>', splitting
   * at '>' gives the reactant side, an empty piece and the product side.
   */
  lemma ReactionSmilesSides(reactantIds: seq<string>, productIds: seq<string>, smallMolecules: map<string, string>)
    requires FreeOf(smallMolecules, '>')
    ensures var rs, ps := ExtractSmiles(reactantIds, smallMolecules), ExtractSmiles(productIds, smallMolecules);
      Split(CreateReactionSmiles(reactantIds, productIds, smallMolecules), '>') == [Join(rs, "."), "", Join(ps, ".")]
  {
    var rs, ps := ExtractSmiles(reactantIds, smallMolecules), ExtractSmiles(productIds, smallMolecules);
    var left, right := Join(rs, "."), Join(ps, ".");
    assert forall k :: 0 <= k < |rs| ==> rs[k] in SmilesOf(reactantIds, smallMolecules);
    assert forall k :: 0 <= k < |ps| ==> ps[k] in SmilesOf(productIds, smallMolecules);
    JoinFree(rs, ".", '>');
    JoinFree(ps, ".", '>');
    assert left + ">>" + right == left + ">" + (">" + right);
    SplitFront(left, '>', ">" + right);
    assert (">" + right)[1..] == right;
    SplitNone(right, '>');
  }

  /** With neither '>' nor '.' in any SMILES, the reactant list can be read back from the reaction SMILES. */
  lemma ReactantsReadBack(reactantIds: seq<string>, productIds: seq<string>, smallMolecules: map<string, string>)
    requires FreeOf(smallMolecules, '>') && FreeOf(smallMolecules, '.')
    requires ExtractSmiles(reactantIds, smallMolecules) != []
    ensures Split(Split(CreateReactionSmiles(reactantIds, productIds, smallMolecules), '>')[0], '.') ==
      ExtractSmiles(reactantIds, smallMolecules)
  {
    ReactionSmilesSides(reactantIds, productIds, smallMolecules);
    var rs := ExtractSmiles(reactantIds, smallMolecules);
    assert forall k :: 0 <= k < |rs| ==> rs[k] in SmilesOf(reactantIds, smallMolecules);
    SplitJoin(rs, '.');
  }
}
