/**
 * Identifier allocation: `generate_id` (the smallest positive counter
 * whose rendering after the prefix is not taken), the batch variant used
 * by the `add_*s` commands, and the identifier prefixes.
 */
module Ids {
  import opened Wrappers
  import opened Text
  import opened ByIdMacros

  const SmallMoleculePrefix := "s"
  const ProteinPrefix := "p"
  const ReactionPrefix := "r"
  const MeasurementPrefix := "m"
  const VesselPrefix := "v"

  /** The candidate identifier `prefix` followed by the decimal `k`. */
  function Candidate(prefix: string, k: nat): string
  {
    prefix + NatToString(k)
  }

  lemma CandidateInjective(prefix: string, j: nat, k: nat)
    requires Candidate(prefix, j) == Candidate(prefix, k)
    ensures j == k
  {
    assert NatToString(j) == Candidate(prefix, j)[|prefix|..];
    assert NatToString(k) == Candidate(prefix, k)[|prefix|..];
    NatToStringInjective(j, k);
  }

  /** If the candidates 1..k are all in `taken`, then `taken` has at least k elements. */
  lemma {:induction false} CandidatesBounded(taken: set<string>, prefix: string, k: nat)
    requires forall j :: 1 <= j <= k ==> Candidate(prefix, j) in taken
    ensures k <= |taken|
    decreases k
  {
    if k > 0 {
      var top := Candidate(prefix, k);
      var rest := taken - {top};
      forall j | 1 <= j <= k - 1
        ensures Candidate(prefix, j) in rest
      {
        if Candidate(prefix, j) == top {
          CandidateInjective(prefix, j, k);
        }
      }
      CandidatesBounded(rest, prefix, k - 1);
    }
  }

  /** The smallest counter, at least `k`, whose candidate is not in `ids`. */
  function SmallestFree(ids: seq<string>, prefix: string, k: nat): (r: nat)
    requires 1 <= k
    requires forall j :: 1 <= j < k ==> Candidate(prefix, j) in ids
    ensures k <= r && Candidate(prefix, r) !in ids
    ensures forall j :: 1 <= j < r ==> Candidate(prefix, j) in ids
    decreases |ids| + 1 - k
  {
    if Candidate(prefix, k) !in ids then k
    else
      CandidatesBounded((set x | x in ids), prefix, k);
      DistinctBound(ids);
      SmallestFree(ids, prefix, k + 1)
  }

  lemma {:induction false} DistinctBound(ids: seq<string>)
    ensures |set x | x in ids| <= |ids|
    decreases |ids|
  {
    if ids != [] {
      var front := ids[..|ids| - 1];
      assert (set x | x in ids) == (set x | x in front) + {ids[|ids| - 1]};
      DistinctBound(front);
    }
  }

  /** What `generate_id(ids, prefix)` returns. */
  function FreshId(ids: seq<string>, prefix: string): (id: string)
    ensures id !in ids
    ensures exists k :: 1 <= k && id == Candidate(prefix, k) && forall j :: 1 <= j < k ==> Candidate(prefix, j) in ids
  {
    Candidate(prefix, SmallestFree(ids, prefix, 1))
  }

  /** A free candidate below which every candidate is taken is the one `FreshId` picks. */
  lemma FreshIdUnique(ids: seq<string>, prefix: string, k: nat)
    requires 1 <= k && Candidate(prefix, k) !in ids
    requires forall j :: 1 <= j < k ==> Candidate(prefix, j) in ids
    ensures FreshId(ids, prefix) == Candidate(prefix, k)
  {
    var r := SmallestFree(ids, prefix, 1);
    assert !(r < k) && !(k < r);
  }

  /** The prefix followed by 1 is chosen whenever it is free. */
  lemma FreshIdFirst(ids: seq<string>, prefix: string)
    requires Candidate(prefix, 1) !in ids
    ensures FreshId(ids, prefix) == prefix + "1"
  {
    FreshIdUnique(ids, prefix, 1);
    assert NatToString(1) == "1";
  }

  /** `generate_id`: counts up from 1 until the candidate is not among `ids`. */
  method GenerateId(ids: seq<string>, prefix: string) returns (id: string)
    ensures id == FreshId(ids, prefix)
  {
    var i: nat := 1;
    id := prefix + NatToString(i);
    while id in ids
      invariant 1 <= i
      invariant id == Candidate(prefix, if i == 1 then 1 else i - 1)
      invariant forall j :: 1 <= j < (if i == 1 then 1 else i - 1) ==> Candidate(prefix, j) in ids
      decreases |ids| + 2 - i
    {
      CandidatesBounded((set x | x in ids), prefix, if i == 1 then 1 else i - 1);
      DistinctBound(ids);
      id := prefix + NatToString(i);
      i := i + 1;
    }
    FreshIdUnique(ids, prefix, if i == 1 then 1 else i - 1);
  }

  /**
   * The identifiers the batch commands (`add_small_mols`, `add_proteins`,
   * `add_vessels`, `add_reactions`) hand out for `n` new objects: each one
   * is `generate_id` over the existing identifiers plus those handed out before it.
   */
  function BatchIds(existing: seq<string>, prefix: string, n: nat): (ids: seq<string>)
    ensures |ids| == n
    decreases n
  {
    if n == 0 then []
    else
      var earlier := BatchIds(existing, prefix, n - 1);
      earlier + [FreshId(existing + earlier, prefix)]
  }

  /** Batch identifiers are pairwise distinct and none of them was taken before. */
  lemma {:induction false} BatchIdsFresh(existing: seq<string>, prefix: string, n: nat)
    ensures forall i :: 0 <= i < n ==> BatchIds(existing, prefix, n)[i] !in existing
    ensures forall i, j :: 0 <= i < j < n ==> BatchIds(existing, prefix, n)[i] != BatchIds(existing, prefix, n)[j]
    decreases n
  {
    if n > 0 {
      BatchIdsFresh(existing, prefix, n - 1);
      var earlier := BatchIds(existing, prefix, n - 1);
      var last := FreshId(existing + earlier, prefix);
      assert BatchIds(existing, prefix, n) == earlier + [last];
      assert forall i :: 0 <= i < n - 1 ==> earlier[i] in existing + earlier;
    }
  }

  /** A batch of one hands out exactly what `generate_id` would. */
  lemma BatchOfOne(existing: seq<string>, prefix: string)
    ensures BatchIds(existing, prefix, 1) == [FreshId(existing, prefix)]
  {
    assert existing + [] == existing;
  }

  /** Keying one more object appends it, with its identifier set. */
  lemma WithKeysSnoc<T>(data: seq<T>, ids: seq<string>, setId: (T, string) -> T, i: nat, id: string)
    requires i < |data| && |ids| == i
    ensures WithKeys(data[..i + 1], ids + [id], setId) == WithKeys(data[..i], ids, setId) + [setId(data[i], id)]
  {
  }

  /** One more batch identifier: `generate_id` over the existing identifiers and those handed out so far. */
  method NextBatchId(existing: seq<string>, prefix: string, ids: seq<string>, taken: seq<string>) returns (id: string)
    requires ids == BatchIds(existing, prefix, |ids|) && taken == existing + ids
    ensures ids + [id] == BatchIds(existing, prefix, |ids| + 1)
  {
    id := GenerateId(taken, prefix);
  }

  /**
   * The loop shared by the batch commands: every object receives the next
   * batch identifier, in input order. `setId` is the assignment `o.id = id`.
   */
  method AssignIds<T>(data: seq<T>, existing: seq<string>, prefix: string, setId: (T, string) -> T)
    returns (objects: seq<T>, ids: seq<string>)
    ensures ids == BatchIds(existing, prefix, |data|)
    ensures objects == WithKeys(data, ids, setId)
  {
    var taken := existing;
    objects := [];
    ids := [];
    for i := 0 to |data|
      invariant ids == BatchIds(existing, prefix, i)
      invariant taken == existing + ids
      invariant objects == WithKeys(data[..i], ids, setId)
    {
      var id := NextBatchId(existing, prefix, ids, taken);
      WithKeysSnoc(data, ids, setId, i, id);
      ids := ids + [id];
      taken := taken + [id];
      objects := objects + [setId(data[i], id)];
    }
    assert data[..|data|] == data;
  }

  /** The objects of a batch, each given its identifier by `setId`, in order. */
  function WithKeys<T>(data: seq<T>, ids: seq<string>, setId: (T, string) -> T): (r: seq<T>)
    requires |ids| == |data|
    ensures |r| == |data| && forall k :: 0 <= k < |data| ==> r[k] == setId(data[k], ids[k])
  {
    seq(|data|, k requires 0 <= k < |data| => setId(data[k], ids[k]))
  }

  /**
   * After a batch is appended to a collection whose keys are `existing`,
   * every new object is what a read of its identifier returns.
   */
  lemma BatchReadable<T>(s: seq<T>, idOf: T -> string, existing: seq<string>, prefix: string, objects: seq<T>, k: nat)
    requires |existing| == |s| && forall j :: 0 <= j < |s| ==> existing[j] == idOf(s[j])
    requires k < |objects|
    requires forall j :: 0 <= j < |objects| ==> idOf(objects[j]) == BatchIds(existing, prefix, |objects|)[j]
    ensures GetById(s + objects, idOf, idOf(objects[k])) == Ok(objects[k])
  {
    BatchIdsFresh(existing, prefix, |objects|);
    GetAfterAppendAll(s, idOf, objects, k);
  }
}
