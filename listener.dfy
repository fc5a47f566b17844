/**
 * The selection handover of the frontend's delete handler: before an item
 * is deleted, a selection that points at it moves to a neighbour. The two
 * callbacks become a returned list of calls, in the order they are made.
 */
module Listener {
  import opened Wrappers
  import opened Seqs

  /** A callback invocation: `setSelectedId(sel)` or `deleteFun()`. */
  datatype Call = SetSelected(sel: Option<string>) | Delete

  /** The item list is a list of `[id, name]` pairs. */
  type Entry = (string, string)

  predicate HasId(listOfIds: seq<Entry>, id: string)
  {
    exists k :: 0 <= k < |listOfIds| && listOfIds[k].0 == id
  }

  /** The calls `handleDelete(id, selectedId, setSelectedId, listOfIds, deleteFun)` makes. */
  function HandleDelete(id: string, selectedId: Option<string>, listOfIds: seq<Entry>): (calls: seq<Call>)
    ensures calls == [] <==> !HasId(listOfIds, id)
    ensures calls != [] ==> calls[|calls| - 1] == Delete && |calls| <= 2
    ensures forall k :: 0 <= k < |calls| - 1 ==> calls[k].SetSelected?
    ensures selectedId != Some(id) ==> calls == [] || calls == [Delete]
  {
    match IndexWhere(listOfIds, (e: Entry) => e.0 == id)
    case None => []
    case Some(index) =>
      if selectedId == Some(id) then
        var next :=
          if index == 0 then
            if |listOfIds| == 1 then None
            else if |listOfIds| == 0 then None
            else Some(listOfIds[1].0)
          else Some(listOfIds[index - 1].0);
        [SetSelected(next), Delete]
      else [Delete]
  }

  /** How many of the calls are `deleteFun()`. */
  function DeleteCount(calls: seq<Call>): nat
  {
    if calls == [] then 0 else (if calls[0] == Delete then 1 else 0) + DeleteCount(calls[1..])
  }

  /** `deleteFun` runs exactly once when the id is listed, and never otherwise. */
  lemma DeleteOnce(id: string, selectedId: Option<string>, listOfIds: seq<Entry>)
    ensures DeleteCount(HandleDelete(id, selectedId, listOfIds)) == if HasId(listOfIds, id) then 1 else 0
  {
    var calls := HandleDelete(id, selectedId, listOfIds);
    if |calls| == 2 {
      assert calls[1..] == [Delete];
      assert [Delete][1..] == [];
      assert DeleteCount(calls[1..]) == 1;
    } else if |calls| == 1 {
      assert calls[1..] == [];
    }
  }

  /**
   * With the first occurrence of the selected id at `index`, the new
   * selection is the previous entry, or the next one when the deleted
   * entry is first, or nothing when it was the only entry.
   */
  lemma {:induction false} HandoverTarget(id: string, listOfIds: seq<Entry>, index: nat)
    requires index < |listOfIds| && listOfIds[index].0 == id
    requires forall j :: 0 <= j < index ==> listOfIds[j].0 != id
    ensures HandleDelete(id, Some(id), listOfIds) ==
      [SetSelected(
        if index > 0 then Some(listOfIds[index - 1].0)
        else if |listOfIds| == 1 then None
        else Some(listOfIds[1].0)), Delete]
  {
    IndexWhereFirst(listOfIds, (e: Entry) => e.0 == id, index);
  }

  /**
   * When the ids of the list are distinct, the selection never stays on
   * the deleted item: it moves to another listed id, or is cleared only
   * when the list held nothing else.
   */
  lemma HandoverLeavesDeleted(id: string, listOfIds: seq<Entry>)
    requires forall i, j :: 0 <= i < j < |listOfIds| ==> listOfIds[i].0 != listOfIds[j].0
    requires HasId(listOfIds, id)
    ensures HandleDelete(id, Some(id), listOfIds)[0].SetSelected?
    ensures var sel := HandleDelete(id, Some(id), listOfIds)[0].sel;
      (sel.None? <==> |listOfIds| == 1) &&
      (sel.Some? ==> sel.value != id && HasId(listOfIds, sel.value))
  {
    var index := IndexWhere(listOfIds, (e: Entry) => e.0 == id).value;
    HandoverTarget(id, listOfIds, index);
    if index == 0 && |listOfIds| > 1 {
      assert listOfIds[1].0 != listOfIds[0].0;
    }
  }
}
