/**
 * The by-identifier collection operations every CRUD command is built
 * from. `idOf` names the key field (`id`, or `species_id` for equations).
 * Get fails with an error value; delete and update panic when no element
 * carries the key ("Item not found") and then leave the collection as it was.
 */
module ByIdMacros {
  import opened Wrappers
  import opened Seqs

  /** `get_by_id!`: a copy of the first element with the key, or the error "<id> not found". */
  function GetById<T>(s: seq<T>, idOf: T -> string, id: string): (r: Result<T, string>)
    ensures r.Err? <==> forall j :: 0 <= j < |s| ==> idOf(s[j]) != id
    ensures r.Err? ==> r.error == id + " not found"
    ensures r.Ok? ==> idOf(r.value) == id
    ensures r.Ok? ==> exists i :: 0 <= i < |s| && s[i] == r.value && forall j :: 0 <= j < i ==> idOf(s[j]) != id
  {
    match FindWhere(s, (x: T) => idOf(x) == id) {
      case None => Err(id + " not found")
      case Some(x) => Ok(x)
    }
  }

  /** `delete_by_id!`: drops the first element with the key. */
  function DeleteById<T>(s: seq<T>, idOf: T -> string, id: string): (r: Outcome<seq<T>>)
    ensures r.Panicked? <==> forall j :: 0 <= j < |s| ==> idOf(s[j]) != id
    ensures r.Panicked? ==> r.message == "Item not found"
    ensures r.Returned? ==> exists i :: (0 <= i < |s| && idOf(s[i]) == id &&
      (forall j :: 0 <= j < i ==> idOf(s[j]) != id) && r.value == RemoveAt(s, i))
  {
    match IndexWhere(s, (x: T) => idOf(x) == id) {
      case None => Panicked("Item not found")
      case Some(i) => Returned(RemoveAt(s, i))
    }
  }

  /** `update_by_id!`: overwrites the first element whose key is `data`'s key. */
  function UpdateById<T>(s: seq<T>, idOf: T -> string, data: T): (r: Outcome<seq<T>>)
    ensures r.Panicked? <==> forall j :: 0 <= j < |s| ==> idOf(s[j]) != idOf(data)
    ensures r.Panicked? ==> r.message == "Item not found"
    ensures r.Returned? ==> exists i :: (0 <= i < |s| && idOf(s[i]) == idOf(data) &&
      (forall j :: 0 <= j < i ==> idOf(s[j]) != idOf(data)) && r.value == s[i := data])
  {
    match IndexWhere(s, (x: T) => idOf(x) == idOf(data)) {
      case None => Panicked("Item not found")
      case Some(i) => Returned(s[i := data])
    }
  }

  predicate UniqueKeys<T>(s: seq<T>, idOf: T -> string)
  {
    forall i, j :: 0 <= i < j < |s| ==> idOf(s[i]) != idOf(s[j])
  }

  /** Reading back an updated element returns exactly the new data. */
  lemma GetAfterUpdate<T>(s: seq<T>, idOf: T -> string, data: T)
    requires UpdateById(s, idOf, data).Returned?
    ensures GetById(UpdateById(s, idOf, data).value, idOf, idOf(data)) == Ok(data)
  {
    var p := (x: T) => idOf(x) == idOf(data);
    var i := IndexWhere(s, p).value;
    var t := s[i := data];
    assert IndexWhere(t, p) == Some(i) by {
      assert forall j :: 0 <= j < i ==> !p(t[j]);
      IndexWhereFirst(t, p, i);
    }
  }


  /** With unique keys, a deleted key can no longer be read; every other key still can. */
  lemma GetAfterDelete<T>(s: seq<T>, idOf: T -> string, id: string, other: string)
    requires UniqueKeys(s, idOf)
    requires DeleteById(s, idOf, id).Returned?
    ensures GetById(DeleteById(s, idOf, id).value, idOf, id).Err?
    ensures other != id ==> GetById(DeleteById(s, idOf, id).value, idOf, other) == GetById(s, idOf, other)
  {
    var i := IndexWhere(s, (x: T) => idOf(x) == id).value;
    var t := RemoveAt(s, i);
    assert forall j :: 0 <= j < |t| ==> idOf(t[j]) != id by {
      forall j | 0 <= j < |t|
        ensures idOf(t[j]) != id
      {
        if j >= i { assert t[j] == s[j + 1]; }
      }
    }
    if other != id {
      var q := (x: T) => idOf(x) == other;
      var ks := IndexWhere(s, q);
      if ks.Some? {
        var k := ks.value;
        var k' := if k < i then k else k - 1;
        assert k != i;
        assert t[k'] == s[k];
        IndexWhereFirst(t, q, k');
      } else {
        assert forall j :: 0 <= j < |t| ==> !q(t[j]) by {
          forall j | 0 <= j < |t|
            ensures !q(t[j])
          {
            if j >= i { assert t[j] == s[j + 1]; }
          }
        }
      }
    }
  }

  /** An element appended under a key no other element carries is what a read of that key returns. */
  lemma GetAfterAppend<T>(s: seq<T>, idOf: T -> string, x: T)
    requires forall j :: 0 <= j < |s| ==> idOf(s[j]) != idOf(x)
    ensures GetById(s + [x], idOf, idOf(x)) == Ok(x)
  {
    IndexWhereFirst(s + [x], (y: T) => idOf(y) == idOf(x), |s|);
  }

  /**
   * Elements appended under keys that are new and pairwise distinct can
   * each be read back.
   */
  lemma GetAfterAppendAll<T>(s: seq<T>, idOf: T -> string, xs: seq<T>, k: nat)
    requires k < |xs|
    requires forall j :: 0 <= j < |s| ==> idOf(s[j]) != idOf(xs[k])
    requires forall j :: 0 <= j < k ==> idOf(xs[j]) != idOf(xs[k])
    ensures GetById(s + xs, idOf, idOf(xs[k])) == Ok(xs[k])
  {
    IndexWhereFirst(s + xs, (y: T) => idOf(y) == idOf(xs[k]), |s| + k);
  }

  /** Reading from a collection with one more element at the end: earlier elements take precedence. */
  lemma GetByIdSnoc<T>(s: seq<T>, idOf: T -> string, x: T, id: string)
    ensures GetById(s + [x], idOf, id) ==
      if GetById(s, idOf, id).Ok? then GetById(s, idOf, id)
      else if idOf(x) == id then Ok(x)
      else Err(id + " not found")
  {
    var p := (y: T) => idOf(y) == id;
    var t := s + [x];
    match IndexWhere(s, p)
    case Some(i) =>
      assert t[i] == s[i];
      IndexWhereFirst(t, p, i);
    case None =>
      if idOf(x) == id {
        IndexWhereFirst(t, p, |s|);
      } else {
        assert forall j :: 0 <= j < |t| ==> !p(t[j]) by {
          forall j | 0 <= j < |t|
            ensures !p(t[j])
          {
            if j < |s| { assert t[j] == s[j]; }
          }
        }
      }
  }
}
