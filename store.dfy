/**
 * A MongoDB collection as the controllers see it: documents keyed by their
 * `_id` string, remembered in insertion ("natural") order, which is the order
 * in which `find` returns matches and in which `findOne` picks the first one.
 */
module Store {
  import opened Wrappers

  /** Why a write is refused: a schema validator failed, or a unique index already holds the value. */
  datatype DbError = ValidationError(path: string) | DuplicateKey(path: string)

  predicate Distinct<K(==)>(s: seq<K>) {
    forall i, j :: 0 <= i < j < |s| ==> s[i] != s[j]
  }

  /** The ids of `ids`, in order, whose documents satisfy `p`. */
  function Matching<T>(ids: seq<string>, docs: map<string, T>, p: T -> bool): (r: seq<string>)
    ensures forall k :: 0 <= k < |r| ==> r[k] in ids
    decreases |ids|
  {
    if |ids| == 0 then []
    else
      var rest := Matching(ids[1..], docs, p);
      if ids[0] in docs && p(docs[ids[0]]) then [ids[0]] + rest else rest
  }

  /** The first id of `ids` whose document satisfies `p`. */
  function FirstMatching<T>(ids: seq<string>, docs: map<string, T>, p: T -> bool): Option<string> {
    var m := Matching(ids, docs, p);
    if |m| == 0 then None else Some(m[0])
  }

  /** An id is selected exactly when it is listed and its document matches. */
  lemma {:induction false} MatchingMembers<T>(ids: seq<string>, docs: map<string, T>, p: T -> bool, id: string)
    ensures id in Matching(ids, docs, p) <==> id in ids && id in docs && p(docs[id])
    decreases |ids|
  {
    if |ids| > 0 {
      MatchingMembers(ids[1..], docs, p, id);
      assert ids == [ids[0]] + ids[1..];
    }
  }

  /** Selection keeps the relative order of the ids and never repeats one. */
  lemma {:induction false} MatchingDistinct<T>(ids: seq<string>, docs: map<string, T>, p: T -> bool)
    requires Distinct(ids)
    ensures Distinct(Matching(ids, docs, p))
    decreases |ids|
  {
    if |ids| > 0 {
      MatchingDistinct(ids[1..], docs, p);
      var rest := Matching(ids[1..], docs, p);
      forall k | 0 <= k < |rest| ensures rest[k] != ids[0] {
        assert rest[k] in ids[1..];
      }
    }
  }

  /** Selecting from an extended list selects from the prefix, then the new id if it matches. */
  lemma {:induction false} MatchingSnoc<T>(ids: seq<string>, id: string, docs: map<string, T>, p: T -> bool)
    ensures Matching(ids + [id], docs, p)
         == Matching(ids, docs, p) + (if id in docs && p(docs[id]) then [id] else [])
    decreases |ids|
  {
    if |ids| == 0 {
      assert ids + [id] == [id];
    } else {
      assert (ids + [id])[1..] == ids[1..] + [id];
      MatchingSnoc(ids[1..], id, docs, p);
    }
  }

  /** No document matches exactly when the first match is absent. */
  lemma FirstMatchingNone<T>(ids: seq<string>, docs: map<string, T>, p: T -> bool)
    ensures FirstMatching(ids, docs, p).None?
        <==> forall id :: id in ids && id in docs ==> !p(docs[id])
  {
    var m := Matching(ids, docs, p);
    if |m| > 0 {
      MatchingMembers(ids, docs, p, m[0]);
    } else {
      forall id | id in ids && id in docs ensures !p(docs[id]) {
        MatchingMembers(ids, docs, p, id);
      }
    }
  }

  /** `order` without `id`. */
  function Without(order: seq<string>, id: string): (r: seq<string>)
    ensures forall x :: x in r <==> x in order && x != id
    decreases |order|
  {
    if |order| == 0 then []
    else if order[0] == id then Without(order[1..], id)
    else [order[0]] + Without(order[1..], id)
  }

  lemma {:induction false} WithoutDistinct(order: seq<string>, id: string)
    requires Distinct(order)
    ensures Distinct(Without(order, id))
    decreases |order|
  {
    if |order| > 0 {
      WithoutDistinct(order[1..], id);
      var w := Without(order[1..], id);
      forall k | 0 <= k < |w| ensures w[k] != order[0] {
        assert w[k] in order[1..];
        var j :| 0 <= j < |order[1..]| && order[1..][j] == w[k];
        assert order[j + 1] == w[k];
      }
    }
  }

  /** Creating a document and then saving a new version of it leaves only the new version. */
  lemma OverwriteTwice<T>(docs: map<string, T>, id: string, first: T, second: T)
    ensures docs[id := first][id := second] == docs[id := second]
  {
  }

  class Collection<T> {
    var docs: map<string, T>
    var order: seq<string>

    ghost predicate Valid()
      reads this
    {
      Distinct(order) && (forall id :: id in order <==> id in docs)
    }

    constructor ()
      ensures Valid() && docs == map[] && order == []
    {
      docs := map[];
      order := [];
    }

    /** `insertOne` of a document under a fresh `_id`. */
    method Insert(id: string, doc: T)
      requires Valid() && id !in docs
      modifies this
      ensures Valid()
      ensures docs == old(docs)[id := doc] && order == old(order) + [id]
    {
      docs := docs[id := doc];
      order := order + [id];
    }

    /** A whole-document write (`save`, `findByIdAndUpdate`) of an existing document. */
    method Replace(id: string, doc: T)
      requires Valid() && id in docs
      modifies this
      ensures Valid()
      ensures docs == old(docs)[id := doc] && order == old(order)
    {
      docs := docs[id := doc];
    }

    /** `findByIdAndDelete`: removes the document and returns it, if there was one. */
    method Remove(id: string) returns (removed: Option<T>)
      requires Valid()
      modifies this
      ensures Valid()
      ensures removed == (if id in old(docs) then Some(old(docs)[id]) else None)
      ensures docs == old(docs) - {id} && order == Without(old(order), id)
    {
      removed := if id in docs then Some(docs[id]) else None;
      WithoutDistinct(order, id);
      docs := docs - {id};
      order := Without(order, id);
    }

    /** `find(filter)`: the ids of every matching document, in natural order. */
    method FindAll(p: T -> bool) returns (ids: seq<string>)
      requires Valid()
      ensures ids == Matching(order, docs, p)
      ensures forall id :: id in ids <==> id in docs && p(docs[id])
      ensures Distinct(ids)
    {
      ids := [];
      var i := 0;
      while i < |order|
        invariant 0 <= i <= |order|
        invariant ids == Matching(order[..i], docs, p)
      {
        MatchingSnoc(order[..i], order[i], docs, p);
        assert order[..i + 1] == order[..i] + [order[i]];
        if p(docs[order[i]]) {
          ids := ids + [order[i]];
        }
        i := i + 1;
      }
      assert order[..i] == order;
      forall id ensures id in ids <==> id in docs && p(docs[id]) {
        MatchingMembers(order, docs, p, id);
      }
      MatchingDistinct(order, docs, p);
    }

    /** `findOne(filter)`: the first matching document in natural order. */
    method FindFirst(p: T -> bool) returns (r: Option<string>)
      requires Valid()
      ensures r == FirstMatching(order, docs, p)
      ensures r.Some? ==> r.value in docs && p(docs[r.value])
      ensures r.None? <==> forall id :: id in docs ==> !p(docs[id])
    {
      var ids := FindAll(p);
      r := if |ids| == 0 then None else Some(ids[0]);
      FirstMatchingNone(order, docs, p);
    }
  }
}
