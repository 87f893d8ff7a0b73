/**
 * The content controller: a soft-delete store of summaries and exams. Reads
 * and updates see only records whose `deleted` flag is not set; delete and
 * restore flip the flag; only the permanent delete removes a record.
 */
module ContentController {
  import opened Wrappers
  import opened Text
  import opened Store
  import opened ContentModel
  import UsersModel

  /** A reply body. `Item` is a document, with the title of its subject when it was looked up. */
  datatype Body =
    | Message(text: string)
    | Failure
    | Item(id: string, item: Content, subjectTitle: Option<string>)
    | Removed(message: string, id: string)

  datatype Response = Response(status: int, body: Body)

  /** The `{ deleted: { $ne: true } }` filter. */
  predicate Live(c: Content) {
    !c.deleted
  }

  /** The document with that id, provided it is live. */
  predicate LiveAt(docs: map<string, Content>, id: string) {
    id in docs && Live(docs[id])
  }

  // ---------------------------------------------------------------------------
  // populateItem

  /**
   * `populateItem`: a record with a subject gets that subject's title; a subject
   * id with no subject behind it makes the lookup result `null`, and reading its
   * title throws.
   */
  function SubjectTitle(subjects: map<string, string>, c: Content): (r: Result<Option<string>, ()>)
    ensures r.Err? <==> Truthy(c.subject) && c.subject.value !in subjects
    ensures r.Ok? && r.value.Some? <==> Truthy(c.subject) && c.subject.value in subjects
    ensures r.Ok? && r.value.Some? ==> r.value.value == subjects[c.subject.value]
  {
    if !Truthy(c.subject) then Ok(None)
    else if c.subject.value in subjects then Ok(Some(subjects[c.subject.value]))
    else Err(())
  }

  /** `Promise.all(ids.map(populateItem))`: every record populated, or a failure if any lookup throws. */
  function PopulateAll(docs: map<string, Content>, subjects: map<string, string>, ids: seq<string>): (r: Option<seq<Body>>)
    requires forall k :: 0 <= k < |ids| ==> ids[k] in docs
    ensures r.Some? <==> forall k :: 0 <= k < |ids| ==> SubjectTitle(subjects, docs[ids[k]]).Ok?
    ensures r.Some? ==> |r.value| == |ids|
                        && forall k :: 0 <= k < |ids| ==>
                             r.value[k] == Item(ids[k], docs[ids[k]], SubjectTitle(subjects, docs[ids[k]]).value)
    decreases |ids|
  {
    if |ids| == 0 then Some([])
    else
      var first := SubjectTitle(subjects, docs[ids[0]]);
      var rest := PopulateAll(docs, subjects, ids[1..]);
      if first.Err? then None
      else if rest.None? then
        assert exists k :: 1 <= k < |ids| && SubjectTitle(subjects, docs[ids[k]]).Err? by {
          var j :| 0 <= j < |ids[1..]| && SubjectTitle(subjects, docs[ids[1..][j]]).Err?;
          assert ids[j + 1] == ids[1..][j];
        }
        None
      else
        Some([Item(ids[0], docs[ids[0]], first.value)] + rest.value)
  }

  // ---------------------------------------------------------------------------
  // Single-record handlers

  /** `getById`: a live record, populated; 404 otherwise. */
  method GetById(store: Collection<Content>, subjects: map<string, string>, id: string) returns (resp: Response)
    requires store.Valid()
    ensures !LiveAt(store.docs, id) ==> resp == Response(404, Message("Content not found"))
    ensures LiveAt(store.docs, id) && SubjectTitle(subjects, store.docs[id]).Err? ==> resp == Response(400, Failure)
    ensures LiveAt(store.docs, id) && SubjectTitle(subjects, store.docs[id]).Ok? ==>
      resp == Response(200, Item(id, store.docs[id], SubjectTitle(subjects, store.docs[id]).value))
  {
    if !LiveAt(store.docs, id) {
      return Response(404, Message("Content not found"));
    }
    var title := SubjectTitle(subjects, store.docs[id]);
    if title.Err? {
      return Response(400, Failure);
    }
    resp := Response(200, Item(id, store.docs[id], title.value));
  }

  const MissingFields: string := "Missing required fields: userId, content, and contentType are required"
  const BadContentType: string := "contentType must be either 'Summary' or 'Exam'"

  /** The record `create` stores once its checks pass. */
  function CreatedContent(userId: string, content: string, subject: Option<string>, title: Option<string>,
                          contentType: string, shared: Option<bool>, copyContent: Option<bool>, nowMs: nat): (c: Content)
    ensures c.title == (if Truthy(title) then title.value else "Untitled")
    ensures c == NewContent(userId, content, subject, Some(c.title), contentType, shared, copyContent, nowMs)
  {
    NewContent(userId, content, subject, Some(if Truthy(title) then title.value else "Untitled"),
               contentType, shared, copyContent, nowMs)
  }

  /** `create`: the three required fields and the type are checked before anything is stored. */
  method Create(store: Collection<Content>, userId: Option<string>, content: Option<string>,
                contentType: Option<string>, subject: Option<string>, title: Option<string>,
                shared: Option<bool>, copyContent: Option<bool>, freshId: string, nowMs: nat)
    returns (resp: Response)
    requires store.Valid() && freshId !in store.docs
    modifies store
    ensures store.Valid()
    ensures !Truthy(userId) || !Truthy(content) || !Truthy(contentType) ==>
      resp == Response(400, Message(MissingFields)) && store.docs == old(store.docs) && store.order == old(store.order)
    ensures Truthy(userId) && Truthy(content) && Truthy(contentType) && !ValidContentType(contentType.value) ==>
      resp == Response(400, Message(BadContentType)) && store.docs == old(store.docs) && store.order == old(store.order)
    ensures resp.status == 201 <==> Truthy(userId) && Truthy(content) && Truthy(contentType) && ValidContentType(contentType.value)
    ensures resp.status == 201 ==>
      var c := CreatedContent(userId.value, content.value, subject, title, contentType.value, shared, copyContent, nowMs);
      Valid(c) && resp == Response(201, Item(freshId, c, None))
      && store.docs == old(store.docs)[freshId := c] && store.order == old(store.order) + [freshId]
  {
    if !Truthy(userId) || !Truthy(content) || !Truthy(contentType) {
      return Response(400, Message(MissingFields));
    }
    if !ValidContentType(contentType.value) {
      return Response(400, Message(BadContentType));
    }
    var c := CreatedContent(userId.value, content.value, subject, title, contentType.value, shared, copyContent, nowMs);
    store.Insert(freshId, c);
    resp := Response(201, Item(freshId, c, None));
  }

  /** The fields a request body sets; an absent field is left as it is. */
  datatype Patch = Patch(
    userId: Option<string>,
    content: Option<string>,
    subject: Option<Option<string>>,
    title: Option<string>,
    contentType: Option<string>,
    shared: Option<bool>,
    copyContent: Option<bool>,
    deleted: Option<bool>,
    deletedAt: Option<Option<nat>>,
    createdAt: Option<nat>)

  /**
   * The update `findOneAndUpdate(filter, body)` applies: the body's fields
   * replace the stored ones, `createdAt` included.
   */
  function Apply(c: Content, p: Patch): (r: Content)
    ensures r.createdAt == p.createdAt.GetOr(c.createdAt)
    ensures r.userId == p.userId.GetOr(c.userId) && r.content == p.content.GetOr(c.content)
    ensures r.subject == p.subject.GetOr(c.subject) && r.title == p.title.GetOr(c.title)
    ensures r.contentType == p.contentType.GetOr(c.contentType)
    ensures r.shared == p.shared.GetOr(c.shared) && r.copyContent == p.copyContent.GetOr(c.copyContent)
    ensures r.deleted == p.deleted.GetOr(c.deleted) && r.deletedAt == p.deletedAt.GetOr(c.deletedAt)
  {
    Content(p.userId.GetOr(c.userId), p.content.GetOr(c.content), p.subject.GetOr(c.subject),
            p.title.GetOr(c.title), p.contentType.GetOr(c.contentType), p.shared.GetOr(c.shared),
            p.copyContent.GetOr(c.copyContent), p.deleted.GetOr(c.deleted), p.deletedAt.GetOr(c.deletedAt),
            p.createdAt.GetOr(c.createdAt))
  }

  /** An empty body leaves a record as it is. */
  lemma ApplyNothing(c: Content)
    ensures Apply(c, Patch(None, None, None, None, None, None, None, None, None, None)) == c
  {
  }

  /**
   * The update runs no validators, so a body can store a content type outside
   * the enum that `create` enforces.
   */
  lemma UpdateSkipsEnum(c: Content, t: string)
    requires Valid(c) && !ValidContentType(t)
    ensures Valid(c) && !Valid(Apply(c, Patch(None, None, None, None, Some(t), None, None, None, None, None)))
  {
  }

  /**
   * `updateItem`: a live record takes the body's fields; the reply then
   * populates it. A failed population answers 400 although the update is stored.
   */
  method UpdateItem(store: Collection<Content>, subjects: map<string, string>, id: string, patch: Patch)
    returns (resp: Response)
    requires store.Valid()
    modifies store
    ensures store.Valid() && store.order == old(store.order)
    ensures !LiveAt(old(store.docs), id) ==>
      resp == Response(404, Message("Content not found")) && store.docs == old(store.docs)
    ensures LiveAt(old(store.docs), id) ==>
      var updated := Apply(old(store.docs)[id], patch);
      store.docs == old(store.docs)[id := updated]
      && resp == (if SubjectTitle(subjects, updated).Err? then Response(400, Failure)
                  else Response(200, Item(id, updated, SubjectTitle(subjects, updated).value)))
  {
    if !LiveAt(store.docs, id) {
      return Response(404, Message("Content not found"));
    }
    var updated := Apply(store.docs[id], patch);
    store.Replace(id, updated);
    var title := SubjectTitle(subjects, updated);
    if title.Err? {
      return Response(400, Failure);
    }
    resp := Response(200, Item(id, updated, title.value));
  }

  /** The soft delete: the flag is set and the time recorded; nothing else changes. */
  function SoftDeleted(c: Content, nowMs: nat): (r: Content)
    ensures r.deleted && r.deletedAt == Some(nowMs) && !Live(r)
    ensures r.(deleted := c.deleted, deletedAt := c.deletedAt) == c
  {
    c.(deleted := true, deletedAt := Some(nowMs))
  }

  /** The restore: the flag is cleared and the time forgotten; nothing else changes. */
  function Restored(c: Content): (r: Content)
    ensures !r.deleted && r.deletedAt.None? && Live(r)
    ensures r.(deleted := c.deleted, deletedAt := c.deletedAt) == c
  {
    c.(deleted := false, deletedAt := None)
  }

  /** Deleting a live record and restoring it gives the record back. */
  lemma DeleteThenRestore(c: Content, nowMs: nat)
    requires Live(c) && c.deletedAt.None?
    ensures Restored(SoftDeleted(c, nowMs)) == c
  {
  }

  /** `deleteItem`: a live record becomes deleted and stays stored; a deleted or absent one gives 404. */
  method DeleteItem(store: Collection<Content>, id: string, nowMs: nat) returns (resp: Response)
    requires store.Valid()
    modifies store
    ensures store.Valid() && store.order == old(store.order)
    ensures !LiveAt(old(store.docs), id) ==>
      resp == Response(404, Message("Content not found")) && store.docs == old(store.docs)
    ensures LiveAt(old(store.docs), id) ==>
      resp == Response(200, Removed("Content deleted successfully", id))
      && store.docs == old(store.docs)[id := SoftDeleted(old(store.docs)[id], nowMs)]
  {
    if !LiveAt(store.docs, id) {
      return Response(404, Message("Content not found"));
    }
    store.Replace(id, SoftDeleted(store.docs[id], nowMs));
    resp := Response(200, Removed("Content deleted successfully", id));
  }

  /** `permanentlyDeleteItem`: removes the record whatever its flag; 404 when there is none. */
  method PermanentlyDeleteItem(store: Collection<Content>, id: string) returns (resp: Response)
    requires store.Valid()
    modifies store
    ensures store.Valid()
    ensures store.docs == old(store.docs) - {id} && store.order == Without(old(store.order), id)
    ensures resp == if id in old(store.docs) then Response(200, Removed("Content permanently deleted", id))
                    else Response(404, Message("Content not found"))
  {
    var removed := store.Remove(id);
    if removed.None? {
      return Response(404, Message("Content not found"));
    }
    resp := Response(200, Removed("Content permanently deleted", id));
  }

  /** `restoreItem`: only a deleted record is restored; anything else gives 404. */
  method RestoreItem(store: Collection<Content>, id: string) returns (resp: Response)
    requires store.Valid()
    modifies store
    ensures store.Valid() && store.order == old(store.order)
    ensures !(id in old(store.docs) && old(store.docs)[id].deleted) ==>
      resp == Response(404, Message("Deleted content not found")) && store.docs == old(store.docs)
    ensures id in old(store.docs) && old(store.docs)[id].deleted ==>
      var r := Restored(old(store.docs)[id]);
      resp == Response(200, Item(id, r, None)) && store.docs == old(store.docs)[id := r]
  {
    if !(id in store.docs && store.docs[id].deleted) {
      return Response(404, Message("Deleted content not found"));
    }
    var r := Restored(store.docs[id]);
    store.Replace(id, r);
    resp := Response(200, Item(id, r, None));
  }

  // ---------------------------------------------------------------------------
  // Queries

  /** `{ userId, deleted: { $ne: true } }`, with `subject` added when a subject id is given. */
  function ByOwner(userId: string, subjectId: Option<string>): Content -> bool {
    (c: Content) => c.userId == userId && Live(c) && (Truthy(subjectId) ==> c.subject == subjectId)
  }

  /** `{ userId, contentType, deleted: { $ne: true } }`. */
  function ByOwnerAndType(userId: string, contentType: string): Content -> bool {
    (c: Content) => c.userId == userId && c.contentType == contentType && Live(c)
  }

  /** `{ shared: true, deleted: { $ne: true } }`. */
  function SharedLive(): Content -> bool {
    (c: Content) => c.shared && Live(c)
  }

  /** `{ userId, deleted: true }`. */
  function DeletedOf(userId: string): Content -> bool {
    (c: Content) => c.userId == userId && c.deleted
  }

  /** `getContentByUserId`: the owner's live records (of one subject, when given), populated, in natural order. */
  method GetContentByUserId(store: Collection<Content>, subjects: map<string, string>, userId: string,
                            subjectId: Option<string>) returns (r: Result<seq<Body>, string>)
    requires store.Valid()
    ensures var ids := Matching(store.order, store.docs, ByOwner(userId, subjectId));
      r == (var all := PopulateAll(store.docs, subjects, ids);
            if all.Some? then Ok(all.value) else Err("Error fetching content by user ID"))
    ensures r.Ok? ==> forall k :: 0 <= k < |r.value| ==>
      r.value[k].Item? && r.value[k].item.userId == userId && Live(r.value[k].item)
      && (Truthy(subjectId) ==> r.value[k].item.subject == subjectId)
  {
    var ids := store.FindAll(ByOwner(userId, subjectId));
    forall k | 0 <= k < |ids| ensures ids[k] in store.docs {
      MatchingMembers(store.order, store.docs, ByOwner(userId, subjectId), ids[k]);
    }
    var all := PopulateAll(store.docs, subjects, ids);
    r := if all.Some? then Ok(all.value) else Err("Error fetching content by user ID");
  }

  /** `getContentByUserIdAndType`: the owner's live records of one type, populated, in natural order. */
  method GetContentByUserIdAndType(store: Collection<Content>, subjects: map<string, string>, userId: string,
                                   contentType: string) returns (r: Result<seq<Body>, string>)
    requires store.Valid()
    ensures var ids := Matching(store.order, store.docs, ByOwnerAndType(userId, contentType));
      r == (var all := PopulateAll(store.docs, subjects, ids);
            if all.Some? then Ok(all.value) else Err("Error fetching " + contentType + " content by user ID"))
    ensures r.Ok? ==> forall k :: 0 <= k < |r.value| ==>
      r.value[k].Item? && r.value[k].item.userId == userId && r.value[k].item.contentType == contentType
      && Live(r.value[k].item)
  {
    var ids := store.FindAll(ByOwnerAndType(userId, contentType));
    forall k | 0 <= k < |ids| ensures ids[k] in store.docs {
      MatchingMembers(store.order, store.docs, ByOwnerAndType(userId, contentType), ids[k]);
    }
    var all := PopulateAll(store.docs, subjects, ids);
    r := if all.Some? then Ok(all.value) else Err("Error fetching " + contentType + " content by user ID");
  }

  /** The author fields `select("username fullName imgUrl -_id")` keeps. */
  datatype Author = Author(username: Option<string>, fullName: Option<string>, imgUrl: Option<string>)

  /** A shared record as `getCheckedContent` returns it: every field but `userId`, plus author and subject title. */
  datatype SharedView = SharedView(
    id: string,
    content: string,
    subject: Option<string>,
    title: string,
    contentType: string,
    shared: bool,
    copyContent: bool,
    deleted: bool,
    deletedAt: Option<nat>,
    createdAt: nat,
    user: Option<Author>,
    subjectTitle: Option<string>)

  function AuthorOf(people: map<string, UsersModel.User>, userId: string): Option<Author> {
    if userId in people then
      var p := people[userId];
      Some(Author(p.username, p.fullName, p.imgUrl))
    else None
  }

  /** One element of `getCheckedContent`'s answer. */
  function View(people: map<string, UsersModel.User>, subjects: map<string, string>, id: string, c: Content): (v: SharedView)
    ensures v.user == AuthorOf(people, c.userId)
    ensures v.subjectTitle == (if c.subject.Some? && c.subject.value in subjects then Some(subjects[c.subject.value]) else None)
  {
    SharedView(id, c.content, c.subject, c.title, c.contentType, c.shared, c.copyContent, c.deleted,
               c.deletedAt, c.createdAt, AuthorOf(people, c.userId),
               if c.subject.Some? && c.subject.value in subjects then Some(subjects[c.subject.value]) else None)
  }

  /** The view drops exactly the owner: two records by the same author look alike iff they differ at most in `userId`. */
  lemma ViewHidesOnlyOwner(people: map<string, UsersModel.User>, subjects: map<string, string>, id: string,
                           c1: Content, c2: Content)
    requires AuthorOf(people, c1.userId) == AuthorOf(people, c2.userId)
    ensures View(people, subjects, id, c1) == View(people, subjects, id, c2) <==> c1.(userId := c2.userId) == c2
  {
  }

  function Views(people: map<string, UsersModel.User>, subjects: map<string, string>,
                 docs: map<string, Content>, ids: seq<string>): (vs: seq<SharedView>)
    requires forall k :: 0 <= k < |ids| ==> ids[k] in docs
    ensures |vs| == |ids|
    ensures forall k :: 0 <= k < |ids| ==> vs[k] == View(people, subjects, ids[k], docs[ids[k]])
    decreases |ids|
  {
    if |ids| == 0 then [] else [View(people, subjects, ids[0], docs[ids[0]])] + Views(people, subjects, docs, ids[1..])
  }

  /** `getCheckedContent`: every shared live record, in natural order, without its owner id. */
  method GetCheckedContent(store: Collection<Content>, people: map<string, UsersModel.User>,
                           subjects: map<string, string>) returns (views: seq<SharedView>)
    requires store.Valid()
    ensures var ids := Matching(store.order, store.docs, SharedLive());
      (forall k :: 0 <= k < |ids| ==> ids[k] in store.docs)
      && views == Views(people, subjects, store.docs, ids)
    ensures forall k :: 0 <= k < |views| ==> views[k].shared && !views[k].deleted
  {
    var ids := store.FindAll(SharedLive());
    forall k | 0 <= k < |ids| ensures ids[k] in store.docs {
      MatchingMembers(store.order, store.docs, SharedLive(), ids[k]);
    }
    views := Views(people, subjects, store.docs, ids);
  }

  // ---------------------------------------------------------------------------
  // `getDeletedContent`: sorted by `deletedAt`, newest first

  /** The sort key; a missing `deletedAt` sorts below every date. */
  function DeletedKey(docs: map<string, Content>, id: string): int {
    if id in docs && docs[id].deletedAt.Some? then docs[id].deletedAt.value else -1
  }

  predicate NewestFirst(docs: map<string, Content>, ids: seq<string>) {
    forall i, j :: 0 <= i < j < |ids| ==> DeletedKey(docs, ids[i]) >= DeletedKey(docs, ids[j])
  }

  function InsertNewestFirst(docs: map<string, Content>, id: string, ids: seq<string>): (r: seq<string>)
    requires NewestFirst(docs, ids)
    ensures multiset(r) == multiset(ids) + multiset{id}
    ensures NewestFirst(docs, r)
    ensures |r| > 0 && (r[0] == id || (|ids| > 0 && r[0] == ids[0]))
    decreases |ids|
  {
    if |ids| == 0 || DeletedKey(docs, id) >= DeletedKey(docs, ids[0]) then
      ConsNewestFirst(docs, id, ids);
      [id] + ids
    else
      var rest := InsertNewestFirst(docs, id, ids[1..]);
      assert ids == [ids[0]] + ids[1..];
      ConsNewestFirst(docs, ids[0], ids[1..]);
      ConsNewestFirst(docs, ids[0], rest);
      [ids[0]] + rest
  }

  /** Putting a key no older than the head in front keeps a list newest first. */
  lemma ConsNewestFirst(docs: map<string, Content>, x: string, rest: seq<string>)
    requires NewestFirst(docs, rest)
    requires |rest| > 0 ==> DeletedKey(docs, x) >= DeletedKey(docs, rest[0])
    ensures NewestFirst(docs, [x] + rest)
  {
    var s := [x] + rest;
    forall i, j | 0 <= i < j < |s| ensures DeletedKey(docs, s[i]) >= DeletedKey(docs, s[j]) {
      if i == 0 {
        assert s[j] == rest[j - 1];
        if j > 1 {
          assert DeletedKey(docs, rest[0]) >= DeletedKey(docs, rest[j - 1]);
        }
      } else {
        assert s[i] == rest[i - 1] && s[j] == rest[j - 1];
      }
    }
  }

  function SortNewestFirst(docs: map<string, Content>, ids: seq<string>): (r: seq<string>)
    ensures multiset(r) == multiset(ids)
    ensures NewestFirst(docs, r)
    decreases |ids|
  {
    if |ids| == 0 then []
    else
      assert ids == [ids[0]] + ids[1..];
      InsertNewestFirst(docs, ids[0], SortNewestFirst(docs, ids[1..]))
  }

  /** `getDeletedContent`: exactly the owner's deleted records, newest deletion first. */
  method GetDeletedContent(store: Collection<Content>, userId: string) returns (ids: seq<string>)
    requires store.Valid()
    ensures multiset(ids) == multiset(Matching(store.order, store.docs, DeletedOf(userId)))
    ensures forall id :: id in ids <==> id in store.docs && store.docs[id].userId == userId && store.docs[id].deleted
    ensures NewestFirst(store.docs, ids)
  {
    var found := store.FindAll(DeletedOf(userId));
    ids := SortNewestFirst(store.docs, found);
    forall id ensures id in ids <==> id in found {
      assert id in ids <==> id in multiset(ids);
      assert id in found <==> id in multiset(found);
    }
  }
}
