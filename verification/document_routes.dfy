/**
 * The document REST routes of routes/documents.js: listing, reading,
 * creating, renaming or publishing, deleting, and the collaborator list.
 *
 * The collection is the sequence of stored documents. Each route is first a
 * function from the collection and the request to the response and the new
 * collection; the class `DocumentCollection` then performs the write routes
 * step by step on its field and is proved to agree with those functions.
 * A missing request field is `None` (JavaScript `undefined`); every `save`
 * stamps `lastModified` with the clock reading `now`, as the schema's
 * pre-save hook does. Database failures other than those listed below are
 * not modelled.
 */
module DocumentRoutes {
  import opened Wrappers
  import opened DocumentModel
  import opened Text

  type Collection = seq<Doc>

  /** The answer of a route: its JSON body or error, and the collection afterwards. */
  datatype Response<T> = Response(result: Result<T, HttpError>, docs: Collection)

  const UserIdRequired := HttpError(400, "User ID is required")
  const DocumentNotFound := HttpError(404, "Document not found")
  const AccessDenied := HttpError(403, "Access denied")
  const AdminRequired := HttpError(403, "Admin access required")
  const OwnerOnly := HttpError(403, "Only the owner can delete this document")
  const UserNotFound := HttpError(404, "User not found")
  const AlreadyCollaborator := HttpError(400, "User is already a collaborator")
  const CreateFailed := HttpError(500, "Failed to create document")
  const UpdateFailed := HttpError(500, "Failed to update document")
  const AddFailed := HttpError(500, "Failed to add collaborator")
  const RemoveFailed := HttpError(500, "Failed to remove collaborator")
  const DeletedMessage := "Document deleted successfully"

  /** `!userId`: the parameter is missing or the empty string. */
  predicate Falsy(s: Option<string>) {
    s.None? || s.value == ""
  }

  /** The position of the document with this id: `Document.findById`. */
  function Find(c: Collection, id: string): (r: Option<nat>)
    ensures r.Some? ==> r.value < |c| && c[r.value].id == id
    ensures r.None? <==> forall i :: 0 <= i < |c| ==> c[i].id != id
  {
    if |c| == 0 then None
    else if c[0].id == id then Some(0)
    else
      var r := Find(c[1..], id);
      assert forall i :: 1 <= i < |c| ==> c[i] == c[1..][i - 1];
      if r.Some? then Some(r.value + 1) else None
  }

  // ---- Access rules ----

  /** Some collaborator entry carries this user id: `c.userId === id` for some entry `c`. */
  predicate HasEntryFor(cs: seq<Collaborator>, id: string) {
    exists i :: 0 <= i < |cs| && cs[i].userId == id
  }

  /** The user id is present and listed as a collaborator. */
  predicate IsCollaborator(d: Doc, userId: Option<string>) {
    userId.Some? && HasEntryFor(d.collaborators, userId.value)
  }

  /** Some collaborator entry carries this user id with the admin permission. */
  predicate IsAdminCollaborator(d: Doc, userId: Option<string>) {
    && userId.Some?
    && exists i :: 0 <= i < |d.collaborators| &&
         d.collaborators[i].userId == userId.value && d.collaborators[i].permission == Admin
  }

  /** Read access: public, or owned by the user, or shared with the user. */
  predicate HasAccess(d: Doc, userId: Option<string>) {
    d.isPublic || d.owner == userId || IsCollaborator(d, userId)
  }

  /** Admin access: the owner, or a collaborator with the admin permission. */
  predicate HasAdminAccess(d: Doc, userId: Option<string>) {
    d.owner == userId || IsAdminCollaborator(d, userId)
  }

  /** Whoever may administer a document may also read it. */
  lemma AdminCanRead(d: Doc, userId: Option<string>)
    requires HasAdminAccess(d, userId)
    ensures HasAccess(d, userId)
  {
    if d.owner != userId {
      var i :| 0 <= i < |d.collaborators| &&
        d.collaborators[i].userId == userId.value && d.collaborators[i].permission == Admin;
    }
  }

  // ---- GET / ----

  /** The list query's condition for a present user id `u`: owner, collaborator, or public. */
  predicate Listed(d: Doc, u: string) {
    d.owner == Some(u) || HasEntryFor(d.collaborators, u) || d.isPublic
  }

  /** A document is listed for a user exactly when that user may read it. */
  lemma ListedIsReadable(d: Doc, u: string)
    ensures Listed(d, u) <==> HasAccess(d, Some(u))
  {
  }

  function ListedOf(c: Collection, u: string): (r: Collection)
    ensures forall d :: d in r <==> d in c && Listed(d, u)
    ensures multiset(r) <= multiset(c)
  {
    if |c| == 0 then []
    else
      var rest := ListedOf(c[1..], u);
      assert c == [c[0]] + c[1..];
      if Listed(c[0], u) then [c[0]] + rest else rest
  }

  ghost predicate NewestFirst(s: seq<Doc>) {
    forall i, j :: 0 <= i < j < |s| ==> s[i].lastModified >= s[j].lastModified
  }

  /** Places `d` before the first document that is not newer than it. */
  function InsertByDate(d: Doc, s: seq<Doc>): (r: seq<Doc>)
    requires NewestFirst(s)
    ensures NewestFirst(r)
    ensures multiset(r) == multiset(s) + multiset{d}
    ensures |r| == |s| + 1
    ensures |s| > 0 ==> r[0] == d || r[0] == s[0]
  {
    if |s| == 0 || d.lastModified >= s[0].lastModified then
      [d] + s
    else
      var rest := InsertByDate(d, s[1..]);
      assert s == [s[0]] + s[1..];
      [s[0]] + rest
  }

  /**
   * `.sort({ lastModified: -1 })`. MongoDB leaves the order of documents
   * modified at the same time open; this model picks the stored order.
   */
  function SortNewestFirst(s: seq<Doc>): (r: seq<Doc>)
    ensures NewestFirst(r)
    ensures multiset(r) == multiset(s)
  {
    if |s| == 0 then []
    else
      assert s == [s[0]] + s[1..];
      InsertByDate(s[0], SortNewestFirst(s[1..]))
  }

  /** GET /: the documents a user owns, shares or can see as public, newest first. */
  function ListDocuments(c: Collection, userId: Option<string>): (r: Result<seq<Doc>, HttpError>)
    ensures r.Err? <==> Falsy(userId)
    ensures r.Err? ==> r.error == UserIdRequired
    ensures r.Ok? ==> NewestFirst(r.value)
    ensures r.Ok? ==> forall d :: d in r.value <==> d in c && HasAccess(d, userId)
    ensures r.Ok? ==> multiset(r.value) <= multiset(c)
  {
    if Falsy(userId) then Err(UserIdRequired)
    else
      var listed := ListedOf(c, userId.value);
      var r := SortNewestFirst(listed);
      SameElements(listed, r);
      assert forall d :: Listed(d, userId.value) <==> HasAccess(d, userId);
      Ok(r)
  }

  /** Two orderings of the same documents hold the same documents. */
  lemma SameElements(a: seq<Doc>, b: seq<Doc>)
    requires multiset(a) == multiset(b)
    ensures forall d :: d in a <==> d in b
  {
    forall d ensures d in a <==> d in b {
      assert d in a <==> d in multiset(a);
      assert d in b <==> d in multiset(b);
    }
  }

  // ---- GET /:id ----

  /** GET /:id: 404 for an unknown id, 403 without read access, otherwise the document. */
  function GetDocument(c: Collection, id: string, userId: Option<string>): (r: Result<Doc, HttpError>)
    ensures r == Err(DocumentNotFound) <==> Find(c, id).None?
    ensures r == Err(AccessDenied) <==> Find(c, id).Some? && !HasAccess(c[Find(c, id).value], userId)
    ensures r.Ok? ==> r.value in c && r.value.id == id && HasAccess(r.value, userId)
  {
    match Find(c, id)
    case None => Err(DocumentNotFound)
    case Some(i) => if HasAccess(c[i], userId) then Ok(c[i]) else Err(AccessDenied)
  }

  /**
   * The read check of GET /:id as the route runs it: `owner` and each entry's
   * `userId` are populated first, so each is a user object (or null for a
   * user that is gone) and equals no user id string. Only a missing owner
   * still equals a missing user id.
   */
  predicate PopulatedAccess(d: Doc, userId: Option<string>) {
    d.isPublic || (d.owner.None? && userId.None?)
  }

  /** GET /:id with the check applied to the populated record. */
  function GetDocumentAsWritten(c: Collection, id: string, userId: Option<string>): (r: Result<Doc, HttpError>)
    ensures r == Err(DocumentNotFound) <==> Find(c, id).None?
    ensures r == Err(AccessDenied) <==> Find(c, id).Some? && !PopulatedAccess(c[Find(c, id).value], userId)
  {
    match Find(c, id)
    case None => Err(DocumentNotFound)
    case Some(i) => if PopulatedAccess(c[i], userId) then Ok(c[i]) else Err(AccessDenied)
  }

  /**
   * As the route runs, the owner and every collaborator of a private document
   * are refused it; the check on the stored ids, which the other routes make,
   * lets them read it.
   */
  lemma PopulatedCheckRefusesMembers(c: Collection, id: string, u: string)
    requires Find(c, id).Some? && !c[Find(c, id).value].isPublic
    ensures GetDocumentAsWritten(c, id, Some(u)) == Err(AccessDenied)
    ensures c[Find(c, id).value].owner == Some(u) ==> GetDocument(c, id, Some(u)) == Ok(c[Find(c, id).value])
    ensures HasEntryFor(c[Find(c, id).value].collaborators, u) ==> GetDocument(c, id, Some(u)) == Ok(c[Find(c, id).value])
  {
  }

  // ---- POST / ----

  /** `x || default` on an optional string: a missing or empty value gives the default. */
  function OrDefault(s: Option<string>, default: string): (r: string)
    ensures Falsy(s) ==> r == default
    ensures !Falsy(s) ==> r == s.value
  {
    if Falsy(s) then default else s.value
  }

  /**
   * POST /: a new document under the fresh id `newId`, owned by the requester,
   * with the defaults filled in. An id already taken makes the save fail.
   */
  function CreateDocument(c: Collection, newId: string, title: Option<string>, content: Option<string>,
                          userId: Option<string>, isPublic: Option<bool>, now: int): Response<Doc>
  {
    if Falsy(userId) then Response(Err(UserIdRequired), c)
    else if Find(c, newId).Some? then Response(Err(CreateFailed), c)
    else
      var d := Doc(newId, OrDefault(title, DefaultTitle), OrDefault(content, ""), userId, [],
                   isPublic == Some(true), now);
      Response(Ok(d), c + [d])
  }

  /**
   * A created document has the given or default title, the given or empty
   * content, the requester as owner, no collaborators, and is public only when
   * asked; nothing else in the collection changes.
   */
  lemma CreateDefaults(c: Collection, newId: string, title: Option<string>, content: Option<string>,
                       userId: Option<string>, isPublic: Option<bool>, now: int)
    ensures var resp := CreateDocument(c, newId, title, content, userId, isPublic, now);
      && (Falsy(userId) ==> resp == Response(Err(UserIdRequired), c))
      && (resp.result.Ok? <==> !Falsy(userId) && Find(c, newId).None?)
      && (resp.result.Ok? ==>
            var d := resp.result.value;
            && resp.docs == c + [d]
            && d.id == newId && d.owner == userId && d.collaborators == [] && d.lastModified == now
            && (title.None? || title == Some("") ==> d.title == "Untitled Document")
            && (title.Some? && title.value != "" ==> d.title == title.value)
            && (content.None? || content == Some("") ==> d.content == "")
            && (content.Some? && content.value != "" ==> d.content == content.value)
            && ValidForSave(d)
            && (d.isPublic <==> isPublic == Some(true)))
      && (resp.result.Err? ==> resp.docs == c)
  {
  }

  /** The creator can read, administer and delete the new document. */
  lemma CreatorHasAllRights(c: Collection, newId: string, title: Option<string>, content: Option<string>,
                            userId: Option<string>, isPublic: Option<bool>, now: int)
    requires CreateDocument(c, newId, title, content, userId, isPublic, now).result.Ok?
    ensures var d := CreateDocument(c, newId, title, content, userId, isPublic, now).result.value;
      HasAccess(d, userId) && HasAdminAccess(d, userId) && DeleteDocument(c + [d], newId, userId).result.Ok?
  {
    var d := CreateDocument(c, newId, title, content, userId, isPublic, now).result.value;
    assert Find(c + [d], newId) == Some(|c|) by {
      FindAppend(c, d);
    }
  }

  /** Looking up the id of a document appended to a collection without that id finds it last. */
  lemma {:induction false} FindAppend(c: Collection, d: Doc)
    requires Find(c, d.id).None?
    ensures Find(c + [d], d.id) == Some(|c|)
  {
    if |c| > 0 {
      assert (c + [d])[1..] == c[1..] + [d];
      FindAppend(c[1..], d);
    }
  }

  // ---- PUT /:id ----

  /** Replaces the document at position `i`. */
  function Replace(c: Collection, i: nat, d: Doc): (r: Collection)
    requires i < |c|
    ensures |r| == |c| && r[i] == d && forall j :: 0 <= j < |c| && j != i ==> r[j] == c[j]
  {
    c[i := d]
  }

  /**
   * PUT /:id: an owner or admin sets the title and the visibility that were
   * given; the save refuses a record whose title is empty.
   */
  function UpdateMetadata(c: Collection, id: string, title: Option<string>, isPublic: Option<bool>,
                          userId: Option<string>, now: int): Response<Doc>
  {
    match Find(c, id)
    case None => Response(Err(DocumentNotFound), c)
    case Some(i) =>
      if !HasAdminAccess(c[i], userId) then Response(Err(AdminRequired), c)
      else
        var d := c[i];
        var d := if title.Some? then d.(title := title.value) else d;
        var d := if isPublic.Some? then d.(isPublic := isPublic.value) else d;
        var d := d.(lastModified := now);
        if !ValidForSave(d) then Response(Err(UpdateFailed), c)
        else Response(Ok(d), Replace(c, i, d))
  }

  /**
   * An update succeeds exactly for the owner or an admin collaborator of an
   * existing document when the title it leaves is not empty (an empty title,
   * given or stored, fails the save with 500); it changes the title and the
   * visibility only when given, stamps the time, and leaves the content, the
   * owner, the collaborators and every other document as they were. A refused
   * update changes nothing.
   */
  lemma UpdateChangesOnlyGivenFields(c: Collection, id: string, title: Option<string>, isPublic: Option<bool>,
                                     userId: Option<string>, now: int)
    ensures var resp := UpdateMetadata(c, id, title, isPublic, userId, now);
      && (Find(c, id).None? ==> resp == Response(Err(DocumentNotFound), c))
      && (Find(c, id).Some? ==>
            var i := Find(c, id).value;
            var newTitle := if title.Some? then title.value else c[i].title;
            && (!HasAdminAccess(c[i], userId) ==> resp == Response(Err(AdminRequired), c))
            && (HasAdminAccess(c[i], userId) && newTitle == "" ==> resp == Response(Err(UpdateFailed), c))
            && (resp.result.Ok? <==> HasAdminAccess(c[i], userId) && newTitle != ""))
      && (resp.result.Err? ==> resp.docs == c)
      && (resp.result.Ok? ==>
            var i := Find(c, id).value;
            var old_d := c[i];
            var d := resp.result.value;
            && resp.docs == c[i := d]
            && d.id == old_d.id && d.content == old_d.content && d.owner == old_d.owner
            && d.collaborators == old_d.collaborators && d.lastModified == now
            && d.title == (if title.Some? then title.value else old_d.title)
            && d.isPublic == (if isPublic.Some? then isPublic.value else old_d.isPublic))
  {
  }

  // ---- DELETE /:id ----

  /** Removes the document at position `i`, keeping the others in order. */
  function RemoveAt(c: Collection, i: nat): (r: Collection)
    requires i < |c|
    ensures |r| == |c| - 1
    ensures forall j :: 0 <= j < i ==> r[j] == c[j]
    ensures forall j :: i <= j < |r| ==> r[j] == c[j + 1]
  {
    c[..i] + c[i + 1..]
  }

  /** DELETE /:id: only the owner deletes. */
  function DeleteDocument(c: Collection, id: string, userId: Option<string>): Response<string>
  {
    match Find(c, id)
    case None => Response(Err(DocumentNotFound), c)
    case Some(i) =>
      if c[i].owner != userId then Response(Err(OwnerOnly), c)
      else Response(Ok(DeletedMessage), RemoveAt(c, i))
  }

  /**
   * A delete succeeds exactly when the document exists and the requester is
   * its owner; then the document is gone and the others keep their order.
   */
  lemma OnlyOwnerDeletes(c: Collection, id: string, userId: Option<string>)
    ensures var resp := DeleteDocument(c, id, userId);
      && (resp.result.Ok? <==> Find(c, id).Some? && c[Find(c, id).value].owner == userId)
      && (resp.result.Err? ==> resp.docs == c)
      && (resp.result.Ok? ==> resp.docs == c[..Find(c, id).value] + c[Find(c, id).value + 1..])
      && (Find(c, id).Some? && c[Find(c, id).value].owner != userId ==> resp.result == Err(OwnerOnly))
  {
  }

  /**
   * A document the relay created on a join has no owner, and the owner check
   * compares missing with missing: a delete request without a user id removes it,
   * while every request with a user id is refused.
   */
  lemma OwnerlessDeletedWithoutUserId(c: Collection, id: string, u: string)
    requires Find(c, id).Some? && c[Find(c, id).value].owner.None?
    ensures DeleteDocument(c, id, None).result.Ok?
    ensures DeleteDocument(c, id, Some(u)).result == Err(OwnerOnly)
  {
  }

  // ---- POST /:id/collaborators ----

  /** `permission || 'write'`; a value outside the schema's enum fails validation on save. */
  function ParsePermission(p: Option<string>): (r: Option<Permission>)
    ensures r == Some(Write) <==> Falsy(p) || p == Some("write")
    ensures r == Some(Read) <==> p == Some("read")
    ensures r == Some(Admin) <==> p == Some("admin")
    ensures r.None? <==> !Falsy(p) && p.value != "read" && p.value != "write" && p.value != "admin"
  {
    if Falsy(p) then Some(Write)
    else if p.value == "read" then Some(Read)
    else if p.value == "write" then Some(Write)
    else if p.value == "admin" then Some(Admin)
    else None
  }

  /**
   * POST /:id/collaborators: an owner or admin adds the account registered
   * under the lower-cased email. `accounts` maps each stored email to its
   * account id. A request without an email fails when it is lower-cased.
   */
  function AddCollaborator(c: Collection, accounts: map<string, string>, id: string, email: Option<string>,
                           permission: Option<string>, userId: Option<string>, now: int): Response<Doc>
  {
    match Find(c, id)
    case None => Response(Err(DocumentNotFound), c)
    case Some(i) =>
      if !HasAdminAccess(c[i], userId) then Response(Err(AdminRequired), c)
      else if email.None? then Response(Err(AddFailed), c)
      else if Lower(email.value) !in accounts then Response(Err(UserNotFound), c)
      else
        var newId := accounts[Lower(email.value)];
        if HasEntryFor(c[i].collaborators, newId) then Response(Err(AlreadyCollaborator), c)
        else match ParsePermission(permission)
          case None => Response(Err(AddFailed), c)
          case Some(p) =>
            var d := c[i].(collaborators := c[i].collaborators + [Collaborator(newId, p)], lastModified := now);
            if !ValidForSave(d) then Response(Err(AddFailed), c)
            else Response(Ok(d), Replace(c, i, d))
  }

  /**
   * The refusals before the account is looked up: 404 for an unknown
   * document, 403 without admin access, 500 for a missing email (lower-casing
   * it throws), 404 for an email nobody registered. A refused request changes
   * nothing, and a success passed all of these checks.
   */
  lemma AddCollaboratorRefusals(c: Collection, accounts: map<string, string>, id: string, email: Option<string>,
                                permission: Option<string>, userId: Option<string>, now: int)
    ensures var resp := AddCollaborator(c, accounts, id, email, permission, userId, now);
      && (Find(c, id).None? ==> resp == Response(Err(DocumentNotFound), c))
      && (Find(c, id).Some? ==>
            var i := Find(c, id).value;
            && (!HasAdminAccess(c[i], userId) ==> resp == Response(Err(AdminRequired), c))
            && (HasAdminAccess(c[i], userId) && email.None? ==> resp == Response(Err(AddFailed), c))
            && (HasAdminAccess(c[i], userId) && email.Some? && Lower(email.value) !in accounts ==>
                  resp == Response(Err(UserNotFound), c)))
      && (resp.result.Err? ==> resp.docs == c)
      && (resp.result.Ok? ==>
            && Find(c, id).Some? && HasAdminAccess(c[Find(c, id).value], userId)
            && email.Some? && Lower(email.value) in accounts)
  {
  }

  /**
   * Once the document and the account are found and the requester may
   * administer it: an account already listed gets 400; a permission outside
   * the enum, or a stored title the save refuses, gets 500; otherwise exactly
   * one entry is appended, with the permission given or `write`, and nothing
   * else of the document changes but the time.
   */
  lemma AddAppendsOneEntry(c: Collection, accounts: map<string, string>, id: string, email: string,
                           permission: Option<string>, userId: Option<string>, now: int)
    requires Find(c, id).Some? && HasAdminAccess(c[Find(c, id).value], userId)
    requires Lower(email) in accounts
    ensures var resp := AddCollaborator(c, accounts, id, Some(email), permission, userId, now);
      var i := Find(c, id).value;
      var newId := accounts[Lower(email)];
      && (HasEntryFor(c[i].collaborators, newId) ==> resp == Response(Err(AlreadyCollaborator), c))
      && (!HasEntryFor(c[i].collaborators, newId) && ParsePermission(permission).None? ==>
            resp == Response(Err(AddFailed), c))
      && (!HasEntryFor(c[i].collaborators, newId) && c[i].title == "" ==> resp == Response(Err(AddFailed), c))
      && (resp.result.Ok? <==>
            !HasEntryFor(c[i].collaborators, newId) && ParsePermission(permission).Some? && c[i].title != "")
      && (resp.result.Ok? ==>
            var d := resp.result.value;
            && resp.docs == c[i := d]
            && |d.collaborators| == |c[i].collaborators| + 1
            && d.collaborators[..|c[i].collaborators|] == c[i].collaborators
            && d.collaborators[|c[i].collaborators|] == Collaborator(newId, ParsePermission(permission).value)
            && d == c[i].(collaborators := d.collaborators, lastModified := now))
  {
    var i := Find(c, id).value;
    var resp := AddCollaborator(c, accounts, id, Some(email), permission, userId, now);
    if resp.result.Ok? {
      var d := resp.result.value;
      assert d.collaborators[..|c[i].collaborators|] == c[i].collaborators;
    }
  }

  /** Adding the same account twice: the second request is refused with 400. */
  lemma AddTwiceRefused(c: Collection, accounts: map<string, string>, id: string, email: string,
                        permission: Option<string>, userId: Option<string>, now: int, later: int)
    requires AddCollaborator(c, accounts, id, Some(email), permission, userId, now).result.Ok?
    ensures var c1 := AddCollaborator(c, accounts, id, Some(email), permission, userId, now).docs;
      AddCollaborator(c1, accounts, id, Some(email), permission, userId, later).result == Err(AlreadyCollaborator)
  {
    var i := Find(c, id).value;
    var resp := AddCollaborator(c, accounts, id, Some(email), permission, userId, now);
    var d := resp.result.value;
    var c1 := resp.docs;
    var newId := accounts[Lower(email)];
    assert c1 == c[i := d];
    FindReplace(c, i, d);
    assert d.collaborators[|d.collaborators| - 1].userId == newId;
    assert HasAdminAccess(d, userId) by {
      if c[i].owner != userId {
        var k :| 0 <= k < |c[i].collaborators| &&
          c[i].collaborators[k].userId == userId.value && c[i].collaborators[k].permission == Admin;
        assert d.collaborators[k] == c[i].collaborators[k];
      }
    }
  }

  /** Replacing a document by one with the same id keeps where that id is found. */
  lemma {:induction false} FindReplace(c: Collection, i: nat, d: Doc)
    requires i < |c| && Find(c, d.id) == Some(i)
    ensures Find(c[i := d], d.id) == Some(i)
  {
    if i > 0 {
      assert c[i := d][1..] == c[1..][i - 1 := d];
      FindReplace(c[1..], i - 1, d);
    }
  }

  // ---- DELETE /:id/collaborators/:collaboratorId ----

  /** `collaborators.filter(c => c.userId !== id)`. */
  function Without(cs: seq<Collaborator>, id: string): (r: seq<Collaborator>)
    ensures forall x :: x in r <==> x in cs && x.userId != id
    ensures !HasEntryFor(r, id)
    ensures |r| <= |cs|
    ensures !HasEntryFor(cs, id) ==> r == cs
  {
    if |cs| == 0 then []
    else
      var rest := Without(cs[1..], id);
      assert cs == [cs[0]] + cs[1..];
      assert !HasEntryFor(cs, id) ==> !HasEntryFor(cs[1..], id) by {
        if HasEntryFor(cs[1..], id) {
          var k :| 0 <= k < |cs[1..]| && cs[1..][k].userId == id;
          assert cs[k + 1].userId == id;
        }
      }
      if cs[0].userId == id then rest
      else [cs[0]] + rest
  }

  /** Removing a user that was appended to a list without it gives the list back. */
  lemma {:induction false} WithoutAppended(cs: seq<Collaborator>, x: Collaborator)
    requires !HasEntryFor(cs, x.userId)
    ensures Without(cs + [x], x.userId) == cs
  {
    if |cs| == 0 {
      assert [x][1..] == [];
    } else {
      assert (cs + [x])[1..] == cs[1..] + [x];
      assert cs[0].userId != x.userId;
      WithoutAppended(cs[1..], x);
      assert cs == [cs[0]] + cs[1..];
    }
  }

  /**
   * DELETE /:id/collaborators/:collaboratorId: an owner or admin may remove
   * anyone, any user may remove themself.
   */
  function RemoveCollaborator(c: Collection, id: string, collaboratorId: string, userId: Option<string>,
                              now: int): Response<Doc>
  {
    match Find(c, id)
    case None => Response(Err(DocumentNotFound), c)
    case Some(i) =>
      if !HasAdminAccess(c[i], userId) && Some(collaboratorId) != userId then Response(Err(AdminRequired), c)
      else
        var d := c[i].(collaborators := Without(c[i].collaborators, collaboratorId), lastModified := now);
        if !ValidForSave(d) then Response(Err(RemoveFailed), c)
        else Response(Ok(d), Replace(c, i, d))
  }

  /**
   * A removal is allowed exactly to an admin or to the user removing
   * themself, and succeeds when the stored title passes the save's check;
   * it drops every entry of that user and keeps all others.
   */
  lemma RemoveDropsEveryEntry(c: Collection, id: string, collaboratorId: string, userId: Option<string>,
                              now: int)
    requires Find(c, id).Some?
    ensures var resp := RemoveCollaborator(c, id, collaboratorId, userId, now);
      var i := Find(c, id).value;
      && (!HasAdminAccess(c[i], userId) && userId != Some(collaboratorId) ==> resp == Response(Err(AdminRequired), c))
      && ((HasAdminAccess(c[i], userId) || userId == Some(collaboratorId)) && c[i].title == "" ==>
            resp == Response(Err(RemoveFailed), c))
      && (resp.result.Ok? <==> (HasAdminAccess(c[i], userId) || userId == Some(collaboratorId)) && c[i].title != "")
      && (resp.result.Err? ==> resp.docs == c)
      && (resp.result.Ok? ==>
            var d := resp.result.value;
            && resp.docs == c[i := d]
            && !HasEntryFor(d.collaborators, collaboratorId)
            && (forall x :: x in d.collaborators <==> x in c[i].collaborators && x.userId != collaboratorId)
            && d == c[i].(collaborators := d.collaborators, lastModified := now))
  {
  }

  /** An admin who adds a new account and then removes it gets the original collaborator list back. */
  lemma AddThenRemove(c: Collection, accounts: map<string, string>, id: string, email: string,
                      permission: Option<string>, userId: Option<string>, now: int, later: int)
    requires AddCollaborator(c, accounts, id, Some(email), permission, userId, now).result.Ok?
    ensures var i := Find(c, id).value;
      var c1 := AddCollaborator(c, accounts, id, Some(email), permission, userId, now).docs;
      var c2 := RemoveCollaborator(c1, id, accounts[Lower(email)], userId, later).docs;
      c2[i].collaborators == c[i].collaborators
  {
    var i := Find(c, id).value;
    var resp := AddCollaborator(c, accounts, id, Some(email), permission, userId, now);
    var d := resp.result.value;
    var newId := accounts[Lower(email)];
    FindReplace(c, i, d);
    var p := ParsePermission(permission).value;
    assert d.collaborators == c[i].collaborators + [Collaborator(newId, p)];
    WithoutAppended(c[i].collaborators, Collaborator(newId, p));
    AddTwiceRefused(c, accounts, id, email, permission, userId, now, later);
  }

  /**
   * The collection as the routes update it. Each write route loads the
   * document, changes its fields in place and saves it.
   */
  class DocumentCollection {
    var documents: Collection

    constructor (initial: Collection)
      ensures documents == initial
    {
      documents := initial;
    }

    method Create(newId: string, title: Option<string>, content: Option<string>, userId: Option<string>,
                  isPublic: Option<bool>, now: int) returns (r: Result<Doc, HttpError>)
      modifies this
      ensures Response(r, documents) == CreateDocument(old(documents), newId, title, content, userId, isPublic, now)
    {
      if Falsy(userId) {
        return Err(UserIdRequired);
      }
      if Find(documents, newId).Some? {
        return Err(CreateFailed);
      }
      var newDocument := Doc(newId, OrDefault(title, DefaultTitle), OrDefault(content, ""), userId, [],
                             isPublic == Some(true), now);
      documents := documents + [newDocument];
      r := Ok(newDocument);
    }

    method Update(id: string, title: Option<string>, isPublic: Option<bool>, userId: Option<string>, now: int)
      returns (r: Result<Doc, HttpError>)
      modifies this
      ensures Response(r, documents) == UpdateMetadata(old(documents), id, title, isPublic, userId, now)
    {
      var found := Find(documents, id);
      if found.None? {
        return Err(DocumentNotFound);
      }
      var i := found.value;
      var document := documents[i];
      if !HasAdminAccess(document, userId) {
        return Err(AdminRequired);
      }
      if title.Some? {
        document := document.(title := title.value);
      }
      if isPublic.Some? {
        document := document.(isPublic := isPublic.value);
      }
      document := document.(lastModified := now);
      if !ValidForSave(document) {
        return Err(UpdateFailed);
      }
      documents := documents[i := document];
      r := Ok(document);
    }

    method Delete(id: string, userId: Option<string>) returns (r: Result<string, HttpError>)
      modifies this
      ensures Response(r, documents) == DeleteDocument(old(documents), id, userId)
    {
      var found := Find(documents, id);
      if found.None? {
        return Err(DocumentNotFound);
      }
      var i := found.value;
      if documents[i].owner != userId {
        return Err(OwnerOnly);
      }
      documents := documents[..i] + documents[i + 1..];
      r := Ok(DeletedMessage);
    }

    method AddCollaboratorTo(accounts: map<string, string>, id: string, email: Option<string>,
                             permission: Option<string>, userId: Option<string>, now: int)
      returns (r: Result<Doc, HttpError>)
      modifies this
      ensures Response(r, documents) == AddCollaborator(old(documents), accounts, id, email, permission, userId, now)
    {
      var found := Find(documents, id);
      if found.None? {
        return Err(DocumentNotFound);
      }
      var i := found.value;
      var document := documents[i];
      if !HasAdminAccess(document, userId) {
        return Err(AdminRequired);
      }
      if email.None? {
        return Err(AddFailed);
      }
      var key := Lower(email.value);
      if key !in accounts {
        return Err(UserNotFound);
      }
      var collaboratorId := accounts[key];
      if HasEntryFor(document.collaborators, collaboratorId) {
        return Err(AlreadyCollaborator);
      }
      var p := ParsePermission(permission);
      if p.None? {
        return Err(AddFailed);
      }
      document := document.(collaborators := document.collaborators + [Collaborator(collaboratorId, p.value)]);
      document := document.(lastModified := now);
      if !ValidForSave(document) {
        return Err(AddFailed);
      }
      documents := documents[i := document];
      r := Ok(document);
    }

    method RemoveCollaboratorFrom(id: string, collaboratorId: string, userId: Option<string>, now: int)
      returns (r: Result<Doc, HttpError>)
      modifies this
      ensures Response(r, documents) == RemoveCollaborator(old(documents), id, collaboratorId, userId, now)
    {
      var found := Find(documents, id);
      if found.None? {
        return Err(DocumentNotFound);
      }
      var i := found.value;
      var document := documents[i];
      var isRemovingSelf := Some(collaboratorId) == userId;
      if !HasAdminAccess(document, userId) && !isRemovingSelf {
        return Err(AdminRequired);
      }
      document := document.(collaborators := Without(document.collaborators, collaboratorId));
      document := document.(lastModified := now);
      if !ValidForSave(document) {
        return Err(RemoveFailed);
      }
      documents := documents[i := document];
      r := Ok(document);
    }
  }
}
