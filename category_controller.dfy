/** `CategoryController` (`/categories`): the caller's categories, creation
    stamped with the session user, and the owner-checked delete. */
module CategoryController {
  import opened Wrappers
  import opened Dates
  import opened Entities
  import opened Sessions
  import opened Store

  /** The JSON body of `POST /categories` as Jackson binds it onto the
      entity: the client may send an `id`. A `user` in the body is
      overwritten by the handler, so it is not modelled. */
  datatype CategoryBody = CategoryBody(id: Option<Id>, name: Option<string>, description: Option<string>)

  /** `GET /categories`: exactly the caller's categories, in table order. */
  function Get(sessionUserId: Option<Id>, cats: seq<Category>): (r: Result<seq<Category>>)
    ensures sessionUserId.None? ==> r == Err(Unauthorized)
    ensures sessionUserId.Some? ==> r.Ok?
    ensures r.Ok? ==> forall c :: c in r.value <==> c in cats && c.owner == sessionUserId.value
  {
    var userId :- RequireUserId(sessionUserId);
    Ok(FindCategoriesByUserId(cats, userId))
  }

  /** The category table after `create` with the evident intent: the body
      is always saved as a new row owned by the caller. */
  function CreateTable(cats: seq<Category>, next: Id, body: CategoryBody, userId: Id): seq<Category> {
    cats + [Category(next, body.name, body.description, userId)]
  }

  /** Creating a category never changes who owns an existing one, so the
      ownership invariant survives. */
  lemma CreateKeepsOwnership(cats: seq<Category>, txs: seq<Transaction>, next: Id, body: CategoryBody, userId: Id)
    requires OwnersAgree(cats, txs, next)
    ensures OwnersAgree(CreateTable(cats, next, body, userId), txs, next + 1)
    ensures forall c :: c in cats ==> c in CreateTable(cats, next, body, userId)
  {
  }

  /** The category table after `create` as written: `repo.save` merges a
      body whose `id` names an existing row into that row, owner included. */
  function CreateAsWrittenTable(cats: seq<Category>, next: Id, body: CategoryBody, userId: Id): (r: seq<Category>)
    ensures body.id.Some? && (exists c :: c in cats && c.id == body.id.value) ==>
      r == ReplaceCategory(cats, Category(body.id.value, body.name, body.description, userId))
    ensures body.id.None? || (forall c :: c in cats ==> c.id != body.id.value) ==>
      r == CreateTable(cats, next, body, userId)
  {
    if body.id.Some? && FindCategoryById(cats, body.id.value).Some? then
      ReplaceCategory(cats, Category(body.id.value, body.name, body.description, userId))
    else
      CreateTable(cats, next, body, userId)
  }

  /** As written, a body carrying the key of another user's category hands
      that category to the caller. */
  lemma CreateAsWrittenTakesOver(cats: seq<Category>, next: Id, body: CategoryBody, userId: Id)
    requires body.id.Some? && exists c :: c in cats && c.id == body.id.value
    ensures forall c :: c in CreateAsWrittenTable(cats, next, body, userId) && c.id == body.id.value ==>
      c.owner == userId
    ensures forall c :: c in cats && c.id == body.id.value && c.owner != userId ==>
      c !in CreateAsWrittenTable(cats, next, body, userId)
  {
    var r := CreateAsWrittenTable(cats, next, body, userId);
    forall c | c in r && c.id == body.id.value
      ensures c.owner == userId
    {
      var i :| 0 <= i < |r| && r[i] == c;
    }
  }

  /** User 2 owns category 1 and has booked an expense on it; user 1 posts
      `{"id": 1, "name": "Mine"}`. As written the category now belongs to
      user 1 while the expense still belongs to user 2; with the intended
      insert nothing of user 2 changes. */
  lemma CreateAsWrittenBreaksOwnership()
    ensures var cats := [Category(1, Some("Miete"), None, 2)];
      var txs := [Transaction(1, None, Some(500.0), Some(Expense), Some(Date(2025, 1, 1)), 1, 2)];
      var body := CategoryBody(Some(1), Some("Mine"), None);
      && OwnersAgree(cats, txs, 2)
      && !OwnersAgree(CreateAsWrittenTable(cats, 2, body, 1), txs, 2)
      && FindCategoriesByUserId(CreateAsWrittenTable(cats, 2, body, 1), 2) == []
      && OwnersAgree(CreateTable(cats, 2, body, 1), txs, 3)
  {
    var cats := [Category(1, Some("Miete"), None, 2)];
    var txs := [Transaction(1, None, Some(500.0), Some(Expense), Some(Date(2025, 1, 1)), 1, 2)];
    var body := CategoryBody(Some(1), Some("Mine"), None);
    var r := CreateAsWrittenTable(cats, 2, body, 1);
    assert r == [Category(1, Some("Mine"), None, 1)];
    assert r[0] in r && txs[0] in txs;
  }

  /** `POST /categories` with the evident intent: the guard, then a new row
      owned by the caller. */
  method Create(db: Database, session: Session, body: CategoryBody) returns (r: Result<Category>)
    requires db.Valid()
    modifies db
    ensures db.Valid()
    ensures session.userId.None? ==> r == Err(Unauthorized) && db.categories == old(db.categories)
                                     && db.nextCategoryId == old(db.nextCategoryId)
    ensures session.userId.Some? ==>
      && r == Ok(Category(old(db.nextCategoryId), body.name, body.description, session.userId.value))
      && db.categories == CreateTable(old(db.categories), old(db.nextCategoryId), body, session.userId.value)
      && db.nextCategoryId == old(db.nextCategoryId) + 1
    ensures db.users == old(db.users) && db.transactions == old(db.transactions)
    ensures db.nextUserId == old(db.nextUserId) && db.nextTransactionId == old(db.nextTransactionId)
    ensures old(db.OwnershipConsistent()) ==> db.OwnershipConsistent()
  {
    var guard := RequireUserId(session.userId);
    if guard.Err? {
      return Err(guard.status);
    }
    var c := db.InsertCategory(body.name, body.description, guard.value);
    r := Ok(c);
  }

  /** `POST /categories` as written: `save` inserts a body without a key (or
      with a key no row has) and merges one whose key exists. */
  method CreateAsWritten(db: Database, session: Session, body: CategoryBody) returns (r: Result<Category>)
    requires db.Valid()
    modifies db
    ensures db.Valid()
    ensures session.userId.None? ==> r == Err(Unauthorized) && db.categories == old(db.categories)
                                     && db.nextCategoryId == old(db.nextCategoryId)
    ensures session.userId.Some? ==>
      db.categories == CreateAsWrittenTable(old(db.categories), old(db.nextCategoryId), body, session.userId.value)
    ensures session.userId.Some? && body.id.Some? && (exists c :: c in old(db.categories) && c.id == body.id.value) ==>
      && r == Ok(Category(body.id.value, body.name, body.description, session.userId.value))
      && db.nextCategoryId == old(db.nextCategoryId)
    ensures session.userId.Some? && (body.id.None? || forall c :: c in old(db.categories) ==> c.id != body.id.value) ==>
      && r == Ok(Category(old(db.nextCategoryId), body.name, body.description, session.userId.value))
      && db.nextCategoryId == old(db.nextCategoryId) + 1
    ensures r.Ok? ==> r.value in db.categories && r.value.owner == session.userId.value
    ensures db.users == old(db.users) && db.transactions == old(db.transactions)
    ensures db.nextUserId == old(db.nextUserId) && db.nextTransactionId == old(db.nextTransactionId)
  {
    var guard := RequireUserId(session.userId);
    if guard.Err? {
      return Err(guard.status);
    }
    if body.id.Some? && FindCategoryById(db.categories, body.id.value).Some? {
      var c := Category(body.id.value, body.name, body.description, guard.value);
      db.MergeCategory(c);
      ghost var i :| 0 <= i < |old(db.categories)| && old(db.categories)[i].id == c.id;
      assert db.categories[i] == c;
      r := Ok(c);
    } else {
      var c := db.InsertCategory(body.name, body.description, guard.value);
      r := Ok(c);
    }
  }

  /** The category table after `delete(id)` by `userId`. */
  function AfterDeleteCategory(cats: seq<Category>, id: Id, userId: Id): seq<Category> {
    var found := FindCategoryById(cats, id);
    if found.Some? && found.value.owner == userId then WithoutCategory(cats, id) else cats
  }

  /** Deleting one's own category removes that row and keeps every other. */
  lemma DeleteOwnedCategory(cats: seq<Category>, c: Category, userId: Id)
    requires UniqueCategoryKeys(cats)
    requires c in cats && c.owner == userId
    ensures c !in AfterDeleteCategory(cats, c.id, userId)
    ensures forall d :: d in cats && d != c ==> d in AfterDeleteCategory(cats, c.id, userId)
  {
  }

  /** Deleting a missing or foreign category changes nothing and raises nothing. */
  lemma DeleteForeignCategory(cats: seq<Category>, id: Id, userId: Id)
    requires forall c :: c in cats && c.id == id ==> c.owner != userId
    ensures AfterDeleteCategory(cats, id, userId) == cats
  {
  }

  /** `DELETE /categories/{id}`. */
  method Delete(db: Database, session: Session, id: Id) returns (r: Outcome)
    requires db.Valid()
    modifies db
    ensures db.Valid()
    ensures session.userId.None? ==> r == Fail(Unauthorized) && db.categories == old(db.categories)
    ensures session.userId.Some? ==> r == Pass
    ensures session.userId.Some? ==>
      db.categories == AfterDeleteCategory(old(db.categories), id, session.userId.value)
    ensures db.nextCategoryId == old(db.nextCategoryId)
    ensures db.users == old(db.users) && db.transactions == old(db.transactions)
    ensures db.nextUserId == old(db.nextUserId) && db.nextTransactionId == old(db.nextTransactionId)
    ensures old(db.OwnershipConsistent()) ==> db.OwnershipConsistent()
  {
    var guard := RequireUserId(session.userId);
    if guard.Err? {
      return Fail(guard.status);
    }
    var found := FindCategoryById(db.categories, id);
    if found.Some? && found.value.owner == guard.value {
      db.DeleteCategory(found.value.id);
    }
    r := Pass;
  }
}
