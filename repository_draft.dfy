/** The repository-backed draft controller of the `rest_service` package:
    unauthenticated CRUD over the three tables, with the owner passed as a
    request parameter or inside the JSON body. */
module RepositoryDraft {
  import opened Wrappers
  import opened Text
  import opened Entities
  import Seqs

  /** A nested `{"id": …}` object of a JSON body. */
  datatype Ref = Ref(id: Option<Id>)

  datatype CategoryBody = CategoryBody(name: Option<string>, description: Option<string>, user: Option<Ref>)

  datatype TransactionBody = TransactionBody(
    description: Option<string>,
    amount: Option<real>,
    txType: Option<string>,
    date: Option<string>,
    category: Option<Ref>,
    user: Option<Ref>)

  datatype UserBody = UserBody(name: string, email: string, password: string)

  /** A saved transaction of this draft: it may have been saved without a category. */
  datatype DraftTransaction = DraftTransaction(
    id: Id,
    description: Option<string>,
    amount: Option<real>,
    txType: Option<string>,
    date: Option<string>,
    categoryId: Option<Id>,
    userId: Id)

  /** `requireUserId`: 400 for a missing user or a user without an id. */
  function RequireUserId(u: Option<Ref>): (r: Outcome)
    ensures r.Pass? <==> u.Some? && u.value.id.Some?
    ensures r.Fail? ==> r.status == BadRequest
  {
    if u.None? || u.value.id.None? then Fail(BadRequest) else Pass
  }

  /** `requireCategoryId`: 400 only for a category that is present but has
      no id; a missing category passes. */
  function RequireCategoryId(c: Option<Ref>): (r: Outcome)
    ensures r.Pass? <==> c.None? || c.value.id.Some?
    ensures r.Fail? ==> r.status == BadRequest
  {
    if c.Some? && c.value.id.None? then Fail(BadRequest) else Pass
  }

  /** The two guards treat a missing reference differently. */
  lemma GuardsAreAsymmetric()
    ensures RequireCategoryId(None) == Pass
    ensures RequireUserId(None) == Fail(BadRequest)
    ensures RequireCategoryId(Some(Ref(None))) == RequireUserId(Some(Ref(None))) == Fail(BadRequest)
  {
  }

  /** `GET /categories[?userId=]`: the whole table without a user, the
      user's rows in table order with one. */
  function GetCategories(cats: seq<Category>, userId: Option<Id>): (r: seq<Category>)
    ensures userId.None? ==> r == cats
    ensures userId.Some? ==> forall c :: c in r <==> c in cats && c.owner == userId.value
  {
    if userId.None? then cats else Seqs.Filter(cats, (c: Category) => c.owner == userId.value)
  }

  /** `GET /transactions[?userId=]`. */
  function GetTransactions(txs: seq<DraftTransaction>, userId: Option<Id>): (r: seq<DraftTransaction>)
    ensures userId.None? ==> r == txs
    ensures userId.Some? ==> forall t :: t in r <==> t in txs && t.userId == userId.value
  {
    if userId.None? then txs else Seqs.Filter(txs, (t: DraftTransaction) => t.userId == userId.value)
  }

  /** `GET /users[?id=]` answers either the whole list or an `Optional`. */
  datatype UsersAnswer = AllUsers(users: seq<User>) | OneUser(user: Option<User>)

  function GetUsers(users: seq<User>, id: Option<Id>): (r: UsersAnswer)
    ensures id.None? ==> r == AllUsers(users)
    ensures id.Some? ==> r.OneUser?
    ensures id.Some? && r.user.Some? ==> r.user.value in users && r.user.value.id == id.value
    ensures id.Some? && r.user.None? ==> forall u :: u in users ==> u.id != id.value
  {
    if id.None? then AllUsers(users) else OneUser(Seqs.FindFirst(users, (u: User) => u.id == id.value))
  }

  /** The tables after `deleteByUserId` on both repositories. */
  function TransactionsNotOf(txs: seq<DraftTransaction>, userId: Id): (r: seq<DraftTransaction>)
    ensures forall t :: t in r <==> t in txs && t.userId != userId
  {
    Seqs.Filter(txs, (t: DraftTransaction) => t.userId != userId)
  }

  function CategoriesNotOf(cats: seq<Category>, userId: Id): (r: seq<Category>)
    ensures forall c :: c in r <==> c in cats && c.owner != userId
  {
    Seqs.Filter(cats, (c: Category) => c.owner != userId)
  }

  /** Deleting by user and then listing that user finds nothing, while the
      listing of any other user is what it was. */
  lemma DeleteByUserLeavesOthers(cats: seq<Category>, txs: seq<DraftTransaction>, userId: Id, other: Id)
    requires other != userId
    ensures GetCategories(CategoriesNotOf(cats, userId), Some(userId)) == []
    ensures GetTransactions(TransactionsNotOf(txs, userId), Some(userId)) == []
    ensures GetCategories(CategoriesNotOf(cats, userId), Some(other)) == GetCategories(cats, Some(other))
    ensures GetTransactions(TransactionsNotOf(txs, userId), Some(other)) == GetTransactions(txs, Some(other))
  {
    FilterTwice(cats, (c: Category) => c.owner != userId, (c: Category) => c.owner == other);
    FilterTwice(txs, (t: DraftTransaction) => t.userId != userId, (t: DraftTransaction) => t.userId == other);
  }

  /** A filter whose rows all pass a first filter sees the same rows after it. */
  lemma {:induction false} FilterTwice<T(!new)>(s: seq<T>, p: T -> bool, q: T -> bool)
    requires forall x :: q(x) ==> p(x)
    ensures Seqs.Filter(Seqs.Filter(s, p), q) == Seqs.Filter(s, q)
  {
    if s != [] {
      FilterTwice(s[1..], p, q);
    }
  }

  /** User ids are positive, below the generator and unique, and no two
      users share an email ignoring case. */
  predicate UsersValid(users: seq<User>, nextUserId: Id) {
    && (forall u :: u in users ==> 0 < u.id < nextUserId)
    && (forall u, v :: u in users && v in users && u.id == v.id ==> u == v)
    && (forall u, v :: u in users && v in users && EqualsIgnoreCase(u.email, v.email) ==> u == v)
  }

  /** Appending a user with the next id and an email no user has, ignoring
      case, keeps the users valid. */
  lemma AddUserKeepsValid(users: seq<User>, nextUserId: Id, u: User)
    requires UsersValid(users, nextUserId) && 0 < nextUserId && u.id == nextUserId
    requires forall i :: 0 <= i < |users| ==> !EqualsIgnoreCase(users[i].email, u.email)
    ensures UsersValid(users + [u], nextUserId + 1)
  {
    forall v | v in users
      ensures !EqualsIgnoreCase(v.email, u.email) && !EqualsIgnoreCase(u.email, v.email)
    {
      var k :| 0 <= k < |users| && users[k] == v;
    }
  }

  class RepositoryController {
    var categories: seq<Category>
    var transactions: seq<DraftTransaction>
    var users: seq<User>
    var nextCategoryId: Id
    var nextTransactionId: Id
    var nextUserId: Id

    /** Keys are positive, below their generator, and unique; no two users
        share an email ignoring case. */
    ghost predicate Valid()
      reads this
    {
      && 0 < nextCategoryId && 0 < nextTransactionId && 0 < nextUserId
      && (forall c :: c in categories ==> 0 < c.id < nextCategoryId)
      && (forall c, d :: c in categories && d in categories && c.id == d.id ==> c == d)
      && (forall t :: t in transactions ==> 0 < t.id < nextTransactionId)
      && (forall t, u :: t in transactions && u in transactions && t.id == u.id ==> t == u)
      && UsersValid(users, nextUserId)
    }

    constructor ()
      ensures Valid()
      ensures categories == [] && transactions == [] && users == []
    {
      categories, transactions, users := [], [], [];
      nextCategoryId, nextTransactionId, nextUserId := 1, 1, 1;
    }

    /** `POST /categories`: 400 without an owner id, otherwise a new row. */
    method CreateCategory(body: CategoryBody) returns (r: Result<Category>)
      requires Valid()
      modifies this
      ensures Valid()
      ensures RequireUserId(body.user).Fail? ==>
        r == Err(BadRequest) && categories == old(categories) && nextCategoryId == old(nextCategoryId)
      ensures RequireUserId(body.user).Pass? ==>
        && r == Ok(Category(old(nextCategoryId), body.name, body.description, body.user.value.id.value))
        && categories == old(categories) + [r.value]
        && nextCategoryId == old(nextCategoryId) + 1
      ensures transactions == old(transactions) && users == old(users)
      ensures nextTransactionId == old(nextTransactionId) && nextUserId == old(nextUserId)
    {
      var guard := RequireUserId(body.user);
      if guard.Fail? {
        return Err(guard.status);
      }
      var c := Category(nextCategoryId, body.name, body.description, body.user.value.id.value);
      categories := categories + [c];
      nextCategoryId := nextCategoryId + 1;
      r := Ok(c);
    }

    /** `POST /transactions`: the category check first, then the user check,
        then a new row. */
    method CreateTransaction(body: TransactionBody) returns (r: Result<DraftTransaction>)
      requires Valid()
      modifies this
      ensures Valid()
      ensures RequireCategoryId(body.category).Fail? || RequireUserId(body.user).Fail? ==>
        r == Err(BadRequest) && transactions == old(transactions) && nextTransactionId == old(nextTransactionId)
      ensures RequireCategoryId(body.category).Pass? && RequireUserId(body.user).Pass? ==>
        && r.Ok?
        && r.value == DraftTransaction(old(nextTransactionId), body.description, body.amount, body.txType, body.date,
                                       if body.category.Some? then body.category.value.id else None,
                                       body.user.value.id.value)
        && transactions == old(transactions) + [r.value]
        && nextTransactionId == old(nextTransactionId) + 1
      ensures categories == old(categories) && users == old(users)
      ensures nextCategoryId == old(nextCategoryId) && nextUserId == old(nextUserId)
    {
      var catGuard := RequireCategoryId(body.category);
      if catGuard.Fail? {
        return Err(catGuard.status);
      }
      var userGuard := RequireUserId(body.user);
      if userGuard.Fail? {
        return Err(userGuard.status);
      }
      var categoryId := if body.category.Some? then body.category.value.id else None;
      var t := DraftTransaction(nextTransactionId, body.description, body.amount, body.txType, body.date,
                                categoryId, body.user.value.id.value);
      transactions := transactions + [t];
      nextTransactionId := nextTransactionId + 1;
      r := Ok(t);
    }

    /** `POST /users`: 409 when the email is taken ignoring case. */
    method CreateUser(body: UserBody) returns (r: Result<User>)
      requires Valid()
      modifies this
      ensures Valid()
      ensures (exists u :: u in old(users) && EqualsIgnoreCase(u.email, body.email)) ==>
        r == Err(Conflict) && users == old(users) && nextUserId == old(nextUserId)
      ensures (forall u :: u in old(users) ==> !EqualsIgnoreCase(u.email, body.email)) ==>
        && r == Ok(User(old(nextUserId), body.name, body.email, body.password))
        && users == old(users) + [r.value]
        && nextUserId == old(nextUserId) + 1
      ensures categories == old(categories) && transactions == old(transactions)
      ensures nextCategoryId == old(nextCategoryId) && nextTransactionId == old(nextTransactionId)
    {
      var taken := Seqs.FindFirst(users, (u: User) => EqualsIgnoreCase(u.email, body.email));
      if taken.Some? {
        return Err(Conflict);
      }
      var u := User(nextUserId, body.name, body.email, body.password);
      AddUserKeepsValid(users, nextUserId, u);
      users := users + [u];
      nextUserId := nextUserId + 1;
      r := Ok(u);
    }

    /** `DELETE /categories?userId=`: the user's transactions first, then the
        user's categories. */
    method DeleteCategoriesByUser(userId: Id)
      requires Valid()
      modifies this
      ensures Valid()
      ensures transactions == TransactionsNotOf(old(transactions), userId)
      ensures categories == CategoriesNotOf(old(categories), userId)
      ensures users == old(users)
      ensures nextCategoryId == old(nextCategoryId) && nextTransactionId == old(nextTransactionId)
        && nextUserId == old(nextUserId)
    {
      transactions := TransactionsNotOf(transactions, userId);
      categories := CategoriesNotOf(categories, userId);
    }

    /** `DELETE /transactions?userId=`. */
    method DeleteTransactionsByUser(userId: Id)
      requires Valid()
      modifies this
      ensures Valid()
      ensures transactions == TransactionsNotOf(old(transactions), userId)
      ensures categories == old(categories) && users == old(users)
      ensures nextCategoryId == old(nextCategoryId) && nextTransactionId == old(nextTransactionId)
        && nextUserId == old(nextUserId)
    {
      transactions := TransactionsNotOf(transactions, userId);
    }

    /** `DELETE /categories/{id}`: 404 for a missing key, otherwise exactly that row goes. */
    method DeleteCategory(id: Id) returns (r: Outcome)
      requires Valid()
      modifies this
      ensures Valid()
      ensures (forall c :: c in old(categories) ==> c.id != id) ==>
        r == Fail(NotFound) && categories == old(categories)
      ensures (exists c :: c in old(categories) && c.id == id) ==>
        r == Pass && categories == Seqs.Filter(old(categories), (c: Category) => c.id != id)
      ensures transactions == old(transactions) && users == old(users)
      ensures nextCategoryId == old(nextCategoryId) && nextTransactionId == old(nextTransactionId)
        && nextUserId == old(nextUserId)
    {
      var found := Seqs.FindFirst(categories, (c: Category) => c.id == id);
      if found.None? {
        return Fail(NotFound);
      }
      categories := Seqs.Filter(categories, (c: Category) => c.id != id);
      r := Pass;
    }

    /** `DELETE /transactions/{id}`. */
    method DeleteTransaction(id: Id) returns (r: Outcome)
      requires Valid()
      modifies this
      ensures Valid()
      ensures (forall t :: t in old(transactions) ==> t.id != id) ==>
        r == Fail(NotFound) && transactions == old(transactions)
      ensures (exists t :: t in old(transactions) && t.id == id) ==>
        r == Pass && transactions == Seqs.Filter(old(transactions), (t: DraftTransaction) => t.id != id)
      ensures categories == old(categories) && users == old(users)
      ensures nextCategoryId == old(nextCategoryId) && nextTransactionId == old(nextTransactionId)
        && nextUserId == old(nextUserId)
    {
      var found := Seqs.FindFirst(transactions, (t: DraftTransaction) => t.id == id);
      if found.None? {
        return Fail(NotFound);
      }
      transactions := Seqs.Filter(transactions, (t: DraftTransaction) => t.id != id);
      r := Pass;
    }
  }

  /** Two categories created one after the other for owners with ids get
      consecutive keys, and the second is appended after the first. */
  method CreateTwoCategories(m: RepositoryController, a: CategoryBody, b: CategoryBody)
    returns (ra: Result<Category>, rb: Result<Category>)
    requires m.Valid()
    requires RequireUserId(a.user).Pass? && RequireUserId(b.user).Pass?
    modifies m
    ensures m.Valid()
    ensures ra.Ok? && rb.Ok?
    ensures ra.value.id == old(m.nextCategoryId) && rb.value.id == old(m.nextCategoryId) + 1
    ensures m.categories == old(m.categories) + [ra.value, rb.value]
  {
    ra := m.CreateCategory(a);
    rb := m.CreateCategory(b);
  }
}
