/** The in-memory draft controller of the `rest_service` package: three
    lists seeded by the constructor, and three counters from which every
    `create*` takes the next id before appending the body. */
module InMemoryDraft {
  import opened Wrappers

  /** The draft's own row classes. Rows may lack an id: the seeded
      transactions and the placeholder user never get one. */
  datatype MemCategory = MemCategory(id: Option<int>, name: Option<string>, description: Option<string>)

  datatype MemTransaction = MemTransaction(
    id: Option<int>,
    txType: Option<string>,
    amount: Option<real>,
    description: Option<string>,
    date: Option<string>,
    category: Option<MemCategory>)

  datatype MemUser = MemUser(id: Option<int>, name: Option<string>, email: Option<string>)

  /** The ids that are set are strictly increasing along the list and below
      the counter. */
  predicate IncreasingBelow(ids: seq<Option<int>>, next: int) {
    && (forall i, j :: 0 <= i < j < |ids| && ids[i].Some? && ids[j].Some? ==> ids[i].value < ids[j].value)
    && (forall i :: 0 <= i < |ids| && ids[i].Some? ==> ids[i].value < next)
  }

  /** Appending the counter's value and advancing the counter keeps the ids
      increasing and below the counter. */
  lemma AppendKeepsIncreasing(ids: seq<Option<int>>, next: int)
    requires IncreasingBelow(ids, next)
    ensures IncreasingBelow(ids + [Some(next)], next + 1)
  {
  }

  /** The ids of the rows, in order, read through `id`. */
  function Ids<T>(rows: seq<T>, id: T -> Option<int>): (r: seq<Option<int>>)
    ensures |r| == |rows| && forall i :: 0 <= i < |rows| ==> r[i] == id(rows[i])
  {
    seq(|rows|, i requires 0 <= i < |rows| => id(rows[i]))
  }

  function CategoryId(c: MemCategory): Option<int> { c.id }
  function TransactionId(t: MemTransaction): Option<int> { t.id }
  function UserId(u: MemUser): Option<int> { u.id }

  /** The constructor's loop `for (Category c : categories) c.setId(i++)`
      starting from `first`: the k-th row gets `first + k`, and the counter
      ends one past the last id given out. */
  method AssignIds(cs: seq<MemCategory>, first: int) returns (r: seq<MemCategory>, next: int)
    ensures |r| == |cs| && next == first + |cs|
    ensures forall k :: 0 <= k < |cs| ==> r[k] == cs[k].(id := Some(first + k))
  {
    r, next := [], first;
    var k := 0;
    while k < |cs|
      invariant 0 <= k <= |cs| && |r| == k && next == first + k
      invariant forall j :: 0 <= j < k ==> r[j] == cs[j].(id := Some(first + j))
    {
      r := r + [cs[k].(id := Some(next))];
      next := next + 1;
      k := k + 1;
    }
  }

  const Gehalt := MemCategory(Some(1), Some("Gehalt"), Some("Monatliches Einkommen"))
  const Lebensmittel := MemCategory(Some(2), Some("Lebensmittel"), Some("Wöchentliche Einkäufe"))

  class InMemoryController {
    var categories: seq<MemCategory>
    var transactions: seq<MemTransaction>
    var users: seq<MemUser>
    var catId: int
    var txId: int
    var userId: int

    ghost predicate Valid()
      reads this
    {
      && IncreasingBelow(Ids(categories, CategoryId), catId)
      && IncreasingBelow(Ids(transactions, TransactionId), txId)
      && IncreasingBelow(Ids(users, UserId), userId)
    }

    /** The seed: two categories numbered 1 and 2 by the loop, two
        transactions without ids, one empty user, and the counters at 3, 3
        and 1. */
    constructor ()
      ensures Valid()
      ensures categories == [Gehalt, Lebensmittel] && catId == 3
      ensures transactions == [
        MemTransaction(None, Some("expense"), Some(34.90), Some("Wocheneinkauf"), Some("2025-11-01"), Some(Lebensmittel)),
        MemTransaction(None, Some("income"), Some(1500.00), Some("November Gehalt"), Some("2025-11-03"), Some(Gehalt))]
      ensures txId == 3
      ensures users == [MemUser(None, None, None)] && userId == 1
    {
      var seeded, i := AssignIds([
        MemCategory(None, Some("Gehalt"), Some("Monatliches Einkommen")),
        MemCategory(None, Some("Lebensmittel"), Some("Wöchentliche Einkäufe"))], 1);
      categories := seeded;
      catId := i;
      transactions := [
        MemTransaction(None, Some("expense"), Some(34.90), Some("Wocheneinkauf"), Some("2025-11-01"), Some(seeded[1])),
        MemTransaction(None, Some("income"), Some(1500.00), Some("November Gehalt"), Some("2025-11-03"), Some(seeded[0]))];
      txId := 3;
      users := [MemUser(None, None, None)];
      userId := 1;
    }

    /** `GET /categories`: the list as stored, in insertion order. */
    method GetCategories() returns (r: seq<MemCategory>)
      ensures r == categories
    {
      r := categories;
    }

    /** `GET /transactions`. */
    method GetTransactions() returns (r: seq<MemTransaction>)
      ensures r == transactions
    {
      r := transactions;
    }

    /** `GET /users`. */
    method GetUsers() returns (r: seq<MemUser>)
      ensures r == users
    {
      r := users;
    }

    /** `POST /categories`: the body gets the counter's value as its id and is
        appended; nothing else changes. */
    method CreateCategory(c: MemCategory) returns (r: MemCategory)
      requires Valid()
      modifies this
      ensures Valid()
      ensures r == c.(id := Some(old(catId)))
      ensures categories == old(categories) + [r] && catId == old(catId) + 1
      ensures transactions == old(transactions) && users == old(users)
      ensures txId == old(txId) && userId == old(userId)
    {
      r := c.(id := Some(catId));
      AppendKeepsIncreasing(Ids(categories, CategoryId), catId);
      assert Ids(categories + [r], CategoryId) == Ids(categories, CategoryId) + [Some(catId)];
      categories := categories + [r];
      catId := catId + 1;
    }

    /** `POST /transactions`. */
    method CreateTransaction(t: MemTransaction) returns (r: MemTransaction)
      requires Valid()
      modifies this
      ensures Valid()
      ensures r == t.(id := Some(old(txId)))
      ensures transactions == old(transactions) + [r] && txId == old(txId) + 1
      ensures categories == old(categories) && users == old(users)
      ensures catId == old(catId) && userId == old(userId)
    {
      r := t.(id := Some(txId));
      AppendKeepsIncreasing(Ids(transactions, TransactionId), txId);
      assert Ids(transactions + [r], TransactionId) == Ids(transactions, TransactionId) + [Some(txId)];
      transactions := transactions + [r];
      txId := txId + 1;
    }

    /** `POST /users`. */
    method CreateUser(u: MemUser) returns (r: MemUser)
      requires Valid()
      modifies this
      ensures Valid()
      ensures r == u.(id := Some(old(userId)))
      ensures users == old(users) + [r] && userId == old(userId) + 1
      ensures categories == old(categories) && transactions == old(transactions)
      ensures catId == old(catId) && txId == old(txId)
    {
      r := u.(id := Some(userId));
      AppendKeepsIncreasing(Ids(users, UserId), userId);
      assert Ids(users + [r], UserId) == Ids(users, UserId) + [Some(userId)];
      users := users + [r];
      userId := userId + 1;
    }
  }

  /** Two categories created one after the other get consecutive ids, and
      the second is appended after the first. */
  method CreateTwoCategories(m: InMemoryController, a: MemCategory, b: MemCategory)
    returns (ra: MemCategory, rb: MemCategory)
    requires m.Valid()
    modifies m
    ensures m.Valid()
    ensures ra.id == Some(old(m.catId)) && rb.id == Some(old(m.catId) + 1)
    ensures m.categories == old(m.categories) + [ra, rb]
  {
    ra := m.CreateCategory(a);
    rb := m.CreateCategory(b);
  }
}
