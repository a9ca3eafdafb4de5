/** The relational store behind the Spring Data repositories of the
    `financemaster` backend: three tables and their identity generators, the
    derived queries (`findById`, `findByUserId`, `findByEmailIgnoreCase`) as
    functions on table contents, and `save`/`delete` as methods. Table order
    is insertion order. */
module Store {
  import opened Wrappers
  import opened Text
  import opened Entities
  import Seqs

  /** The primary key identifies the row. */
  predicate UniqueUserKeys(users: seq<User>) {
    forall u, v :: u in users && v in users && u.id == v.id ==> u == v
  }

  predicate UniqueCategoryKeys(cats: seq<Category>) {
    forall c, d :: c in cats && d in cats && c.id == d.id ==> c == d
  }

  predicate UniqueTransactionKeys(txs: seq<Transaction>) {
    forall t, u :: t in txs && u in txs && t.id == u.id ==> t == u
  }

  /** Primary keys are positive, below the identity generator, and unique. */
  predicate UserKeys(users: seq<User>, next: Id) {
    0 < next && (forall u :: u in users ==> 0 < u.id < next) && UniqueUserKeys(users)
  }

  predicate CategoryKeys(cats: seq<Category>, next: Id) {
    0 < next && (forall c :: c in cats ==> 0 < c.id < next) && UniqueCategoryKeys(cats)
  }

  predicate TransactionKeys(txs: seq<Transaction>, next: Id) {
    0 < next && (forall t :: t in txs ==> 0 < t.id < next) && UniqueTransactionKeys(txs)
  }

  /** The ownership invariant the services keep: every transaction names a
      category key that has been generated, and while that category exists
      it belongs to the transaction's user. */
  predicate OwnersAgree(cats: seq<Category>, txs: seq<Transaction>, nextCategoryId: Id) {
    && (forall t :: t in txs ==> t.categoryId < nextCategoryId)
    && (forall t, c :: t in txs && c in cats && c.id == t.categoryId ==> c.owner == t.userId)
  }

  /** `UserRepository.findById`. */
  function FindUserById(users: seq<User>, id: Id): (r: Option<User>)
    ensures r.Some? ==> r.value in users && r.value.id == id
    ensures r.None? <==> forall u :: u in users ==> u.id != id
  {
    Seqs.FindFirst(users, (u: User) => u.id == id)
  }

  /** `UserRepository.findByEmailIgnoreCase`: the user whose email equals
      `email` ignoring case. */
  function FindByEmailIgnoreCase(users: seq<User>, email: string): (r: Option<User>)
    ensures r.Some? ==> r.value in users && EqualsIgnoreCase(r.value.email, email)
    ensures r.None? <==> forall u :: u in users ==> !EqualsIgnoreCase(u.email, email)
  {
    Seqs.FindFirst(users, (u: User) => EqualsIgnoreCase(u.email, email))
  }

  /** `CategoryRepository.findById`. */
  function FindCategoryById(cats: seq<Category>, id: Id): (r: Option<Category>)
    ensures r.Some? ==> r.value in cats && r.value.id == id
    ensures r.None? <==> forall c :: c in cats ==> c.id != id
  {
    Seqs.FindFirst(cats, (c: Category) => c.id == id)
  }

  /** `CategoryRepository.findByUserId`: the user's categories in table order. */
  function FindCategoriesByUserId(cats: seq<Category>, userId: Id): (r: seq<Category>)
    ensures forall c :: c in r <==> c in cats && c.owner == userId
  {
    Seqs.Filter(cats, (c: Category) => c.owner == userId)
  }

  /** `TransactionRepository.findById`. */
  function FindTransactionById(txs: seq<Transaction>, id: Id): (r: Option<Transaction>)
    ensures r.Some? ==> r.value in txs && r.value.id == id
    ensures r.None? <==> forall t :: t in txs ==> t.id != id
  {
    Seqs.FindFirst(txs, (t: Transaction) => t.id == id)
  }

  /** The category table after deleting the row with key `id`. */
  function WithoutCategory(cats: seq<Category>, id: Id): (r: seq<Category>)
    ensures forall c :: c in r <==> c in cats && c.id != id
  {
    Seqs.Filter(cats, (c: Category) => c.id != id)
  }

  /** The transaction table after deleting the row with key `id`. */
  function WithoutTransaction(txs: seq<Transaction>, id: Id): (r: seq<Transaction>)
    ensures forall t :: t in r <==> t in txs && t.id != id
  {
    Seqs.Filter(txs, (t: Transaction) => t.id != id)
  }

  /** The category table after `save` merged `c` into the row with the same key. */
  function ReplaceCategory(cats: seq<Category>, c: Category): (r: seq<Category>)
    ensures |r| == |cats|
    ensures forall i :: 0 <= i < |r| ==> r[i] == if cats[i].id == c.id then c else cats[i]
  {
    seq(|cats|, i requires 0 <= i < |cats| => if cats[i].id == c.id then c else cats[i])
  }

  /** A merge into an existing key keeps the keys valid. */
  lemma ReplaceKeepsKeys(cats: seq<Category>, c: Category, next: Id)
    requires CategoryKeys(cats, next)
    requires exists d :: d in cats && d.id == c.id
    ensures CategoryKeys(ReplaceCategory(cats, c), next)
  {
    var r := ReplaceCategory(cats, c);
    forall e | e in r
      ensures e == c || e in cats
    {
      var i :| 0 <= i < |r| && r[i] == e;
      assert e == c || e == cats[i];
    }
    forall d, e | d in r && e in r && d.id == e.id
      ensures d == e
    {
      var i :| 0 <= i < |r| && r[i] == d;
      var j :| 0 <= j < |r| && r[j] == e;
      assert cats[i].id == cats[j].id by {
        if d == c || e == c {
          assert cats[i].id == c.id && cats[j].id == c.id;
        }
      }
    }
  }

  class Database {
    var users: seq<User>
    var categories: seq<Category>
    var transactions: seq<Transaction>
    var nextUserId: Id
    var nextCategoryId: Id
    var nextTransactionId: Id

    ghost predicate Valid()
      reads this
    {
      UserKeys(users, nextUserId) && CategoryKeys(categories, nextCategoryId)
      && TransactionKeys(transactions, nextTransactionId)
    }

    ghost predicate OwnershipConsistent()
      reads this
    {
      OwnersAgree(categories, transactions, nextCategoryId)
    }

    /** An empty schema whose identity generators start at 1. */
    constructor ()
      ensures Valid()
      ensures users == [] && categories == [] && transactions == []
      ensures nextUserId == 1 && nextCategoryId == 1 && nextTransactionId == 1
    {
      users, categories, transactions := [], [], [];
      nextUserId, nextCategoryId, nextTransactionId := 1, 1, 1;
    }

    /** `save` of a new user: the row gets the next generated key. */
    method InsertUser(name: string, email: string, password: string) returns (u: User)
      requires Valid()
      modifies this
      ensures Valid()
      ensures u == User(old(nextUserId), name, email, password)
      ensures users == old(users) + [u] && nextUserId == old(nextUserId) + 1
      ensures categories == old(categories) && nextCategoryId == old(nextCategoryId)
      ensures transactions == old(transactions) && nextTransactionId == old(nextTransactionId)
    {
      u := User(nextUserId, name, email, password);
      users := users + [u];
      nextUserId := nextUserId + 1;
    }

    /** `save` of a category that has no key yet. */
    method InsertCategory(name: Option<string>, description: Option<string>, owner: Id) returns (c: Category)
      requires Valid()
      modifies this
      ensures Valid()
      ensures c == Category(old(nextCategoryId), name, description, owner)
      ensures categories == old(categories) + [c] && nextCategoryId == old(nextCategoryId) + 1
      ensures users == old(users) && nextUserId == old(nextUserId)
      ensures transactions == old(transactions) && nextTransactionId == old(nextTransactionId)
    {
      c := Category(nextCategoryId, name, description, owner);
      categories := categories + [c];
      nextCategoryId := nextCategoryId + 1;
    }

    /** `save` of a category whose key is already in the table: a merge that
        overwrites every column of that row. */
    method MergeCategory(c: Category)
      requires Valid()
      requires exists d :: d in categories && d.id == c.id
      modifies this
      ensures Valid()
      ensures categories == ReplaceCategory(old(categories), c)
      ensures nextCategoryId == old(nextCategoryId)
      ensures users == old(users) && nextUserId == old(nextUserId)
      ensures transactions == old(transactions) && nextTransactionId == old(nextTransactionId)
    {
      ReplaceKeepsKeys(categories, c, nextCategoryId);
      categories := ReplaceCategory(categories, c);
    }

    /** `save` of a new transaction. */
    method InsertTransaction(description: Option<string>, amount: Option<real>, txType: Option<TxType>,
                             date: Option<Dates.Date>, categoryId: Id, userId: Id) returns (t: Transaction)
      requires Valid()
      modifies this
      ensures Valid()
      ensures t == Transaction(old(nextTransactionId), description, amount, txType, date, categoryId, userId)
      ensures transactions == old(transactions) + [t] && nextTransactionId == old(nextTransactionId) + 1
      ensures users == old(users) && nextUserId == old(nextUserId)
      ensures categories == old(categories) && nextCategoryId == old(nextCategoryId)
    {
      t := Transaction(nextTransactionId, description, amount, txType, date, categoryId, userId);
      transactions := transactions + [t];
      nextTransactionId := nextTransactionId + 1;
    }

    /** `delete` of the category row with key `id`. */
    method DeleteCategory(id: Id)
      requires Valid()
      modifies this
      ensures Valid()
      ensures categories == WithoutCategory(old(categories), id)
      ensures nextCategoryId == old(nextCategoryId)
      ensures users == old(users) && nextUserId == old(nextUserId)
      ensures transactions == old(transactions) && nextTransactionId == old(nextTransactionId)
    {
      categories := WithoutCategory(categories, id);
    }

    /** `delete` of the transaction row with key `id`. */
    method DeleteTransaction(id: Id)
      requires Valid()
      modifies this
      ensures Valid()
      ensures transactions == WithoutTransaction(old(transactions), id)
      ensures nextTransactionId == old(nextTransactionId)
      ensures users == old(users) && nextUserId == old(nextUserId)
      ensures categories == old(categories) && nextCategoryId == old(nextCategoryId)
    {
      transactions := WithoutTransaction(transactions, id);
    }
  }
}
