/** `TransactionService`: the listing and the null-safe summary on top of the
    repository queries, transaction creation against an owned category, and
    the owner-checked delete. */
module TransactionService {
  import opened Wrappers
  import opened Text
  import opened Dates
  import opened Entities
  import opened Store
  import opened TransactionRepository
  import opened Dto

  /** `getFilteredTransactions` hands back the repository's listing unchanged. */
  function GetFilteredTransactions(txs: seq<Transaction>, q: Query): (r: seq<Transaction>)
    ensures r == FindAllByFilter(txs, q)
  {
    FindAllByFilter(txs, q)
  }

  /** The map `{totalIncome, totalExpense, balance}`. */
  datatype Summary = Summary(totalIncome: real, totalExpense: real, balance: real)

  /** `getFinancialSummary`: a NULL sum reads as 0, so the totals are those of
      the listed rows and the balance is income minus expense. */
  function GetFinancialSummary(txs: seq<Transaction>, q: Query): (r: Summary)
    ensures r.totalIncome == TypeTotal(FindAllByFilter(txs, q), Income)
    ensures r.totalExpense == TypeTotal(FindAllByFilter(txs, q), Expense)
    ensures r.balance == r.totalIncome - r.totalExpense
  {
    var res := CalculateFinancialSummary(txs, q);
    var inc := res.inc.GetOr(0.0);
    var exp := res.exp.GetOr(0.0);
    var m := Matching(txs, q);
    SumCaseMeaning(m, Income);
    SumCaseMeaning(m, Expense);
    TypeTotalPermutation(m, FindAllByFilter(txs, q), Income);
    TypeTotalPermutation(m, FindAllByFilter(txs, q), Expense);
    Summary(inc, exp, inc - exp)
  }

  /** With no matching row all three figures are 0. */
  lemma SummaryOfNothingIsZero(txs: seq<Transaction>, q: Query)
    requires forall t :: t in txs ==> !Matches(q, t)
    ensures GetFinancialSummary(txs, q) == Summary(0.0, 0.0, 0.0)
  {
    SummaryOfNothingIsNull(txs, q);
  }

  /** The integration test's figures: an income of 1000 and an expense of 200
      give a balance of 800. */
  lemma SummaryExample(c: Id, u: Id)
    ensures var txs := [
        Transaction(1, None, Some(1000.0), Some(Income), Some(Date(2025, 1, 1)), c, u),
        Transaction(2, None, Some(200.0), Some(Expense), Some(Date(2025, 1, 2)), c, u)];
      GetFinancialSummary(txs, Query(u, None, None, None)) == Summary(1000.0, 200.0, 800.0)
  {
    var txs := [
        Transaction(1, None, Some(1000.0), Some(Income), Some(Date(2025, 1, 1)), c, u),
        Transaction(2, None, Some(200.0), Some(Expense), Some(Date(2025, 1, 2)), c, u)];
    var q := Query(u, None, None, None);
    assert Matching(txs, q) == txs;
    assert txs[1..][1..] == [];
    assert SumCase(txs[1..], Income) == Some(0.0);
    assert SumCase(txs[1..], Expense) == Some(200.0);
    assert SumCase(txs, Income) == Some(1000.0);
    assert SumCase(txs, Expense) == Some(200.0);
  }

  /** `TransactionType.valueOf(type.toUpperCase())`, with the
      IllegalArgumentException as None. */
  function ParseTxType(s: string): (r: Option<TxType>)
    ensures forall ty :: r == Some(ty) <==> EqualsIgnoreCase(s, TxTypeName(ty))
  {
    assert Upper("INCOME") == "INCOME" && Upper("EXPENSE") == "EXPENSE";
    var u := Upper(s);
    if u == "INCOME" then Some(Income)
    else if u == "EXPENSE" then Some(Expense)
    else None
  }

  /** Each constant's name is read back as that constant, whatever its case. */
  lemma ParseTxTypeNames(ty: TxType, s: string)
    requires Upper(s) == TxTypeName(ty)
    ensures ParseTxType(s) == Some(ty)
    ensures ParseTxType(TxTypeName(ty)) == Some(ty)
  {
    UpperIdempotent(s);
  }

  /** The category a request may book against: `findById` filtered on the
      owner, or NotFound. */
  function OwnedCategory(cats: seq<Category>, catId: Id, userId: Id): (r: Result<Category>)
    ensures r.Ok? ==> r.value in cats && r.value.id == catId && r.value.owner == userId
    ensures r.Err? ==> r.status == NotFound
    ensures UniqueCategoryKeys(cats) ==>
      (r.Err? <==> forall c :: c in cats && c.id == catId ==> c.owner != userId)
  {
    var found := FindCategoryById(cats, catId);
    if found.Some? && found.value.owner == userId then Ok(found.value) else Err(NotFound)
  }

  /** What `createTransaction` saves, given the table of categories and the
      key the store will generate: NotFound before the type is looked at,
      BadRequest for an unknown type, and otherwise a row stamped with the
      session user, the owned category and the given date or today. */
  function NewTransaction(cats: seq<Category>, userId: Id, req: TransactionDto, today: Date, newId: Id): (r: Result<Transaction>)
    requires req.categoryId.Some? && req.txType.Some?
    ensures OwnedCategory(cats, req.categoryId.value, userId).Err? ==> r == Err(NotFound)
    ensures OwnedCategory(cats, req.categoryId.value, userId).Ok? && ParseTxType(req.txType.value).None? ==> r == Err(BadRequest)
    ensures OwnedCategory(cats, req.categoryId.value, userId).Ok? && ParseTxType(req.txType.value).Some? ==> r.Ok?
    ensures r.Ok? ==>
      && r.value.id == newId
      && r.value.userId == userId
      && (exists c :: c in cats && c.id == r.value.categoryId && c.owner == userId)
      && r.value.categoryId == req.categoryId.value
      && r.value.description == req.description
      && r.value.amount == req.amount
      && r.value.txType == ParseTxType(req.txType.value)
      && r.value.date == Some(req.date.GetOr(today))
  {
    var cat :- OwnedCategory(cats, req.categoryId.value, userId);
    var ty := ParseTxType(req.txType.value);
    if ty.None? then Err(BadRequest)
    else Ok(Transaction(newId, req.description, req.amount, ty, Some(req.date.GetOr(today)), cat.id, userId))
  }

  /** `createTransaction`: nothing is saved unless the whole request is accepted. */
  method CreateTransaction(db: Database, userId: Id, req: TransactionDto, today: Date) returns (r: Result<Transaction>)
    requires db.Valid()
    requires req.categoryId.Some? && req.txType.Some?
    modifies db
    ensures db.Valid()
    ensures r == NewTransaction(old(db.categories), userId, req, today, old(db.nextTransactionId))
    ensures r.Ok? ==> db.transactions == old(db.transactions) + [r.value]
                      && db.nextTransactionId == old(db.nextTransactionId) + 1
    ensures r.Err? ==> db.transactions == old(db.transactions)
                       && db.nextTransactionId == old(db.nextTransactionId)
    ensures db.users == old(db.users) && db.categories == old(db.categories)
    ensures db.nextUserId == old(db.nextUserId) && db.nextCategoryId == old(db.nextCategoryId)
    ensures old(db.OwnershipConsistent()) ==> db.OwnershipConsistent()
  {
    var found := FindCategoryById(db.categories, req.categoryId.value);
    if found.None? || found.value.owner != userId {
      return Err(NotFound);
    }
    var cat := found.value;
    var ty := ParseTxType(req.txType.value);
    if ty.None? {
      return Err(BadRequest);
    }
    var date := if req.date.Some? then req.date.value else today;
    var t := db.InsertTransaction(req.description, req.amount, ty, Some(date), cat.id, userId);
    r := Ok(t);
  }

  /** The transaction table after `deleteTransactionSafe(id, userId)`. */
  function AfterDeleteTransaction(txs: seq<Transaction>, id: Id, userId: Id): seq<Transaction> {
    var found := FindTransactionById(txs, id);
    if found.Some? && found.value.userId == userId then WithoutTransaction(txs, id) else txs
  }

  /** Deleting one's own transaction removes that row and keeps every other. */
  lemma DeleteOwnedTransaction(txs: seq<Transaction>, t: Transaction, userId: Id)
    requires UniqueTransactionKeys(txs)
    requires t in txs && t.userId == userId
    ensures t !in AfterDeleteTransaction(txs, t.id, userId)
    ensures forall u :: u in txs && u != t ==> u in AfterDeleteTransaction(txs, t.id, userId)
  {
  }

  /** Deleting a missing or foreign transaction changes nothing and raises nothing. */
  lemma DeleteForeignTransaction(txs: seq<Transaction>, id: Id, userId: Id)
    requires forall t :: t in txs && t.id == id ==> t.userId != userId
    ensures AfterDeleteTransaction(txs, id, userId) == txs
  {
  }

  /** `deleteTransactionSafe`. */
  method DeleteTransactionSafe(db: Database, id: Id, userId: Id)
    requires db.Valid()
    modifies db
    ensures db.Valid()
    ensures db.transactions == AfterDeleteTransaction(old(db.transactions), id, userId)
    ensures db.nextTransactionId == old(db.nextTransactionId)
    ensures db.users == old(db.users) && db.categories == old(db.categories)
    ensures db.nextUserId == old(db.nextUserId) && db.nextCategoryId == old(db.nextCategoryId)
    ensures old(db.OwnershipConsistent()) ==> db.OwnershipConsistent()
  {
    var found := FindTransactionById(db.transactions, id);
    if found.Some? && found.value.userId == userId {
      db.DeleteTransaction(found.value.id);
    }
  }
}
