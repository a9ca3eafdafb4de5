/** `TransactionController` (`/transactions`): every handler runs the
    session guard; the listing and the summary parse their optional date
    parameters; creation is validated before the guard runs. */
module TransactionController {
  import opened Wrappers
  import opened Text
  import opened Dates
  import opened Entities
  import opened Sessions
  import opened Store
  import opened TransactionRepository
  import opened Dto
  import opened TransactionService

  /** `parseDate`: a missing or blank parameter is no bound, a well-formed
      ISO date is that date, anything else is answered with 400. */
  function ParseDate(s: Option<string>): (r: Result<Option<Date>>)
    ensures s.None? || IsBlank(s.value) ==> r == Ok(None)
    ensures s.Some? && !IsBlank(s.value) ==>
      (r.Ok? <==> exists d :: IsValid(d) && Format(d) == s.value)
    ensures r.Ok? && r.value.Some? ==> IsValid(r.value.value) && Format(r.value.value) == s.value
    ensures r.Err? ==> r.status == BadRequest
  {
    if s.None? || IsBlank(s.value) then Ok(None)
    else
      var p := Parse(s.value);
      if p.None? then
        assert forall d :: IsValid(d) ==> Format(d) != s.value by {
          forall d | IsValid(d) ensures Format(d) != s.value {
            ParseFormat(d);
          }
        }
        Err(BadRequest)
      else
        FormatParse(s.value);
        Ok(Some(p.value))
  }

  /** A date is read back from its own ISO form. */
  lemma ParseDateFormatted(d: Date)
    requires IsValid(d)
    ensures ParseDate(Some(Format(d))) == Ok(Some(d))
  {
    ParseFormat(d);
    assert !IsWhitespace(Format(d)[4]);
  }

  /** `GET /transactions`: the guard, then `from`, then `to`, then the listing. */
  function Get(sessionUserId: Option<Id>, txs: seq<Transaction>, categoryId: Option<Id>,
               from: Option<string>, to: Option<string>): (r: Result<seq<Transaction>>)
    ensures sessionUserId.None? ==> r == Err(Unauthorized)
    ensures sessionUserId.Some? && ParseDate(from).Err? ==> r == Err(BadRequest)
    ensures sessionUserId.Some? && ParseDate(to).Err? ==> r == Err(BadRequest)
    ensures r.Ok? <==> sessionUserId.Some? && ParseDate(from).Ok? && ParseDate(to).Ok?
    ensures r.Ok? ==> r.value == GetFilteredTransactions(txs, Query(sessionUserId.value, categoryId,
                                                                    ParseDate(from).value, ParseDate(to).value))
    ensures r.Ok? ==> forall t :: t in r.value ==> t in txs && t.userId == sessionUserId.value
  {
    var userId :- RequireUserId(sessionUserId);
    var fromDate :- ParseDate(from);
    var toDate :- ParseDate(to);
    Ok(GetFilteredTransactions(txs, Query(userId, categoryId, fromDate, toDate)))
  }

  /** `GET /transactions/summary/balance`: the same guard and parameters as
      the listing, answered with the summary of exactly the listed rows. */
  function GetSummary(sessionUserId: Option<Id>, txs: seq<Transaction>, categoryId: Option<Id>,
                      from: Option<string>, to: Option<string>): (r: Result<Summary>)
    ensures sessionUserId.None? ==> r == Err(Unauthorized)
    ensures sessionUserId.Some? && ParseDate(from).Err? ==> r == Err(BadRequest)
    ensures sessionUserId.Some? && ParseDate(to).Err? ==> r == Err(BadRequest)
    ensures r.Ok? <==> sessionUserId.Some? && ParseDate(from).Ok? && ParseDate(to).Ok?
    ensures r.Ok? ==> r.value == GetFinancialSummary(txs, Query(sessionUserId.value, categoryId,
                                                                ParseDate(from).value, ParseDate(to).value))
  {
    var userId :- RequireUserId(sessionUserId);
    var fromDate :- ParseDate(from);
    var toDate :- ParseDate(to);
    Ok(GetFinancialSummary(txs, Query(userId, categoryId, fromDate, toDate)))
  }

  /** The dashboard's figures agree with the listing the same request returns. */
  lemma SummaryAgreesWithListing(sessionUserId: Option<Id>, txs: seq<Transaction>, categoryId: Option<Id>,
                                 from: Option<string>, to: Option<string>)
    requires Get(sessionUserId, txs, categoryId, from, to).Ok?
    ensures GetSummary(sessionUserId, txs, categoryId, from, to).Ok?
    ensures var listed := Get(sessionUserId, txs, categoryId, from, to).value;
      var s := GetSummary(sessionUserId, txs, categoryId, from, to).value;
      s.totalIncome == TypeTotal(listed, Income) && s.totalExpense == TypeTotal(listed, Expense)
  {
  }

  /** Blank `from`/`to` parameters behave exactly like omitted ones. */
  lemma BlankParametersAreAbsent(sessionUserId: Option<Id>, txs: seq<Transaction>, categoryId: Option<Id>,
                                 from: string, to: string)
    requires IsBlank(from) && IsBlank(to)
    ensures Get(sessionUserId, txs, categoryId, Some(from), Some(to)) == Get(sessionUserId, txs, categoryId, None, None)
    ensures GetSummary(sessionUserId, txs, categoryId, Some(from), Some(to)) == GetSummary(sessionUserId, txs, categoryId, None, None)
  {
  }

  /** A malformed date is rejected only for a logged-in caller; without a
      session the guard answers first. */
  lemma GuardBeforeDateParsing(txs: seq<Transaction>, categoryId: Option<Id>, from: Option<string>, to: Option<string>)
    ensures Get(None, txs, categoryId, from, to) == Err(Unauthorized)
    ensures GetSummary(None, txs, categoryId, from, to) == Err(Unauthorized)
  {
  }

  /** `POST /transactions`: a body that breaks a constraint is answered with
      400 before the session is looked at; then the guard; then the service. */
  method Create(db: Database, session: Session, req: TransactionDto, today: Date) returns (r: Result<Transaction>)
    requires db.Valid()
    modifies db
    ensures db.Valid()
    ensures !ConstraintsHold(req) ==> r == Err(BadRequest)
    ensures ConstraintsHold(req) && session.userId.None? ==> r == Err(Unauthorized)
    ensures ConstraintsHold(req) && session.userId.Some? ==>
      r == NewTransaction(old(db.categories), session.userId.value, req, today, old(db.nextTransactionId))
    ensures r.Ok? ==> db.transactions == old(db.transactions) + [r.value]
                      && db.nextTransactionId == old(db.nextTransactionId) + 1
    ensures r.Err? ==> db.transactions == old(db.transactions)
                       && db.nextTransactionId == old(db.nextTransactionId)
    ensures db.users == old(db.users) && db.categories == old(db.categories)
    ensures db.nextUserId == old(db.nextUserId) && db.nextCategoryId == old(db.nextCategoryId)
    ensures old(db.OwnershipConsistent()) ==> db.OwnershipConsistent()
  {
    var valid := Validate(req);
    if valid.Fail? {
      return Err(valid.status);
    }
    var guard := RequireUserId(session.userId);
    if guard.Err? {
      return Err(guard.status);
    }
    r := CreateTransaction(db, guard.value, req, today);
  }

  /** `DELETE /transactions/{id}`: the guard, then the owner-checked delete. */
  method Delete(db: Database, session: Session, id: Id) returns (r: Outcome)
    requires db.Valid()
    modifies db
    ensures db.Valid()
    ensures session.userId.None? ==> r == Fail(Unauthorized) && db.transactions == old(db.transactions)
    ensures session.userId.Some? ==> r == Pass
    ensures session.userId.Some? ==>
      db.transactions == AfterDeleteTransaction(old(db.transactions), id, session.userId.value)
    ensures db.nextTransactionId == old(db.nextTransactionId)
    ensures db.users == old(db.users) && db.categories == old(db.categories)
    ensures db.nextUserId == old(db.nextUserId) && db.nextCategoryId == old(db.nextCategoryId)
    ensures old(db.OwnershipConsistent()) ==> db.OwnershipConsistent()
  {
    var guard := RequireUserId(session.userId);
    if guard.Err? {
      return Fail(guard.status);
    }
    DeleteTransactionSafe(db, id, guard.value);
    r := Pass;
  }
}
