/** The request body of `POST /transactions` and its bean-validation
    constraints (`@NotBlank`, `@Positive`, `@NotNull`). `@Valid` answers any
    violation with 400 Bad Request before the handler runs. */
module Dto {
  import opened Wrappers
  import opened Text
  import opened Dates
  import opened Entities

  /** Every component may be missing from the JSON body, hence null. */
  datatype TransactionDto = TransactionDto(
    description: Option<string>,
    amount: Option<real>,
    txType: Option<string>,
    categoryId: Option<Id>,
    date: Option<Date>)

  /** `@Positive`: null passes; a present amount must be strictly positive. */
  predicate PositiveOrNull(amount: Option<real>) {
    amount.None? || amount.value > 0.0
  }

  /** The record's constraints; `date` carries none. */
  predicate ConstraintsHold(d: TransactionDto) {
    && NotBlank(d.description)
    && PositiveOrNull(d.amount)
    && NotBlank(d.txType)
    && d.categoryId.Some?
  }

  /** What `@Valid` does with the body: pass it on, or reject it with 400. */
  function Validate(d: TransactionDto): (r: Outcome)
    ensures r.Pass? <==> ConstraintsHold(d)
    ensures r.Fail? ==> r.status == BadRequest
  {
    if ConstraintsHold(d) then Pass else Fail(BadRequest)
  }

  /** A missing description, or one that `trim()` empties (only characters
      up to U+0020), is rejected. */
  lemma BlankDescriptionRejected(d: TransactionDto)
    requires d.description.None? || forall i :: 0 <= i < |d.description.value| ==> d.description.value[i] <= ' '
    ensures Validate(d) == Fail(BadRequest)
  {
    if d.description.Some? {
      TrimEmptyIff(d.description.value);
    }
  }

  /** A present amount that is zero or negative is rejected. */
  lemma NonPositiveAmountRejected(d: TransactionDto)
    requires d.amount.Some? && d.amount.value <= 0.0
    ensures Validate(d) == Fail(BadRequest)
  {
  }

  /** A missing type string, or one that `trim()` empties, is rejected. */
  lemma BlankTypeRejected(d: TransactionDto)
    requires d.txType.None? || forall i :: 0 <= i < |d.txType.value| ==> d.txType.value[i] <= ' '
    ensures Validate(d) == Fail(BadRequest)
  {
    if d.txType.Some? {
      TrimEmptyIff(d.txType.value);
    }
  }

  /** A body passes exactly when both strings hold a character above U+0020,
      the amount is null or positive, and the category id is present. */
  lemma ValidateIff(d: TransactionDto)
    ensures Validate(d).Pass? <==>
      && d.description.Some? && (exists i :: 0 <= i < |d.description.value| && d.description.value[i] > ' ')
      && PositiveOrNull(d.amount)
      && d.txType.Some? && (exists i :: 0 <= i < |d.txType.value| && d.txType.value[i] > ' ')
      && d.categoryId.Some?
  {
    if d.description.Some? {
      TrimEmptyIff(d.description.value);
    }
    if d.txType.Some? {
      TrimEmptyIff(d.txType.value);
    }
  }

  /** A description made of a control character alone (BEL) is blank to
      `trim()`, although `Character.isWhitespace` does not count it. */
  lemma ControlCharacterDescriptionRejected()
    ensures Validate(TransactionDto(Some([7 as char]), Some(1.0), Some("INCOME"), Some(1), None)) == Fail(BadRequest)
  {
    TrimEmptyIff([7 as char]);
  }

  /** A null category id is rejected. */
  lemma MissingCategoryRejected(d: TransactionDto)
    requires d.categoryId.None?
    ensures Validate(d) == Fail(BadRequest)
  {
  }

  /** The date, present or not, has no bearing on validity. */
  lemma DateUnconstrained(d: TransactionDto, date: Option<Date>)
    ensures ConstraintsHold(d) <==> ConstraintsHold(d.(date := date))
  {
  }

  /** The integration test's body `{"description": "Fail", "amount": -100,
      "type": "EXPENSE", "categoryId": 1}` is rejected. */
  lemma NegativeAmountExample()
    ensures Validate(TransactionDto(Some("Fail"), Some(-100.0), Some("EXPENSE"), Some(1), None)) == Fail(BadRequest)
  {
  }
}
