/** The rows of the `financemaster` backend's three tables. Columns the
    database may hold as NULL (test fixtures save rows without a date, a type
    or a description) are `Option`s; the owning references are plain ids. */
module Entities {
  import opened Wrappers
  import opened Dates

  /** A primary key (`Long`). */
  type Id = int

  datatype TxType = Income | Expense

  /** `password` holds the encoder's hash, never the plaintext. */
  datatype User = User(id: Id, name: string, email: string, password: string)

  datatype Category = Category(id: Id, name: Option<string>, description: Option<string>, owner: Id)

  datatype Transaction = Transaction(
    id: Id,
    description: Option<string>,
    amount: Option<real>,
    txType: Option<TxType>,
    date: Option<Date>,
    categoryId: Id,
    userId: Id)

  /** The name `TransactionType.valueOf` accepts for each constant. */
  function TxTypeName(t: TxType): string {
    match t
    case Income => "INCOME"
    case Expense => "EXPENSE"
  }
}
