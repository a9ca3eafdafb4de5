/** The two JPQL queries of `TransactionRepository`: the filtered listing
    `findAllByFilter` (WHERE clause plus `ORDER BY t.date DESC`) and the
    conditional sums of `calculateFinancialSummary` over the same WHERE clause. */
module TransactionRepository {
  import opened Wrappers
  import opened Dates
  import opened Entities
  import Seqs

  /** The query parameters: the required owner and three optional filters. */
  datatype Query = Query(userId: Id, catId: Option<Id>, from: Option<Date>, to: Option<Date>)

  /** The WHERE clause. An absent parameter (`:p IS NULL`) disables its
      conjunct; a row whose date is NULL fails every active date bound, since
      the comparison is unknown in SQL. */
  predicate Matches(q: Query, t: Transaction) {
    && t.userId == q.userId
    && (q.catId.None? || t.categoryId == q.catId.value)
    && (q.from.None? || (t.date.Some? && Le(q.from.value, t.date.value)))
    && (q.to.None? || (t.date.Some? && Le(t.date.value, q.to.value)))
  }

  /** The rows the WHERE clause selects, in table order. */
  function Matching(txs: seq<Transaction>, q: Query): (r: seq<Transaction>)
    ensures forall t :: multiset(r)[t] == if Matches(q, t) then multiset(txs)[t] else 0
  {
    Seqs.Filter(txs, (t: Transaction) => Matches(q, t))
  }

  /** Order of `ORDER BY t.date DESC`: a row dated `a` may come before a row
      dated `b`. NULL dates count as the lowest value and so come last. */
  predicate NewerOrSame(a: Option<Date>, b: Option<Date>) {
    b.None? || (a.Some? && Le(b.value, a.value))
  }

  predicate NewestFirst(s: seq<Transaction>) {
    forall i, j :: 0 <= i < j < |s| ==> NewerOrSame(s[i].date, s[j].date)
  }

  function InsertNewestFirst(t: Transaction, s: seq<Transaction>): (r: seq<Transaction>)
    requires NewestFirst(s)
    ensures NewestFirst(r)
    ensures multiset(r) == multiset(s) + multiset{t}
  {
    if s == [] then [t]
    else if NewerOrSame(t.date, s[0].date) then
      ConsNewestFirst(t, s);
      [t] + s
    else
      assert s == [s[0]] + s[1..];
      var rest := InsertNewestFirst(t, s[1..]);
      HeadPrecedesInsertion(t, s, rest);
      ConsNewestFirst(s[0], rest);
      [s[0]] + rest
  }

  /** A row newer than or as new as the head of a sorted list may go in front. */
  lemma ConsNewestFirst(x: Transaction, s: seq<Transaction>)
    requires NewestFirst(s)
    requires s == [] || NewerOrSame(x.date, s[0].date)
    ensures NewestFirst([x] + s)
  {
    if s != [] {
      forall j | 0 <= j < |s|
        ensures NewerOrSame(x.date, s[j].date)
      {
        NewerOrSameTransitive(x.date, s[0].date, s[j].date);
      }
    }
    var r := [x] + s;
    forall i, j | 0 <= i < j < |r|
      ensures NewerOrSame(r[i].date, r[j].date)
    {
      if i > 0 {
        assert r[i] == s[i - 1] && r[j] == s[j - 1];
      } else {
        assert r[j] == s[j - 1];
      }
    }
  }

  lemma NewerOrSameTransitive(a: Option<Date>, b: Option<Date>, c: Option<Date>)
    requires NewerOrSame(a, b) && NewerOrSame(b, c)
    ensures NewerOrSame(a, c)
  {
    if c.Some? {
      LeTotalOrder(c.value, b.value, a.value);
    }
  }

  /** When `t` goes after the head of `s`, the head precedes every row of the insertion. */
  lemma HeadPrecedesInsertion(t: Transaction, s: seq<Transaction>, rest: seq<Transaction>)
    requires NewestFirst(s) && s != [] && !NewerOrSame(t.date, s[0].date)
    requires multiset(rest) == multiset(s[1..]) + multiset{t}
    ensures forall j :: 0 <= j < |rest| ==> NewerOrSame(s[0].date, rest[j].date)
  {
    forall j | 0 <= j < |rest|
      ensures NewerOrSame(s[0].date, rest[j].date)
    {
      assert rest[j] in multiset(rest);
      if rest[j] == t {
        if t.date.Some? {
          LeTotalOrder(s[0].date.value, t.date.value, t.date.value);
        }
      } else {
        assert rest[j] in multiset(s[1..]);
        var k :| 0 <= k < |s[1..]| && s[1..][k] == rest[j];
        assert s[k + 1] == rest[j];
      }
    }
  }

  /** A stable sort on date, newest first; rows with equal dates keep their table order. */
  function SortNewestFirst(s: seq<Transaction>): (r: seq<Transaction>)
    ensures NewestFirst(r)
    ensures multiset(r) == multiset(s)
  {
    if s == [] then []
    else
      assert s == [s[0]] + s[1..];
      InsertNewestFirst(s[0], SortNewestFirst(s[1..]))
  }

  /** `findAllByFilter`: exactly the matching rows, each as often as the table
      holds it, newest first. */
  function FindAllByFilter(txs: seq<Transaction>, q: Query): (r: seq<Transaction>)
    ensures NewestFirst(r)
    ensures forall t :: multiset(r)[t] == if Matches(q, t) then multiset(txs)[t] else 0
    ensures forall t :: t in r <==> t in txs && Matches(q, t)
  {
    var r := SortNewestFirst(Matching(txs, q));
    assert forall t :: t in r <==> t in multiset(r);
    r
  }

  /** Only the given user's rows are listed. */
  lemma ListingIsOwnedByUser(txs: seq<Transaction>, q: Query)
    ensures forall t :: t in FindAllByFilter(txs, q) ==> t in txs && t.userId == q.userId
  {
  }

  /** Without optional filters the listing holds every row of the user. */
  lemma AbsentFiltersImposeNothing(txs: seq<Transaction>, userId: Id)
    ensures forall t :: t in FindAllByFilter(txs, Query(userId, None, None, None)) <==> t in txs && t.userId == userId
  {
  }

  /** A category filter narrows the listing to the rows of that category. */
  lemma CategoryFilterNarrows(txs: seq<Transaction>, q: Query, catId: Id)
    ensures forall t :: t in FindAllByFilter(txs, q.(catId := Some(catId))) <==>
      t in FindAllByFilter(txs, q.(catId := None)) && t.categoryId == catId
  {
  }

  /** `from` is an inclusive lower bound that dated rows must meet. */
  lemma FromBoundInclusive(txs: seq<Transaction>, q: Query, from: Date)
    ensures forall t :: t in FindAllByFilter(txs, q.(from := Some(from))) <==>
      t in FindAllByFilter(txs, q.(from := None)) && t.date.Some? && Le(from, t.date.value)
  {
  }

  /** `to` is an inclusive upper bound that dated rows must meet. */
  lemma ToBoundInclusive(txs: seq<Transaction>, q: Query, to: Date)
    ensures forall t :: t in FindAllByFilter(txs, q.(to := Some(to))) <==>
      t in FindAllByFilter(txs, q.(to := None)) && t.date.Some? && Le(t.date.value, to)
  {
  }

  /** The range `[d, d]` lists exactly the user's rows dated `d`. */
  lemma SingleDayRange(txs: seq<Transaction>, userId: Id, d: Date)
    ensures forall t :: t in FindAllByFilter(txs, Query(userId, None, Some(d), Some(d))) <==>
      t in txs && t.userId == userId && t.date == Some(d)
  {
    forall t: Transaction | t.date.Some? && Le(d, t.date.value) && Le(t.date.value, d)
      ensures t.date == Some(d)
    {
      LeTotalOrder(d, t.date.value, d);
    }
  }

  /** A January range over a January row and a February row lists only the
      January row. */
  lemma DateRangeExample(c1: Id, c2: Id, u: Id)
    ensures var jan := Transaction(1, None, Some(100.0), Some(Expense), Some(Date(2025, 1, 1)), c1, u);
      var feb := Transaction(2, None, Some(100.0), Some(Expense), Some(Date(2025, 2, 1)), c2, u);
      FindAllByFilter([jan, feb], Query(u, None, Some(Date(2025, 1, 1)), Some(Date(2025, 1, 31)))) == [jan]
  {
    var jan := Transaction(1, None, Some(100.0), Some(Expense), Some(Date(2025, 1, 1)), c1, u);
    var feb := Transaction(2, None, Some(100.0), Some(Expense), Some(Date(2025, 2, 1)), c2, u);
    var q := Query(u, None, Some(Date(2025, 1, 1)), Some(Date(2025, 1, 31)));
    assert Matching([jan, feb], q) == [jan] by {
      assert [jan, feb][1..] == [feb];
    }
  }

  /** The result of `calculateFinancialSummary`: the `inc` and `exp` columns,
      each NULL when SQL `SUM` saw no non-NULL value. */
  datatype RawSummary = RawSummary(inc: Option<real>, exp: Option<real>)

  /** `CASE WHEN t.type = ty THEN t.amount ELSE 0 END`: a NULL type is not equal to `ty`. */
  function CaseAmount(t: Transaction, ty: TxType): Option<real> {
    if t.txType == Some(ty) then t.amount else Some(0.0)
  }

  /** SQL addition inside `SUM`: NULL values are skipped. */
  function AddNullable(a: Option<real>, b: Option<real>): Option<real> {
    match (a, b)
    case (None, _) => b
    case (Some(x), None) => Some(x)
    case (Some(x), Some(y)) => Some(x + y)
  }

  /** `SUM(CASE ...)` over the given rows. */
  function SumCase(ts: seq<Transaction>, ty: TxType): Option<real> {
    if ts == [] then None else AddNullable(CaseAmount(ts[0], ty), SumCase(ts[1..], ty))
  }

  /** `calculateFinancialSummary`: both sums over the rows `findAllByFilter` selects. */
  function CalculateFinancialSummary(txs: seq<Transaction>, q: Query): RawSummary {
    var m := Matching(txs, q);
    RawSummary(SumCase(m, Income), SumCase(m, Expense))
  }

  /** Reference definition of a total: the amounts of the rows of type `ty`,
      NULL amounts counting as nothing. */
  function TypeTotal(ts: seq<Transaction>, ty: TxType): real {
    if ts == [] then 0.0
    else RowTotal(ts[0], ty) + TypeTotal(ts[1..], ty)
  }

  /** What `SUM(CASE ...)` computes: NULL exactly when every row is of type
      `ty` with a NULL amount (in particular for no rows), and otherwise the
      total of the amounts of type `ty`. */
  lemma {:induction false} SumCaseMeaning(ts: seq<Transaction>, ty: TxType)
    ensures SumCase(ts, ty).None? <==> forall i :: 0 <= i < |ts| ==> ts[i].txType == Some(ty) && ts[i].amount.None?
    ensures SumCase(ts, ty).GetOr(0.0) == TypeTotal(ts, ty)
  {
    if ts != [] {
      SumCaseMeaning(ts[1..], ty);
      assert forall i :: 1 <= i < |ts| ==> ts[i] == ts[1..][i - 1];
    }
  }

  lemma {:induction false} TypeTotalConcat(a: seq<Transaction>, b: seq<Transaction>, ty: TxType)
    ensures TypeTotal(a + b, ty) == TypeTotal(a, ty) + TypeTotal(b, ty)
  {
    if a == [] {
      assert a + b == b;
    } else {
      assert (a + b)[0] == a[0];
      assert (a + b)[1..] == a[1..] + b;
      TypeTotalConcat(a[1..], b, ty);
    }
  }

  /** The amount one row contributes to the total of type `ty`. */
  function RowTotal(t: Transaction, ty: TxType): real {
    if t.txType == Some(ty) && t.amount.Some? then t.amount.value else 0.0
  }

  lemma TypeTotalRemove(t: seq<Transaction>, k: nat, ty: TxType)
    requires k < |t|
    ensures TypeTotal(t, ty) == RowTotal(t[k], ty) + TypeTotal(t[..k] + t[k + 1..], ty)
  {
    assert t == t[..k] + ([t[k]] + t[k + 1..]);
    TypeTotalConcat(t[..k], [t[k]] + t[k + 1..], ty);
    TypeTotalConcat([t[k]], t[k + 1..], ty);
    TypeTotalConcat(t[..k], t[k + 1..], ty);
  }

  /** Matching the first row of `s` with row `k` of `t`: the totals agree
      once the rest of `s` and `t` without row `k` do. */
  lemma TypeTotalStep(s: seq<Transaction>, t: seq<Transaction>, k: nat, ty: TxType)
    requires s != [] && k < |t| && t[k] == s[0]
    requires TypeTotal(s[1..], ty) == TypeTotal(t[..k] + t[k + 1..], ty)
    ensures TypeTotal(s, ty) == TypeTotal(t, ty)
  {
    TypeTotalRemove(t, k, ty);
  }

  /** Removing the first row of `s` and a row `k` of `t` holding the same
      transaction keeps two permutations permutations. */
  lemma MultisetRemoveBoth(s: seq<Transaction>, t: seq<Transaction>, k: nat)
    requires multiset(s) == multiset(t)
    requires s != [] && k < |t| && t[k] == s[0]
    ensures multiset(s[1..]) == multiset(t[..k] + t[k + 1..])
  {
    assert s == [s[0]] + s[1..];
    assert t == t[..k] + [t[k]] + t[k + 1..];
    calc {
      multiset(s[1..]);
      multiset(s) - multiset{s[0]};
      multiset(t) - multiset{t[k]};
      multiset(t[..k]) + multiset(t[k + 1..]);
      multiset(t[..k] + t[k + 1..]);
    }
  }

  /** A total does not depend on the order of the rows. */
  lemma {:induction false} TypeTotalPermutation(s: seq<Transaction>, t: seq<Transaction>, ty: TxType)
    requires multiset(s) == multiset(t)
    ensures TypeTotal(s, ty) == TypeTotal(t, ty)
    decreases |s|
  {
    if s == [] {
      assert |t| == |multiset(t)| == 0;
    } else {
      assert s[0] in multiset(t);
      var k :| 0 <= k < |t| && t[k] == s[0];
      MultisetRemoveBoth(s, t, k);
      TypeTotalPermutation(s[1..], t[..k] + t[k + 1..], ty);
      TypeTotalStep(s, t, k, ty);
    }
  }

  /** `SUM(CASE ...)` does not depend on the order of the rows. */
  lemma SumCasePermutation(s: seq<Transaction>, t: seq<Transaction>, ty: TxType)
    requires multiset(s) == multiset(t)
    ensures SumCase(s, ty) == SumCase(t, ty)
  {
    SumCaseMeaning(s, ty);
    SumCaseMeaning(t, ty);
    TypeTotalPermutation(s, t, ty);
    if SumCase(s, ty).None? {
      forall j | 0 <= j < |t|
        ensures t[j].txType == Some(ty) && t[j].amount.None?
      {
        assert t[j] in multiset(s);
      }
    } else if SumCase(t, ty).None? {
      forall j | 0 <= j < |s|
        ensures s[j].txType == Some(ty) && s[j].amount.None?
      {
        assert s[j] in multiset(t);
      }
    }
  }

  /** The summary ranges over exactly the rows the listing returns. */
  lemma SummaryMatchesListing(txs: seq<Transaction>, q: Query)
    ensures CalculateFinancialSummary(txs, q) == RawSummary(SumCase(FindAllByFilter(txs, q), Income), SumCase(FindAllByFilter(txs, q), Expense))
  {
    var m := Matching(txs, q);
    assert multiset(FindAllByFilter(txs, q)) == multiset(m);
    SumCasePermutation(m, FindAllByFilter(txs, q), Income);
    SumCasePermutation(m, FindAllByFilter(txs, q), Expense);
  }

  /** The summary is the same whatever order the table holds its rows in. */
  lemma SummaryOrderIndependent(txs: seq<Transaction>, txs': seq<Transaction>, q: Query)
    requires multiset(txs) == multiset(txs')
    ensures CalculateFinancialSummary(txs, q) == CalculateFinancialSummary(txs', q)
  {
    assert multiset(Matching(txs, q)) == multiset(Matching(txs', q));
    SumCasePermutation(Matching(txs, q), Matching(txs', q), Income);
    SumCasePermutation(Matching(txs, q), Matching(txs', q), Expense);
  }

  /** With no match, both sums are NULL. */
  lemma SummaryOfNothingIsNull(txs: seq<Transaction>, q: Query)
    requires forall t :: t in txs ==> !Matches(q, t)
    ensures CalculateFinancialSummary(txs, q) == RawSummary(None, None)
  {
    var m := Matching(txs, q);
    assert forall t :: t !in m;
    assert m == [];
  }
}
