/** The list/summary/dashboard filter (`TransactionFilterDto`), its two sort
    enumerations and the bounds its validators declare. The `month` and `year`
    texts are carried as the integers `parseInt` extracts from them, and the
    date texts as the instants they denote. */
module TransactionFilterDto {
  import opened Wrappers
  import opened Calendar
  import opened TransactionsEntity

  datatype SortField = ByTransactionDate | ByAmount | ByName | ByCreatedAt

  datatype SortOrder = Asc | Desc

  function SortFieldName(f: SortField): string {
    match f
    case ByTransactionDate => "transactionDate"
    case ByAmount => "amount"
    case ByName => "name"
    case ByCreatedAt => "createdAt"
  }

  /** `@IsEnum(SortField)` on the query text. */
  function ParseSortField(s: string): (r: Option<SortField>)
    ensures r.Some? <==> s in ["transactionDate", "amount", "name", "createdAt"]
    ensures r.Some? ==> SortFieldName(r.value) == s
  {
    if s == "transactionDate" then Some(ByTransactionDate)
    else if s == "amount" then Some(ByAmount)
    else if s == "name" then Some(ByName)
    else if s == "createdAt" then Some(ByCreatedAt)
    else None
  }

  function SortOrderName(o: SortOrder): string {
    match o
    case Asc => "asc"
    case Desc => "desc"
  }

  /** `@IsEnum(SortOrder)` on the query text. */
  function ParseSortOrder(s: string): (r: Option<SortOrder>)
    ensures r.Some? <==> s == "asc" || s == "desc"
    ensures r.Some? ==> SortOrderName(r.value) == s
  {
    if s == "asc" then Some(Asc) else if s == "desc" then Some(Desc) else None
  }

  lemma SortNamesRoundTrip(f: SortField, o: SortOrder)
    ensures ParseSortField(SortFieldName(f)) == Some(f)
    ensures ParseSortOrder(SortOrderName(o)) == Some(o)
  {
  }

  /** The two numbers `filters.month.split('-')` yields after `parseInt`;
      `month` is 1-based. */
  datatype MonthRef = MonthRef(year: int, month: int)

  datatype FilterSpec = FilterSpec(
    kind: Option<TransactionType>,
    tags: Option<seq<string>>,
    startDate: Option<Instant>,
    endDate: Option<Instant>,
    month: Option<MonthRef>,
    year: Option<int>,
    status: Option<TransactionStatus>,
    search: Option<string>,
    sortBy: Option<SortField>,
    sortOrder: Option<SortOrder>,
    limit: Option<int>,
    page: Option<int>)

  /** The filter with every field absent (an empty query string). */
  function NoFilter(): FilterSpec {
    FilterSpec(None, None, None, None, None, None, None, None, None, None, None, None)
  }

  /** `@Min(1) @Max(100)` on limit and `@Min(1)` on page; every field is optional. */
  predicate Valid(f: FilterSpec) {
    && (f.limit.Some? ==> 1 <= f.limit.value <= 100)
    && (f.page.Some? ==> f.page.value >= 1)
  }

  /** Only the paging numbers decide validity: a filter is valid exactly when
      its paging part alone is, a limit must lie in 1..100 and a page must be
      at least 1. */
  lemma ValidityIsPagingBounds(f: FilterSpec, limit: int, page: int)
    ensures Valid(NoFilter())
    ensures Valid(f) <==> Valid(NoFilter().(limit := f.limit, page := f.page))
    ensures Valid(f.(limit := Some(limit))) <==> 1 <= limit <= 100 && Valid(f.(limit := None))
    ensures Valid(f.(page := Some(page))) <==> page >= 1 && Valid(f.(page := None))
  {
  }
}
