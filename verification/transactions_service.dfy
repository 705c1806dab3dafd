/** The transactions service over an in-memory collection: creation with the
    derived tax and net amounts, the update that recomputes them only when the
    amount or the rate changes, exclude/activate, the filtered, sorted and
    paged listing, and the active-only summary. The collection is a sequence
    in the database's natural order; a query object becomes `Query` and the
    database's matching becomes `Matches`. */
module TransactionsService {
  import opened Wrappers
  import opened Calendar
  import opened Text
  import opened TransactionsEntity
  import opened CreateTransactionDto
  import opened TransactionFilterDto
  import opened TransactionOrder
  import TransactionSummary

  // ---------------------------------------------------------------------------
  // create

  /** `amount * (taxRate || 0)`: an absent rate, like a zero one, gives no tax. */
  function TaxFor(amount: real, taxRate: Option<real>): real {
    if taxRate.Some? then amount * taxRate.value else 0.0
  }

  /** The saved record: the request fields, the derived amounts and the schema defaults. */
  function Create(d: CreateTransaction, id: string, createdAt: Instant): (t: Transaction)
    ensures DerivedAmountsConsistent(t)
    ensures t.taxRate == (if d.taxRate.Some? then d.taxRate.value else 0.0)
    ensures t.status == (if d.status.Some? then d.status.value else Active)
    ensures t.tags == (if d.tags.Some? then d.tags.value else [])
    ensures t.id == id && t.createdAt == createdAt
    ensures t.name == d.name && t.amount == d.amount && t.kind == d.kind
    ensures t.notes == d.notes && t.transactionDate == d.transactionDate
  {
    var tax := TaxFor(d.amount, d.taxRate);
    ApplyDefaults(TransactionDraft(id, d.name, d.amount, d.kind, d.tags, d.notes, d.status,
                                   d.transactionDate, d.taxRate, Some(tax), Some(d.amount - tax),
                                   createdAt))
  }

  /** For a valid request the tax and the net amount both lie between zero
      and the amount, and together make up the amount. */
  lemma CreateSplitsAmount(d: CreateTransaction, id: string, createdAt: Instant)
    requires CreateTransactionDto.Valid(d)
    ensures 0.0 <= Create(d, id, createdAt).taxAmount <= d.amount
    ensures 0.0 <= Create(d, id, createdAt).netAmount <= d.amount
    ensures Create(d, id, createdAt).taxAmount + Create(d, id, createdAt).netAmount == d.amount
  {
    if d.taxRate.Some? {
      var r := d.taxRate.value;
      assert d.amount * r <= d.amount * 1.0 by {
        assert d.amount * (1.0 - r) >= 0.0;
      }
    }
  }

  /** 1000 at rate 0.1 gives 100 tax and 900 net; 1000 at rate 0 (or no rate)
      gives 0 and 1000; a request without status is stored active. */
  lemma CreateExamples(d: CreateTransaction, id: string, createdAt: Instant)
    requires d.amount == 1000.0
    ensures d.taxRate == Some(0.1) ==>
              Create(d, id, createdAt).taxAmount == 100.0 && Create(d, id, createdAt).netAmount == 900.0
    ensures d.taxRate == Some(0.0) || d.taxRate.None? ==>
              Create(d, id, createdAt).taxAmount == 0.0 && Create(d, id, createdAt).netAmount == 1000.0
    ensures d.status.None? ==> Create(d, id, createdAt).status == Active
  {
  }

  // ---------------------------------------------------------------------------
  // lookup by id

  /** Position of the first record with the given id. */
  function IndexOf(store: seq<Transaction>, id: string): (r: Option<nat>)
    ensures r.None? <==> forall j :: 0 <= j < |store| ==> store[j].id != id
    ensures r.Some? ==> r.value < |store| && store[r.value].id == id
    ensures r.Some? ==> forall j :: 0 <= j < r.value ==> store[j].id != id
    decreases |store|
  {
    if store == [] then None
    else if store[0].id == id then Some(0)
    else
      match IndexOf(store[1..], id)
      case None => None
      case Some(i) => Some(i + 1)
  }

  /** The lookup sees only the ids, so rewriting records without changing
      their ids leaves every lookup where it was. */
  lemma {:induction false} IndexOfDependsOnIds(s1: seq<Transaction>, s2: seq<Transaction>, id: string)
    requires |s1| == |s2|
    requires forall j :: 0 <= j < |s1| ==> s1[j].id == s2[j].id
    ensures IndexOf(s1, id) == IndexOf(s2, id)
    decreases |s1|
  {
    if s1 != [] {
      assert forall j :: 0 <= j < |s1[1..]| ==> s1[1..][j].id == s1[j + 1].id == s2[j + 1].id == s2[1..][j].id;
      IndexOfDependsOnIds(s1[1..], s2[1..], id);
    }
  }

  /** `findById`: the record with the given id, or null. */
  function FindOne(store: seq<Transaction>, id: string): (r: Option<Transaction>)
    ensures r.None? <==> forall j :: 0 <= j < |store| ==> store[j].id != id
    ensures r.Some? ==> r.value in store && r.value.id == id
    ensures r.Some? ==> IndexOf(store, id).Some? && r.value == store[IndexOf(store, id).value]
  {
    match IndexOf(store, id)
    case None => None
    case Some(i) => Some(store[i])
  }

  // ---------------------------------------------------------------------------
  // update, exclude, activate

  /** The document handed to `findByIdAndUpdate`: the patch plus, when
      recomputed, the derived amounts. */
  datatype SetDoc = SetDoc(patch: TransactionPatch, taxAmount: Option<real>, netAmount: Option<real>)

  /** Adds the recomputed amounts when the patch carries an amount or a rate
      and the record exists; each missing one of the two comes from the record. */
  function PrepareUpdate(store: seq<Transaction>, id: string, p: TransactionPatch): SetDoc {
    if (p.amount.Some? || p.taxRate.Some?) && FindOne(store, id).Some? then
      var existing := FindOne(store, id).value;
      var amount := p.amount.GetOr(existing.amount);
      var taxRate := p.taxRate.GetOr(existing.taxRate);
      var tax := amount * taxRate;
      SetDoc(p, Some(tax), Some(amount - tax))
    else
      SetDoc(p, None, None)
  }

  /** `$set` semantics: every present field overwrites, every absent one stays. */
  function ApplySet(t: Transaction, doc: SetDoc): (r: Transaction)
    ensures r.id == t.id && r.createdAt == t.createdAt
  {
    var p := doc.patch;
    t.(name := p.name.GetOr(t.name),
       amount := p.amount.GetOr(t.amount),
       kind := p.kind.GetOr(t.kind),
       tags := p.tags.GetOr(t.tags),
       notes := if p.notes.Some? then p.notes else t.notes,
       status := p.status.GetOr(t.status),
       transactionDate := p.transactionDate.GetOr(t.transactionDate),
       taxRate := p.taxRate.GetOr(t.taxRate),
       taxAmount := doc.taxAmount.GetOr(t.taxAmount),
       netAmount := doc.netAmount.GetOr(t.netAmount))
  }

  /** `update(id, patch)`: the new collection and the updated record, or null
      and an unchanged collection when no record has that id. */
  function Update(store: seq<Transaction>, id: string, p: TransactionPatch): (r: (seq<Transaction>, Option<Transaction>))
    ensures r.1.None? <==> forall j :: 0 <= j < |store| ==> store[j].id != id
    ensures r.1.None? ==> r.0 == store
    ensures |r.0| == |store|
    ensures r.1.Some? ==> r.1.value.id == id
    ensures r.1.Some? ==> IndexOf(store, id).Some? && r.0 == store[IndexOf(store, id).value := r.1.value]
  {
    match IndexOf(store, id)
    case None => (store, None)
    case Some(i) =>
      var t := ApplySet(store[i], PrepareUpdate(store, id, p));
      (store[i := t], Some(t))
  }

  /** Only the first record with the id changes; every other position is kept. */
  lemma UpdateTouchesOneRecord(store: seq<Transaction>, id: string, p: TransactionPatch, j: nat)
    requires IndexOf(store, id).Some? && j < |store| && j != IndexOf(store, id).value
    ensures Update(store, id, p).0[j] == store[j]
    ensures Update(store, id, p).0[IndexOf(store, id).value] == Update(store, id, p).1.value
  {
  }

  /** A patch with an amount or a rate recomputes tax and net from the new
      amount and rate, each defaulting to the stored one. */
  lemma UpdateRecomputes(store: seq<Transaction>, id: string, p: TransactionPatch)
    requires FindOne(store, id).Some?
    requires p.amount.Some? || p.taxRate.Some?
    ensures Update(store, id, p).1.value.amount
            == (if p.amount.Some? then p.amount.value else FindOne(store, id).value.amount)
    ensures Update(store, id, p).1.value.taxRate
            == (if p.taxRate.Some? then p.taxRate.value else FindOne(store, id).value.taxRate)
    ensures DerivedAmountsConsistent(Update(store, id, p).1.value)
  {
  }

  /** A patch with neither amount nor rate leaves all four money fields as stored. */
  lemma UpdateKeepsMoneyFields(store: seq<Transaction>, id: string, p: TransactionPatch)
    requires FindOne(store, id).Some?
    requires p.amount.None? && p.taxRate.None?
    ensures var e := FindOne(store, id).value;
            var u := Update(store, id, p).1.value;
            u.amount == e.amount && u.taxRate == e.taxRate
            && u.taxAmount == e.taxAmount && u.netAmount == e.netAmount
  {
  }

  /** Every other field of the patch overwrites when present and is kept when absent. */
  lemma UpdateWritesPatchFields(store: seq<Transaction>, id: string, p: TransactionPatch)
    requires FindOne(store, id).Some?
    ensures var e := FindOne(store, id).value;
            var u := Update(store, id, p).1.value;
            && u.name == (if p.name.Some? then p.name.value else e.name)
            && u.kind == (if p.kind.Some? then p.kind.value else e.kind)
            && u.tags == (if p.tags.Some? then p.tags.value else e.tags)
            && u.notes == (if p.notes.Some? then p.notes else e.notes)
            && u.status == (if p.status.Some? then p.status.value else e.status)
            && u.transactionDate == (if p.transactionDate.Some? then p.transactionDate.value else e.transactionDate)
            && u.createdAt == e.createdAt
  {
  }

  /** The record invariant survives every update. */
  lemma UpdatePreservesConsistency(store: seq<Transaction>, id: string, p: TransactionPatch)
    requires FindOne(store, id).Some?
    requires DerivedAmountsConsistent(FindOne(store, id).value)
    ensures DerivedAmountsConsistent(Update(store, id, p).1.value)
  {
  }

  /** 1000 at 0.1 (100/900) patched to 1200 at 0.15 gives 180 tax and 1020 net. */
  lemma UpdateExample(store: seq<Transaction>, id: string, p: TransactionPatch)
    requires FindOne(store, id).Some?
    requires FindOne(store, id).value.amount == 1000.0 && FindOne(store, id).value.taxRate == 0.1
    requires p.amount == Some(1200.0) && p.taxRate == Some(0.15)
    ensures Update(store, id, p).1.value.taxAmount == 180.0
    ensures Update(store, id, p).1.value.netAmount == 1020.0
  {
  }

  function StatusPatch(s: TransactionStatus): TransactionPatch {
    TransactionPatch(None, None, None, None, None, Some(s), None, None)
  }

  /** `exclude(id)`: set the status to excluded. */
  function Exclude(store: seq<Transaction>, id: string): (r: (seq<Transaction>, Option<Transaction>))
    ensures r.1.Some? <==> FindOne(store, id).Some?
    ensures r.1.Some? ==> r.1.value == FindOne(store, id).value.(status := Excluded)
    ensures r.1.Some? ==> IndexOf(store, id).Some? && r.0 == store[IndexOf(store, id).value := r.1.value]
    ensures r.1.None? ==> r.0 == store
  {
    Update(store, id, StatusPatch(Excluded))
  }

  /** `activate(id)`: set the status to active. */
  function Activate(store: seq<Transaction>, id: string): (r: (seq<Transaction>, Option<Transaction>))
    ensures r.1.Some? <==> FindOne(store, id).Some?
    ensures r.1.Some? ==> r.1.value == FindOne(store, id).value.(status := Active)
    ensures r.1.Some? ==> IndexOf(store, id).Some? && r.0 == store[IndexOf(store, id).value := r.1.value]
    ensures r.1.None? ==> r.0 == store
  {
    Update(store, id, StatusPatch(Active))
  }

  /** Excluding an active record and activating it again restores the collection. */
  lemma ExcludeThenActivate(store: seq<Transaction>, id: string)
    requires FindOne(store, id).Some? && FindOne(store, id).value.status == Active
    ensures Activate(Exclude(store, id).0, id).0 == store
  {
    var i := IndexOf(store, id).value;
    var s1 := Exclude(store, id).0;
    assert s1 == store[i := store[i].(status := Excluded)];
    IndexOfDependsOnIds(s1, store, id);
  }

  // ---------------------------------------------------------------------------
  // the list query

  /** The query object `findWithFilters` builds. */
  datatype Query = Query(
    kind: Option<TransactionType>,
    anyTags: Option<seq<string>>,
    status: Option<TransactionStatus>,
    date: Window,
    search: Option<string>)

  /** `{ tags: { $in: wanted } }` against an array field: some element is wanted. */
  predicate HasAnyTag(tags: seq<string>, wanted: seq<string>)
    decreases |tags|
  {
    tags != [] && (tags[0] in wanted || HasAnyTag(tags[1..], wanted))
  }

  ghost predicate SharesTag(tags: seq<string>, wanted: seq<string>) {
    exists i, j :: 0 <= i < |tags| && 0 <= j < |wanted| && tags[i] == wanted[j]
  }

  lemma {:induction false} HasAnyTagIff(tags: seq<string>, wanted: seq<string>)
    ensures HasAnyTag(tags, wanted) <==> SharesTag(tags, wanted)
    decreases |tags|
  {
    if tags != [] {
      HasAnyTagIff(tags[1..], wanted);
      if SharesTag(tags[1..], wanted) {
        var i, j :| 0 <= i < |tags[1..]| && 0 <= j < |wanted| && tags[1..][i] == wanted[j];
        assert tags[i + 1] == wanted[j];
      }
      if SharesTag(tags, wanted) && tags[0] !in wanted {
        var i, j :| 0 <= i < |tags| && 0 <= j < |wanted| && tags[i] == wanted[j];
        assert i > 0;
        assert tags[1..][i - 1] == wanted[j];
      }
    }
  }

  /** The case-insensitive `$regex` alternatives on name and notes; a record
      without notes can only match on its name. */
  predicate SearchHits(t: Transaction, text: string) {
    ContainsIgnoringCase(t.name, text) || (t.notes.Some? && ContainsIgnoringCase(t.notes.value, text))
  }

  predicate Matches(q: Query, t: Transaction) {
    && (q.kind.None? || t.kind == q.kind.value)
    && (q.anyTags.None? || HasAnyTag(t.tags, q.anyTags.value))
    && (q.status.None? || t.status == q.status.value)
    && q.date.Contains(t.transactionDate)
    && (q.search.None? || SearchHits(t, q.search.value))
  }

  /** The date criterion: year wins over month, month over the explicit range. */
  function DateWindow(f: FilterSpec): Window {
    if f.year.Some? then Window(Some(YearFirstInstant(f.year.value)), Some(YearLastInstant(f.year.value)))
    else if f.month.Some? then
      Window(Some(MonthFirstInstant(f.month.value.year, f.month.value.month)),
             Some(MonthLastInstant(f.month.value.year, f.month.value.month)))
    else Window(f.startDate, f.endDate)
  }

  /** Each truthy filter field adds its criterion; an empty tag list or an
      empty search text adds none. */
  function BuildQuery(f: FilterSpec): Query {
    Query(f.kind,
          if f.tags.Some? && |f.tags.value| > 0 then f.tags else None,
          f.status,
          DateWindow(f),
          if f.search.Some? && |f.search.value| > 0 then f.search else None)
  }

  /** `find(query)`: the matching records, in collection order. */
  function Select(store: seq<Transaction>, q: Query): (r: seq<Transaction>)
    ensures |r| <= |store|
    ensures forall t :: t in r <==> t in store && Matches(q, t)
    decreases |store|
  {
    if store == [] then []
    else (if Matches(q, store[0]) then [store[0]] else []) + Select(store[1..], q)
  }

  lemma {:induction false} SelectAppend(a: seq<Transaction>, b: seq<Transaction>, q: Query)
    ensures Select(a + b, q) == Select(a, q) + Select(b, q)
    decreases |a|
  {
    if a == [] {
      assert a + b == b;
    } else {
      assert (a + b)[1..] == a[1..] + b;
      SelectAppend(a[1..], b, q);
    }
  }

  /** The filter read directly: every stated criterion holds, with the date
      criterion taken as the calendar year, the calendar month or the
      inclusive range, and the search as a case-insensitive occurrence. */
  ghost predicate MeetsFilter(f: FilterSpec, t: Transaction)
    requires f.month.Some? ==> 1 <= f.month.value.month <= 12
  {
    && (f.kind.None? || t.kind == f.kind.value)
    && (f.tags.None? || |f.tags.value| == 0 || SharesTag(t.tags, f.tags.value))
    && (f.status.None? || t.status == f.status.value)
    && (if f.year.Some? then CivilOf(t.transactionDate).year == JsYear(f.year.value)
        else if f.month.Some? then
          CivilOf(t.transactionDate).year == JsYear(f.month.value.year)
          && CivilOf(t.transactionDate).month == f.month.value.month
        else
          (f.startDate.None? || f.startDate.value <= t.transactionDate)
          && (f.endDate.None? || t.transactionDate <= f.endDate.value))
    && (f.search.None? || |f.search.value| == 0
        || (exists i :: OccursAt(t.name, f.search.value, i))
        || (t.notes.Some? && exists i :: OccursAt(t.notes.value, f.search.value, i)))
  }

  /** The built query keeps exactly the records that meet the filter. */
  lemma MatchesIffMeetsFilter(f: FilterSpec, t: Transaction)
    requires f.month.Some? ==> 1 <= f.month.value.month <= 12
    ensures Matches(BuildQuery(f), t) <==> MeetsFilter(f, t)
  {
    HasAnyTagIff(t.tags, f.tags.GetOr([]));
    if f.year.Some? {
      YearWindowIsCalendarYear(f.year.value, t.transactionDate);
    } else if f.month.Some? {
      MonthWindowIsCalendarMonth(f.month.value.year, f.month.value.month, t.transactionDate);
    }
    if f.search.Some? {
      ContainsIgnoringCaseIff(t.name, f.search.value);
      if t.notes.Some? {
        ContainsIgnoringCaseIff(t.notes.value, f.search.value);
      }
    }
  }

  // ---------------------------------------------------------------------------
  // sort and paging

  /** No sortBy: newest transaction first. With sortBy: descending only for "desc". */
  function SortSpecOf(f: FilterSpec): (s: SortSpec)
    ensures f.sortBy.None? ==> s == SortSpec(ByTransactionDate, Desc)
    ensures f.sortBy.Some? ==> s.field == f.sortBy.value
    ensures f.sortBy.Some? ==> (s.order == Desc <==> f.sortOrder == Some(Desc))
  {
    if f.sortBy.Some? then SortSpec(f.sortBy.value, if f.sortOrder == Some(Desc) then Desc else Asc)
    else SortSpec(ByTransactionDate, Desc)
  }

  /** `filters.limit || 50`. */
  function EffectiveLimit(f: FilterSpec): (n: int)
    ensures n != 0
    ensures f.limit.Some? && f.limit.value != 0 ==> n == f.limit.value
    ensures f.limit.None? || f.limit.value == 0 ==> n == 50
  {
    if f.limit.None? || f.limit.value == 0 then 50 else f.limit.value
  }

  /** `filters.page || 1`. */
  function EffectivePage(f: FilterSpec): (n: int)
    ensures n != 0
    ensures f.page.Some? && f.page.value != 0 ==> n == f.page.value
    ensures f.page.None? || f.page.value == 0 ==> n == 1
  {
    if f.page.None? || f.page.value == 0 then 1 else f.page.value
  }

  /** `skip(skip).limit(limit)`: at most `limit` records starting at position `skip`. */
  function Paginate(s: seq<Transaction>, skip: nat, limit: nat): (r: seq<Transaction>)
    ensures |r| <= limit
    ensures skip >= |s| ==> r == []
    ensures skip < |s| ==> |r| == (if skip + limit <= |s| then limit else |s| - skip)
    ensures forall i :: 0 <= i < |r| ==> skip + i < |s| && r[i] == s[skip + i]
  {
    if skip >= |s| then []
    else if skip + limit <= |s| then s[skip..skip + limit]
    else s[skip..]
  }

  /** The database rejects a negative skip. */
  datatype ListError = NegativeSkip

  /** The database reads a negative limit as its magnitude. */
  function Magnitude(n: int): nat {
    if n < 0 then -n else n
  }

  /** A page of a sorted list is sorted and holds only records of the list. */
  lemma PaginateKeepsOrder(spec: SortSpec, s: seq<Transaction>, skip: nat, limit: nat)
    requires Sorted(spec, s)
    ensures Sorted(spec, Paginate(s, skip, limit))
    ensures forall t :: t in Paginate(s, skip, limit) ==> t in s
  {
    var r := Paginate(s, skip, limit);
    forall i, j | 0 <= i < j < |r|
      ensures Precedes(spec, r[i], r[j])
    {
      assert r[i] == s[skip + i] && r[j] == s[skip + j];
    }
    forall t | t in r
      ensures t in s
    {
      var i :| 0 <= i < |r| && r[i] == t;
      assert s[skip + i] == t;
    }
  }

  /** `(page - 1) * limit`. */
  function SkipOf(f: FilterSpec): int {
    (EffectivePage(f) - 1) * EffectiveLimit(f)
  }

  /** The matches of the filter, in the requested order. */
  function SortedMatches(store: seq<Transaction>, f: FilterSpec): (r: seq<Transaction>)
    ensures multiset(r) == multiset(Select(store, BuildQuery(f)))
    ensures |r| == |Select(store, BuildQuery(f))|
    ensures Sorted(SortSpecOf(f), r)
  {
    Sort(SortSpecOf(f), Select(store, BuildQuery(f)))
  }

  /** `findWithFilters`: filter, sort, skip `(page - 1) * limit`, keep `limit`. */
  function FindWithFilters(store: seq<Transaction>, f: FilterSpec): (r: Result<seq<Transaction>, ListError>)
    ensures r.Failure? <==> SkipOf(f) < 0
    ensures r.Success? ==> |r.value| <= Magnitude(EffectiveLimit(f))
    ensures r.Success? ==> forall t :: t in r.value ==> t in store && Matches(BuildQuery(f), t)
    ensures r.Success? ==> Sorted(SortSpecOf(f), r.value)
    ensures r.Success? ==>
              var m := SortedMatches(store, f);
              var skip := SkipOf(f);
              var limit := Magnitude(EffectiveLimit(f));
              && |r.value| == (if skip >= |m| then 0 else if skip + limit <= |m| then limit else |m| - skip)
              && forall i :: 0 <= i < |r.value| ==> r.value[i] == m[skip + i]
  {
    if SkipOf(f) < 0 then Failure(NegativeSkip)
    else
      PageOfMatches(store, f);
      Success(Paginate(SortedMatches(store, f), SkipOf(f), Magnitude(EffectiveLimit(f))))
  }

  /** The page is sorted and holds only stored matches. */
  lemma PageOfMatches(store: seq<Transaction>, f: FilterSpec)
    requires SkipOf(f) >= 0
    ensures var page := Paginate(SortedMatches(store, f), SkipOf(f), Magnitude(EffectiveLimit(f)));
            && Sorted(SortSpecOf(f), page)
            && forall t :: t in page ==> t in store && Matches(BuildQuery(f), t)
  {
    var sorted := SortedMatches(store, f);
    PaginateKeepsOrder(SortSpecOf(f), sorted, SkipOf(f), Magnitude(EffectiveLimit(f)));
    assert forall t :: t in sorted ==> t in multiset(Select(store, BuildQuery(f)));
  }

  /** A valid filter never fails, and its page holds at most `limit` records,
      50 by default. */
  lemma ValidFilterPages(store: seq<Transaction>, f: FilterSpec)
    requires TransactionFilterDto.Valid(f)
    ensures FindWithFilters(store, f).Success?
    ensures |FindWithFilters(store, f).value| <= (if f.limit.Some? then f.limit.value else 50)
  {
  }

  /** Without sortBy, the newest transaction comes first. */
  lemma DefaultOrderNewestFirst(store: seq<Transaction>, f: FilterSpec)
    requires f.sortBy.None? && SkipOf(f) >= 0
    ensures FindWithFilters(store, f).Success?
    ensures var page := FindWithFilters(store, f).value;
            forall i, j :: 0 <= i < j < |page| ==> page[i].transactionDate >= page[j].transactionDate
  {
  }

  /** A page that starts at or beyond the number of matches is empty. */
  lemma PagePastEndIsEmpty(store: seq<Transaction>, f: FilterSpec)
    ensures SkipOf(f) >= |Select(store, BuildQuery(f))| ==> FindWithFilters(store, f) == Success([])
  {
  }

  /** When every match fits on the first page, the page is a reordering of all matches. */
  lemma FirstPageHoldsAllMatches(store: seq<Transaction>, f: FilterSpec)
    requires EffectivePage(f) == 1
    ensures FindWithFilters(store, f).Success?
    ensures |Select(store, BuildQuery(f))| <= Magnitude(EffectiveLimit(f)) ==>
              multiset(FindWithFilters(store, f).value) == multiset(Select(store, BuildQuery(f)))
  {
    var sorted := SortedMatches(store, f);
    assert SkipOf(f) == 0;
    if |Select(store, BuildQuery(f))| <= Magnitude(EffectiveLimit(f)) {
      var page := FindWithFilters(store, f).value;
      assert |page| == |sorted|;
      assert page == sorted;
    }
  }

  /** Page 2 with limit 10 starts at the eleventh match of the sorted list. */
  lemma SecondPageExample(store: seq<Transaction>, f: FilterSpec)
    requires f.page == Some(2) && f.limit == Some(10)
    ensures FindWithFilters(store, f).Success?
    ensures |Select(store, BuildQuery(f))| > 10 ==>
              && |FindWithFilters(store, f).value| > 0
              && |SortedMatches(store, f)| > 10
              && FindWithFilters(store, f).value[0] == SortedMatches(store, f)[10]
  {
    assert EffectiveLimit(f) == 10 && SkipOf(f) == 10;
  }

  // ---------------------------------------------------------------------------
  // getSummary

  /** The summary's query: always active, plus type, tags and the explicit range only. */
  function SummaryQuery(f: FilterSpec): Query {
    Query(f.kind,
          if f.tags.Some? && |f.tags.value| > 0 then f.tags else None,
          Some(Active),
          Window(f.startDate, f.endDate),
          None)
  }

  function GetSummary(store: seq<Transaction>, f: FilterSpec): (r: TransactionSummary.Summary)
    ensures r.grossProfit == r.totalIncome - r.totalExpenses
  {
    TransactionSummary.Summarize(Select(store, SummaryQuery(f)))
  }

  /** Month, year, status, search, sort and paging have no effect on the summary. */
  lemma SummaryIgnoresListCriteria(store: seq<Transaction>, f: FilterSpec, g: FilterSpec)
    requires f.kind == g.kind && f.tags == g.tags && f.startDate == g.startDate && f.endDate == g.endDate
    ensures GetSummary(store, f) == GetSummary(store, g)
  {
    assert SummaryQuery(f) == SummaryQuery(g);
  }

  /** Adding one record changes the summary by that record's contribution
      when it is active and meets the type, tag and range criteria, and not
      at all otherwise; an excluded record never counts. */
  lemma SummaryAddsOneRecord(store: seq<Transaction>, f: FilterSpec, t: Transaction, k: string)
    ensures var before := GetSummary(store, f);
            var after := GetSummary(store + [t], f);
            var counted := Matches(SummaryQuery(f), t);
            && after.totalIncome == before.totalIncome + (if counted && t.kind == Income then t.netAmount else 0.0)
            && after.totalTax == before.totalTax + (if counted && t.kind == Income then t.taxAmount else 0.0)
            && after.totalExpenses == before.totalExpenses + (if counted && t.kind != Income then t.amount else 0.0)
            && TransactionSummary.Get(after.incomeByCategory, k)
               == TransactionSummary.Get(before.incomeByCategory, k)
                  + (if counted && t.kind == Income
                     then TransactionSummary.TagShare(t.tags, k, t.netAmount) else 0.0)
    ensures t.status == Excluded ==> GetSummary(store + [t], f) == GetSummary(store, f)
  {
    var q := SummaryQuery(f);
    SelectAppend(store, [t], q);
    assert [t][1..] == [];
    var extra := Select([t], q);
    assert extra == (if Matches(q, t) then [t] else []) + [];
    TransactionSummary.SummaryOfConcatenation(Select(store, q), extra, k);
    TransactionSummary.SummaryIsReference(extra, k);
    if extra != [] {
      assert extra[1..] == [];
      assert TransactionSummary.IncomeForTag(extra, k)
             == (if t.kind == Income then TransactionSummary.TagShare(t.tags, k, t.netAmount) else 0.0);
    }
    if t.status == Excluded {
      assert Select(store + [t], q) == Select(store, q);
    }
  }

  /** The three-record example: 5000 and 3000 net income with 500 and 300
      tax, and a 2000 expense, give 8000, 2000, 800 and 6000. */
  lemma SummaryExample(a: Transaction, b: Transaction, c: Transaction)
    requires a.kind == Income && a.netAmount == 5000.0 && a.taxAmount == 500.0
    requires b.kind == Income && b.netAmount == 3000.0 && b.taxAmount == 300.0
    requires c.kind == Expense && c.amount == 2000.0
    ensures var s := TransactionSummary.Summarize([a, b, c]);
            s.totalIncome == 8000.0 && s.totalExpenses == 2000.0 && s.totalTax == 800.0 && s.grossProfit == 6000.0
  {
    var txs := [a, b, c];
    assert txs[1..] == [b, c] && [b, c][1..] == [c] && [c][1..] == [];
    TransactionSummary.SummaryIsReference(txs, "");
    assert TransactionSummary.IncomeTotal([c]) == 0.0 && TransactionSummary.ExpenseTotal([c]) == 2000.0;
    assert TransactionSummary.TaxTotal([c]) == 0.0;
    assert TransactionSummary.IncomeTotal([b, c]) == 3000.0 && TransactionSummary.ExpenseTotal([b, c]) == 2000.0;
    assert TransactionSummary.TaxTotal([b, c]) == 300.0;
  }
}
