/** The stored Transaction record with its two enumerations and the defaults
    the Mongoose schema fills in. The record's `type` field is called `kind`
    here because `type` is a Dafny keyword. */
module TransactionsEntity {
  import opened Wrappers
  import opened Calendar

  datatype TransactionType = Income | Expense

  datatype TransactionStatus = Active | Excluded

  function TypeName(k: TransactionType): string {
    match k
    case Income => "income"
    case Expense => "expense"
  }

  /** The schema's enum check on the stored string. */
  function ParseType(s: string): (r: Option<TransactionType>)
    ensures r.Some? <==> s == "income" || s == "expense"
    ensures r.Some? ==> TypeName(r.value) == s
  {
    if s == "income" then Some(Income)
    else if s == "expense" then Some(Expense)
    else None
  }

  function StatusName(s: TransactionStatus): string {
    match s
    case Active => "active"
    case Excluded => "excluded"
  }

  function ParseStatus(s: string): (r: Option<TransactionStatus>)
    ensures r.Some? <==> s == "active" || s == "excluded"
    ensures r.Some? ==> StatusName(r.value) == s
  {
    if s == "active" then Some(Active)
    else if s == "excluded" then Some(Excluded)
    else None
  }

  /** Round trip: each enumeration value is stored as a string that reads back as itself. */
  lemma EnumNamesRoundTrip(k: TransactionType, s: TransactionStatus)
    ensures ParseType(TypeName(k)) == Some(k)
    ensures ParseStatus(StatusName(s)) == Some(s)
  {
  }

  datatype Transaction = Transaction(
    id: string,
    name: string,
    amount: real,
    kind: TransactionType,
    tags: seq<string>,
    notes: Option<string>,
    status: TransactionStatus,
    transactionDate: Instant,
    taxRate: real,
    taxAmount: real,
    netAmount: real,
    createdAt: Instant)

  /** The record invariant: tax and net amounts are derived from amount and rate. */
  predicate DerivedAmountsConsistent(t: Transaction) {
    t.taxAmount == t.amount * t.taxRate && t.netAmount == t.amount - t.taxAmount
  }

  /** A document as handed to the model before the schema's defaults apply. */
  datatype TransactionDraft = TransactionDraft(
    id: string,
    name: string,
    amount: real,
    kind: TransactionType,
    tags: Option<seq<string>>,
    notes: Option<string>,
    status: Option<TransactionStatus>,
    transactionDate: Instant,
    taxRate: Option<real>,
    taxAmount: Option<real>,
    netAmount: Option<real>,
    createdAt: Instant)

  /** Saving a draft: every absent field takes its schema default. */
  function ApplyDefaults(d: TransactionDraft): (t: Transaction)
    ensures t.status == (if d.status.Some? then d.status.value else Active)
    ensures t.tags == (if d.tags.Some? then d.tags.value else [])
    ensures t.taxRate == (if d.taxRate.Some? then d.taxRate.value else 0.0)
    ensures t.taxAmount == (if d.taxAmount.Some? then d.taxAmount.value else 0.0)
    ensures t.netAmount == (if d.netAmount.Some? then d.netAmount.value else 0.0)
    ensures t.id == d.id && t.name == d.name && t.amount == d.amount && t.kind == d.kind
    ensures t.notes == d.notes && t.transactionDate == d.transactionDate && t.createdAt == d.createdAt
  {
    Transaction(d.id, d.name, d.amount, d.kind, d.tags.GetOr([]), d.notes,
                d.status.GetOr(Active), d.transactionDate, d.taxRate.GetOr(0.0),
                d.taxAmount.GetOr(0.0), d.netAmount.GetOr(0.0), d.createdAt)
  }

  /** A draft that carries none of the defaulted fields saves as an active,
      untagged record with zero rate, tax and net amount; a draft that carries
      them all keeps them. */
  lemma DefaultsFillOnlyMissingFields(d: TransactionDraft)
    ensures d.tags.None? && d.status.None? && d.taxRate.None? && d.taxAmount.None? && d.netAmount.None? ==>
              var t := ApplyDefaults(d);
              t.status == Active && t.tags == [] && t.taxRate == 0.0 && t.taxAmount == 0.0 && t.netAmount == 0.0
    ensures d.tags.Some? && d.status.Some? && d.taxRate.Some? && d.taxAmount.Some? && d.netAmount.Some? ==>
              var t := ApplyDefaults(d);
              && Some(t.tags) == d.tags && Some(t.status) == d.status && Some(t.taxRate) == d.taxRate
              && Some(t.taxAmount) == d.taxAmount && Some(t.netAmount) == d.netAmount
  {
  }
}
