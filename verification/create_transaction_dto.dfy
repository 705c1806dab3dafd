/** The request body for creating a transaction, the partial body accepted by
    an update, and the class-validator rules declared on the creation body.
    Neither application installs a global validation pipe, so the services do
    not rely on `Valid`; it states what a well-formed request looks like. */
module CreateTransactionDto {
  import opened Wrappers
  import opened Calendar
  import opened TransactionsEntity

  datatype CreateTransaction = CreateTransaction(
    name: string,
    amount: real,
    kind: TransactionType,
    tags: Option<seq<string>>,
    notes: Option<string>,
    status: Option<TransactionStatus>,
    transactionDate: Instant,
    taxRate: Option<real>)

  /** `Partial<CreateTransactionDto>`: every field may be missing. */
  datatype TransactionPatch = TransactionPatch(
    name: Option<string>,
    amount: Option<real>,
    kind: Option<TransactionType>,
    tags: Option<seq<string>>,
    notes: Option<string>,
    status: Option<TransactionStatus>,
    transactionDate: Option<Instant>,
    taxRate: Option<real>)

  /** `@IsNotEmpty` name, `@Min(0)` amount, optional `@Min(0) @Max(1)` tax rate;
      type and status are enumerations by construction. */
  predicate Valid(d: CreateTransaction) {
    && |d.name| > 0
    && d.amount >= 0.0
    && (d.taxRate.Some? ==> 0.0 <= d.taxRate.value <= 1.0)
  }
}
