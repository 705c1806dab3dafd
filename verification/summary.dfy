/** The summary fold shared by `getSummary` (transactions.service.ts) and the
    dashboard's private `getTransactionSummary`, whose loop bodies are
    identical. Income transactions add their net amount to the income total
    and to every tag's income category and their tax to the tax total; every
    other transaction adds its gross amount to the expense total and to every
    tag's expense category. A tag listed twice on one transaction counts twice. */
module TransactionSummary {
  import opened TransactionsEntity

  datatype Summary = Summary(
    totalIncome: real,
    totalExpenses: real,
    totalTax: real,
    grossProfit: real,
    expensesByCategory: map<string, real>,
    incomeByCategory: map<string, real>)

  /** `m[k] || 0`: a missing category reads as zero. */
  function Get(m: map<string, real>, k: string): real {
    if k in m then m[k] else 0.0
  }

  /** `tags.forEach(tag => m[tag] = (m[tag] || 0) + v)`. */
  function AddToTags(m: map<string, real>, tags: seq<string>, v: real): map<string, real>
    decreases |tags|
  {
    if tags == [] then m else AddToTags(m[tags[0] := Get(m, tags[0]) + v], tags[1..], v)
  }

  /** The loop's five accumulators. */
  datatype Totals = Totals(
    income: real,
    expenses: real,
    tax: real,
    expensesByCategory: map<string, real>,
    incomeByCategory: map<string, real>)

  function NoTotals(): Totals {
    Totals(0.0, 0.0, 0.0, map[], map[])
  }

  /** One iteration of the loop. */
  function Step(acc: Totals, t: Transaction): Totals {
    if t.kind == Income then
      acc.(income := acc.income + t.netAmount,
           tax := acc.tax + t.taxAmount,
           incomeByCategory := AddToTags(acc.incomeByCategory, t.tags, t.netAmount))
    else
      acc.(expenses := acc.expenses + t.amount,
           expensesByCategory := AddToTags(acc.expensesByCategory, t.tags, t.amount))
  }

  /** The loop over the fetched transactions, in order. */
  function Accumulate(acc: Totals, txs: seq<Transaction>): Totals
    decreases |txs|
  {
    if txs == [] then acc else Accumulate(Step(acc, txs[0]), txs[1..])
  }

  function Summarize(txs: seq<Transaction>): (r: Summary)
    ensures r.grossProfit == r.totalIncome - r.totalExpenses
  {
    var a := Accumulate(NoTotals(), txs);
    Summary(a.income, a.expenses, a.tax, a.income - a.expenses, a.expensesByCategory, a.incomeByCategory)
  }

  // ---------------------------------------------------------------------------
  // Reference definitions, one sum per reported figure

  function Occurrences(tags: seq<string>, k: string): nat {
    if tags == [] then 0 else (if tags[0] == k then 1 else 0) + Occurrences(tags[1..], k)
  }

  /** What one record credits to category `k`: `v` once per listing of `k` in its tags. */
  function TagShare(tags: seq<string>, k: string, v: real): real {
    if tags == [] then 0.0 else (if tags[0] == k then v else 0.0) + TagShare(tags[1..], k, v)
  }

  function IncomeTotal(txs: seq<Transaction>): real {
    if txs == [] then 0.0
    else (if txs[0].kind == Income then txs[0].netAmount else 0.0) + IncomeTotal(txs[1..])
  }

  function TaxTotal(txs: seq<Transaction>): real {
    if txs == [] then 0.0
    else (if txs[0].kind == Income then txs[0].taxAmount else 0.0) + TaxTotal(txs[1..])
  }

  function ExpenseTotal(txs: seq<Transaction>): real {
    if txs == [] then 0.0
    else (if txs[0].kind != Income then txs[0].amount else 0.0) + ExpenseTotal(txs[1..])
  }

  /** Net income credited to tag `k`: each income transaction once per listing of `k`. */
  function IncomeForTag(txs: seq<Transaction>, k: string): real {
    if txs == [] then 0.0
    else (if txs[0].kind == Income then TagShare(txs[0].tags, k, txs[0].netAmount) else 0.0)
         + IncomeForTag(txs[1..], k)
  }

  function ExpenseForTag(txs: seq<Transaction>, k: string): real {
    if txs == [] then 0.0
    else (if txs[0].kind != Income then TagShare(txs[0].tags, k, txs[0].amount) else 0.0)
         + ExpenseForTag(txs[1..], k)
  }

  predicate IncomeTagged(txs: seq<Transaction>, k: string) {
    exists i :: 0 <= i < |txs| && txs[i].kind == Income && k in txs[i].tags
  }

  predicate ExpenseTagged(txs: seq<Transaction>, k: string) {
    exists i :: 0 <= i < |txs| && txs[i].kind != Income && k in txs[i].tags
  }

  // ---------------------------------------------------------------------------
  // Lemmas

  /** A record's share of a category is its value times the number of times it lists the tag. */
  lemma {:induction false} TagShareIsMultiple(tags: seq<string>, k: string, v: real)
    ensures TagShare(tags, k, v) == Occurrences(tags, k) as real * v
    decreases |tags|
  {
    if tags != [] {
      TagShareIsMultiple(tags[1..], k, v);
      var n := Occurrences(tags[1..], k) as real;
      if tags[0] == k {
        assert (n + 1.0) * v == n * v + v;
      }
    }
  }

  lemma {:induction false} AddToTagsGet(m: map<string, real>, tags: seq<string>, v: real, k: string)
    ensures Get(AddToTags(m, tags, v), k) == Get(m, k) + TagShare(tags, k, v)
    decreases |tags|
  {
    if tags != [] {
      AddToTagsGet(m[tags[0] := Get(m, tags[0]) + v], tags[1..], v, k);
    }
  }

  lemma {:induction false} AddToTagsKeys(m: map<string, real>, tags: seq<string>, v: real, k: string)
    ensures k in AddToTags(m, tags, v) <==> k in m || k in tags
    decreases |tags|
  {
    if tags != [] {
      AddToTagsKeys(m[tags[0] := Get(m, tags[0]) + v], tags[1..], v, k);
    }
  }

  /** Folding a concatenation is folding the second part after the first. */
  lemma {:induction false} AccumulateAppend(acc: Totals, a: seq<Transaction>, b: seq<Transaction>)
    ensures Accumulate(acc, a + b) == Accumulate(Accumulate(acc, a), b)
    decreases |a|
  {
    if a != [] {
      assert (a + b)[1..] == a[1..] + b;
      AccumulateAppend(Step(acc, a[0]), a[1..], b);
    } else {
      assert a + b == b;
    }
  }

  lemma {:induction false} AccumulateTotals(acc: Totals, txs: seq<Transaction>)
    ensures Accumulate(acc, txs).income == acc.income + IncomeTotal(txs)
    ensures Accumulate(acc, txs).expenses == acc.expenses + ExpenseTotal(txs)
    ensures Accumulate(acc, txs).tax == acc.tax + TaxTotal(txs)
    decreases |txs|
  {
    if txs != [] {
      AccumulateTotals(Step(acc, txs[0]), txs[1..]);
    }
  }

  lemma {:induction false} AccumulateIncomeCategory(acc: Totals, txs: seq<Transaction>, k: string)
    ensures Get(Accumulate(acc, txs).incomeByCategory, k) == Get(acc.incomeByCategory, k) + IncomeForTag(txs, k)
    decreases |txs|
  {
    if txs != [] {
      var t := txs[0];
      AddToTagsGet(acc.incomeByCategory, t.tags, t.netAmount, k);
      AccumulateIncomeCategory(Step(acc, t), txs[1..], k);
    }
  }

  lemma StepExpenseCategory(acc: Totals, t: Transaction, k: string)
    ensures Get(Step(acc, t).expensesByCategory, k)
            == Get(acc.expensesByCategory, k)
               + (if t.kind != Income then TagShare(t.tags, k, t.amount) else 0.0)
  {
    if t.kind != Income {
      AddToTagsGet(acc.expensesByCategory, t.tags, t.amount, k);
    }
  }

  lemma {:induction false} AccumulateExpenseCategory(acc: Totals, txs: seq<Transaction>, k: string)
    ensures Get(Accumulate(acc, txs).expensesByCategory, k) == Get(acc.expensesByCategory, k) + ExpenseForTag(txs, k)
    decreases |txs|
  {
    if txs != [] {
      var t := txs[0];
      StepExpenseCategory(acc, t, k);
      AccumulateExpenseCategory(Step(acc, t), txs[1..], k);
    }
  }

  lemma IncomeTaggedUnfold(txs: seq<Transaction>, k: string)
    requires txs != []
    ensures IncomeTagged(txs, k) <==> (txs[0].kind == Income && k in txs[0].tags) || IncomeTagged(txs[1..], k)
  {
    if IncomeTagged(txs[1..], k) {
      var i :| 0 <= i < |txs[1..]| && txs[1..][i].kind == Income && k in txs[1..][i].tags;
      assert txs[i + 1] == txs[1..][i];
    }
    if IncomeTagged(txs, k) && !(txs[0].kind == Income && k in txs[0].tags) {
      var i :| 0 <= i < |txs| && txs[i].kind == Income && k in txs[i].tags;
      assert txs[1..][i - 1] == txs[i];
    }
  }

  lemma ExpenseTaggedUnfold(txs: seq<Transaction>, k: string)
    requires txs != []
    ensures ExpenseTagged(txs, k) <==> (txs[0].kind != Income && k in txs[0].tags) || ExpenseTagged(txs[1..], k)
  {
    if ExpenseTagged(txs[1..], k) {
      var i :| 0 <= i < |txs[1..]| && txs[1..][i].kind != Income && k in txs[1..][i].tags;
      assert txs[i + 1] == txs[1..][i];
    }
    if ExpenseTagged(txs, k) && !(txs[0].kind != Income && k in txs[0].tags) {
      var i :| 0 <= i < |txs| && txs[i].kind != Income && k in txs[i].tags;
      assert txs[1..][i - 1] == txs[i];
    }
  }

  lemma {:induction false} AccumulateCategoryKeys(acc: Totals, txs: seq<Transaction>, k: string)
    ensures k in Accumulate(acc, txs).incomeByCategory <==> k in acc.incomeByCategory || IncomeTagged(txs, k)
    ensures k in Accumulate(acc, txs).expensesByCategory <==> k in acc.expensesByCategory || ExpenseTagged(txs, k)
    decreases |txs|
  {
    if txs != [] {
      var t := txs[0];
      AddToTagsKeys(acc.incomeByCategory, t.tags, t.netAmount, k);
      AddToTagsKeys(acc.expensesByCategory, t.tags, t.amount, k);
      AccumulateCategoryKeys(Step(acc, t), txs[1..], k);
      IncomeTaggedUnfold(txs, k);
      ExpenseTaggedUnfold(txs, k);
    }
  }

  /** Every reported figure equals its reference sum, and a category appears
      exactly when some transaction of its kind carries the tag. */
  lemma SummaryIsReference(txs: seq<Transaction>, k: string)
    ensures Summarize(txs).totalIncome == IncomeTotal(txs)
    ensures Summarize(txs).totalExpenses == ExpenseTotal(txs)
    ensures Summarize(txs).totalTax == TaxTotal(txs)
    ensures Summarize(txs).grossProfit == IncomeTotal(txs) - ExpenseTotal(txs)
    ensures Get(Summarize(txs).incomeByCategory, k) == IncomeForTag(txs, k)
    ensures Get(Summarize(txs).expensesByCategory, k) == ExpenseForTag(txs, k)
    ensures k in Summarize(txs).incomeByCategory <==> IncomeTagged(txs, k)
    ensures k in Summarize(txs).expensesByCategory <==> ExpenseTagged(txs, k)
  {
    AccumulateTotals(NoTotals(), txs);
    AccumulateIncomeCategory(NoTotals(), txs, k);
    AccumulateExpenseCategory(NoTotals(), txs, k);
    AccumulateCategoryKeys(NoTotals(), txs, k);
  }

  /** Splitting the input in two and adding the partial summaries gives the
      whole summary, category by category. */
  lemma SummaryOfConcatenation(a: seq<Transaction>, b: seq<Transaction>, k: string)
    ensures Summarize(a + b).totalIncome == Summarize(a).totalIncome + Summarize(b).totalIncome
    ensures Summarize(a + b).totalExpenses == Summarize(a).totalExpenses + Summarize(b).totalExpenses
    ensures Summarize(a + b).totalTax == Summarize(a).totalTax + Summarize(b).totalTax
    ensures Get(Summarize(a + b).incomeByCategory, k)
            == Get(Summarize(a).incomeByCategory, k) + Get(Summarize(b).incomeByCategory, k)
    ensures Get(Summarize(a + b).expensesByCategory, k)
            == Get(Summarize(a).expensesByCategory, k) + Get(Summarize(b).expensesByCategory, k)
    ensures k in Summarize(a + b).incomeByCategory
            <==> k in Summarize(a).incomeByCategory || k in Summarize(b).incomeByCategory
    ensures k in Summarize(a + b).expensesByCategory
            <==> k in Summarize(a).expensesByCategory || k in Summarize(b).expensesByCategory
  {
    var ta := Accumulate(NoTotals(), a);
    AccumulateAppend(NoTotals(), a, b);
    AccumulateTotals(NoTotals(), a);
    AccumulateTotals(NoTotals(), b);
    AccumulateTotals(ta, b);
    AccumulateIncomeCategory(NoTotals(), b, k);
    AccumulateIncomeCategory(ta, b, k);
    AccumulateExpenseCategory(NoTotals(), b, k);
    AccumulateExpenseCategory(ta, b, k);
    AccumulateCategoryKeys(NoTotals(), b, k);
    AccumulateCategoryKeys(ta, b, k);
  }

  /** No transactions: all totals zero and both category maps empty. */
  lemma SummaryOfNothing()
    ensures Summarize([]) == Summary(0.0, 0.0, 0.0, 0.0, map[], map[])
  {
  }

  /** A transaction tagged `["a", "b"]` credits its whole net amount to both
      categories, and one tagged `["a", "a"]` credits "a" twice. */
  lemma TagsCountPerListing(t: Transaction)
    requires t.kind == Income && t.netAmount == 100.0
    ensures t.tags == ["a", "b"] ==>
              Summarize([t]).incomeByCategory == map["a" := 100.0, "b" := 100.0]
    ensures t.tags == ["a", "a"] ==> Summarize([t]).incomeByCategory == map["a" := 200.0]
  {
    assert [t][1..] == [];
    assert Accumulate(NoTotals(), [t]) == Accumulate(Step(NoTotals(), t), []) == Step(NoTotals(), t);
    assert Summarize([t]).incomeByCategory == AddToTags(map[], t.tags, 100.0);
    var once := map["a" := 100.0];
    if t.tags == ["a", "b"] {
      assert t.tags[1..] == ["b"] && ["b"][1..] == [];
      assert AddToTags(map[], t.tags, 100.0) == AddToTags(once, ["b"], 100.0);
      assert AddToTags(once, ["b"], 100.0) == AddToTags(once["b" := 100.0], [], 100.0);
      assert once["b" := 100.0] == map["a" := 100.0, "b" := 100.0];
    } else if t.tags == ["a", "a"] {
      assert t.tags[1..] == ["a"] && ["a"][1..] == [];
      assert AddToTags(map[], t.tags, 100.0) == AddToTags(once, ["a"], 100.0);
      assert AddToTags(once, ["a"], 100.0) == AddToTags(once["a" := 200.0], [], 100.0);
      assert once["a" := 200.0] == map["a" := 200.0];
    }
  }
}
