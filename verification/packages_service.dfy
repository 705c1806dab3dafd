/** The package store and the profit report. The JSON file behind the store
    is a `seq<Package>` state passed in and returned; the random-and-clock id
    of `create` is the `newId` parameter. A package's `expenses` record is a
    sequence of (category, value) entries in `Object.entries` order. */
module PackagesService {
  import opened Wrappers

  datatype Expense = Expense(category: string, value: real)

  datatype Package = Package(id: string, packageName: string, price: real, expenses: seq<Expense>)

  /** The `CreatePackageDto` body of `create`. */
  datatype PackageInput = PackageInput(packageName: string, price: real, expenses: seq<Expense>)

  /** The body of `update`: only the fields it carries are spread over the record. */
  datatype PackagePatch = PackagePatch(packageName: Option<string>, price: Option<real>, expenses: Option<seq<Expense>>)

  datatype PackageError = NotFound(message: string)

  const PackageNotFound := NotFound("Package not found")

  /** `@IsNotEmpty()` on the name; `@IsNumber()` holds of every `real`. */
  predicate ValidInput(input: PackageInput) {
    input.packageName != ""
  }

  /** A record parsed from JSON has each category once. */
  predicate DistinctCategories(es: seq<Expense>) {
    forall i, j :: 0 <= i < j < |es| ==> es[i].category != es[j].category
  }

  function Ids(store: seq<Package>): (r: seq<string>)
    ensures |r| == |store| && forall i :: 0 <= i < |store| ==> r[i] == store[i].id
  {
    seq(|store|, i requires 0 <= i < |store| => store[i].id)
  }

  // ---------------------------------------------------------------------------
  // The store

  datatype Created = Created(store: seq<Package>, pkg: Package)

  /** `create`: the new package is the body plus the id, appended at the end. */
  function Create(store: seq<Package>, input: PackageInput, newId: string): (r: Created)
    ensures r.pkg == Package(newId, input.packageName, input.price, input.expenses)
    ensures |r.store| == |store| + 1 && r.store[..|store|] == store && r.store[|store|] == r.pkg
  {
    var pkg := Package(newId, input.packageName, input.price, input.expenses);
    assert (store + [pkg])[..|store|] == store;
    Created(store + [pkg], pkg)
  }

  /** `findIndex`: the first position holding the id, or nothing (-1). */
  function IndexOf(store: seq<Package>, id: string): (r: Option<nat>)
    ensures r.None? <==> id !in Ids(store)
    ensures r.Some? ==> r.value < |store| && store[r.value].id == id
                        && forall j :: 0 <= j < r.value ==> store[j].id != id
    decreases |store|
  {
    if store == [] then None
    else if store[0].id == id then Some(0)
    else
      match IndexOf(store[1..], id)
      case None =>
        assert forall j :: 1 <= j < |store| ==> store[j].id == Ids(store[1..])[j - 1];
        None
      case Some(i) =>
        assert forall j :: 1 <= j <= i ==> store[j] == store[1..][j - 1];
        Some(i + 1)
  }

  /** `find(pkg => pkg._id === id) || null`: the first package with the id. */
  function FindOne(store: seq<Package>, id: string): (r: Option<Package>)
    ensures r.None? <==> id !in Ids(store)
    ensures r.Some? ==> r.value in store && r.value.id == id
    ensures r.Some? ==> IndexOf(store, id).Some? && r.value == store[IndexOf(store, id).value]
  {
    match IndexOf(store, id)
    case None => None
    case Some(i) => Some(store[i])
  }

  /** `{ ...existing, ...patch }`. */
  function Merge(p: Package, patch: PackagePatch): (r: Package)
    ensures r.id == p.id
    ensures r.packageName == (if patch.packageName.Some? then patch.packageName.value else p.packageName)
    ensures r.price == (if patch.price.Some? then patch.price.value else p.price)
    ensures r.expenses == (if patch.expenses.Some? then patch.expenses.value else p.expenses)
  {
    Package(p.id, patch.packageName.GetOr(p.packageName), patch.price.GetOr(p.price),
            patch.expenses.GetOr(p.expenses))
  }

  /** `update`: an absent id gives null and the store as it was; otherwise
      the first match is merged with the patch in place. */
  function Update(store: seq<Package>, id: string, patch: PackagePatch): (r: (seq<Package>, Option<Package>))
    ensures r.1.None? <==> id !in Ids(store)
    ensures r.1.None? ==> r.0 == store
    ensures |r.0| == |store|
    ensures r.1.Some? ==> IndexOf(store, id).Some?
                          && r.1.value == Merge(store[IndexOf(store, id).value], patch)
                          && r.0 == store[IndexOf(store, id).value := r.1.value]
  {
    match IndexOf(store, id)
    case None => (store, None)
    case Some(i) =>
      var merged := Merge(store[i], patch);
      (store[i := merged], Some(merged))
  }

  /** `remove`: NotFound for an absent id; otherwise the first match is spliced out. */
  function Remove(store: seq<Package>, id: string): (r: Result<seq<Package>, PackageError>)
    ensures r.Failure? <==> id !in Ids(store)
    ensures r.Failure? ==> r.error == PackageNotFound
    ensures r.Success? ==> |r.value| == |store| - 1
  {
    match IndexOf(store, id)
    case None => Failure(PackageNotFound)
    case Some(i) => Success(store[..i] + store[i + 1..])
  }

  // Store properties

  /** A package created under an unused id is found under that id. */
  lemma CreateThenFind(store: seq<Package>, input: PackageInput, newId: string)
    requires newId !in Ids(store)
    ensures FindOne(Create(store, input, newId).store, newId) == Some(Create(store, input, newId).pkg)
  {
    var r := Create(store, input, newId);
    IndexAfterAppend(store, r.pkg, newId);
  }

  lemma IndexAfterAppend(store: seq<Package>, p: Package, id: string)
    requires id !in Ids(store) && p.id == id
    ensures IndexOf(store + [p], id) == Some(|store|)
  {
    var s := store + [p];
    forall k | 0 <= k < |store|
      ensures s[k].id != id
    {
      assert Ids(store)[k] == s[k].id;
    }
    IndexOfFirstMatch(s, id, |store|);
  }

  /** Removing what was just created under an unused id restores the store. */
  lemma RemoveUndoesCreate(store: seq<Package>, input: PackageInput, newId: string)
    requires newId !in Ids(store)
    ensures Remove(Create(store, input, newId).store, newId) == Success(store)
  {
    var s := Create(store, input, newId).store;
    IndexAfterAppend(store, Create(store, input, newId).pkg, newId);
    assert s[..|store|] + s[|store| + 1..] == store;
  }

  /** `update` writes at the first match only: that position now holds the
      merged record, which `findOne` returns, and every other position is untouched. */
  lemma UpdateTouchesOneRecord(store: seq<Package>, id: string, patch: PackagePatch, j: nat)
    requires id in Ids(store)
    requires j < |store|
    ensures var (s, r) := Update(store, id, patch);
            && r.Some? && r.value == Merge(FindOne(store, id).value, patch)
            && FindOne(s, id) == r
            && (j != IndexOf(store, id).value ==> s[j] == store[j])
  {
    var i := IndexOf(store, id).value;
    var s := store[i := Merge(store[i], patch)];
    assert IndexOf(s, id) == Some(i) by {
      forall k | 0 <= k < i
        ensures s[k].id != id
      {
        assert s[k] == store[k];
      }
      IndexOfFirstMatch(s, id, i);
    }
  }

  /** Any position that holds the id and has no earlier holder is `findIndex`'s answer. */
  lemma IndexOfFirstMatch(store: seq<Package>, id: string, i: nat)
    requires i < |store| && store[i].id == id
    requires forall k :: 0 <= k < i ==> store[k].id != id
    ensures IndexOf(store, id) == Some(i)
  {
    assert Ids(store)[i] == id;
    var k := IndexOf(store, id).value;
    assert store[k].id == id;
    assert !(k < i);
    assert !(i < k);
  }

  /** An empty patch leaves the record as it was. */
  lemma EmptyPatchChangesNothing(store: seq<Package>, id: string)
    ensures Update(store, id, PackagePatch(None, None, None)).0 == store
  {
    match IndexOf(store, id)
    case None =>
    case Some(i) =>
      assert store[i := Merge(store[i], PackagePatch(None, None, None))] == store;
  }

  /** `remove` keeps the packages before the match in place and shifts the
      ones after it down by one, and it removes exactly one copy. */
  lemma RemoveKeepsTheRestInOrder(store: seq<Package>, id: string)
    requires id in Ids(store)
    ensures var i := IndexOf(store, id).value;
            var r := Remove(store, id).value;
            && (forall j :: 0 <= j < i ==> r[j] == store[j])
            && (forall j :: i <= j < |r| ==> r[j] == store[j + 1])
            && multiset(r) + multiset{store[i]} == multiset(store)
  {
    var i := IndexOf(store, id).value;
    assert Remove(store, id).value == store[..i] + store[i + 1..];
    Splice(store, i);
  }

  /** Positions after splicing out position `i`. */
  lemma Splice(store: seq<Package>, i: nat)
    requires i < |store|
    ensures var r := store[..i] + store[i + 1..];
            && (forall j :: 0 <= j < i ==> r[j] == store[j])
            && (forall j :: i <= j < |r| ==> r[j] == store[j + 1])
            && multiset(r) + multiset{store[i]} == multiset(store)
  {
    var r := store[..i] + store[i + 1..];
    forall j | i <= j < |r|
      ensures r[j] == store[j + 1]
    {
      assert r[j] == store[i + 1..][j - i];
    }
    assert store == store[..i] + [store[i]] + store[i + 1..];
  }

  /** When ids are unique, nothing with the id is left after `remove`. */
  lemma RemoveThenFindNothing(store: seq<Package>, id: string)
    requires id in Ids(store)
    requires forall i, j :: 0 <= i < j < |store| ==> store[i].id != store[j].id
    ensures FindOne(Remove(store, id).value, id).None?
  {
    var i := IndexOf(store, id).value;
    var r := Remove(store, id).value;
    RemoveKeepsTheRestInOrder(store, id);
    forall k | 0 <= k < |r|
      ensures r[k].id != id
    {
      if k < i {
        assert r[k] == store[k];
      } else {
        assert r[k] == store[k + 1];
      }
    }
    assert id !in Ids(r);
  }

  // ---------------------------------------------------------------------------
  // calculateProfit

  /** The code reads each expense value as a percentage of the price; the
      tests and the response's documentation read it as a dollar amount. */
  datatype ExpenseReading = PercentOfPrice | DollarAmount

  datatype ProfitReport = ProfitReport(packageName: string, price: real, expenses: seq<Expense>,
                                       totalExpenses: real, profit: real)

  /** The amount an expense value stands for under a reading. */
  function Amount(reading: ExpenseReading, price: real, value: real): real {
    match reading
    case PercentOfPrice => Share(value, price)
    case DollarAmount => value
  }

  /** `(percent / 100) * price`. */
  function Share(percent: real, price: real): real {
    (percent / 100.0) * price
  }

  /** `calculatedExpenses`: each category with its amount, in entry order. */
  function Costs(reading: ExpenseReading, price: real, es: seq<Expense>): (r: seq<Expense>)
    ensures |r| == |es|
    ensures forall i :: 0 <= i < |es| ==> r[i] == Expense(es[i].category, Amount(reading, price, es[i].value))
    decreases |es|
  {
    if es == [] then []
    else Costs(reading, price, es[..|es| - 1]) + [Expense(es[|es| - 1].category, Amount(reading, price, es[|es| - 1].value))]
  }

  /** The running `totalExpenses += amount` over entries in order. */
  function Total(es: seq<Expense>): real
    decreases |es|
  {
    if es == [] then 0.0 else Total(es[..|es| - 1]) + es[|es| - 1].value
  }

  /** The categories of a sequence of entries. */
  function Categories(es: seq<Expense>): (r: seq<string>)
    ensures |r| == |es| && forall i :: 0 <= i < |es| ==> r[i] == es[i].category
  {
    seq(|es|, i requires 0 <= i < |es| => es[i].category)
  }

  /** `calculateProfit` under a reading of the expense values. */
  function CalculateProfit(store: seq<Package>, id: string, reading: ExpenseReading): (r: Result<ProfitReport, PackageError>)
    ensures r.Failure? <==> id !in Ids(store)
    ensures r.Failure? ==> r.error == PackageNotFound
    ensures r.Success? ==>
              var pkg := FindOne(store, id).value;
              && r.value.packageName == pkg.packageName
              && r.value.price == pkg.price
              && Categories(r.value.expenses) == Categories(pkg.expenses)
              && (forall i :: 0 <= i < |pkg.expenses| ==>
                    r.value.expenses[i].value == Amount(reading, pkg.price, pkg.expenses[i].value))
              && r.value.profit == pkg.price - r.value.totalExpenses
  {
    match FindOne(store, id)
    case None => Failure(PackageNotFound)
    case Some(pkg) =>
      var costs := Costs(reading, pkg.price, pkg.expenses);
      var total := Total(costs);
      Success(ProfitReport(pkg.packageName, pkg.price, costs, total, pkg.price - total))
  }

  /** Sum of the raw values: the reference for the dollar reading. */
  function ValueSum(es: seq<Expense>): real
    decreases |es|
  {
    if es == [] then 0.0 else es[0].value + ValueSum(es[1..])
  }

  lemma {:induction false} ValueSumSnoc(es: seq<Expense>, e: Expense)
    ensures ValueSum(es + [e]) == ValueSum(es) + e.value
    decreases |es|
  {
    if es != [] {
      assert (es + [e])[1..] == es[1..] + [e];
      ValueSumSnoc(es[1..], e);
    } else {
      assert [e][1..] == [];
    }
  }

  /** Under the dollar reading the costs are the values themselves and the
      total is their sum. */
  lemma {:induction false} DollarTotalIsValueSum(price: real, es: seq<Expense>)
    ensures Costs(DollarAmount, price, es) == es
    ensures Total(Costs(DollarAmount, price, es)) == ValueSum(es)
    decreases |es|
  {
    if es != [] {
      var init := es[..|es| - 1];
      DollarTotalIsValueSum(price, init);
      ValueSumSnoc(init, es[|es| - 1]);
      assert init + [es[|es| - 1]] == es;
    }
  }

  /** Under the percentage reading the total is the price times the summed
      percentages over 100. */
  lemma {:induction false} PercentTotalIsShareOfPrice(price: real, es: seq<Expense>)
    ensures Total(Costs(PercentOfPrice, price, es)) == Share(ValueSum(es), price)
    decreases |es|
  {
    if es != [] {
      var init := es[..|es| - 1];
      var last := es[|es| - 1];
      PercentTotalIsShareOfPrice(price, init);
      CostsTotalSnoc(PercentOfPrice, price, es);
      ValueSumSnoc(init, last);
      assert init + [last] == es;
      ShareDistributes(ValueSum(init), last.value, price);
    }
  }

  /** The last entry adds its amount to the running total. */
  lemma CostsTotalSnoc(reading: ExpenseReading, price: real, es: seq<Expense>)
    requires es != []
    ensures Total(Costs(reading, price, es))
            == Total(Costs(reading, price, es[..|es| - 1])) + Amount(reading, price, es[|es| - 1].value)
  {
    var c := Costs(reading, price, es);
    assert c[..|c| - 1] == Costs(reading, price, es[..|es| - 1]);
  }

  lemma ShareDistributes(a: real, b: real, price: real)
    ensures Share(a + b, price) == Share(a, price) + Share(b, price)
  {
  }

  /** The total under each reading, for any stored package: the summed values
      for dollars, that share of the price for percentages. */
  lemma TotalUnderEachReading(store: seq<Package>, id: string)
    requires id in Ids(store)
    ensures var pkg := FindOne(store, id).value;
            && CalculateProfit(store, id, DollarAmount).value.totalExpenses == ValueSum(pkg.expenses)
            && CalculateProfit(store, id, PercentOfPrice).value.totalExpenses == Share(ValueSum(pkg.expenses), pkg.price)
  {
    var pkg := FindOne(store, id).value;
    DollarTotalIsValueSum(pkg.price, pkg.expenses);
    PercentTotalIsShareOfPrice(pkg.price, pkg.expenses);
  }

  /** The profit has no floor: expenses above the price give a negative
      profit. This follows in one step from the profit clause of
      `CalculateProfit`; it is kept as a record of the missing floor. */
  lemma ProfitCanBeNegative(store: seq<Package>, id: string, reading: ExpenseReading)
    requires id in Ids(store)
    ensures var pkg := FindOne(store, id).value;
            var r := CalculateProfit(store, id, reading).value;
            r.profit < 0.0 <==> r.totalExpenses > pkg.price
  {
  }

  /** The dollar reading reproduces the unit-test fixture: price 1000 with
      100, 500 and 200 gives expenses 800 and profit 200. */
  lemma DollarReadingUnitExample(store: seq<Package>)
    requires store == [Package("package1", "Premium Package", 1000.0,
                               [Expense("infrastructure", 100.0), Expense("teacher", 500.0), Expense("marketing", 200.0)])]
    ensures CalculateProfit(store, "package1", DollarAmount)
            == Success(ProfitReport("Premium Package", 1000.0,
                                    [Expense("infrastructure", 100.0), Expense("teacher", 500.0), Expense("marketing", 200.0)],
                                    800.0, 200.0))
  {
    var es := store[0].expenses;
    DollarTotalIsValueSum(1000.0, es);
    assert es[1..][1..] == [es[2]] && [es[2]][1..] == [];
  }

  /** The dollar reading reproduces the end-to-end fixture: price 1200 with
      150 and 600 gives expenses 750 and profit 450. */
  lemma DollarReadingEndToEndExample(pkg: Package)
    requires pkg.price == 1200.0 && pkg.expenses == [Expense("infrastructure", 150.0), Expense("teacher", 600.0)]
    ensures CalculateProfit([pkg], pkg.id, DollarAmount).value.totalExpenses == 750.0
    ensures CalculateProfit([pkg], pkg.id, DollarAmount).value.profit == 450.0
  {
    var es := pkg.expenses;
    DollarTotalIsValueSum(1200.0, es);
    assert FindOne([pkg], pkg.id) == Some(pkg);
    assert es[1..][0] == es[1] && es[1..][1..] == [];
    assert ValueSum(es[1..]) == 600.0;
  }

  /** The percentage reading, which is what the code computes, gives the
      unit-test fixture expenses of 8000 and a profit of -7000. */
  lemma PercentReadingUnitExample(store: seq<Package>)
    requires store == [Package("package1", "Premium Package", 1000.0,
                               [Expense("infrastructure", 100.0), Expense("teacher", 500.0), Expense("marketing", 200.0)])]
    ensures CalculateProfit(store, "package1", PercentOfPrice).value.totalExpenses == 8000.0
    ensures CalculateProfit(store, "package1", PercentOfPrice).value.profit == -7000.0
    ensures CalculateProfit(store, "package1", PercentOfPrice).value.expenses
            == [Expense("infrastructure", 1000.0), Expense("teacher", 5000.0), Expense("marketing", 2000.0)]
  {
    var es := store[0].expenses;
    PercentTotalIsShareOfPrice(1000.0, es);
    assert es[1..][1..] == [es[2]] && [es[2]][1..] == [];
  }

  /** Percentages that sum to 80 leave a fifth of the price as profit. */
  lemma PercentReadingShareExample(pkg: Package)
    requires pkg.expenses == [Expense("infrastructure", 10.0), Expense("teacher", 50.0), Expense("marketing", 20.0)]
    ensures CalculateProfit([pkg], pkg.id, PercentOfPrice).value.profit == pkg.price / 5.0
  {
    var es := pkg.expenses;
    PercentTotalIsShareOfPrice(pkg.price, es);
    assert FindOne([pkg], pkg.id) == Some(pkg);
    assert es[1..][1..] == [es[2]] && [es[2]][1..] == [];
    assert ValueSum([es[2]]) == 20.0;
    assert ValueSum(es[1..]) == 70.0;
  }
}
