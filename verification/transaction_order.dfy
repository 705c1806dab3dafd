/** The ordering `find(query).sort({ field: ±1 })` applies to transactions:
    one key per sort field, ascending or descending, with ties allowed.
    `Sort` is one concrete sort that respects it; the database may order
    ties differently, so the properties below are the ones any correct
    sort shares (sorted, a permutation of its input). */
module TransactionOrder {
  import opened Text
  import opened TransactionsEntity
  import opened TransactionFilterDto

  datatype SortSpec = SortSpec(field: SortField, order: SortOrder)

  /** `x`'s key is at most `y`'s key on the given field. */
  predicate KeyLeq(field: SortField, x: Transaction, y: Transaction) {
    match field
    case ByTransactionDate => x.transactionDate <= y.transactionDate
    case ByAmount => x.amount <= y.amount
    case ByName => LexLeq(x.name, y.name)
    case ByCreatedAt => x.createdAt <= y.createdAt
  }

  /** `x` may be listed before `y`: its key is not after `y`'s in the requested direction. */
  predicate Precedes(spec: SortSpec, x: Transaction, y: Transaction) {
    if spec.order == Asc then KeyLeq(spec.field, x, y) else KeyLeq(spec.field, y, x)
  }

  lemma PrecedesTotal(spec: SortSpec, x: Transaction, y: Transaction)
    ensures Precedes(spec, x, y) || Precedes(spec, y, x)
  {
    if spec.field == ByName {
      LexLeqTotal(x.name, y.name);
    }
  }

  lemma PrecedesTransitive(spec: SortSpec, x: Transaction, y: Transaction, z: Transaction)
    requires Precedes(spec, x, y) && Precedes(spec, y, z)
    ensures Precedes(spec, x, z)
  {
    if spec.field == ByName {
      if spec.order == Asc {
        LexLeqTransitive(x.name, y.name, z.name);
      } else {
        LexLeqTransitive(z.name, y.name, x.name);
      }
    }
  }

  predicate Sorted(spec: SortSpec, s: seq<Transaction>) {
    forall i, j :: 0 <= i < j < |s| ==> Precedes(spec, s[i], s[j])
  }

  /** `x` may precede every element of `s`. */
  predicate PrecedesAll(spec: SortSpec, x: Transaction, s: seq<Transaction>) {
    forall j :: 0 <= j < |s| ==> Precedes(spec, x, s[j])
  }

  lemma SortedCons(spec: SortSpec, x: Transaction, s: seq<Transaction>)
    requires Sorted(spec, s) && PrecedesAll(spec, x, s)
    ensures Sorted(spec, [x] + s)
  {
    var r := [x] + s;
    forall i, j | 0 <= i < j < |r|
      ensures Precedes(spec, r[i], r[j])
    {
      assert r[j] == s[j - 1];
      if i > 0 {
        assert r[i] == s[i - 1];
      }
    }
  }

  lemma SortedUncons(spec: SortSpec, s: seq<Transaction>)
    requires Sorted(spec, s) && s != []
    ensures Sorted(spec, s[1..]) && PrecedesAll(spec, s[0], s[1..])
  {
    forall i, j | 0 <= i < j < |s[1..]|
      ensures Precedes(spec, s[1..][i], s[1..][j])
    {
      assert s[1..][i] == s[i + 1] && s[1..][j] == s[j + 1];
    }
    forall j | 0 <= j < |s[1..]|
      ensures Precedes(spec, s[0], s[1..][j])
    {
      assert s[1..][j] == s[j + 1];
    }
  }

  /** An element that may precede all of `s` may precede any rearrangement of part of `s`. */
  lemma PrecedesAllPermutation(spec: SortSpec, y: Transaction, s: seq<Transaction>, r: seq<Transaction>)
    requires PrecedesAll(spec, y, s)
    requires multiset(r) <= multiset(s)
    ensures PrecedesAll(spec, y, r)
  {
    forall j | 0 <= j < |r|
      ensures Precedes(spec, y, r[j])
    {
      assert r[j] in multiset(r);
      var k :| 0 <= k < |s| && s[k] == r[j];
    }
  }

  /** Places `x` before the first element it may precede. */
  function Insert(spec: SortSpec, x: Transaction, s: seq<Transaction>): (r: seq<Transaction>)
    ensures multiset(r) == multiset(s) + multiset{x}
    decreases |s|
  {
    if s == [] then [x]
    else if Precedes(spec, x, s[0]) then [x] + s
    else
      assert s == [s[0]] + s[1..];
      [s[0]] + Insert(spec, x, s[1..])
  }

  lemma {:induction false} InsertSorted(spec: SortSpec, x: Transaction, s: seq<Transaction>)
    requires Sorted(spec, s)
    ensures Sorted(spec, Insert(spec, x, s))
    decreases |s|
  {
    if s == [] {
    } else if Precedes(spec, x, s[0]) {
      SortedUncons(spec, s);
      forall j | 0 <= j < |s|
        ensures Precedes(spec, x, s[j])
      {
        if j > 0 {
          assert s[j] == s[1..][j - 1];
          PrecedesTransitive(spec, x, s[0], s[j]);
        }
      }
      SortedCons(spec, x, s);
    } else {
      PrecedesTotal(spec, x, s[0]);
      SortedUncons(spec, s);
      InsertSorted(spec, x, s[1..]);
      var rest := Insert(spec, x, s[1..]);
      PrecedesAllPermutation(spec, s[0], s[1..] + [x], rest);
      SortedCons(spec, s[0], rest);
    }
  }

  lemma SplitFirst(s: seq<Transaction>)
    requires s != []
    ensures multiset(s) == multiset(s[1..]) + multiset{s[0]}
  {
    assert s == [s[0]] + s[1..];
  }

  /** Insertion sort: a sorted permutation of its input. */
  function Sort(spec: SortSpec, s: seq<Transaction>): (r: seq<Transaction>)
    ensures multiset(r) == multiset(s)
    ensures |r| == |s|
    ensures Sorted(spec, r)
    decreases |s|
  {
    if s == [] then []
    else
      var rest := Sort(spec, s[1..]);
      InsertSorted(spec, s[0], rest);
      SplitFirst(s);
      Insert(spec, s[0], rest)
  }

  /** An input already in order is returned unchanged, so equal keys keep
      their relative order when nothing else forces a move. */
  lemma {:induction false} SortKeepsSortedInput(spec: SortSpec, s: seq<Transaction>)
    requires Sorted(spec, s)
    ensures Sort(spec, s) == s
    decreases |s|
  {
    if s != [] {
      SortedUncons(spec, s);
      SortKeepsSortedInput(spec, s[1..]);
      if |s| > 1 {
        assert Precedes(spec, s[0], s[1..][0]);
      }
      assert [s[0]] + s[1..] == s;
    }
  }
}
