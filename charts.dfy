/**
 * The statistics screen (components/Charts.tsx): the expense and income
 * totals, the per-category expense record and its top-four ranking, and the
 * headline net figure.
 */
module Charts {
  import opened Wrappers
  import opened Types
  import opened Seqs
  import opened Sorting
  import opened Ledger

  predicate IsTransfer(tx: Transaction) { tx.kind == Transfer }

  /** `totalExpense`: every expense amount, refunds (negative amounts) included. */
  function TotalExpense(txs: seq<Transaction>): int {
    Sum(Filter(txs, IsExpense), Amount)
  }

  /** `totalIncome`: income amounts only. */
  function TotalIncome(txs: seq<Transaction>): int {
    Sum(Filter(txs, IsIncome), Amount)
  }

  /** The transfer amounts, which neither total counts. */
  function TotalTransfer(txs: seq<Transaction>): int {
    Sum(Filter(txs, IsTransfer), Amount)
  }

  lemma FilterCons(tx: Transaction, txs: seq<Transaction>, p: Transaction -> bool)
    ensures Filter([tx] + txs, p) == (if p(tx) then [tx] else []) + Filter(txs, p)
  {
    assert ([tx] + txs)[0] == tx;
    assert ([tx] + txs)[1..] == txs;
  }

  lemma SumOfFilterCons(tx: Transaction, txs: seq<Transaction>, p: Transaction -> bool)
    ensures Sum(Filter([tx] + txs, p), Amount) == (if p(tx) then tx.amount else 0) + Sum(Filter(txs, p), Amount)
  {
    FilterCons(tx, txs, p);
    SumAppend(if p(tx) then [tx] else [], Filter(txs, p), Amount);
  }

  /**
   * The three totals split the dashboard balance: income and transfers add,
   * expenses subtract, so every transaction is counted once.
   */
  lemma {:induction false} BalanceByType(txs: seq<Transaction>)
    ensures Balance(txs) == TotalIncome(txs) + TotalTransfer(txs) - TotalExpense(txs)
  {
    if txs != [] {
      var tx, rest := txs[0], txs[1..];
      assert txs == [tx] + rest;
      BalanceByType(rest);
      BalanceOfPrepend(tx, rest);
      SumOfFilterCons(tx, rest, IsExpense);
      SumOfFilterCons(tx, rest, IsIncome);
      SumOfFilterCons(tx, rest, IsTransfer);
    }
  }

  /** A refund lowers the expense total: 10 yuan spent and 3 yuan refunded make 7 yuan. */
  lemma RefundLowersTotalExpense()
    ensures var spent := Transaction("1", 1000, Expense, "Food", "", 0, 0, None);
      var refund := Transaction("2", -300, Expense, "Food", "退款", 0, 0, Some(["退款"]));
      TotalExpense([spent, refund]) == 700 && TotalIncome([spent, refund]) == 0
  {
    var spent := Transaction("1", 1000, Expense, "Food", "", 0, 0, None);
    var refund := Transaction("2", -300, Expense, "Food", "退款", 0, 0, Some(["退款"]));
    SumOfFilterCons(spent, [refund], IsExpense);
    SumOfFilterCons(refund, [], IsExpense);
    SumOfFilterCons(spent, [refund], IsIncome);
    SumOfFilterCons(refund, [], IsIncome);
    assert [spent] + [refund] == [spent, refund];
    assert [refund] + [] == [refund];
  }

  /** The headline figure: income minus expense on top of a fixed 15000 yuan. */
  function NetFigure(txs: seq<Transaction>): int {
    TotalIncome(txs) - TotalExpense(txs) + 1500000
  }

  /** The headline figure is the balance without transfers, plus the fixed base. */
  lemma NetFigureIsBalanceWithoutTransfers(txs: seq<Transaction>)
    ensures NetFigure(txs) == Balance(txs) - TotalTransfer(txs) + 1500000
  {
    BalanceByType(txs);
  }

  // ---------------------------------------------------------------- expenses by category

  /** A `[category, total]` pair of the record. */
  type Entry = (string, int)

  function TotalOf(e: Entry): int { e.1 }

  /** `acc[category] || 0`. */
  function Lookup(acc: seq<Entry>, k: string): int {
    if acc == [] then 0 else if acc[0].0 == k then acc[0].1 else Lookup(acc[1..], k)
  }

  /** `acc[category] = (acc[category] || 0) + amount`: a known key is updated in place, a new key goes last. */
  function Tally(acc: seq<Entry>, k: string, amount: int): (r: seq<Entry>)
    ensures Keys(r) == if k in Keys(acc) then Keys(acc) else Keys(acc) + [k]
  {
    if acc == [] then [(k, amount)]
    else if acc[0].0 == k then [(k, acc[0].1 + amount)] + acc[1..]
    else
      assert k in Keys(acc) <==> k in Keys(acc[1..]);
      [acc[0]] + Tally(acc[1..], k, amount)
  }

  /** Only expenses with a positive amount enter the record. */
  predicate Counted(tx: Transaction) { tx.kind == Expense && tx.amount > 0 }

  /** The reduce over `transactions`. */
  function Accumulate(acc: seq<Entry>, txs: seq<Transaction>): seq<Entry>
    decreases |txs|
  {
    if txs == [] then acc
    else Accumulate(if Counted(txs[0]) then Tally(acc, txs[0].category, txs[0].amount) else acc, txs[1..])
  }

  /** `expensesByCategory`. */
  function ExpensesByCategory(txs: seq<Transaction>): seq<Entry> {
    Accumulate([], txs)
  }

  /** The total a category should have: its counted expenses. */
  function CategorySum(txs: seq<Transaction>, k: string): int {
    if txs == [] then 0
    else (if Counted(txs[0]) && txs[0].category == k then txs[0].amount else 0) + CategorySum(txs[1..], k)
  }

  /** The sum of all counted expenses. */
  function PositiveExpense(txs: seq<Transaction>): int {
    if txs == [] then 0 else (if Counted(txs[0]) then txs[0].amount else 0) + PositiveExpense(txs[1..])
  }

  function SumTotals(acc: seq<Entry>): int {
    if acc == [] then 0 else acc[0].1 + SumTotals(acc[1..])
  }

  predicate AllPositive(acc: seq<Entry>) {
    forall i :: 0 <= i < |acc| ==> acc[i].1 > 0
  }

  lemma {:induction false} TallyLookup(acc: seq<Entry>, k: string, amount: int, q: string)
    ensures Lookup(Tally(acc, k, amount), q) == Lookup(acc, q) + (if q == k then amount else 0)
  {
    if acc != [] && acc[0].0 != k {
      TallyLookup(acc[1..], k, amount, q);
    }
  }

  lemma {:induction false} TallySum(acc: seq<Entry>, k: string, amount: int)
    ensures SumTotals(Tally(acc, k, amount)) == SumTotals(acc) + amount
  {
    if acc != [] && acc[0].0 != k {
      TallySum(acc[1..], k, amount);
    }
  }

  lemma {:induction false} TallyPositive(acc: seq<Entry>, k: string, amount: int)
    requires AllPositive(acc) && amount > 0
    ensures AllPositive(Tally(acc, k, amount))
  {
    if acc != [] && acc[0].0 != k {
      TallyPositive(acc[1..], k, amount);
    }
  }

  lemma DistinctAppend(ks: seq<string>, k: string)
    requires Distinct(ks) && k !in ks
    ensures Distinct(ks + [k])
  {
  }

  lemma {:induction false} LookupAbsent(acc: seq<Entry>, k: string)
    requires k !in Keys(acc)
    ensures Lookup(acc, k) == 0
  {
    if acc != [] {
      assert Keys(acc)[0] == acc[0].0;
      assert Keys(acc[1..]) == Keys(acc)[1..];
      LookupAbsent(acc[1..], k);
    }
  }

  lemma {:induction false} LookupPositive(acc: seq<Entry>, k: string)
    requires AllPositive(acc) && k in Keys(acc)
    ensures Lookup(acc, k) > 0
  {
    if acc[0].0 != k {
      assert Keys(acc)[0] == acc[0].0;
      assert Keys(acc[1..]) == Keys(acc)[1..];
      LookupPositive(acc[1..], k);
    }
  }

  /** What the reduce keeps for every category, its keys and the sum of its totals. */
  lemma {:induction false} AccumulateSpec(acc: seq<Entry>, txs: seq<Transaction>, q: string)
    requires Distinct(Keys(acc)) && AllPositive(acc)
    decreases |txs|
    ensures Lookup(Accumulate(acc, txs), q) == Lookup(acc, q) + CategorySum(txs, q)
    ensures SumTotals(Accumulate(acc, txs)) == SumTotals(acc) + PositiveExpense(txs)
    ensures Distinct(Keys(Accumulate(acc, txs))) && AllPositive(Accumulate(acc, txs))
  {
    if txs != [] {
      var tx := txs[0];
      if Counted(tx) {
        var next := Tally(acc, tx.category, tx.amount);
        TallyLookup(acc, tx.category, tx.amount, q);
        TallySum(acc, tx.category, tx.amount);
        TallyPositive(acc, tx.category, tx.amount);
        if tx.category !in Keys(acc) {
          DistinctAppend(Keys(acc), tx.category);
        }
        AccumulateSpec(next, txs[1..], q);
      } else {
        AccumulateSpec(acc, txs[1..], q);
      }
    }
  }

  /**
   * The record holds each category once, with the sum of its positive
   * expenses as its total; a category is in the record exactly when that
   * sum is positive, and the totals add up to all positive expenses.
   */
  lemma ExpensesByCategorySpec(txs: seq<Transaction>, q: string)
    ensures Distinct(Keys(ExpensesByCategory(txs)))
    ensures AllPositive(ExpensesByCategory(txs))
    ensures Lookup(ExpensesByCategory(txs), q) == CategorySum(txs, q)
    ensures q in Keys(ExpensesByCategory(txs)) <==> CategorySum(txs, q) > 0
    ensures SumTotals(ExpensesByCategory(txs)) == PositiveExpense(txs)
  {
    AccumulateSpec([], txs, q);
    var r := ExpensesByCategory(txs);
    if q in Keys(r) {
      LookupPositive(r, q);
    } else {
      LookupAbsent(r, q);
    }
  }

  // ---------------------------------------------------------------- ranking

  function Min(a: int, b: int): int { if a <= b then a else b }

  /** The entries `topCategories` shows: the record sorted by total, largest first, cut to four. */
  function TopCategories(entries: seq<Entry>): (r: seq<Entry>)
    ensures |r| == Min(4, |entries|)
    ensures Descending(r, TotalOf)
    ensures forall i :: 0 <= i < |r| ==> r[i] in entries
  {
    var sorted := SortDescending(entries, TotalOf);
    assert forall i :: 0 <= i < |sorted| ==> sorted[i] in multiset(entries);
    sorted[..Min(4, |entries|)]
  }

  /** The entries the ranking leaves out. */
  function Omitted(entries: seq<Entry>): seq<Entry> {
    SortDescending(entries, TotalOf)[Min(4, |entries|)..]
  }

  /**
   * The ranking and what it omits are together the whole record, and every
   * ranked entry's total is at least every omitted entry's total.
   */
  lemma TopCategoriesAreTheLargest(entries: seq<Entry>)
    ensures multiset(TopCategories(entries)) + multiset(Omitted(entries)) == multiset(entries)
    ensures forall i, j :: 0 <= i < |TopCategories(entries)| && 0 <= j < |Omitted(entries)| ==>
      TotalOf(TopCategories(entries)[i]) >= TotalOf(Omitted(entries)[j])
  {
    var sorted := SortDescending(entries, TotalOf);
    var n := Min(4, |entries|);
    assert sorted == sorted[..n] + sorted[n..];
    forall i, j | 0 <= i < n && 0 <= j < |sorted| - n
      ensures TotalOf(sorted[..n][i]) >= TotalOf(sorted[n..][j])
    {
      assert sorted[..n][i] == sorted[i] && sorted[n..][j] == sorted[n + j];
    }
  }

  /** Categories with equal totals keep the order in which they first appeared. */
  lemma TopCategoriesStable(entries: seq<Entry>, v: int)
    ensures WithKey(SortDescending(entries, TotalOf), TotalOf, v) == WithKey(entries, TotalOf, v)
  {
    SortIsStable(entries, TotalOf, v);
  }
}
