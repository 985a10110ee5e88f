/**
 * The bill list (components/TransactionList.tsx): the category icon, the
 * grouping of transactions by day, the order of the days, the per-day
 * totals in each header and the sign shown before each amount.
 *
 * `dayOf` stands for `new Date(date).toLocaleDateString()` and `dayTime`
 * for `new Date(day).getTime()`.
 */
module TxList {
  import opened Wrappers
  import opened Types
  import opened Format
  import opened Seqs
  import opened Sorting
  import opened Ledger

  datatype Icon = Coffee | ShoppingBag | Home | Zap | DollarSign | TrendingUp | MoreHorizontal

  /** ASCII lower case of one character. */
  function LowerChar(c: char): char {
    if 'A' <= c <= 'Z' then c - 'A' + 'a' else c
  }

  /** ASCII lower case, letter by letter. */
  function Lower(s: string): (r: string)
    ensures |r| == |s|
    ensures forall i :: 0 <= i < |s| ==> r[i] == LowerChar(s[i])
  {
    seq(|s|, i requires 0 <= i < |s| => LowerChar(s[i]))
  }

  /** `getIcon`: the switch over the lower-cased category. */
  function GetIcon(category: string): (icon: Icon) {
    match Lower(category)
    case "food" => Coffee
    case "shopping" => ShoppingBag
    case "housing" => Home
    case "transport" => Zap
    case "salary" => DollarSign
    case "investment" => TrendingUp
    case _ => MoreHorizontal
  }

  /** The six names the switch knows. */
  const IconNames: set<string> := {"food", "shopping", "housing", "transport", "salary", "investment"}

  /** A category gets a specific icon exactly when its lower-case form is one of the six names. */
  lemma GetIconRecognises(category: string)
    ensures GetIcon(category) != MoreHorizontal <==> Lower(category) in IconNames
  {
  }

  /** The lookup ignores case: lower-casing first changes nothing. */
  lemma GetIconIgnoresCase(category: string)
    ensures Lower(Lower(category)) == Lower(category)
    ensures GetIcon(Lower(category)) == GetIcon(category)
  {
    assert Lower(Lower(category)) == Lower(category);
  }

  /** The icon each built-in category shows. */
  function CategoryIcon(c: Category): Icon {
    match c
    case Food => Coffee
    case Transport => Zap
    case Shopping => ShoppingBag
    case Housing => Home
    case Salary => DollarSign
    case Investment => TrendingUp
    case Other => MoreHorizontal
  }

  /** Each built-in category's stored string gets its icon; "Other" has none of its own, the rest each a distinct one. */
  lemma GetIconOfCategory(c: Category, d: Category)
    ensures GetIcon(CategoryValue(c)) == CategoryIcon(c)
    ensures CategoryIcon(c) == MoreHorizontal <==> c == Other
    ensures c != d ==> CategoryIcon(c) != CategoryIcon(d)
  {
    match c
    case Food => FoodIcon();
    case Transport => TransportIcon();
    case Shopping => ShoppingIcon();
    case Housing => HousingIcon();
    case Salary => SalaryIcon();
    case Investment => InvestmentIcon();
    case Other => OtherIcon();
  }

  lemma FoodIcon() ensures GetIcon("Food") == Coffee { IconOf("Food", "food"); }
  lemma TransportIcon() ensures GetIcon("Transport") == Zap { IconOf("Transport", "transport"); }
  lemma ShoppingIcon() ensures GetIcon("Shopping") == ShoppingBag { IconOf("Shopping", "shopping"); }
  lemma HousingIcon() ensures GetIcon("Housing") == Home { IconOf("Housing", "housing"); }
  lemma SalaryIcon() ensures GetIcon("Salary") == DollarSign { IconOf("Salary", "salary"); }
  lemma InvestmentIcon() ensures GetIcon("Investment") == TrendingUp { IconOf("Investment", "investment"); }
  lemma OtherIcon() ensures GetIcon("Other") == MoreHorizontal { IconOf("Other", "other"); }

  lemma IconOf(s: string, t: string)
    requires |s| == |t|
    requires forall i :: 0 <= i < |s| ==> t[i] == LowerChar(s[i])
    ensures GetIcon(s) == GetIcon(t) && Lower(t) == t
  {
    LowerOfName(s, t);
    LowerOfName(t, t);
  }

  /** Upper case is matched too. */
  lemma GetIconUpperCase()
    ensures GetIcon("FOOD") == Coffee && GetIcon("SALARY") == DollarSign
  {
    IconOf("FOOD", "food");
    IconOf("SALARY", "salary");
  }

  lemma LowerOfName(s: string, t: string)
    requires |s| == |t|
    requires forall i :: 0 <= i < |s| ==> t[i] == LowerChar(s[i])
    ensures Lower(s) == t
  {
  }

  // ---------------------------------------------------------------- grouping by day

  type Group = (string, seq<Transaction>)

  /** `grouped[day]`, read as empty when the day has no group. */
  function GroupOf(acc: seq<Group>, day: string): seq<Transaction> {
    if acc == [] then [] else if acc[0].0 == day then acc[0].1 else GroupOf(acc[1..], day)
  }

  /** `if (!acc[day]) acc[day] = []; acc[day].push(tx)`. */
  function Push(acc: seq<Group>, day: string, tx: Transaction): (r: seq<Group>)
    ensures Keys(r) == if day in Keys(acc) then Keys(acc) else Keys(acc) + [day]
  {
    if acc == [] then [(day, [tx])]
    else if acc[0].0 == day then [(day, acc[0].1 + [tx])] + acc[1..]
    else
      assert day in Keys(acc) <==> day in Keys(acc[1..]);
      [acc[0]] + Push(acc[1..], day, tx)
  }

  /** The reduce over `transactions`. */
  function GroupAll(acc: seq<Group>, txs: seq<Transaction>, dayOf: int -> string): seq<Group>
    decreases |txs|
  {
    if txs == [] then acc else GroupAll(Push(acc, dayOf(txs[0].date), txs[0]), txs[1..], dayOf)
  }

  /** `grouped`. */
  function Grouped(txs: seq<Transaction>, dayOf: int -> string): seq<Group> {
    GroupAll([], txs, dayOf)
  }

  /** The transactions dated on `day`, in list order. */
  function OnDay(txs: seq<Transaction>, dayOf: int -> string, day: string): (r: seq<Transaction>)
    ensures |r| <= |txs|
  {
    if txs == [] then []
    else (if dayOf(txs[0].date) == day then [txs[0]] else []) + OnDay(txs[1..], dayOf, day)
  }

  /** `OnDay` holds exactly the transactions of the list dated on that day. */
  lemma {:induction false} OnDayMembers(txs: seq<Transaction>, dayOf: int -> string, day: string)
    ensures forall tx :: tx in OnDay(txs, dayOf, day) <==> tx in txs && dayOf(tx.date) == day
  {
    if txs != [] {
      OnDayMembers(txs[1..], dayOf, day);
      assert txs == [txs[0]] + txs[1..];
    }
  }

  function TotalSize(acc: seq<Group>): int {
    if acc == [] then 0 else |acc[0].1| + TotalSize(acc[1..])
  }

  lemma {:induction false} PushGroupOf(acc: seq<Group>, day: string, tx: Transaction, q: string)
    ensures GroupOf(Push(acc, day, tx), q) == GroupOf(acc, q) + (if q == day then [tx] else [])
  {
    if acc != [] && acc[0].0 != day {
      PushGroupOf(acc[1..], day, tx, q);
    }
  }

  lemma {:induction false} PushSize(acc: seq<Group>, day: string, tx: Transaction)
    ensures TotalSize(Push(acc, day, tx)) == TotalSize(acc) + 1
  {
    if acc != [] && acc[0].0 != day {
      PushSize(acc[1..], day, tx);
    }
  }

  lemma {:induction false} GroupOfAbsent(acc: seq<Group>, q: string)
    requires q !in Keys(acc)
    ensures GroupOf(acc, q) == []
  {
    if acc != [] {
      assert Keys(acc[1..]) == Keys(acc)[1..];
      GroupOfAbsent(acc[1..], q);
    }
  }

  lemma Assoc(a: seq<Transaction>, b: seq<Transaction>, c: seq<Transaction>)
    ensures (a + b) + c == a + (b + c)
  {
  }

  lemma {:induction false} GroupAllGroups(acc: seq<Group>, txs: seq<Transaction>, dayOf: int -> string, q: string)
    decreases |txs|
    ensures GroupOf(GroupAll(acc, txs, dayOf), q) == GroupOf(acc, q) + OnDay(txs, dayOf, q)
  {
    if txs != [] {
      var tx, day := txs[0], dayOf(txs[0].date);
      PushGroupOf(acc, day, tx, q);
      GroupAllGroups(Push(acc, day, tx), txs[1..], dayOf, q);
      Assoc(GroupOf(acc, q), if q == day then [tx] else [], OnDay(txs[1..], dayOf, q));
    }
  }

  lemma {:induction false} GroupAllSize(acc: seq<Group>, txs: seq<Transaction>, dayOf: int -> string)
    decreases |txs|
    ensures TotalSize(GroupAll(acc, txs, dayOf)) == TotalSize(acc) + |txs|
  {
    if txs != [] {
      var tx, day := txs[0], dayOf(txs[0].date);
      PushSize(acc, day, tx);
      GroupAllSize(Push(acc, day, tx), txs[1..], dayOf);
    }
  }

  lemma {:induction false} GroupAllDays(acc: seq<Group>, txs: seq<Transaction>, dayOf: int -> string, q: string)
    requires Distinct(Keys(acc))
    decreases |txs|
    ensures Distinct(Keys(GroupAll(acc, txs, dayOf)))
    ensures q in Keys(GroupAll(acc, txs, dayOf)) <==> q in Keys(acc) || OnDay(txs, dayOf, q) != []
  {
    if txs != [] {
      var tx, day := txs[0], dayOf(txs[0].date);
      var next := Push(acc, day, tx);
      assert Distinct(Keys(next));
      GroupAllDays(next, txs[1..], dayOf, q);
    }
  }

  /**
   * Grouping puts every transaction in the group of its own day, keeps list
   * order inside a group, keys the groups by distinct days (exactly the days
   * that occur), and loses or repeats nothing.
   */
  lemma GroupedSpec(txs: seq<Transaction>, dayOf: int -> string, q: string)
    ensures Distinct(Keys(Grouped(txs, dayOf)))
    ensures GroupOf(Grouped(txs, dayOf), q) == OnDay(txs, dayOf, q)
    ensures q in Keys(Grouped(txs, dayOf)) <==> exists i :: 0 <= i < |txs| && dayOf(txs[i].date) == q
    ensures TotalSize(Grouped(txs, dayOf)) == |txs|
  {
    GroupAllGroups([], txs, dayOf, q);
    GroupAllSize([], txs, dayOf);
    GroupAllDays([], txs, dayOf, q);
    OnDayMembers(txs, dayOf, q);
    var on := OnDay(txs, dayOf, q);
    if exists i :: 0 <= i < |txs| && dayOf(txs[i].date) == q {
      var i :| 0 <= i < |txs| && dayOf(txs[i].date) == q;
      assert txs[i] in on;
    }
    if on != [] {
      assert on[0] in txs;
      var i :| 0 <= i < |txs| && txs[i] == on[0];
      assert dayOf(txs[i].date) == q;
    }
  }

  /** `sortedDates`: the days, latest first, ties in first-appearance order. */
  function SortedDays(txs: seq<Transaction>, dayOf: int -> string, dayTime: string -> int): (r: seq<string>)
    ensures multiset(r) == multiset(Keys(Grouped(txs, dayOf)))
    ensures Descending(r, dayTime)
  {
    SortDescending(Keys(Grouped(txs, dayOf)), dayTime)
  }

  /** Days with the same time keep the order of their first transaction. */
  lemma SortedDaysStable(txs: seq<Transaction>, dayOf: int -> string, dayTime: string -> int, t: int)
    ensures WithKey(SortedDays(txs, dayOf, dayTime), dayTime, t) == WithKey(Keys(Grouped(txs, dayOf)), dayTime, t)
  {
    SortIsStable(Keys(Grouped(txs, dayOf)), dayTime, t);
  }

  // ---------------------------------------------------------------- day headers and rows

  /** `dayExpense`: all the day's expense amounts, refunds included. */
  function DayExpense(group: seq<Transaction>): int {
    Sum(Filter(group, IsExpense), Amount)
  }

  /** `dayIncome`. */
  function DayIncome(group: seq<Transaction>): int {
    Sum(Filter(group, IsIncome), Amount)
  }

  /** The figures the day header shows: income when positive, the magnitude of the expense total when non-zero. */
  datatype Header = Header(income: Option<int>, expense: Option<nat>)

  function DayHeader(group: seq<Transaction>): (h: Header)
    ensures h.income.Some? <==> DayIncome(group) > 0
    ensures h.income.Some? ==> h.income.value == DayIncome(group)
    ensures h.expense.Some? <==> DayExpense(group) != 0
    ensures h.expense.Some? ==> h.expense.value > 0 && h.expense.value == Abs(DayExpense(group))
  {
    Header(if DayIncome(group) > 0 then Some(DayIncome(group)) else None,
           if DayExpense(group) != 0 then Some(Abs(DayExpense(group))) else None)
  }

  /** A day whose refunds exceed its spending still shows its expense as a positive figure. */
  lemma DayHeaderOfNetRefund()
    ensures var refund := Transaction("1", -800, Expense, "Food", "", 0, 0, Some(["退款"]));
      var spent := Transaction("2", 300, Expense, "Food", "", 0, 0, None);
      DayHeader([refund, spent]) == Header(None, Some(500))
  {
    var refund := Transaction("1", -800, Expense, "Food", "", 0, 0, Some(["退款"]));
    var spent := Transaction("2", 300, Expense, "Food", "", 0, 0, None);
    var g := [refund, spent];
    assert g[1..] == [spent] && g[1..][1..] == [];
    assert Filter(g, IsExpense) == g;
    assert Filter(g, IsIncome) == [];
  }

  /** The sign before a row's amount. */
  function Prefix(tx: Transaction): (p: string)
    ensures p == "-" <==> tx.kind == Expense && tx.amount > 0
    ensures p == "+" <==> tx.kind != Expense && tx.amount > 0
    ensures p == "" <==> tx.amount <= 0
  {
    if tx.kind == Expense && tx.amount > 0 then "-" else if tx.amount > 0 then "+" else ""
  }

  /** The figure after the sign: the magnitude in cents. */
  function Magnitude(tx: Transaction): (m: nat)
    ensures m == Abs(tx.amount)
  {
    Abs(tx.amount)
  }

  /**
   * For a positive amount, the sign and magnitude shown are exactly the
   * amount's contribution to the balance; a zero or negative amount (a
   * refund) is shown unsigned.
   */
  lemma RowShowsBalanceContribution(tx: Transaction)
    ensures tx.amount > 0 ==> (if Prefix(tx) == "-" then -(Magnitude(tx) as int) else Magnitude(tx)) == Signed(tx)
    ensures tx.amount <= 0 ==> Prefix(tx) == "" && Magnitude(tx) == -tx.amount
  {
  }
}
