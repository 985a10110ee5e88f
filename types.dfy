/**
 * The ledger's vocabulary (types.ts): transaction types, the built-in
 * categories and their display labels, transactions and settings. Amounts and
 * the budget are integer cents; dates are abstract integer timestamps.
 */
module Types {
  import opened Wrappers

  datatype TransactionType = Expense | Income | Transfer

  /** The enum values as stored in a transaction: "EXPENSE", "INCOME", "TRANSFER". */
  function TypeValue(t: TransactionType): string {
    match t
    case Expense => "EXPENSE"
    case Income => "INCOME"
    case Transfer => "TRANSFER"
  }

  datatype Category = Food | Transport | Shopping | Housing | Salary | Investment | Other

  /** The string each category enum member stands for. */
  function CategoryValue(c: Category): string {
    match c
    case Food => "Food"
    case Transport => "Transport"
    case Shopping => "Shopping"
    case Housing => "Housing"
    case Salary => "Salary"
    case Investment => "Investment"
    case Other => "Other"
  }

  /** `CategoryLabels`: keyed by the category strings. */
  const CategoryLabels: map<string, string> := map[
    "Food" := "餐饮",
    "Transport" := "交通",
    "Shopping" := "购物",
    "Housing" := "居住",
    "Salary" := "薪资",
    "Investment" := "投资",
    "Other" := "其他"
  ]

  /** `TypeLabels`: keyed by the type strings. */
  const TypeLabels: map<string, string> := map[
    "EXPENSE" := "支出",
    "INCOME" := "收入",
    "TRANSFER" := "转账"
  ]

  /** `CategoryLabels[key]`: a label, or nothing for a key outside the table. */
  function CategoryLabel(key: string): (r: Option<string>)
    ensures r.Some? <==> exists c: Category :: CategoryValue(c) == key
  {
    CategoryKeysAreCategories();
    if key in CategoryLabels then Some(CategoryLabels[key]) else None
  }

  /** `CategoryLabels[category] || category`: the label when there is one, otherwise the raw string. */
  function LabelOrRaw(category: string): (s: string)
    ensures CategoryLabel(category).None? ==> s == category
    ensures CategoryLabel(category).Some? ==> s == CategoryLabel(category).value
  {
    match CategoryLabel(category)
    case Some(l) => if l == "" then category else l
    case None => category
  }

  /**
   * The property names every object literal inherits from `Object.prototype`.
   * Looking one of them up in `CategoryLabels` (or in a fresh `{}`) finds a
   * function, or for `__proto__` the prototype object itself: never a string
   * and never `undefined`.
   */
  predicate InheritedKey(key: string) {
    key in {"constructor", "__defineGetter__", "__defineSetter__", "hasOwnProperty",
            "__lookupGetter__", "__lookupSetter__", "isPrototypeOf", "propertyIsEnumerable",
            "toString", "valueOf", "__proto__", "toLocaleString"}
  }

  /** What `CategoryLabels[key]` evaluates to in JavaScript. */
  datatype Lookup = OwnLabel(text: string) | InheritedMember | Undefined

  /**
   * `CategoryLabels[key]` with the prototype chain: an own entry, else an
   * inherited member, else `undefined`. `CategoryLabel` is the own-property
   * part alone.
   */
  function LookupAsWritten(key: string): (r: Lookup)
    ensures r.OwnLabel? <==> CategoryLabel(key).Some?
    ensures r.OwnLabel? ==> r.text == CategoryLabel(key).value
    ensures r.InheritedMember? <==> InheritedKey(key)
    ensures r.Undefined? <==> CategoryLabel(key).None? && !InheritedKey(key)
  {
    OwnKeysNotInherited(key);
    if key in CategoryLabels then OwnLabel(CategoryLabels[key])
    else if InheritedKey(key) then InheritedMember
    else Undefined
  }

  /** No category string shadows a name of `Object.prototype`. */
  lemma OwnKeysNotInherited(key: string)
    ensures key in CategoryLabels ==> !InheritedKey(key)
  {
  }

  /** A category called `toString` finds the inherited method, not a label. */
  lemma InheritedCategoryExample()
    ensures LookupAsWritten("toString") == InheritedMember && LookupAsWritten("__proto__") == InheritedMember
    ensures LookupAsWritten("Coffee") == Undefined && LookupAsWritten("Food") == OwnLabel("餐饮")
    ensures CategoryLabel("toString") == None
  {
    assert "Coffee" !in CategoryLabels;
  }

  /** The label table's keys are exactly the seven category strings. */
  lemma CategoryKeysAreCategories()
    ensures forall c: Category :: CategoryValue(c) in CategoryLabels
    ensures forall key :: key in CategoryLabels ==> exists c: Category :: CategoryValue(c) == key
  {
    forall key | key in CategoryLabels ensures exists c: Category :: CategoryValue(c) == key {
      if key == "Food" { assert CategoryValue(Food) == key; }
      else if key == "Transport" { assert CategoryValue(Transport) == key; }
      else if key == "Shopping" { assert CategoryValue(Shopping) == key; }
      else if key == "Housing" { assert CategoryValue(Housing) == key; }
      else if key == "Salary" { assert CategoryValue(Salary) == key; }
      else if key == "Investment" { assert CategoryValue(Investment) == key; }
      else { assert CategoryValue(Other) == key; }
    }
  }

  /** Every category has a non-empty label, and no two categories share one. */
  lemma EveryCategoryLabelled(c: Category, d: Category)
    ensures CategoryLabel(CategoryValue(c)).Some? && CategoryLabel(CategoryValue(c)).value != ""
    ensures c != d ==> CategoryLabel(CategoryValue(c)) != CategoryLabel(CategoryValue(d))
  {
  }

  /** `TypeLabels` has an entry for each transaction type, and nothing else. */
  lemma EveryTypeLabelled(t: TransactionType, key: string)
    ensures TypeValue(t) in TypeLabels && TypeLabels[TypeValue(t)] != ""
    ensures key in TypeLabels <==> key == "EXPENSE" || key == "INCOME" || key == "TRANSFER"
  {
  }

  /** A category outside the enum (from the AI or an import) is displayed as itself. */
  lemma UnknownCategoryShownRaw()
    ensures CategoryLabel("Coffee") == None && LabelOrRaw("Coffee") == "Coffee"
    ensures LabelOrRaw("Food") == "餐饮"
  {
    assert "Coffee" !in CategoryLabels;
  }

  /**
   * A stored transaction. `category` is any string, not only an enum value;
   * `tags` is optional and read as empty when absent.
   */
  datatype Transaction = Transaction(
    id: string,
    amount: int,
    kind: TransactionType,
    category: string,
    note: string,
    date: int,
    createdAt: int,
    tags: Option<seq<string>>)

  /** `tx.tags || []`. */
  function TagsOf(tx: Transaction): (ts: seq<string>)
    ensures tx.tags.None? ==> ts == []
    ensures tx.tags.Some? ==> ts == tx.tags.value
  {
    tx.tags.GetOr([])
  }

  datatype AppSettings = AppSettings(monthlyBudget: int, soundEnabled: bool, hapticsEnabled: bool)

  /** The settings the app starts with before any are loaded: a budget of 5000 yuan. */
  const DefaultSettings := AppSettings(500000, true, true)
}
