# A verified model of the ledger app's core

The app is a mobile personal ledger with these parts:

- **Ledger.** It keeps a list of transactions: expenses, income and transfers. Each transaction has an amount in integer cents, a category, a note, a date and optional tags. The tags are "报销" (reimbursable) and "退款" (refund).
- **Amount keypad.** Amounts are typed on a keypad that accepts a small arithmetic expression. `evaluate` turns the expression into cents.
- **Recognised candidates.** Text or photos can be recognised into candidate transactions. Candidates are edited, selected and confirmed as a batch.
- **Views.** A dashboard shows the balance, this month's spending, the remaining budget and a searchable list. A statistics page ranks spending by category. The bill list groups transactions by day.

This project models those parts in Dafny and proves what they promise. It has these modules:

| module | what it models |
|---|---|
| `Types` | `types.ts`: the enums, label tables, transactions and settings |
| `Decimal` | JavaScript numeric literals made of digits and a point: which strings strict mode accepts as one literal, and their exact value |
| `Format` | `centsToDecimal` (`toFixed(2)` of cents / 100), and `Number#toString` of cents / 100, which the keypad and the search use |
| `Expression` | `evaluate`. The source sanitises the input and hands it to `Function('use strict'; return (...))`. Here that is a lexer, a precedence parser and an exact evaluator over `real`, following JavaScript's grammar for the alphabet `0-9 . + - * /`, except for `**` and `/*` (see Left out). Every syntax error and every non-finite result gives 0, as in the source |
| `Keypad` | the keypad's `display`: `Press` and `Backspace` as functions, and the component as a class whose methods update `display` |
| `Ledger` | the pure computations of `App.tsx`: |
| | • the AI normaliser `addTransactionFromAI`; |
| | • the transactions and candidates the entry form builds; |
| | • selection filtering; |
| | • balance, month expense, remaining budget, the budget toast and search |
| `Session` | the `App` component's state as a class: the ledger, the candidate batch, the selection, what the form is editing, and the form itself. Each handler is a method. React applies a handler's `setState` calls together. The selection effect at App.tsx:75-82 is `SyncSelection`, which runs after every handler that can change the batch length |
| `Charts` | totals, the category record, the top-4 ranking and the headline figure |
| `Sorting` | the stable `Array.prototype.sort` used with a "largest first" comparator, as an insertion sort |
| `TxList` | the bill list: icons, grouping by day, day order, day totals and the row sign |
| `Seqs`, `Wrappers` | generic filter, sum, reverse and subsequence helpers, and `Option` |

The environment is passed in as parameters:

- `now` stands for `Date.now()`;
- `parse` stands for `Date.parse`, with None standing for NaN;
- `iso` stands for `toISOString`;
- `monthOf` and `dayOf` stand for the local calendar;
- `dayTime` stands for `new Date(day).getTime()`;
- `fold` stands for `toLowerCase`;
- ids are supplied by the caller.

## Model

| member | source | states |
|---|---|---|
| Types.CategoryLabel | types.ts:18-26 | an own entry of the table is found exactly for the seven category strings (the prototype chain is `LookupAsWritten`) |
| Types.CategoryKeysAreCategories | types.ts:8-26 | the label table's keys are exactly the strings of the `Category` enum |
| Types.EveryCategoryLabelled | types.ts:18-26 | every category has a non-empty label, and different categories have different labels |
| Types.EveryTypeLabelled | types.ts:28-32 | `TypeLabels` has a non-empty entry for EXPENSE, INCOME and TRANSFER, and for no other key |
| Types.LabelOrRaw | App.tsx:485 | `CategoryLabels[c] \|\| c` for every category that is not a name inherited from `Object.prototype`: the label when there is one, otherwise the raw category string |
| Types.LookupAsWritten | types.ts:18-26 | `CategoryLabels[key]` with the prototype chain: an own label exactly for the seven category strings, an inherited member exactly for the twelve `Object.prototype` names, `undefined` otherwise |
| Types.InheritedCategoryExample | types.ts:18-26 | "toString" and "__proto__" find an inherited member; "Coffee" finds `undefined`; "Food" finds its label |
| Types.UnknownCategoryShownRaw | types.ts:39 | a category outside the enum and outside the `Object.prototype` names ("Coffee") has no label and is shown as itself; a known category is shown by its label |
| Types.TagsOf | types.ts:43 | absent tags read as the empty list; present tags read as themselves |
| Decimal.NatToDigitsValue | utils/format.ts:13 | the decimal digits written for n read back as n |
| Decimal.LiteralOfParts | components/NumericKeypad.tsx:108 | "q.f" is one valid literal whose value is q + f / 10^\|f\| |
| Decimal.PointLiteralValue | components/NumericKeypad.tsx:108 | "d.f", with no leading zero in d, is one valid literal whose value is d + f / 10^\|f\| |
| Decimal.DigitsLiteral | components/NumericKeypad.tsx:108 | a digit string without a leading zero is a valid literal worth its digits |
| Format.CentsToDecimal | utils/format.ts:12-14 | a single point followed by exactly two digits; a '-' comes first exactly when cents < 0, and nowhere else |
| Format.CentsToDecimalExample | utils/format.ts:11 | 1250 cents is written "12.50" |
| Format.FixedTwoValue | utils/format.ts:13 | the unsigned part is one literal whose value is exactly \|cents\| / 100 |
| Format.CentsToNumberString | components/NumericKeypad.tsx:15 | non-empty; starts with '-' exactly for negative cents; ends in a digit; when it has a point, its last digit is not 0 |
| Format.NumberDigitsValue | components/NumericKeypad.tsx:15 | the unsigned part is one literal whose value is exactly \|cents\| / 100 |
| Format.CentsToNumberStringExamples | App.tsx:486 | 1250 → "12.5", 1200 → "12", -5 → "-0.05" |
| Expression.Sanitize | components/NumericKeypad.tsx:105 | the result is within the alphabet and no longer than the input; a string already within the alphabet is left as it is |
| Expression.SanitizeChar | components/NumericKeypad.tsx:105 | one character is kept exactly when it is in the alphabet `0-9 . + - * /` |
| Expression.SanitizeAppend | components/NumericKeypad.tsx:105 | sanitising distributes over concatenation |
| Expression.InvalidLiteralRejected | components/NumericKeypad.tsx:108 | a run of digits and points that is not one literal ("00", "012", ".", "1.2.3") makes the whole string a syntax error |
| Expression.Parse | components/NumericKeypad.tsx:108 | a parsed expression is non-empty and ends in a literal |
| Expression.UnarySigns | components/NumericKeypad.tsx:108 | everything a unary operand holds before its literal is a '+' or '-' sign |
| Expression.Round | components/NumericKeypad.tsx:110 | `Math.round`: the result lies in (x - 1/2, x + 1/2] |
| Expression.EmptyIsZero | components/NumericKeypad.tsx:106 | nothing left after sanitising gives 0 |
| Expression.TrailingOperatorIsZero | components/NumericKeypad.tsx:108-112 | a trailing operator is a syntax error, so the result is 0 |
| Expression.LonePointIsZero | components/NumericKeypad.tsx:108-112 | "." gives 0 |
| Expression.LeadingZeroIsZero | components/NumericKeypad.tsx:108-112 | a literal with a leading 0 followed by a digit gives 0, wherever it stands |
| Expression.DivisionByZeroIsZero | components/NumericKeypad.tsx:109 | a division by any zero literal gives 0, unless the zero is the base of a `**` |
| Expression.ParseDivZero | components/NumericKeypad.tsx:109 | when the tokens hold "/" followed by a zero literal, the parsed expression's value is non-finite |
| Expression.EvaluateLoneLiteral | components/NumericKeypad.tsx:108-110 | a lone literal gives its value rounded to cents |
| Expression.EvaluateNegatedLiteral | components/NumericKeypad.tsx:104-110 | a leading minus sign negates the literal's value |
| Expression.EvaluateCentsLiteral | components/NumericKeypad.tsx:104-110 | a literal worth m / 100 gives m, and gives -m with a minus sign in front |
| Expression.EvaluateBinary | components/NumericKeypad.tsx:108-110 | `a o b` gives the exact result rounded to cents, or 0 on a division by zero |
| Expression.Grouped | components/NumericKeypad.tsx:108 | the right operand is a sub-expression exactly when `*` or `/` follows `+` or `-` |
| Expression.ParseTernary | components/NumericKeypad.tsx:108 | `x o1 y o2 z` parses by precedence, and left-associatively within one rank |
| Expression.EvaluateTernary | components/NumericKeypad.tsx:108-110 | `a o1 b o2 c` gives the rounded value of the grouping precedence dictates |
| Expression.ExampleSum | components/NumericKeypad.tsx:108-110 | "12.5+7.5" → 2000 |
| Expression.ExampleProduct | components/NumericKeypad.tsx:108-110 | "10*3" → 3000 |
| Expression.ExampleDivisionByZero | components/NumericKeypad.tsx:109 | "9/0" → 0 |
| Expression.ExamplePrecedence | components/NumericKeypad.tsx:108-110 | "1+2*3" → 700 |
| Expression.ExampleLeftAssociativeSub | components/NumericKeypad.tsx:108-110 | "8-2-1" → 500 |
| Expression.ExampleLeftAssociativeDiv | components/NumericKeypad.tsx:108-110 | "8/4/2" → 100 |
| Expression.ExampleNegative | components/NumericKeypad.tsx:104-110 | "-5" → -500 |
| Expression.ParseMatchesReference | components/NumericKeypad.tsx:108-110 | for every token list the parser accepts, the parsed value equals an independent two-register calculator's value (a sum and a running term, signed literals read left to right), and the cents are that value rounded |
| Expression.EvaluateByReference | components/NumericKeypad.tsx:104-110 | `evaluate` of any input that lexes and parses is the calculator's value of its tokens, rounded to cents |
| Expression.ReferenceExamples | components/NumericKeypad.tsx:108-110 | the calculator gives 25 for "1+2*3*4" and 58 for "10+20+30-4/2" |
| Keypad.KeyText | components/NumericKeypad.tsx:130-153 | each key appends one character ("00" appends two), within the alphabet; the text is an operator exactly for the operator keys |
| Keypad.Press | components/NumericKeypad.tsx:63-92 | AC clears the display and reports 0. An operator after an operator replaces it, keeps the length and reports nothing. '.' is ignored exactly when the display has a point and no operator. Otherwise the key text is appended, and the new display's value is reported unless the key is an operator |
| Keypad.Backspace | components/NumericKeypad.tsx:94-100 | removes exactly the last character (nothing on "") and reports the new value |
| Keypad.InitialDisplay | components/NumericKeypad.tsx:15 | empty exactly for 0 |
| Keypad.Shown | components/NumericKeypad.tsx:178 | `display \|\| '0'`: never empty, and the display itself when it is non-empty |
| Keypad.Preview | components/NumericKeypad.tsx:164-172 | shown exactly when the display has an operator; it starts with "= ", and what follows evaluates back to the display's value |
| Keypad.DecimalRoundTrip | utils/format.ts:12-14 | evaluating `centsToDecimal(c)` gives c back, for every integer c |
| Keypad.NumberStringRoundTrip | components/NumericKeypad.tsx:15 | evaluating `(c / 100).toString()` gives c back, for every integer c |
| Keypad.InitialDisplayRoundTrip | components/NumericKeypad.tsx:15 | opening the keypad on any amount and completing at once hands that amount back |
| Keypad.InitialDisplayWellFormed | components/NumericKeypad.tsx:15 | the initial display is within the alphabet and has no two operators in a row |
| Keypad.PressKeepsWellFormed | components/NumericKeypad.tsx:73-86 | a key press keeps the display within the alphabet and free of adjacent operators |
| Keypad.BackspaceKeepsWellFormed | components/NumericKeypad.tsx:97 | backspace keeps that invariant |
| Keypad.WellFormedHasNoForbiddenPair | components/NumericKeypad.tsx:77-79 | no reachable display holds "++", "--", "//", "/*" or "**" |
| Keypad.BackspaceUndoesPress | components/NumericKeypad.tsx:86-99 | deleting right after an appended one-character key restores the display and reports its value |
| Keypad.BackspaceTwiceUndoesDoubleZero | components/NumericKeypad.tsx:153 | "00" takes two deletes to undo |
| Keypad.PointGuardIsWholeDisplay | components/NumericKeypad.tsx:82-84 | on "1.5" a point is ignored, but on "1+2.5" it is appended |
| Keypad.Keypad.constructor | components/NumericKeypad.tsx:15 | the display starts as `InitialDisplay(initialValue)`, and the invariant holds |
| Keypad.Keypad.Reload | components/NumericKeypad.tsx:19-21 | the display is reloaded from the new initial value |
| Keypad.Keypad.HandlePress | components/NumericKeypad.tsx:63-92 | the new display and the reported value are `Press`'s, and the invariant is kept |
| Keypad.Keypad.HandleDelete | components/NumericKeypad.tsx:94-100 | the new display and the reported value are `Backspace`'s, and the invariant is kept |
| Keypad.Keypad.HandleComplete | components/NumericKeypad.tsx:116-128 | hands over the display's value |
| Ledger.NormalizedAmount | App.tsx:423-428 | the magnitude is always \|a\|. Non-expenses are never negative. An expense is negative exactly when it is non-zero and either refund-tagged or negative |
| Ledger.NormalizedAmountIdempotent | App.tsx:423-428 | normalising twice is normalising once |
| Ledger.CandidateDate | App.tsx:417-421 | the parsed date when the string is non-empty and parses; otherwise now |
| Ledger.Normalize | App.tsx:430-439 | the fields of the new transaction: the normalised amount, the note defaulting to "智能录入", tags defaulting to [], and the date rule |
| Ledger.AddFromAI | App.tsx:440 | one transaction in front; the rest of the ledger is unchanged |
| Ledger.NormalizeAll | App.tsx:399-401 | each confirmed row is normalised with its own id |
| Ledger.AllIndices | App.tsx:77 | holds exactly the indices below n |
| Ledger.PickedPartition | App.tsx:394-395 | picked and unpicked rows together are the whole batch (as a multiset), and their sizes add up |
| Ledger.PickedEmpty | App.tsx:397 | nothing is picked exactly when no index of the batch is selected, and then nothing is removed |
| Ledger.PickedAll | App.tsx:823 | selecting every index picks everything and leaves nothing |
| Ledger.PickedExample | App.tsx:394-395 | with {0, 2} of three rows selected, rows 0 and 2 are picked and row 1 stays |
| Ledger.PickedSubsequence | App.tsx:394-395 | the picked rows and the unpicked rows each keep the batch's order |
| Ledger.PickedMembers | App.tsx:394 | an item is picked exactly when it stands at some selected index of the batch |
| Ledger.UnpickedMembers | App.tsx:395 | an item stays exactly when it stands at some unselected index of the batch |
| Ledger.PickedCount | App.tsx:394 | as many rows are picked as selected indices fall inside the batch; all of the selection when every selected index is inside |
| Ledger.Toggled | App.tsx:381-391 | flips the membership of exactly the given index |
| Ledger.ToggleTwice | App.tsx:381-391 | toggling twice restores the selection |
| Ledger.FormTags | App.tsx:156-159 | holds "报销" exactly when reimbursable and "退款" exactly when a refund, with at most two tags |
| Ledger.FormNote | App.tsx:179 | the typed note when there is one; otherwise "报销款", then "退款", then the fallback |
| Ledger.ManualAmount | App.tsx:200-203 | magnitude kept; negated exactly for an expense marked as a refund (or when it is 0) |
| Ledger.TypeButton | App.tsx:517-533 | the type is set and the refund flag cleared; the category becomes Food or Salary only when the type changes; the other fields are kept |
| Ledger.TypeButtonIdempotent | App.tsx:517-533 | pressing a type button twice is pressing it once |
| Ledger.TypeButtonClearsRefund | App.tsx:522-532 | after a type button the next entry is stored as typed, without the refund tag |
| Ledger.ManualAgreesWithNormalizer | App.tsx:200-203 | for a non-negative keypad value, the manual path signs as the AI normaliser does for the same tags |
| Ledger.EditedCandidate | App.tsx:149-160 | an edited row takes the amount as typed and the form's type, category and tags; its note falls back to the old note; its confidence is kept |
| Ledger.AppendedCandidate | App.tsx:175-183 | a row added by hand has confidence 1, amount -\|x\| for a refund expense, and the form's tags. Its note is the typed note, else "报销款", else "退款", else "手动添加" |
| Ledger.EditedRefundConfirmsNegative | App.tsx:149-159 | a row edited as a refund expense is stored un-negated, yet the tag makes the confirmed transaction negative |
| Ledger.EditedTransaction | App.tsx:212-221 | id and createdAt are kept; the other fields come from the form, with the manual amount rule |
| Ledger.EditById | App.tsx:211-224 | only transactions with the edited id change; order and length are kept |
| Ledger.NewTransaction | App.tsx:228-237 | a new transaction is built from the form with the manual amount rule |
| Ledger.DeleteById | App.tsx:293 | removes exactly the transactions with that id, keeps every other one as often as it occurs and in order, and is the identity when the id is absent |
| Ledger.CandidateForm | App.tsx:300-318 | the form loaded for a row: \|amount\|; category defaulting to "Other"; refund from the tag or a negative expense; the date unchanged when it does not parse |
| Ledger.CandidateEditRoundTrip | App.tsx:307-318 | opening a row and saving it unchanged keeps the amount it will be confirmed with |
| Ledger.TransactionFormAsWritten | App.tsx:276-286 | the form for a stored transaction as written: refund only from the tag |
| Ledger.UntaggedRefundFlipsOnEdit | App.tsx:281-286 | as written, an untagged -500 expense opened and saved unchanged becomes +500 |
| Ledger.TransactionForm | App.tsx:276-286 | the corrected form: refund from the tag or a negative expense |
| Ledger.TransactionEditRoundTrip | App.tsx:281-286 | with the corrected form, opening and saving any well-signed transaction keeps its amount |
| Ledger.NormalizeWellSigned | App.tsx:423-428 | the normaliser only produces well-signed transactions |
| Ledger.NewTransactionWellSigned | App.tsx:200-207 | a transaction from the form is well-signed exactly when the keypad value is non-negative or the form is a plain (non-refund) expense |
| Ledger.NegativeKeypadIncomeIllSigned | App.tsx:200-207 | income keyed as "-5" is stored as -500 and is not well-signed |
| Ledger.RefundKeyedNegativeFlipsOnEdit | App.tsx:200-207 | a refund expense keyed as "-5" is stored as +500 with the refund tag, and opening and saving it unchanged stores -500, whichever way the form reads the refund flag |
| Ledger.BalanceOfPrepend | App.tsx:464-467 | a new transaction moves the balance by its signed amount (expenses subtract; income and transfers add) |
| Ledger.BalanceOfAppend | App.tsx:464-467 | the balance is additive over concatenation |
| Ledger.MonthExpenseOfPrepend | App.tsx:469-476 | a new transaction changes this month's expense by its amount when it is an expense of this month, and otherwise not at all |
| Ledger.RemainingOfPrepend | App.tsx:478 | the remaining budget falls by exactly that amount |
| Ledger.RemainingBudgetUnclamped | App.tsx:478 | overspending shows a negative remainder (100 yuan budget, 150 spent → -50) |
| Ledger.ToastMatchesDashboard | App.tsx:242-253 | the toast figure equals the dashboard's remaining budget once a current-month expense is recorded |
| Ledger.Search | App.tsx:480-488 | the search with the label looked up among the table's own entries. An empty term keeps everything. Otherwise the result is an order-preserving sub-list that holds every matching transaction as often as it occurs, and only matching ones |
| Ledger.MatchesAsWritten | App.tsx:483-487 | the predicate as written throws exactly when the note misses the term and the category is an `Object.prototype` name; when it does not throw, it agrees with `Matches` |
| Ledger.SearchAsWrittenAgrees | App.tsx:480-488 | the search as written throws exactly when the term is non-empty and some row's predicate throws; otherwise its result is `Search`'s |
| Ledger.SearchThrowsOnInheritedCategory | App.tsx:485 | a row filed under "toString" with an empty note makes the search for "t" throw, while `Search` finds the row by its category |
| Session.Session.constructor | App.tsx:13-42 | the initial state: an empty ledger and batch, a default form, and a budget of 500000 cents |
| Session.Session.SyncSelection | App.tsx:75-82 | when the batch length changed, every row is selected; otherwise nothing changes |
| Session.Session.ResetForm | App.tsx:264-274 | clears the form and what it edits, but not `isAddingToOcr` |
| Session.Session.HandleAddTransaction | App.tsx:143-262 | the four paths in priority order: edit a row in place; add a row (then everything is selected); edit a stored transaction; or prepend a new one and return the toast figure for a positive expense |
| Session.Session.StartEditTransaction | App.tsx:276-289 | sets the edited id and loads the form as written, the refund flag coming from the tag only; nothing else changes |
| Session.Session.HandleDeleteTransaction | App.tsx:291-298 | removes the edited transaction and resets the form; without an edited id, nothing changes |
| Session.Session.StartEditOcrCandidate | App.tsx:300-321 | marks the row as edited, stops adding, and loads `CandidateForm` |
| Session.Session.StartAddToOcr | App.tsx:323-327 | resets the form and starts adding to the batch |
| Session.Session.ToggleOcrSelection | App.tsx:381-391 | the selection becomes `Toggled`; nothing else changes |
| Session.Session.SelectAll | App.tsx:823 | selects every row |
| Session.Session.HandleBatchConfirm | App.tsx:393-407 | with nothing picked, nothing changes. Otherwise the picked rows, normalised, go in front in reverse batch order; only the unpicked rows stay; and then every remaining row is selected |
| Session.Session.ConfirmAll | App.tsx:399-401 | the loop prepends each row's transaction in turn |
| Session.Session.HandleBatchDelete | App.tsx:409-414 | only the unpicked rows stay, and the ledger is untouched |
| Session.Session.CloseBatch | App.tsx:748 | empties the batch and the selection |
| Session.Session.SwitchToManualInput | App.tsx:443-449 | empties the batch, stops adding and resets the form |
| Session.Session.SelectType | App.tsx:517-533 | the form becomes `TypeButton` of the old form; nothing else changes |
| Session.Session.Cancel | App.tsx:616-621 | stops editing and adding; the form is kept |
| Session.Session.StartNewEntry | App.tsx:1070-1074 | resets the form |
| Session.Session.ReceiveBatch | App.tsx:356-367 | the batch becomes the recognised rows, and all of them are selected |
| Session.Session.AddTransactionFromAI | App.tsx:416-441 | the ledger becomes `AddFromAI` of the old ledger |
| Session.Session.Import | App.tsx:128-134 | the ledger is replaced only by a parsed array |
| Session.ConfirmStep | App.tsx:399-401 | one step of the loop keeps "reverse of those confirmed so far, then the old ledger" |
| Session.BatchConfirmAccounting | App.tsx:393-403 | the ledger grows by exactly the picked count, which is the selection's size when every selected index is inside the batch; its tail is the old ledger; the rows that stay keep their order |
| Session.BatchConfirmOrder | App.tsx:399-401 | the last picked row lands first in the ledger and the first picked row lands last |
| Charts.BalanceByType | components/Charts.tsx:21-27 | the dashboard balance is income plus transfers minus expense |
| Charts.RefundLowersTotalExpense | components/Charts.tsx:21-23 | a refund lowers the expense total (10 yuan spent, 3 refunded → 7) |
| Charts.NetFigureIsBalanceWithoutTransfers | components/Charts.tsx:49 | the headline figure is the balance without transfers, plus 15000 yuan |
| Charts.Tally | components/Charts.tsx:33 | a known key keeps its place; a new key goes last |
| Charts.TallyLookup | components/Charts.tsx:33 | only the tallied key's total changes, by the amount |
| Charts.AccumulateSpec | components/Charts.tsx:30-35 | the reduce adds each category's counted expenses, keeps the keys distinct and the totals positive |
| Charts.ExpensesByCategorySpec | components/Charts.tsx:30-35 | for categories that are not `Object.prototype` names: every total is the sum of its category's positive expenses. The keys are distinct, and a category is present exactly when that sum is positive. The totals add up to the positive-expense sum |
| Charts.TopCategories | components/Charts.tsx:37-39 | at most four entries, all from the record, in non-increasing total order |
| Charts.TopCategoriesAreTheLargest | components/Charts.tsx:37-39 | shown and omitted entries partition the record, and every shown total is at least every omitted one |
| Charts.TopCategoriesStable | components/Charts.tsx:38 | entries with equal totals keep their first-appearance order |
| Sorting.Insert | components/Charts.tsx:38 | inserting keeps the multiset and the order |
| Sorting.SortDescending | components/Charts.tsx:38 | a permutation of its input, in non-increasing key order |
| Sorting.InsertWithKey | components/Charts.tsx:38 | inserting keeps the relative order of equal keys |
| Sorting.SortIsStable | components/Charts.tsx:38 | the sort is stable |
| Sorting.SortKeepsSorted | components/Charts.tsx:38 | a sequence already in order is left unchanged |
| TxList.Lower | components/TransactionList.tsx:11 | lower-cases letter by letter |
| TxList.GetIconRecognises | components/TransactionList.tsx:10-19 | a specific icon is given exactly when the lower-cased category is one of the six names |
| TxList.GetIconIgnoresCase | components/TransactionList.tsx:11 | lower-casing is idempotent and does not change the icon |
| TxList.GetIconOfCategory | components/TransactionList.tsx:12-18 | each built-in category gets its own icon; only "Other" gets the default |
| TxList.GetIconUpperCase | components/TransactionList.tsx:11 | "FOOD" and "SALARY" are recognised |
| TxList.Push | components/TransactionList.tsx:25-26 | a known day keeps its place; a new day goes last |
| TxList.OnDayMembers | components/TransactionList.tsx:23-28 | the day's list holds exactly the transactions of that day |
| TxList.GroupAllGroups | components/TransactionList.tsx:23-28 | each day's group is the old group followed by that day's transactions, in list order |
| TxList.GroupAllSize | components/TransactionList.tsx:23-28 | the groups hold as many transactions as were grouped |
| TxList.GroupAllDays | components/TransactionList.tsx:23-28 | the days stay distinct, and a day is present exactly when it was present before or occurs in the list |
| TxList.GroupedSpec | components/TransactionList.tsx:23-28 | every transaction is in its own day's group, in list order. The days are distinct and exactly those that occur. Nothing is lost or repeated |
| TxList.SortedDays | components/TransactionList.tsx:30 | a permutation of the days, latest first |
| TxList.SortedDaysStable | components/TransactionList.tsx:30 | days with equal times keep the order of their first transaction |
| TxList.DayHeader | components/TransactionList.tsx:48-64 | income is shown exactly when positive; expense is shown as its magnitude exactly when non-zero |
| TxList.DayHeaderOfNetRefund | components/TransactionList.tsx:63-64 | a day whose refund exceeds its spending still shows a positive expense figure |
| TxList.Prefix | components/TransactionList.tsx:104 | "-" exactly for a positive expense; "+" exactly for any other positive amount; "" exactly for amounts ≤ 0 |
| TxList.RowShowsBalanceContribution | components/TransactionList.tsx:104-105 | for a positive amount, the sign and magnitude shown are its contribution to the balance; a refund is shown unsigned |

## Left out

- Rendering, styling, toasts and their 3-second timer, haptics, sounds, and the keypad's 600 ms completion delay are left out. They are user-interface effects with no state the model keeps.
- `handleAiSubmit` and `handleImageUpload` (App.tsx:329-379) are left out: the network call to the recognition service and the async routing around it. Only the arrival of a photo result is modelled, as `ReceiveBatch`. A text result is `AddTransactionFromAI`. The recognition service itself is not part of this model.
- Storage is left out: loading and saving the ledger and settings, the API key, and the JSON export. For import, only the "replace only when the file holds an array" guard is modelled (`Import`); JSON parsing is its input.
- Floating point is left out. `evaluate` is computed on exact rationals, so IEEE rounding artefacts (e.g. `1.005*100`) are not reproduced. `toFixed` and `toString` are written out exactly for integer cents; their exponential form at 1e21 and above is not modelled. `saveBudget`'s `parseFloat(...)*100`, which can produce fractional cents, is not modelled.
- Real date semantics are left out: `Date.parse`, `toISOString`, local months, `toLocaleDateString`, and the day sort's `new Date(day).getTime()` (which may be NaN). They are parameters. Ids from `Date.now()` and `Math.random()` are parameters as well.
- The statistics page's random trend data and its percentage bar widths are left out. They are random or floating point.
- `formatCurrency`, `formatDate` and `formatDateHeader` are left out. They are `Intl` locale formatting.
- Search case folding is left out. `toLowerCase` is an abstract parameter `fold`.
- TxList.Lower: folds ASCII letters only, whereas `toLowerCase` folds all of Unicode. The six icon names are ASCII, so only exotic letters that fold to ASCII are treated differently.
- Expression.Lex rejects "/*" as a syntax error, whereas JavaScript skips a closed block comment. The keypad never produces that pair (Keypad.WellFormedHasNoForbiddenPair), so this is only a difference for strings typed outside the keypad.
- Expression.Parse does not model exponentiation: "**" is read as two multiplications, which is a syntax error, so "2**3" gives 0 where JavaScript computes 8 (800 cents). Non-integer powers are not exact rationals, so they cannot be evaluated exactly. The keypad never produces "**" (Keypad.WellFormedHasNoForbiddenPair).
- Categories named after an `Object.prototype` member ("toString", "constructor", "__proto__" and the others `Types.InheritedKey` lists) are modelled only in the search, where they make the filter throw (see Findings). They can only come from an AI result or an import. Elsewhere the model looks labels up among the table's own entries only, so it does not capture these behaviours:
  - the category tally at components/Charts.tsx:33 starts such a key from the inherited function, so its total becomes a string (or is dropped, for "__proto__");
  - the bill list and the statistics page (components/TransactionList.tsx:87, 96 and components/Charts.tsx:113) render the inherited member in place of a label.
- Object key order is left out. The category record and the day record are association lists with keys in first-insertion order. This agrees with `Object.entries` and `Object.keys` for keys that are not array indices, but integer-like keys (which JavaScript lists first) are not modelled.
- Session.Session.HandleAddTransaction requires an edited row index inside the batch. The source would write past the end, leaving a hole; no handler leads there.
- Session.Session.StartEditOcrCandidate and Session.Session.ToggleOcrSelection require an index inside the batch. They are only reachable from a rendered row.
- The other form controls are left out: the category buttons (App.tsx:544), the note input (App.tsx:564), the date input (App.tsx:453) and the reimbursable and refund toggles (App.tsx:585, 595). Each sets one field of `Form` to the value given, and the `Form` datatype takes any values. The type buttons are modelled (`TypeButton`).
- The view state, `showOcrFail`, `isAiProcessing`, the search and AI text inputs, and the budget/net-worth header toggle are left out. They only steer what is rendered.
- Ledger.TransactionEditRoundTrip holds only for well-signed transactions. A refund expense keyed as a negative value is stored positive with the refund tag, and every edit flips it, under either reading of the refund flag (Ledger.RefundKeyedNegativeFlipsOnEdit).

## Findings

| source | as written | input that shows it | evidently intended | confidence | as-written member | corrected member |
|---|---|---|---|---|---|---|
| App.tsx:276-286 | `startEditTransaction` sets the refund flag only from the "退款" tag, while the keypad opens on \|amount\| | an untagged expense stored as -500: keyed as "-5" on a plain expense form, or a negative AI amount, which `addTransactionFromAI` keeps as it is (App.tsx:426-427). Opening it and saving it unchanged stores +500 | the refund flag is set from the tag or from a negative expense, as `startEditOcrCandidate` does at App.tsx:318; saving unchanged then keeps the amount | not executed | Ledger.TransactionFormAsWritten, Ledger.UntaggedRefundFlipsOnEdit | Ledger.TransactionForm, Ledger.TransactionEditRoundTrip |
| App.tsx:485 | `CategoryLabels[tx.category] \|\| tx.category` follows the prototype chain, so a category named after an `Object.prototype` member yields a function (or, for "__proto__", an object), and `.toLowerCase()` on it throws | a transaction with category "toString", from an AI result or an import, whose note does not contain the search term: any non-empty search throws inside the filter and the dashboard fails to render | the label is looked up among the table's own entries (`Object.hasOwn`), so the category is searched as its raw string | not executed | Ledger.SearchAsWritten, Ledger.SearchThrowsOnInheritedCategory | Ledger.Search, Ledger.SearchAsWrittenAgrees |

The session model (`Session.Session.StartEditTransaction`) keeps the code of App.tsx:276-286 as written. The corrected form is stated and proved here only. The dashboard's search is modelled by `Ledger.Search`, the corrected reading of App.tsx:485; `Ledger.SearchAsWrittenAgrees` shows that the two readings differ only for the `Object.prototype` names.
