/**
 * The pure computations of the ledger screen (App.tsx): turning an AI
 * candidate into a transaction, building transactions and candidates from
 * the entry form, picking the selected part of a batch, and the dashboard
 * figures (balance, this month's expense, remaining budget, search).
 *
 * The environment is passed in: `now` is `Date.now()`, `parse` is
 * `Date.parse` (None for NaN), `iso` is `toISOString`, `monthOf` maps a
 * timestamp to its (year, month) in local time, `fold` is `toLowerCase`.
 */
module Ledger {
  import opened Wrappers
  import opened Types
  import opened Format
  import opened Seqs

  const RefundTag := "退款"
  const ReimbursableTag := "报销"

  predicate HasTag(tags: Option<seq<string>>, tag: string) {
    tags.Some? && tag in tags.value
  }

  /** An `NLPResult`: what the AI returns, and what the batch list holds. */
  datatype Candidate = Candidate(
    amount: int,
    kind: TransactionType,
    category: string,
    note: string,
    tags: Option<seq<string>>,
    date: Option<string>,
    confidence: real)

  // ---------------------------------------------------------------- AI candidates

  /**
   * The signed amount `addTransactionFromAI` stores: an expense is negative
   * when tagged as a refund or already negative; everything else is stored
   * as its magnitude.
   */
  function NormalizedAmount(amount: int, kind: TransactionType, tags: Option<seq<string>>): (a: int)
    ensures Abs(a) == Abs(amount)
    ensures kind != Expense ==> a >= 0
    ensures kind == Expense ==> (a < 0 <==> amount != 0 && (HasTag(tags, RefundTag) || amount < 0))
  {
    if HasTag(tags, RefundTag) && kind == Expense then -(Abs(amount) as int)
    else if amount < 0 && kind == Expense then amount
    else Abs(amount)
  }

  /** Normalising an amount that is already normalised changes nothing. */
  lemma NormalizedAmountIdempotent(amount: int, kind: TransactionType, tags: Option<seq<string>>)
    ensures NormalizedAmount(NormalizedAmount(amount, kind, tags), kind, tags) == NormalizedAmount(amount, kind, tags)
  {
  }

  /** `result.date` when it is a non-empty string that parses, otherwise `now`. */
  function CandidateDate(date: Option<string>, now: int, parse: string -> Option<int>): (d: int)
    ensures d == now || (date.Some? && parse(date.value) == Some(d))
    ensures date.Some? && date.value != "" && parse(date.value).Some? ==> d == parse(date.value).value
  {
    if date.Some? && date.value != "" then parse(date.value).GetOr(now) else now
  }

  /** The transaction `addTransactionFromAI` builds from a candidate. */
  function Normalize(c: Candidate, now: int, id: string, parse: string -> Option<int>): (tx: Transaction)
    ensures tx.id == id && tx.createdAt == now
    ensures tx.kind == c.kind && tx.category == c.category
    ensures tx.amount == NormalizedAmount(c.amount, c.kind, c.tags)
    ensures tx.note != "" && (c.note != "" ==> tx.note == c.note)
    ensures c.note == "" ==> tx.note == "智能录入"
    ensures tx.tags == Some(c.tags.GetOr([]))
    ensures tx.date == CandidateDate(c.date, now, parse)
  {
    Transaction(
      id,
      NormalizedAmount(c.amount, c.kind, c.tags),
      c.kind,
      c.category,
      if c.note == "" then "智能录入" else c.note,
      CandidateDate(c.date, now, parse),
      now,
      Some(c.tags.GetOr([])))
  }

  /** `addTransactionFromAI`: the new transaction goes in front; the rest of the ledger is untouched. */
  function AddFromAI(ledger: seq<Transaction>, c: Candidate, now: int, id: string, parse: string -> Option<int>): (r: seq<Transaction>)
    ensures |r| == |ledger| + 1
    ensures r[0] == Normalize(c, now, id, parse) && r[1..] == ledger
  {
    [Normalize(c, now, id, parse)] + ledger
  }

  /** The transactions a batch confirm builds, in batch order; `ids(k)` is the id drawn for item k. */
  function NormalizeAll(items: seq<Candidate>, now: int, ids: nat -> string, parse: string -> Option<int>): (r: seq<Transaction>)
    ensures |r| == |items|
    ensures forall k :: 0 <= k < |items| ==> r[k] == Normalize(items[k], now, ids(k), parse)
  {
    seq(|items|, k requires 0 <= k < |items| => Normalize(items[k], now, ids(k), parse))
  }

  // ---------------------------------------------------------------- batch selection

  /** `s.filter((_, i) => sel.has(i))`. */
  function Picked<T>(s: seq<T>, sel: set<nat>): (r: seq<T>)
    ensures |r| <= |s|
  {
    if s == [] then []
    else Picked(s[..|s| - 1], sel) + (if |s| - 1 in sel then [s[|s| - 1]] else [])
  }

  /** `s.filter((_, i) => !sel.has(i))`. */
  function Unpicked<T>(s: seq<T>, sel: set<nat>): (r: seq<T>)
    ensures |r| <= |s|
  {
    if s == [] then []
    else Unpicked(s[..|s| - 1], sel) + (if |s| - 1 !in sel then [s[|s| - 1]] else [])
  }

  /** `new Set(s.map((_, i) => i))`. */
  function AllIndices(n: nat): (r: set<nat>)
    ensures forall i: nat :: i in r <==> i < n
  {
    if n == 0 then {} else AllIndices(n - 1) + {n - 1}
  }

  /** The picked and the unpicked items split the batch: together they are all of it, each item once. */
  lemma {:induction false} PickedPartition<T>(s: seq<T>, sel: set<nat>)
    ensures |Picked(s, sel)| + |Unpicked(s, sel)| == |s|
    ensures multiset(Picked(s, sel)) + multiset(Unpicked(s, sel)) == multiset(s)
  {
    if s != [] {
      var init, last := s[..|s| - 1], s[|s| - 1];
      PickedPartition(init, sel);
      assert s == init + [last];
      SplitLast(Picked(init, sel), Unpicked(init, sel), last, |s| - 1 in sel);
    }
  }

  /** Appending `last` to exactly one of two sequences adds it once to their joint multiset. */
  lemma SplitLast<T>(p: seq<T>, u: seq<T>, last: T, picked: bool)
    ensures multiset(p + (if picked then [last] else [])) + multiset(u + (if picked then [] else [last]))
         == multiset(p) + multiset(u) + multiset{last}
  {
    if picked {
      assert u + [] == u;
    } else {
      assert p + [] == p;
    }
  }

  /** Both halves of a batch split keep the batch's order. */
  lemma {:induction false} PickedSubsequence<T>(s: seq<T>, sel: set<nat>)
    ensures SubsequenceOf(Picked(s, sel), s)
    ensures SubsequenceOf(Unpicked(s, sel), s)
  {
    if s == [] {
    } else {
      var init, last := s[..|s| - 1], s[|s| - 1];
      PickedSubsequence(init, sel);
      assert s == init + [last];
      SubsequenceSnoc(Picked(init, sel), init, last, |s| - 1 in sel);
      SubsequenceSnoc(Unpicked(init, sel), init, last, |s| - 1 !in sel);
    }
  }

  /** An item is picked exactly when it sits at a selected index. */
  lemma {:induction false} PickedMembers<T>(s: seq<T>, sel: set<nat>, x: T)
    ensures x in Picked(s, sel) <==> exists i: nat :: i < |s| && i in sel && s[i] == x
  {
    if s != [] {
      var n := |s| - 1;
      var init := s[..n];
      PickedMembers(init, sel, x);
      assert Picked(s, sel) == Picked(init, sel) + (if n in sel then [s[n]] else []);
      if x in Picked(init, sel) {
        var i: nat :| i < n && i in sel && init[i] == x;
        assert s[i] == x;
      }
      if exists i: nat :: i < |s| && i in sel && s[i] == x {
        var i: nat :| i < |s| && i in sel && s[i] == x;
        if i < n {
          assert init[i] == x;
        }
      }
    }
  }

  /** An item is left in the batch exactly when it sits at an unselected index. */
  lemma {:induction false} UnpickedMembers<T>(s: seq<T>, sel: set<nat>, x: T)
    ensures x in Unpicked(s, sel) <==> exists i: nat :: i < |s| && i !in sel && s[i] == x
  {
    if s != [] {
      var n := |s| - 1;
      var init := s[..n];
      UnpickedMembers(init, sel, x);
      assert Unpicked(s, sel) == Unpicked(init, sel) + (if n !in sel then [s[n]] else []);
      if x in Unpicked(init, sel) {
        var i: nat :| i < n && i !in sel && init[i] == x;
        assert s[i] == x;
      }
      if exists i: nat :: i < |s| && i !in sel && s[i] == x {
        var i: nat :| i < |s| && i !in sel && s[i] == x;
        if i < n {
          assert init[i] == x;
        }
      }
    }
  }

  /** As many items are picked as selected indices fall inside the batch. */
  lemma {:induction false} PickedCount<T>(s: seq<T>, sel: set<nat>)
    ensures |Picked(s, sel)| == |sel * AllIndices(|s|)|
    ensures (forall i :: i in sel ==> i < |s|) ==> |Picked(s, sel)| == |sel|
  {
    if s != [] {
      var n := |s| - 1;
      PickedCount(s[..n], sel);
      var below := sel * AllIndices(n);
      assert n !in below;
      if n in sel {
        assert sel * AllIndices(|s|) == below + {n};
      } else {
        assert sel * AllIndices(|s|) == below;
      }
    }
    if forall i :: i in sel ==> i < |s| {
      assert sel * AllIndices(|s|) == sel;
    }
  }

  /** Nothing is picked exactly when no index of the batch is selected. */
  lemma {:induction false} PickedEmpty<T>(s: seq<T>, sel: set<nat>)
    ensures Picked(s, sel) == [] <==> forall i: nat :: i < |s| ==> i !in sel
    ensures (forall i: nat :: i < |s| ==> i !in sel) ==> Unpicked(s, sel) == s
  {
    if s != [] {
      var init := s[..|s| - 1];
      PickedEmpty(init, sel);
      assert s == init + [s[|s| - 1]];
    }
  }

  /** Selecting every index picks the whole batch and leaves nothing. */
  lemma {:induction false} PickedAll<T>(s: seq<T>)
    ensures Picked(s, AllIndices(|s|)) == s
    ensures Unpicked(s, AllIndices(|s|)) == []
  {
    if s != [] {
      var init := s[..|s| - 1];
      PickedAllUpTo(init, |s|);
      assert s == init + [s[|s| - 1]];
    }
  }

  lemma {:induction false} PickedAllUpTo<T>(s: seq<T>, n: nat)
    requires |s| <= n
    ensures Picked(s, AllIndices(n)) == s
    ensures Unpicked(s, AllIndices(n)) == []
  {
    if s != [] {
      var init := s[..|s| - 1];
      PickedAllUpTo(init, n);
      assert s == init + [s[|s| - 1]];
    }
  }

  /** `toggleOcrSelection`: the index leaves the selection if it was in it, and joins it otherwise. */
  function Toggled(sel: set<nat>, index: nat): (r: set<nat>)
    ensures index in r <==> index !in sel
    ensures forall j: nat :: j != index ==> (j in r <==> j in sel)
  {
    if index in sel then sel - {index} else sel + {index}
  }

  /** Toggling the same row twice restores the selection. */
  lemma ToggleTwice(sel: set<nat>, index: nat)
    ensures Toggled(Toggled(sel, index), index) == sel
  {
    var r := Toggled(Toggled(sel, index), index);
    forall j: nat ensures j in r <==> j in sel {
      if j == index {
        assert index in Toggled(sel, index) <==> index !in sel;
      }
    }
  }

  /** Three items with {0, 2} selected: items 0 and 2 are confirmed, item 1 stays. */
  lemma PickedExample<T>(a: T, b: T, c: T)
    ensures Picked([a, b, c], {0, 2}) == [a, c]
    ensures Unpicked([a, b, c], {0, 2}) == [b]
  {
    assert [a, b, c][..2] == [a, b];
    assert [a, b][..1] == [a];
    assert [a][..0] == [];
    assert Picked([a], {0, 2}) == [a];
    assert Picked([a, b], {0, 2}) == [a];
    assert Unpicked([a], {0, 2}) == [];
    assert Unpicked([a, b], {0, 2}) == [b];
  }

  // ---------------------------------------------------------------- the entry form

  /** The entry form's fields (`newTx*`, `isReimbursable`, `isRefund`, `initialKeypadValue`). */
  datatype Form = Form(
    kind: TransactionType,
    category: string,
    note: string,
    date: int,
    reimbursable: bool,
    refund: bool,
    initialKeypadValue: int)

  /** What `resetForm` puts in the form. */
  function DefaultForm(now: int): Form {
    Form(Expense, CategoryValue(Food), "", now, false, false, 0)
  }

  /** The tags the form stands for: "报销" when reimbursable, then "退款" when a refund. */
  function FormTags(reimbursable: bool, refund: bool): (tags: seq<string>)
    ensures |tags| <= 2
    ensures ReimbursableTag in tags <==> reimbursable
    ensures RefundTag in tags <==> refund
  {
    (if reimbursable then [ReimbursableTag] else []) + (if refund then [RefundTag] else [])
  }

  /** The note the form stands for: the typed note, or a default chosen by the flags. */
  function FormNote(note: string, reimbursable: bool, refund: bool, fallback: string): (n: string)
    ensures note != "" ==> n == note
    ensures note == "" && reimbursable ==> n == "报销款"
    ensures note == "" && !reimbursable && refund ==> n == "退款"
    ensures note == "" && !reimbursable && !refund ==> n == fallback
  {
    if note != "" then note else if reimbursable then "报销款" else if refund then "退款" else fallback
  }

  /** The amount an edited or new transaction gets: the keypad value, negated for an expense marked as a refund. */
  function ManualAmount(amountCents: int, kind: TransactionType, refund: bool): (a: int)
    ensures Abs(a) == Abs(amountCents)
    ensures a == -amountCents <==> (kind == Expense && refund) || amountCents == 0
  {
    if kind == Expense && refund then -amountCents else amountCents
  }

  /**
   * The expense and income buttons of the entry form (lines 517-533): the
   * type is set and the refund flag cleared; the category is reset to the
   * type's default (Food, Salary) only when the type actually changes. The
   * form has no button for transfers.
   */
  function TypeButton(form: Form, kind: TransactionType): (f: Form)
    requires kind != Transfer
    ensures f.kind == kind && !f.refund
    ensures form.kind == kind ==> f.category == form.category
    ensures form.kind != kind ==> f.category == CategoryValue(if kind == Expense then Food else Salary)
    ensures f.note == form.note && f.date == form.date && f.reimbursable == form.reimbursable
    ensures f.initialKeypadValue == form.initialKeypadValue
  {
    form.(kind := kind, refund := false,
          category := if form.kind != kind then CategoryValue(if kind == Expense then Food else Salary) else form.category)
  }

  /** Pressing a type button twice is pressing it once. */
  lemma TypeButtonIdempotent(form: Form, kind: TransactionType)
    requires kind != Transfer
    ensures TypeButton(TypeButton(form, kind), kind) == TypeButton(form, kind)
  {
  }

  /** After a type button, the next entry is stored as typed: the refund negation is off. */
  lemma TypeButtonClearsRefund(form: Form, kind: TransactionType, amountCents: int)
    requires kind != Transfer
    ensures var f := TypeButton(form, kind);
      ManualAmount(amountCents, f.kind, f.refund) == amountCents
      && RefundTag !in FormTags(f.reimbursable, f.refund)
  {
  }

  /**
   * For a non-negative keypad value the manual path signs an entry exactly
   * as the AI normaliser signs a candidate with the same type and tags.
   */
  lemma ManualAgreesWithNormalizer(amountCents: int, kind: TransactionType, reimbursable: bool, refund: bool)
    requires amountCents >= 0
    ensures ManualAmount(amountCents, kind, refund)
         == NormalizedAmount(amountCents, kind, Some(FormTags(reimbursable, refund)))
  {
  }

  /** Editing batch item `current` in place (lines 145-166): the keypad amount is stored as typed. */
  function EditedCandidate(current: Candidate, amountCents: int, form: Form, iso: int -> string): (c: Candidate)
    ensures c.amount == amountCents && c.kind == form.kind && c.category == form.category
    ensures c.note == (if form.note != "" then form.note else current.note)
    ensures c.tags == Some(FormTags(form.reimbursable, form.refund))
    ensures c.date == Some(iso(form.date))
    ensures c.confidence == current.confidence
  {
    Candidate(amountCents, form.kind, form.category, if form.note != "" then form.note else current.note,
              Some(FormTags(form.reimbursable, form.refund)), Some(iso(form.date)), current.confidence)
  }

  /** A candidate added to the batch by hand (lines 170-197). */
  function AppendedCandidate(amountCents: int, form: Form, iso: int -> string): (c: Candidate)
    ensures c.confidence == 1.0 && c.kind == form.kind && c.category == form.category
    ensures c.amount == (if form.refund && form.kind == Expense then -(Abs(amountCents) as int) else amountCents)
    ensures c.note != "" && c.note == FormNote(form.note, form.reimbursable, form.refund, "手动添加")
    ensures c.tags == Some(FormTags(form.reimbursable, form.refund))
    ensures c.date == Some(iso(form.date))
  {
    Candidate(if form.refund && form.kind == Expense then -(Abs(amountCents) as int) else amountCents,
              form.kind, form.category, FormNote(form.note, form.reimbursable, form.refund, "手动添加"),
              Some(FormTags(form.reimbursable, form.refund)), Some(iso(form.date)), 1.0)
  }

  /**
   * A batch item edited as a refund expense keeps its refund meaning when
   * confirmed: the amount is stored un-negated but the tag makes the
   * normaliser negate it.
   */
  lemma EditedRefundConfirmsNegative(current: Candidate, amountCents: int, form: Form, iso: int -> string,
                                     now: int, id: string, parse: string -> Option<int>)
    requires form.kind == Expense && form.refund
    ensures Normalize(EditedCandidate(current, amountCents, form, iso), now, id, parse).amount == -(Abs(amountCents) as int)
  {
  }

  /** The fields `handleAddTransaction` writes into the transaction being edited (lines 209-224). */
  function EditedTransaction(tx: Transaction, amountCents: int, form: Form): (r: Transaction)
    ensures r.id == tx.id && r.createdAt == tx.createdAt
    ensures r.amount == ManualAmount(amountCents, form.kind, form.refund)
    ensures r.kind == form.kind && r.category == form.category && r.date == form.date
    ensures r.note == FormNote(form.note, form.reimbursable, form.refund, "")
    ensures r.tags == Some(FormTags(form.reimbursable, form.refund))
  {
    tx.(amount := ManualAmount(amountCents, form.kind, form.refund), kind := form.kind, category := form.category,
        note := FormNote(form.note, form.reimbursable, form.refund, ""), date := form.date,
        tags := Some(FormTags(form.reimbursable, form.refund)))
  }

  /** `prev.map(tx => tx.id === editingTxId ? {...} : tx)`. */
  function EditById(txs: seq<Transaction>, id: string, amountCents: int, form: Form): (r: seq<Transaction>)
    ensures |r| == |txs|
    ensures forall i :: 0 <= i < |txs| ==> r[i].id == txs[i].id && r[i].createdAt == txs[i].createdAt
    ensures forall i :: 0 <= i < |txs| && txs[i].id != id ==> r[i] == txs[i]
    ensures forall i :: 0 <= i < |txs| && txs[i].id == id ==> r[i] == EditedTransaction(txs[i], amountCents, form)
  {
    seq(|txs|, i requires 0 <= i < |txs| => if txs[i].id == id then EditedTransaction(txs[i], amountCents, form) else txs[i])
  }

  /** The transaction `handleAddTransaction` creates (lines 227-239). */
  function NewTransaction(id: string, amountCents: int, form: Form, now: int): (tx: Transaction)
    ensures tx.id == id && tx.createdAt == now && tx.date == form.date
    ensures tx.amount == ManualAmount(amountCents, form.kind, form.refund)
    ensures tx.kind == form.kind && tx.category == form.category
    ensures tx.note == FormNote(form.note, form.reimbursable, form.refund, "")
    ensures tx.tags == Some(FormTags(form.reimbursable, form.refund))
  {
    Transaction(id, ManualAmount(amountCents, form.kind, form.refund), form.kind, form.category,
                FormNote(form.note, form.reimbursable, form.refund, ""), form.date, now,
                Some(FormTags(form.reimbursable, form.refund)))
  }

  /** `prev.filter(tx => tx.id !== id)`. */
  function DeleteById(txs: seq<Transaction>, id: string): (r: seq<Transaction>)
    ensures forall i :: 0 <= i < |r| ==> r[i].id != id && r[i] in txs
    ensures forall i :: 0 <= i < |txs| && txs[i].id != id ==> txs[i] in r
    ensures SubsequenceOf(r, txs)
    ensures forall x :: multiset(r)[x] == if x.id != id then multiset(txs)[x] else 0
    ensures (forall i :: 0 <= i < |txs| ==> txs[i].id != id) ==> r == txs
  {
    FilterIsSubsequence(txs, (tx: Transaction) => tx.id != id);
    FilterMultiplicity(txs, (tx: Transaction) => tx.id != id);
    FilterKeepsAllWhenAbsent(txs, id);
    Filter(txs, (tx: Transaction) => tx.id != id)
  }

  lemma FilterKeepsAllWhenAbsent(txs: seq<Transaction>, id: string)
    ensures (forall i :: 0 <= i < |txs| ==> txs[i].id != id) ==> Filter(txs, (tx: Transaction) => tx.id != id) == txs
  {
    if forall i :: 0 <= i < |txs| ==> txs[i].id != id {
      FilterAll(txs, (tx: Transaction) => tx.id != id);
    }
  }

  // ---------------------------------------------------------------- opening an entry in the editor

  /** The form `startEditOcrCandidate` loads for a batch item (lines 300-321). */
  function CandidateForm(c: Candidate, form: Form, now: int, parse: string -> Option<int>): (f: Form)
    ensures f.kind == c.kind && f.note == c.note && f.initialKeypadValue == Abs(c.amount)
    ensures f.category == (if c.category == "" then CategoryValue(Other) else c.category)
    ensures f.reimbursable <==> HasTag(c.tags, ReimbursableTag)
    ensures f.refund <==> HasTag(c.tags, RefundTag) || (c.amount < 0 && c.kind == Expense)
    ensures c.date.None? || c.date.value == "" ==> f.date == now
    ensures c.date.Some? && c.date.value != "" ==> f.date == parse(c.date.value).GetOr(form.date)
  {
    var tags := c.tags.GetOr([]);
    Form(c.kind, if c.category == "" then CategoryValue(Other) else c.category, c.note,
         if c.date.Some? && c.date.value != "" then parse(c.date.value).GetOr(form.date) else now,
         ReimbursableTag in tags, RefundTag in tags || (c.amount < 0 && c.kind == Expense), Abs(c.amount))
  }

  /**
   * Opening a batch item and saving it unchanged keeps what it will be
   * confirmed as: the keypad starts at |amount|, and the refund flag (from
   * the tag or a negative expense) re-creates the sign.
   */
  lemma CandidateEditRoundTrip(c: Candidate, form: Form, now: int, parse: string -> Option<int>,
                               iso: int -> string, id: string)
    ensures var f := CandidateForm(c, form, now, parse);
      NormalizedAmount(EditedCandidate(c, f.initialKeypadValue, f, iso).amount, c.kind,
                       EditedCandidate(c, f.initialKeypadValue, f, iso).tags)
      == NormalizedAmount(c.amount, c.kind, c.tags)
  {
  }

  /**
   * The form `startEditTransaction` loads for a stored transaction (lines
   * 276-289), as written: the refund flag comes from the "退款" tag only.
   */
  function TransactionFormAsWritten(tx: Transaction): (f: Form)
    ensures f.kind == tx.kind && f.category == tx.category && f.note == tx.note && f.date == tx.date
    ensures f.initialKeypadValue == Abs(tx.amount)
    ensures f.reimbursable <==> HasTag(tx.tags, ReimbursableTag)
    ensures f.refund <==> HasTag(tx.tags, RefundTag)
  {
    var tags := TagsOf(tx);
    Form(tx.kind, tx.category, tx.note, tx.date, ReimbursableTag in tags, RefundTag in tags, Abs(tx.amount))
  }

  /**
   * As written, an expense stored negative without the "退款" tag (what
   * `addTransactionFromAI` stores for a negative AI amount) turns positive
   * when it is opened and saved unchanged.
   */
  lemma UntaggedRefundFlipsOnEdit()
    ensures var tx := Transaction("1", -500, Expense, "Food", "退货", 0, 0, Some([]));
      var f := TransactionFormAsWritten(tx);
      EditedTransaction(tx, f.initialKeypadValue, f).amount == 500
  {
  }

  /** The form loaded for a stored transaction, with the refund flag read as batch items read it. */
  function TransactionForm(tx: Transaction): (f: Form)
    ensures f.kind == tx.kind && f.category == tx.category && f.note == tx.note && f.date == tx.date
    ensures f.initialKeypadValue == Abs(tx.amount)
    ensures f.reimbursable <==> HasTag(tx.tags, ReimbursableTag)
    ensures f.refund <==> HasTag(tx.tags, RefundTag) || (tx.amount < 0 && tx.kind == Expense)
  {
    var tags := TagsOf(tx);
    Form(tx.kind, tx.category, tx.note, tx.date, ReimbursableTag in tags,
         RefundTag in tags || (tx.amount < 0 && tx.kind == Expense), Abs(tx.amount))
  }

  /**
   * The sign convention the AI normaliser keeps: only expenses are ever
   * negative, and a refund-tagged expense is never positive. The form path
   * keeps it only for a non-negative keypad value (NewTransactionWellSigned).
   */
  predicate WellSigned(tx: Transaction) {
    && (tx.kind != Expense ==> tx.amount >= 0)
    && (HasTag(tx.tags, RefundTag) && tx.kind == Expense ==> tx.amount <= 0)
  }

  /** With the refund flag read that way, opening and saving any well-signed transaction unchanged keeps its amount. */
  lemma TransactionEditRoundTrip(tx: Transaction)
    requires WellSigned(tx)
    ensures var f := TransactionForm(tx);
      EditedTransaction(tx, f.initialKeypadValue, f).amount == tx.amount
  {
  }

  /** Transactions made by the AI normaliser are well-signed. */
  lemma NormalizeWellSigned(c: Candidate, now: int, id: string, parse: string -> Option<int>)
    ensures WellSigned(Normalize(c, now, id, parse))
  {
  }

  /**
   * A transaction made from the form is well-signed exactly when the keypad
   * value is non-negative or the form is a plain (non-refund) expense: the
   * keypad can produce negative values ("-5" evaluates to -500), and the
   * form path stores them without taking the magnitude.
   */
  lemma NewTransactionWellSigned(id: string, amountCents: int, form: Form, now: int)
    ensures WellSigned(NewTransaction(id, amountCents, form, now))
        <==> amountCents >= 0 || (form.kind == Expense && !form.refund)
  {
  }

  /** Income keyed as "-5" is stored as -500: a negative income. */
  lemma NegativeKeypadIncomeIllSigned(form: Form)
    requires form.kind == Income
    ensures NewTransaction("1", -500, form, 0).amount == -500
    ensures !WellSigned(NewTransaction("1", -500, form, 0))
  {
  }

  /**
   * A refund expense keyed as "-5" is stored as +500 with the "退款" tag.
   * Opening it and saving it unchanged stores -500, whichever way the form
   * reads the refund flag.
   */
  lemma RefundKeyedNegativeFlipsOnEdit(form: Form)
    requires form.kind == Expense && form.refund
    ensures var tx := NewTransaction("1", -500, form, 0);
      && tx.amount == 500 && HasTag(tx.tags, RefundTag)
      && EditedTransaction(tx, TransactionFormAsWritten(tx).initialKeypadValue, TransactionFormAsWritten(tx)).amount == -500
      && EditedTransaction(tx, TransactionForm(tx).initialKeypadValue, TransactionForm(tx)).amount == -500
  {
    var tx := NewTransaction("1", -500, form, 0);
    assert RefundTag in FormTags(form.reimbursable, form.refund);
  }

  // ---------------------------------------------------------------- dashboard figures

  /** A transaction's contribution to the balance: expenses subtract, income and transfers add. */
  function Signed(tx: Transaction): int {
    if tx.kind == Expense then -tx.amount else tx.amount
  }

  /** `totalBalance` (lines 464-467). */
  function Balance(txs: seq<Transaction>): int {
    Sum(txs, Signed)
  }

  /** Adding a transaction in front moves the balance by its signed amount, and only by that. */
  lemma BalanceOfPrepend(tx: Transaction, txs: seq<Transaction>)
    ensures Balance([tx] + txs) == Balance(txs) + (if tx.kind == Expense then -tx.amount else tx.amount)
  {
    assert ([tx] + txs)[1..] == txs;
  }

  lemma BalanceOfAppend(s: seq<Transaction>, t: seq<Transaction>)
    ensures Balance(s + t) == Balance(s) + Balance(t)
  {
    SumAppend(s, t, Signed);
  }

  function Amount(tx: Transaction): int { tx.amount }

  predicate IsExpense(tx: Transaction) { tx.kind == Expense }

  predicate IsIncome(tx: Transaction) { tx.kind == Income }

  /** `currentMonthExpense` (lines 469-476): the expenses dated in `month`, refunds included. */
  function MonthExpense(txs: seq<Transaction>, monthOf: int -> int, month: int): int {
    Sum(Filter(Filter(txs, IsExpense), (tx: Transaction) => monthOf(tx.date) == month), Amount)
  }

  /** `remainingBudget` (line 478): never clamped, so overspending shows a negative figure. */
  function RemainingBudget(settings: AppSettings, txs: seq<Transaction>, monthOf: int -> int, month: int): int {
    settings.monthlyBudget - MonthExpense(txs, monthOf, month)
  }

  /** A new transaction changes this month's expense by its amount when it is an expense of this month, and not at all otherwise. */
  lemma MonthExpenseOfPrepend(tx: Transaction, txs: seq<Transaction>, monthOf: int -> int, month: int)
    ensures MonthExpense([tx] + txs, monthOf, month)
         == MonthExpense(txs, monthOf, month) + (if tx.kind == Expense && monthOf(tx.date) == month then tx.amount else 0)
  {
    var inMonth := (t: Transaction) => monthOf(t.date) == month;
    FilterAppend([tx], txs, IsExpense);
    var e1, e2 := Filter([tx], IsExpense), Filter(txs, IsExpense);
    FilterAppend(e1, e2, inMonth);
    SumAppend(Filter(e1, inMonth), Filter(e2, inMonth), Amount);
    assert [tx][1..] == [];
    if tx.kind == Expense {
      assert e1 == [tx];
      assert [tx][1..] == [];
    } else {
      assert e1 == [];
    }
  }

  lemma RemainingOfPrepend(settings: AppSettings, tx: Transaction, txs: seq<Transaction>, monthOf: int -> int, month: int)
    ensures RemainingBudget(settings, [tx] + txs, monthOf, month)
         == RemainingBudget(settings, txs, monthOf, month) - (if tx.kind == Expense && monthOf(tx.date) == month then tx.amount else 0)
  {
    MonthExpenseOfPrepend(tx, txs, monthOf, month);
  }

  /** Overspending: with a budget of 100 yuan and 150 yuan spent this month, 50 yuan below zero remain. */
  lemma RemainingBudgetUnclamped(monthOf: int -> int)
    ensures var tx := Transaction("1", 15000, Expense, "Food", "", 0, 0, None);
      RemainingBudget(AppSettings(10000, true, true), [tx], monthOf, monthOf(0)) == -5000
  {
    var tx := Transaction("1", 15000, Expense, "Food", "", 0, 0, None);
    MonthExpenseOfPrepend(tx, [], monthOf, monthOf(0));
    assert [tx] + [] == [tx];
  }

  /**
   * The figure in the toast after a new expense (lines 242-254): the budget
   * minus this month's expenses before the entry, minus the entry itself.
   */
  function ToastRemaining(settings: AppSettings, txs: seq<Transaction>, finalAmount: int, monthOf: int -> int, month: int): int {
    settings.monthlyBudget - (MonthExpense(txs, monthOf, month) + finalAmount)
  }

  /**
   * The toast agrees with the dashboard's remaining budget once the entry is
   * in the ledger, when the entry is dated in the current month. (A
   * back-dated entry is still subtracted in the toast.)
   */
  lemma ToastMatchesDashboard(settings: AppSettings, tx: Transaction, txs: seq<Transaction>, monthOf: int -> int, month: int)
    requires tx.kind == Expense && monthOf(tx.date) == month
    ensures ToastRemaining(settings, txs, tx.amount, monthOf, month) == RemainingBudget(settings, [tx] + txs, monthOf, month)
  {
    RemainingOfPrepend(settings, tx, txs, monthOf, month);
  }

  /** Whether a transaction matches the (folded) search term: note, label-or-category, or `amount / 100` as text. */
  predicate Matches(tx: Transaction, term: string, fold: string -> string) {
    var t := fold(term);
    || Includes(fold(tx.note), t)
    || Includes(fold(LabelOrRaw(tx.category)), t)
    || Includes(CentsToNumberString(tx.amount), t)
  }

  /** `filteredTransactions` (lines 480-488). */
  function Search(txs: seq<Transaction>, term: string, fold: string -> string): (r: seq<Transaction>)
    ensures term == "" ==> r == txs
    ensures SubsequenceOf(r, txs)
    ensures term != "" ==> forall i :: 0 <= i < |r| ==> Matches(r[i], term, fold)
    ensures forall i :: 0 <= i < |txs| && Matches(txs[i], term, fold) ==> txs[i] in r
    ensures term != "" ==> forall x :: multiset(r)[x] == if Matches(x, term, fold) then multiset(txs)[x] else 0
  {
    if term == "" then
      SubsequenceOfSelf(txs);
      txs
    else
      FilterIsSubsequence(txs, (tx: Transaction) => Matches(tx, term, fold));
      FilterMultiplicity(txs, (tx: Transaction) => Matches(tx, term, fold));
      Filter(txs, (tx: Transaction) => Matches(tx, term, fold))
  }

  /**
   * Line 485's predicate as written, with `CategoryLabels[tx.category]`
   * looked up along the prototype chain. The note is tried first; when it
   * does not match and the category names an inherited member, that member
   * is truthy and not a string, so `.toLowerCase()` throws: `None`.
   */
  function MatchesAsWritten(tx: Transaction, term: string, fold: string -> string): (r: Option<bool>)
    ensures r.None? <==> !Includes(fold(tx.note), fold(term)) && InheritedKey(tx.category)
    ensures r.Some? ==> r.value == Matches(tx, term, fold)
  {
    var t := fold(term);
    if Includes(fold(tx.note), t) then Some(true)
    else match LookupAsWritten(tx.category)
      case InheritedMember => None
      case OwnLabel(l) =>
        Some(Includes(fold(if l == "" then tx.category else l), t) || Includes(CentsToNumberString(tx.amount), t))
      case Undefined => Some(Includes(fold(tx.category), t) || Includes(CentsToNumberString(tx.amount), t))
  }

  /** `transactions.filter(...)` as written: the first throwing row aborts the whole filter. */
  function SearchAsWritten(txs: seq<Transaction>, term: string, fold: string -> string): (r: Option<seq<Transaction>>)
  {
    if term == "" then Some(txs)
    else if txs == [] then Some([])
    else match (MatchesAsWritten(txs[0], term, fold), SearchAsWritten(txs[1..], term, fold))
      case (Some(keep), Some(rest)) => Some((if keep then [txs[0]] else []) + rest)
      case _ => None
  }

  /**
   * The search as written fails exactly when some row's note misses the term
   * and its category is an inherited name; otherwise it is the own-property
   * search `Search`.
   */
  lemma {:induction false} SearchAsWrittenAgrees(txs: seq<Transaction>, term: string, fold: string -> string)
    ensures SearchAsWritten(txs, term, fold).None? <==>
      term != "" && exists i :: 0 <= i < |txs| && MatchesAsWritten(txs[i], term, fold).None?
    ensures SearchAsWritten(txs, term, fold).Some? ==> SearchAsWritten(txs, term, fold).value == Search(txs, term, fold)
  {
    if term != "" && txs != [] {
      SearchAsWrittenAgrees(txs[1..], term, fold);
      assert forall i :: 1 <= i < |txs| ==> txs[i] == txs[1..][i - 1];
      if exists i :: 1 <= i < |txs| && MatchesAsWritten(txs[i], term, fold).None? {
        var i :| 1 <= i < |txs| && MatchesAsWritten(txs[i], term, fold).None?;
        assert MatchesAsWritten(txs[1..][i - 1], term, fold).None?;
      }
    }
  }

  /**
   * A row filed under `toString` whose note does not contain the term makes
   * the search throw, while the own-property search finds it by its category.
   */
  lemma SearchThrowsOnInheritedCategory(fold: string -> string)
    requires fold("t") == "t" && fold("") == "" && fold("toString") == "toString"
    ensures SearchAsWritten([Transaction("t1", 500, Expense, "toString", "", 0, 0, None)], "t", fold) == None
    ensures Search([Transaction("t1", 500, Expense, "toString", "", 0, 0, None)], "t", fold)
         == [Transaction("t1", 500, Expense, "toString", "", 0, 0, None)]
  {
    var tx := Transaction("t1", 500, Expense, "toString", "", 0, 0, None);
    assert !Includes("", "t");
    assert LabelOrRaw("toString") == "toString" by {
      assert "toString" !in CategoryLabels;
    }
    assert Includes("toString", "t") by {
      assert "toString"[..1] == "t";
    }
  }

  lemma {:induction false} SubsequenceOfSelf<T>(s: seq<T>)
    ensures SubsequenceOf(s, s)
  {
    if s != [] {
      SubsequenceOfSelf(s[1..]);
    }
  }
}
