/**
 * The App component's state and its handlers (App.tsx). The fields mirror
 * the React state: the ledger, the batch of AI candidates, the selected
 * rows, what the entry form is editing, and the form itself.
 *
 * A handler's `setState` calls take effect together when it returns; the
 * effect at lines 75-82 then runs whenever the batch length changed and
 * selects every row. `SyncSelection` is that effect and every handler that
 * can change the batch length ends with it.
 */
module Session {
  import opened Wrappers
  import opened Types
  import opened Seqs
  import opened Ledger

  class Session {
    var transactions: seq<Transaction>
    var ocrCandidates: seq<Candidate>
    var selected: set<nat>
    var editingOcrIndex: Option<nat>
    var isAddingToOcr: bool
    var editingTxId: Option<string>
    var form: Form
    var settings: AppSettings

    /** Every selected index names a row of the batch. */
    ghost predicate Valid()
      reads this
    {
      forall i :: i in selected ==> i < |ocrCandidates|
    }

    /** The state on first render (lines 13-42), before storage is loaded. */
    constructor(now: int)
      ensures Valid()
      ensures transactions == [] && ocrCandidates == [] && selected == {}
      ensures editingOcrIndex.None? && !isAddingToOcr && editingTxId.None?
      ensures form == DefaultForm(now) && settings == DefaultSettings
    {
      transactions := [];
      ocrCandidates := [];
      selected := {};
      editingOcrIndex := None;
      isAddingToOcr := false;
      editingTxId := None;
      form := DefaultForm(now);
      settings := DefaultSettings;
    }

    /** The effect on `ocrCandidates.length`: when the length changed, every row is selected. */
    method SyncSelection(previousLength: nat)
      modifies this
      ensures |ocrCandidates| != previousLength ==> selected == AllIndices(|ocrCandidates|)
      ensures |ocrCandidates| == previousLength ==> selected == old(selected)
      ensures transactions == old(transactions) && ocrCandidates == old(ocrCandidates)
      ensures editingOcrIndex == old(editingOcrIndex) && isAddingToOcr == old(isAddingToOcr)
      ensures editingTxId == old(editingTxId) && form == old(form) && settings == old(settings)
      ensures old(Valid()) ==> Valid()
    {
      if |ocrCandidates| != previousLength {
        selected := AllIndices(|ocrCandidates|);
      }
    }

    /** `resetForm`: clears the form and what it edits, but not `isAddingToOcr`. */
    method ResetForm(now: int)
      modifies this
      ensures form == DefaultForm(now) && editingOcrIndex.None? && editingTxId.None?
      ensures isAddingToOcr == old(isAddingToOcr)
      ensures transactions == old(transactions) && ocrCandidates == old(ocrCandidates)
      ensures selected == old(selected) && settings == old(settings)
    {
      form := DefaultForm(now);
      editingOcrIndex := None;
      editingTxId := None;
    }

    /**
     * `handleAddTransaction`, the keypad's completion: it edits a batch row,
     * adds a row to the batch, edits a stored transaction, or records a new
     * one, in that order of priority. It returns the remaining budget shown
     * in the toast after a new positive expense.
     */
    method HandleAddTransaction(amountCents: int, now: int, newId: string, iso: int -> string, monthOf: int -> int)
      returns (toast: Option<int>)
      requires Valid()
      requires editingOcrIndex.Some? ==> editingOcrIndex.value < |ocrCandidates|
      modifies this
      ensures Valid() && settings == old(settings)
      // 1. a batch row was being edited: only that row changes, the form stays
      ensures old(editingOcrIndex).Some? ==>
        && ocrCandidates == old(ocrCandidates)[old(editingOcrIndex).value :=
             EditedCandidate(old(ocrCandidates)[old(editingOcrIndex).value], amountCents, old(form), iso)]
        && selected == old(selected) && editingOcrIndex.None?
        && transactions == old(transactions) && form == old(form)
        && isAddingToOcr == old(isAddingToOcr) && editingTxId == old(editingTxId) && toast.None?
      // 2. adding to the batch: one row at the end, and every row is then selected
      ensures old(editingOcrIndex).None? && old(isAddingToOcr) ==>
        && ocrCandidates == old(ocrCandidates) + [AppendedCandidate(amountCents, old(form), iso)]
        && selected == AllIndices(|ocrCandidates|) && !isAddingToOcr
        && transactions == old(transactions) && toast.None?
        && form == DefaultForm(now) && editingOcrIndex.None? && editingTxId.None?
      // 3. editing a stored transaction
      ensures old(editingOcrIndex).None? && !old(isAddingToOcr) && old(editingTxId).Some? && old(editingTxId).value != "" ==>
        && transactions == EditById(old(transactions), old(editingTxId).value, amountCents, old(form))
        && ocrCandidates == old(ocrCandidates) && selected == old(selected) && !isAddingToOcr && toast.None?
        && form == DefaultForm(now) && editingOcrIndex.None? && editingTxId.None?
      // 4. a new transaction, in front
      ensures old(editingOcrIndex).None? && !old(isAddingToOcr) && (old(editingTxId).None? || old(editingTxId).value == "") ==>
        && transactions == [NewTransaction(newId, amountCents, old(form), now)] + old(transactions)
        && ocrCandidates == old(ocrCandidates) && selected == old(selected) && !isAddingToOcr
        && form == DefaultForm(now) && editingOcrIndex.None? && editingTxId.None?
        && var finalAmount := ManualAmount(amountCents, old(form).kind, old(form).refund);
           toast == if old(form).kind == Expense && finalAmount > 0
                    then Some(ToastRemaining(settings, old(transactions), finalAmount, monthOf, monthOf(now)))
                    else None
    {
      toast := None;
      if editingOcrIndex.Some? {
        var i := editingOcrIndex.value;
        ocrCandidates := ocrCandidates[i := EditedCandidate(ocrCandidates[i], amountCents, form, iso)];
        editingOcrIndex := None;
        return;
      }
      if isAddingToOcr {
        var previousLength := |ocrCandidates|;
        ocrCandidates := ocrCandidates + [AppendedCandidate(amountCents, form, iso)];
        selected := selected + {previousLength};
        isAddingToOcr := false;
        ResetForm(now);
        SyncSelection(previousLength);
        return;
      }
      var finalAmount := ManualAmount(amountCents, form.kind, form.refund);
      if editingTxId.Some? && editingTxId.value != "" {
        transactions := EditById(transactions, editingTxId.value, amountCents, form);
      } else {
        var previous := transactions;
        transactions := [NewTransaction(newId, amountCents, form, now)] + transactions;
        if form.kind == Expense && finalAmount > 0 {
          toast := Some(ToastRemaining(settings, previous, finalAmount, monthOf, monthOf(now)));
        }
      }
      ResetForm(now);
    }

    /** `startEditTransaction`: the keypad opens on |amount|, and the refund flag comes from the "退款" tag only. */
    method StartEditTransaction(tx: Transaction)
      modifies this
      ensures editingTxId == Some(tx.id) && form == TransactionFormAsWritten(tx)
      ensures transactions == old(transactions) && ocrCandidates == old(ocrCandidates) && selected == old(selected)
      ensures editingOcrIndex == old(editingOcrIndex) && isAddingToOcr == old(isAddingToOcr) && settings == old(settings)
    {
      editingTxId := Some(tx.id);
      form := TransactionFormAsWritten(tx);
    }

    /** `handleDeleteTransaction`: removes the transaction being edited; without one it does nothing. */
    method HandleDeleteTransaction(now: int)
      modifies this
      ensures old(editingTxId).Some? && old(editingTxId).value != "" ==>
        && transactions == DeleteById(old(transactions), old(editingTxId).value)
        && form == DefaultForm(now) && editingOcrIndex.None? && editingTxId.None?
      ensures old(editingTxId).None? || old(editingTxId).value == "" ==>
        transactions == old(transactions) && form == old(form) && editingOcrIndex == old(editingOcrIndex) && editingTxId == old(editingTxId)
      ensures ocrCandidates == old(ocrCandidates) && selected == old(selected)
      ensures isAddingToOcr == old(isAddingToOcr) && settings == old(settings)
    {
      if editingTxId.Some? && editingTxId.value != "" {
        transactions := DeleteById(transactions, editingTxId.value);
        ResetForm(now);
      }
    }

    /** `startEditOcrCandidate`: loads batch row `index` into the form. */
    method StartEditOcrCandidate(index: nat, now: int, parse: string -> Option<int>)
      requires index < |ocrCandidates|
      modifies this
      ensures editingOcrIndex == Some(index) && !isAddingToOcr
      ensures form == CandidateForm(old(ocrCandidates)[index], old(form), now, parse)
      ensures transactions == old(transactions) && ocrCandidates == old(ocrCandidates) && selected == old(selected)
      ensures editingTxId == old(editingTxId) && settings == old(settings)
    {
      editingOcrIndex := Some(index);
      isAddingToOcr := false;
      form := CandidateForm(ocrCandidates[index], form, now, parse);
    }

    /** `startAddToOcr`. */
    method StartAddToOcr(now: int)
      modifies this
      ensures isAddingToOcr && form == DefaultForm(now) && editingOcrIndex.None? && editingTxId.None?
      ensures transactions == old(transactions) && ocrCandidates == old(ocrCandidates)
      ensures selected == old(selected) && settings == old(settings)
    {
      ResetForm(now);
      isAddingToOcr := true;
    }

    /** `toggleOcrSelection` on a row of the batch. */
    method ToggleOcrSelection(index: nat)
      requires Valid() && index < |ocrCandidates|
      modifies this
      ensures Valid()
      ensures selected == Toggled(old(selected), index)
      ensures transactions == old(transactions) && ocrCandidates == old(ocrCandidates)
      ensures editingOcrIndex == old(editingOcrIndex) && isAddingToOcr == old(isAddingToOcr)
      ensures editingTxId == old(editingTxId) && form == old(form) && settings == old(settings)
    {
      if index in selected {
        selected := selected - {index};
      } else {
        selected := selected + {index};
      }
    }

    /** The "select all" button (line 823). */
    method SelectAll()
      modifies this
      ensures Valid() && selected == AllIndices(|ocrCandidates|)
      ensures transactions == old(transactions) && ocrCandidates == old(ocrCandidates)
      ensures editingOcrIndex == old(editingOcrIndex) && isAddingToOcr == old(isAddingToOcr)
      ensures editingTxId == old(editingTxId) && form == old(form) && settings == old(settings)
    {
      selected := AllIndices(|ocrCandidates|);
    }

    /**
     * `handleBatchConfirm`: with nothing selected nothing happens; otherwise
     * each selected row goes through `addTransactionFromAI` in batch order,
     * each in front of the last, and only the unselected rows stay.
     * `ids(k)` is the id drawn for the k-th confirmed row.
     */
    method HandleBatchConfirm(now: int, ids: nat -> string, parse: string -> Option<int>)
      requires Valid()
      modifies this
      ensures Valid()
      ensures Picked(old(ocrCandidates), old(selected)) == [] ==>
        && transactions == old(transactions) && ocrCandidates == old(ocrCandidates) && selected == old(selected)
        && isAddingToOcr == old(isAddingToOcr)
      ensures Picked(old(ocrCandidates), old(selected)) != [] ==>
        && transactions == Reverse(NormalizeAll(Picked(old(ocrCandidates), old(selected)), now, ids, parse)) + old(transactions)
        && ocrCandidates == Unpicked(old(ocrCandidates), old(selected))
        && selected == AllIndices(|ocrCandidates|) && !isAddingToOcr
      ensures editingOcrIndex == old(editingOcrIndex) && editingTxId == old(editingTxId)
      ensures form == old(form) && settings == old(settings)
    {
      var toConfirm := Picked(ocrCandidates, selected);
      var remaining := Unpicked(ocrCandidates, selected);
      if toConfirm == [] {
        return;
      }
      var previousLength := |ocrCandidates|;
      PickedPartition(ocrCandidates, selected);
      ConfirmAll(toConfirm, now, ids, parse);
      ocrCandidates := remaining;
      selected := {};
      isAddingToOcr := false;
      SyncSelection(previousLength);
    }

    /** The `forEach` of the confirm: each row through `addTransactionFromAI`, in batch order. */
    method ConfirmAll(items: seq<Candidate>, now: int, ids: nat -> string, parse: string -> Option<int>)
      modifies this`transactions
      ensures transactions == Reverse(NormalizeAll(items, now, ids, parse)) + old(transactions)
    {
      var k := 0;
      while k < |items|
        invariant 0 <= k <= |items|
        invariant transactions == Reverse(NormalizeAll(items[..k], now, ids, parse)) + old(transactions)
      {
        ConfirmStep(items, k, now, ids, parse, old(transactions), transactions);
        transactions := AddFromAI(transactions, items[k], now, ids(k), parse);
        k := k + 1;
      }
      assert items[..k] == items;
    }

    /** `handleBatchDelete`: only the unselected rows stay; the ledger is untouched. */
    method HandleBatchDelete()
      requires Valid()
      modifies this
      ensures Valid()
      ensures ocrCandidates == Unpicked(old(ocrCandidates), old(selected))
      ensures selected == if |ocrCandidates| != |old(ocrCandidates)| then AllIndices(|ocrCandidates|) else {}
      ensures transactions == old(transactions) && isAddingToOcr == old(isAddingToOcr)
      ensures editingOcrIndex == old(editingOcrIndex) && editingTxId == old(editingTxId)
      ensures form == old(form) && settings == old(settings)
    {
      var previousLength := |ocrCandidates|;
      ocrCandidates := Unpicked(ocrCandidates, selected);
      selected := {};
      SyncSelection(previousLength);
    }

    /** The close button of the batch dialog (line 748). */
    method CloseBatch()
      requires Valid()
      modifies this
      ensures Valid() && ocrCandidates == [] && selected == {}
      ensures transactions == old(transactions) && isAddingToOcr == old(isAddingToOcr)
      ensures editingOcrIndex == old(editingOcrIndex) && editingTxId == old(editingTxId)
      ensures form == old(form) && settings == old(settings)
    {
      var previousLength := |ocrCandidates|;
      ocrCandidates := [];
      SyncSelection(previousLength);
    }

    /** `switchToManualInput`: drops the batch and opens a fresh form. */
    method SwitchToManualInput(now: int)
      requires Valid()
      modifies this
      ensures Valid() && ocrCandidates == [] && selected == {} && !isAddingToOcr
      ensures form == DefaultForm(now) && editingOcrIndex.None? && editingTxId.None?
      ensures transactions == old(transactions) && settings == old(settings)
    {
      var previousLength := |ocrCandidates|;
      ocrCandidates := [];
      isAddingToOcr := false;
      ResetForm(now);
      SyncSelection(previousLength);
    }

    /** The expense or income button of the entry form (lines 517-533). */
    method SelectType(kind: TransactionType)
      requires kind != Transfer
      modifies this
      ensures form == TypeButton(old(form), kind)
      ensures transactions == old(transactions) && ocrCandidates == old(ocrCandidates) && selected == old(selected)
      ensures editingOcrIndex == old(editingOcrIndex) && isAddingToOcr == old(isAddingToOcr)
      ensures editingTxId == old(editingTxId) && settings == old(settings)
    {
      form := TypeButton(form, kind);
    }

    /** The keypad's cancel and the close button of the entry sheet (lines 616-621, 638-643). */
    method Cancel()
      modifies this
      ensures editingOcrIndex.None? && editingTxId.None? && !isAddingToOcr
      ensures transactions == old(transactions) && ocrCandidates == old(ocrCandidates) && selected == old(selected)
      ensures form == old(form) && settings == old(settings)
    {
      editingOcrIndex := None;
      editingTxId := None;
      isAddingToOcr := false;
    }

    /** The "+" button (lines 1070-1072). */
    method StartNewEntry(now: int)
      modifies this
      ensures form == DefaultForm(now) && editingOcrIndex.None? && editingTxId.None?
      ensures isAddingToOcr == old(isAddingToOcr)
      ensures transactions == old(transactions) && ocrCandidates == old(ocrCandidates)
      ensures selected == old(selected) && settings == old(settings)
    {
      ResetForm(now);
    }

    /**
     * A photo's recognition result arriving (lines 356-357, 366-367): the
     * batch is first emptied, then replaced by the result when it has rows.
     * Both steps are separate renders, so the effect runs after each.
     */
    method ReceiveBatch(results: seq<Candidate>)
      requires Valid()
      modifies this
      ensures Valid() && ocrCandidates == results && selected == AllIndices(|results|) && !isAddingToOcr
      ensures transactions == old(transactions) && editingOcrIndex == old(editingOcrIndex)
      ensures editingTxId == old(editingTxId) && form == old(form) && settings == old(settings)
    {
      var previousLength := |ocrCandidates|;
      ocrCandidates := [];
      isAddingToOcr := false;
      SyncSelection(previousLength);
      if |results| > 0 {
        ocrCandidates := results;
        SyncSelection(0);
      }
    }

    /** `addTransactionFromAI` for a text result. */
    method AddTransactionFromAI(c: Candidate, now: int, id: string, parse: string -> Option<int>)
      modifies this
      ensures transactions == AddFromAI(old(transactions), c, now, id, parse)
      ensures ocrCandidates == old(ocrCandidates) && selected == old(selected)
      ensures editingOcrIndex == old(editingOcrIndex) && isAddingToOcr == old(isAddingToOcr)
      ensures editingTxId == old(editingTxId) && form == old(form) && settings == old(settings)
    {
      transactions := AddFromAI(transactions, c, now, id, parse);
    }

    /** Restoring a backup (lines 128-134): the ledger is replaced only when the file holds an array. */
    method Import(parsed: Option<seq<Transaction>>)
      modifies this
      ensures parsed.Some? ==> transactions == parsed.value
      ensures parsed.None? ==> transactions == old(transactions)
      ensures ocrCandidates == old(ocrCandidates) && selected == old(selected)
      ensures editingOcrIndex == old(editingOcrIndex) && isAddingToOcr == old(isAddingToOcr)
      ensures editingTxId == old(editingTxId) && form == old(form) && settings == old(settings)
    {
      if parsed.Some? {
        transactions := parsed.value;
      }
    }
  }

  /** One step of the confirm loop: the next row's transaction goes in front of those already confirmed. */
  lemma ConfirmStep(items: seq<Candidate>, k: nat, now: int, ids: nat -> string, parse: string -> Option<int>,
                    ledger: seq<Transaction>, current: seq<Transaction>)
    requires k < |items|
    requires current == Reverse(NormalizeAll(items[..k], now, ids, parse)) + ledger
    ensures AddFromAI(current, items[k], now, ids(k), parse)
         == Reverse(NormalizeAll(items[..k + 1], now, ids, parse)) + ledger
  {
    var x := Normalize(items[k], now, ids(k), parse);
    var done := NormalizeAll(items[..k], now, ids, parse);
    assert NormalizeAll(items[..k + 1], now, ids, parse) == done + [x];
    ReverseSnoc(done, x);
    PrependAssoc(x, Reverse(done), ledger);
  }

  lemma PrependAssoc(x: Transaction, s: seq<Transaction>, t: seq<Transaction>)
    ensures [x] + (s + t) == ([x] + s) + t
  {
  }

  /**
   * Confirming a batch: the ledger grows by exactly the selected rows, and
   * the confirmed and the remaining rows are together the whole batch.
   */
  lemma BatchConfirmAccounting(items: seq<Candidate>, sel: set<nat>, ledger: seq<Transaction>, now: int,
                               ids: nat -> string, parse: string -> Option<int>)
    ensures |Reverse(NormalizeAll(Picked(items, sel), now, ids, parse)) + ledger| == |ledger| + |Picked(items, sel)|
    ensures |Picked(items, sel)| + |Unpicked(items, sel)| == |items|
    ensures (Reverse(NormalizeAll(Picked(items, sel), now, ids, parse)) + ledger)[|Picked(items, sel)|..] == ledger
    ensures (forall i :: i in sel ==> i < |items|) ==>
      |Reverse(NormalizeAll(Picked(items, sel), now, ids, parse)) + ledger| == |ledger| + |sel|
    ensures SubsequenceOf(Unpicked(items, sel), items)
  {
    PickedPartition(items, sel);
    PickedCount(items, sel);
    PickedSubsequence(items, sel);
    var front := Reverse(NormalizeAll(Picked(items, sel), now, ids, parse));
    assert (front + ledger)[|front|..] == ledger;
  }

  /** The last row of the batch is confirmed first in the list: it lands at the front of the ledger. */
  lemma BatchConfirmOrder(items: seq<Candidate>, now: int, ids: nat -> string, parse: string -> Option<int>, ledger: seq<Transaction>)
    requires |items| >= 2
    ensures var r := Reverse(NormalizeAll(items, now, ids, parse)) + ledger;
      r[0] == Normalize(items[|items| - 1], now, ids(|items| - 1), parse)
      && r[|items| - 1] == Normalize(items[0], now, ids(0), parse)
  {
  }
}
