/** Sequences of user actions applied to the form, each returning the form
    so that its contract can state the outcome. Those named "Intended" use the
    corrected clear, submit and load; the others use the handlers as written.
    Longer sequences are built from shorter ones. */
module Scenarios {
  import opened Invoice
  import opened HistoryLog
  import opened App

  const Blank := Row("", 0.0, 0.0)

  /** A fresh form with one blank row added and nothing submitted. */
  method OneBlankRow() returns (app: InvoiceApp)
    ensures app.Valid() && app.history == []
    ensures Rows(app.draft.lineItems) == [Blank]
    ensures app.draft.lineItems == app.emptyState.lineItems
    ensures fresh(app) && fresh(app.draft.lineItems) && fresh(app.draft.lineItems.elems[0])
  {
    app := new InvoiceApp([]);
    assert Rows(app.draft.lineItems) == [];
    app.OnLineItemAddClick();
  }

  /** Two rows added, the first described and the second priced. */
  method TwoEditedRows() returns (app: InvoiceApp)
    ensures app.Valid() && app.history == [] && fresh(app)
    ensures Rows(app.draft.lineItems) == [Row("Design", 0.0, 0.0), Row("", 0.0, 50.0)]
  {
    app := OneBlankRow();
    app.OnLineItemAddClick();
    assert Rows(app.draft.lineItems) == [Blank, Blank];
    var ok := app.OnLineItemDescriptionChange(0, "Design");
    assert Rows(app.draft.lineItems) == [Row("Design", 0.0, 0.0), Blank];
    ok := app.OnLineItemRateChange(1, 50.0);
  }

  /** Two edited rows submitted: the head of the history holds both rows. */
  method SubmitTwoEditedRows() returns (app: InvoiceApp)
    ensures |app.history| == 1
    ensures Rows(app.history[0].lineItems) == [Row("Design", 0.0, 0.0), Row("", 0.0, 50.0)]
  {
    app := TwoEditedRows();
    app.OnSubmitClick();
    assert app.history == [app.draft];
  }

  /** Three blank rows added to a fresh form. */
  method ThreeBlankRows() returns (app: InvoiceApp)
    ensures app.Valid() && app.history == [] && fresh(app) && fresh(app.draft.lineItems)
    ensures Rows(app.draft.lineItems) == [Blank, Blank, Blank]
    ensures forall k :: 0 <= k < |app.draft.lineItems.elems| ==> fresh(app.draft.lineItems.elems[k])
  {
    app := OneBlankRow();
    app.OnLineItemAddClick();
    app.OnLineItemAddClick();
  }

  /** Three rows described "A", "B" and "C". */
  method ThreeDescribedRows() returns (app: InvoiceApp)
    ensures app.Valid() && app.history == [] && fresh(app) && fresh(app.draft.lineItems)
    ensures Rows(app.draft.lineItems) == [Row("A", 0.0, 0.0), Row("B", 0.0, 0.0), Row("C", 0.0, 0.0)]
  {
    app := ThreeBlankRows();
    var ok := app.OnLineItemDescriptionChange(0, "A");
    ok := app.OnLineItemDescriptionChange(1, "B");
    ok := app.OnLineItemDescriptionChange(2, "C");
  }

  /** Rows A, B, C with row 0 deleted: B moves to position 0. */
  method DeleteFirstRowOnce() returns (app: InvoiceApp)
    ensures app.Valid() && app.history == [] && fresh(app) && fresh(app.draft.lineItems)
    ensures Rows(app.draft.lineItems) == [Row("B", 0.0, 0.0), Row("C", 0.0, 0.0)]
  {
    app := ThreeDescribedRows();
    ghost var rows := Rows(app.draft.lineItems);
    app.OnLineItemDeleteClick(0);
    SpliceFirst(rows);
    assert rows[1..] == [Row("B", 0.0, 0.0), Row("C", 0.0, 0.0)];
  }

  /** Deleting row 0 twice from rows A, B, C leaves C: the second delete
      removes the row that moved into position 0. */
  method DeleteFirstRowTwice() returns (app: InvoiceApp)
    ensures Rows(app.draft.lineItems) == [Row("C", 0.0, 0.0)]
  {
    app := DeleteFirstRowOnce();
    ghost var rows := Rows(app.draft.lineItems);
    app.OnLineItemDeleteClick(0);
    SpliceFirst(rows);
  }

  /** As written: a row added before clearing is still there after clearing,
      because the row was pushed onto the initial record's own array. */
  method ClearAfterAddKeepsRow() returns (app: InvoiceApp)
    ensures Rows(app.draft.lineItems) == [Blank]
    ensures ValueOf(app.draft) != Empty([])
  {
    app := OneBlankRow();
    app.OnExampleLinkClick();
    app.OnClearFormClick();
  }

  /** Intended: clearing after adding a row leaves no rows. */
  method ClearAfterAddIntended() returns (app: InvoiceApp)
    ensures ValueOf(app.draft) == Empty([])
  {
    app := OneBlankRow();
    app.OnExampleLinkClick();
    app.ClearFormIntended();
  }

  /** As written: a row edited after submitting rewrites the stored entry
      (it shares the array and rows), and the next submit adds nothing. */
  method EditAfterSubmitRewritesEntry() returns (app: InvoiceApp)
    ensures |app.history| == 1
    ensures Rows(app.history[0].lineItems) == [Row("Design", 0.0, 0.0)]
  {
    app := OneBlankRow();
    app.OnSubmitClick();
    assert app.history == [app.draft];
    var ok := app.OnLineItemDescriptionChange(0, "Design");
    assert Rows(app.draft.lineItems) == [Row("Design", 0.0, 0.0)];
    app.OnSubmitClick();
  }

  /** One blank row submitted the intended way: the stored entry shares no
      row object with the draft. */
  method OneBlankRowSubmittedIntended() returns (app: InvoiceApp)
    ensures app.Valid() && |app.history| == 1
    ensures Rows(app.draft.lineItems) == [Blank] && Rows(app.history[0].lineItems) == [Blank]
    ensures Values(app.history) == [ValueOf(app.draft)]
    ensures app.draft.lineItems.elems[0] !in app.history[0].lineItems.elems
    ensures fresh(app) && fresh(app.draft.lineItems.elems[0]) && fresh(app.history[0].lineItems.elems[0])
  {
    app := OneBlankRow();
    ghost var blank := ValueOf(app.draft);
    app.SubmitIntended();
    assert Values(app.history) == [blank];
    assert ValueOf(app.history[0]) == blank;
  }

  /** One blank row submitted the intended way, then described "Design": the
      stored entry still holds the blank row. */
  method EditedAfterSubmitIntended() returns (app: InvoiceApp)
    ensures app.Valid() && |app.history| == 1
    ensures Rows(app.draft.lineItems) == [Row("Design", 0.0, 0.0)]
    ensures Values(app.history) == [ValueOf(app.draft).(lineItems := [Blank])]
    ensures fresh(app)
  {
    app := OneBlankRowSubmittedIntended();
    ghost var blank := ValueOf(app.draft);
    var ok := app.OnLineItemDescriptionChange(0, "Design");
    assert Values(app.history) == [blank];
  }

  /** Intended: the submitted entry keeps the row as it was submitted, and
      the edited draft becomes a second entry. */
  method EditAfterSubmitIntended() returns (app: InvoiceApp)
    ensures |app.history| == 2
    ensures Rows(app.history[0].lineItems) == [Row("Design", 0.0, 0.0)]
    ensures Rows(app.history[1].lineItems) == [Blank]
  {
    app := EditedAfterSubmitIntended();
    ghost var blank := ValueOf(app.draft).(lineItems := [Blank]);
    assert ValueOf(app.draft) != blank by {
      assert Rows(app.draft.lineItems)[0] != Blank;
    }
    app.SubmitIntended();
    assert Values(app.history) == [ValueOf(app.draft), blank];
    assert ValueOf(app.history[1]) == blank;
  }

  /** As written: editing a row of a draft loaded from the history rewrites
      that history entry. */
  method EditAfterLoadRewritesEntry() returns (app: InvoiceApp)
    ensures |app.history| == 1
    ensures Rows(app.history[0].lineItems) == [Row("Design", 0.0, 0.0)]
  {
    app := OneBlankRowSubmittedIntended();
    app.OnExampleLinkClick();
    app.OnHistoryStateClick(app.history[0]);
    var ok := app.OnLineItemDescriptionChange(0, "Design");
    assert app.draft == app.history[0];
  }

  /** One blank row submitted the intended way, the example shown, then the
      entry loaded back the intended way: the draft has rows of its own. */
  method LoadedBackIntended() returns (app: InvoiceApp)
    ensures app.Valid() && |app.history| == 1
    ensures Rows(app.history[0].lineItems) == [Blank] && Rows(app.draft.lineItems) == [Blank]
    ensures app.draft.lineItems.elems[0] !in app.history[0].lineItems.elems
    ensures fresh(app) && fresh(app.draft.lineItems.elems[0])
  {
    app := OneBlankRowSubmittedIntended();
    app.OnExampleLinkClick();
    ghost var stored := app.history[0].lineItems.elems;
    app.LoadIntended(app.history[0]);
    assert Rows(app.draft.lineItems) == [Blank];
    assert app.history[0].lineItems.elems == stored;
  }

  /** Intended: editing a draft loaded from the history leaves the entry as stored. */
  method EditAfterLoadIntended() returns (app: InvoiceApp)
    ensures |app.history| == 1
    ensures Rows(app.history[0].lineItems) == [Blank]
    ensures Rows(app.draft.lineItems) == [Row("Design", 0.0, 0.0)]
  {
    app := LoadedBackIntended();
    ghost var entry := ValueOf(app.history[0]);
    var ok := app.OnLineItemDescriptionChange(0, "Design");
    assert ValueOf(app.history[0]) == entry;
  }
}
