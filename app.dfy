/** The invoice form's state as the component keeps it: a draft record whose
    line items live in a shared, mutable array of mutable row objects, and a
    newest-first history of submitted drafts. Each handler is a method; the
    objects it may change are exactly those in its `modifies` clause, so the
    contracts show which stored invoices an edit reaches through sharing. */
module App {
  import opened Invoice
  import opened HistoryLog

  /** One row of the form; the row handlers assign its fields in place. */
  class LineItem {
    var description: string
    var quantity: real
    var rate: real

    constructor (description: string, quantity: real, rate: real)
      ensures this.description == description
      ensures this.quantity == quantity && this.rate == rate
    {
      this.description := description;
      this.quantity := quantity;
      this.rate := rate;
    }
  }

  /** The array holding a draft's rows; `splice` and `push` change it in place,
      and every record that refers to it sees the change. */
  class LineItemArray {
    var elems: seq<LineItem>

    constructor (elems: seq<LineItem>)
      ensures this.elems == elems
    {
      this.elems := elems;
    }
  }

  /** The live record: its rows are a reference to an array. */
  type Draft = Invoice<LineItemArray>

  /** The deep value of a record, the thing a structural comparison sees. */
  type DraftValue = Invoice<seq<Row>>

  function RowOf(item: LineItem): Row
    reads item
  {
    Row(item.description, item.quantity, item.rate)
  }

  function Rows(a: LineItemArray): seq<Row>
    reads a, a.elems
  {
    seq(|a.elems|, k requires 0 <= k < |a.elems| reads a, a.elems => RowOf(a.elems[k]))
  }

  function ValueOf(d: Draft): DraftValue
    reads d.lineItems, d.lineItems.elems
  {
    Invoice(d.invoiceNumber, d.fromName, d.imageLogo, d.paymentTerms, d.currency,
            d.toName, d.date, d.dueDate, Rows(d.lineItems), d.notes, d.terms, d.extra)
  }

  /** Every array and row object reachable from `h`. */
  ghost function Footprint(h: seq<Draft>): set<object>
    reads set k | 0 <= k < |h| :: h[k].lineItems
  {
    (set k | 0 <= k < |h| :: h[k].lineItems as object) +
    (set k, j | 0 <= k < |h| && 0 <= j < |h[k].lineItems.elems| :: h[k].lineItems.elems[j] as object)
  }

  /** The deep values of a list of records. */
  function Values(h: seq<Draft>): (r: seq<DraftValue>)
    reads Footprint(h)
    ensures |r| == |h|
  {
    seq(|h|, k requires 0 <= k < |h| reads Footprint(h) => ValueOf(h[k]))
  }

  /** No row object occurs twice in an array. */
  predicate Distinct(items: seq<LineItem>) {
    forall i, j :: 0 <= i < j < |items| ==> items[i] != items[j]
  }

  /** Every array held by the records of `h` has distinct row objects. */
  predicate AllDistinct(h: seq<Draft>)
    reads set k | 0 <= k < |h| :: h[k].lineItems
  {
    forall k :: 0 <= k < |h| ==> Distinct(h[k].lineItems.elems)
  }

  class InvoiceApp {
    /** The module-level initial record; its array is allocated once and is
        shared with every draft that is reset to it. */
    const emptyState: Draft
    var draft: Draft
    var history: seq<Draft>

    ghost predicate Valid()
      reads this, draft.lineItems, emptyState.lineItems, set k | 0 <= k < |history| :: history[k].lineItems
    {
      emptyState == Empty(emptyState.lineItems) &&
      Distinct(draft.lineItems.elems) &&
      Distinct(emptyState.lineItems.elems) &&
      AllDistinct(history)
    }

    /** Mounting the component: the draft is the initial record and the
        history is what storage holds. */
    constructor (stored: seq<Draft>)
      requires forall k :: 0 <= k < |stored| ==> Distinct(stored[k].lineItems.elems)
      ensures Valid() && history == stored && draft == emptyState
      ensures fresh(emptyState.lineItems) && ValueOf(draft) == Empty([])
    {
      var items := new LineItemArray([]);
      emptyState := Empty(items);
      draft := Empty(items);
      history := stored;
      assert Rows(items) == [];
    }

    /** A text input changed: `propertyName` is set to the new text. */
    method OnFieldValueChange(propertyName: string, value: string)
      requires Valid() && IsTextKey(propertyName)
      modifies this`draft
      ensures Valid() && history == old(history)
      ensures draft == SetField(old(draft), propertyName, value)
    {
      draft := SetField(draft, propertyName, value);
    }

    /** The logo file input changed; `files` is its selection. */
    method OnImageLogoChange(files: seq<LogoFile>)
      requires Valid()
      modifies this`draft
      ensures Valid() && history == old(history)
      ensures draft == WithChosenFiles(old(draft), files)
    {
      draft := WithChosenFiles(draft, files);
    }

    /** The remove-image button (the file input itself is cleared outside this model). */
    method OnRemoveImageClick()
      requires Valid()
      modifies this`draft
      ensures Valid() && history == old(history)
      ensures draft == WithoutLogo(old(draft))
    {
      draft := WithoutLogo(draft);
    }

    /** The description of row `index` changed. Reading a missing row throws,
        so `ok` is false and nothing changes when `index` is out of range. */
    method OnLineItemDescriptionChange(index: int, newDescription: string) returns (ok: bool)
      requires Valid()
      modifies if 0 <= index < |draft.lineItems.elems| then {draft.lineItems.elems[index]} else {}
      ensures Valid() && draft == old(draft) && history == old(history)
      ensures ok <==> 0 <= index < |old(Rows(draft.lineItems))|
      ensures ok ==> (Rows(draft.lineItems) ==
        old(Rows(draft.lineItems))[index := old(Rows(draft.lineItems))[index].(description := newDescription)])
      ensures !ok ==> Rows(draft.lineItems) == old(Rows(draft.lineItems))
      ensures forall k :: 0 <= k < |history| && (!ok || draft.lineItems.elems[index] !in history[k].lineItems.elems) ==>
        ValueOf(history[k]) == old(ValueOf(history[k]))
    {
      var lineItems := draft.lineItems;
      ok := 0 <= index < |lineItems.elems|;
      if ok {
        var lineItem := lineItems.elems[index];
        lineItem.description := newDescription;
        RowsAfterEdit(lineItems, index, old(Rows(lineItems)));
      }
    }

    /** The quantity of row `index` changed; as for the description. */
    method OnLineItemQuantityChange(index: int, newQuantity: real) returns (ok: bool)
      requires Valid()
      modifies if 0 <= index < |draft.lineItems.elems| then {draft.lineItems.elems[index]} else {}
      ensures Valid() && draft == old(draft) && history == old(history)
      ensures ok <==> 0 <= index < |old(Rows(draft.lineItems))|
      ensures ok ==> (Rows(draft.lineItems) ==
        old(Rows(draft.lineItems))[index := old(Rows(draft.lineItems))[index].(quantity := newQuantity)])
      ensures !ok ==> Rows(draft.lineItems) == old(Rows(draft.lineItems))
      ensures forall k :: 0 <= k < |history| && (!ok || draft.lineItems.elems[index] !in history[k].lineItems.elems) ==>
        ValueOf(history[k]) == old(ValueOf(history[k]))
    {
      var lineItems := draft.lineItems;
      ok := 0 <= index < |lineItems.elems|;
      if ok {
        var lineItem := lineItems.elems[index];
        lineItem.quantity := newQuantity;
        RowsAfterEdit(lineItems, index, old(Rows(lineItems)));
      }
    }

    /** The rate of row `index` changed; as for the description. */
    method OnLineItemRateChange(index: int, newRate: real) returns (ok: bool)
      requires Valid()
      modifies if 0 <= index < |draft.lineItems.elems| then {draft.lineItems.elems[index]} else {}
      ensures Valid() && draft == old(draft) && history == old(history)
      ensures ok <==> 0 <= index < |old(Rows(draft.lineItems))|
      ensures ok ==> (Rows(draft.lineItems) ==
        old(Rows(draft.lineItems))[index := old(Rows(draft.lineItems))[index].(rate := newRate)])
      ensures !ok ==> Rows(draft.lineItems) == old(Rows(draft.lineItems))
      ensures forall k :: 0 <= k < |history| && (!ok || draft.lineItems.elems[index] !in history[k].lineItems.elems) ==>
        ValueOf(history[k]) == old(ValueOf(history[k]))
    {
      var lineItems := draft.lineItems;
      ok := 0 <= index < |lineItems.elems|;
      if ok {
        var lineItem := lineItems.elems[index];
        lineItem.rate := newRate;
        RowsAfterEdit(lineItems, index, old(Rows(lineItems)));
      }
    }

    /** The delete button of row `index`: `splice(index, 1)` on the shared array. */
    method OnLineItemDeleteClick(index: int)
      requires Valid()
      modifies draft.lineItems
      ensures Valid() && draft == old(draft) && history == old(history)
      ensures draft.lineItems.elems == SpliceOne(old(draft.lineItems.elems), index)
      ensures Rows(draft.lineItems) == SpliceOne(old(Rows(draft.lineItems)), index)
      ensures forall k :: 0 <= k < |history| && history[k].lineItems != draft.lineItems ==>
        ValueOf(history[k]) == old(ValueOf(history[k]))
    {
      var lineItems := draft.lineItems;
      ghost var before, rowsBefore := lineItems.elems, Rows(lineItems);
      lineItems.elems := SpliceOne(lineItems.elems, index);
      SpliceOneDistinct(before, index);
      assert forall k :: 0 <= k < |before| ==> rowsBefore[k] == RowOf(before[k]);
      RowsAfterSplice(lineItems, before, rowsBefore, index);
    }

    /** The add button: a blank row is pushed onto the shared array. */
    method OnLineItemAddClick()
      requires Valid()
      modifies draft.lineItems
      ensures Valid() && draft == old(draft) && history == old(history)
      ensures Rows(draft.lineItems) == old(Rows(draft.lineItems)) + [Row("", 0.0, 0.0)]
      ensures draft.lineItems.elems[..|draft.lineItems.elems| - 1] == old(draft.lineItems.elems)
      ensures fresh(draft.lineItems.elems[|draft.lineItems.elems| - 1])
      ensures forall k :: 0 <= k < |history| && history[k].lineItems != draft.lineItems ==>
        ValueOf(history[k]) == old(ValueOf(history[k]))
    {
      var lineItems := draft.lineItems;
      var item := new LineItem("", 0.0, 0.0);
      lineItems.elems := lineItems.elems + [item];
      assert lineItems.elems[..|lineItems.elems| - 1] == old(lineItems.elems);
    }

    /** The example link: the example invoice, with a new array of new rows,
        replaces every own field of the draft. */
    method OnExampleLinkClick()
      requires Valid()
      modifies this`draft
      ensures Valid() && history == old(history)
      ensures fresh(draft.lineItems) && forall k :: 0 <= k < |draft.lineItems.elems| ==> fresh(draft.lineItems.elems[k])
      ensures ValueOf(draft) == Example(old(ValueOf(draft)), ExampleRows)
    {
      var first := new LineItem("Front End React js #1", 1.0, 1.5);
      var second := new LineItem("Blockchain Integration #2", 2.0, 2.5);
      var items := new LineItemArray([first, second]);
      draft := Example(draft, items);
      assert Rows(items) == ExampleRows;
    }

    /** The clear button: the draft becomes the initial record itself, array
        included, so its rows are whatever that array holds now. */
    method OnClearFormClick()
      requires Valid()
      modifies this`draft
      ensures Valid() && history == old(history)
      ensures draft == emptyState
      ensures ValueOf(draft) == Empty(Rows(emptyState.lineItems))
    {
      draft := emptyState;
    }

    /** The submit button. Exporting the document is outside this model; the
        history then admits the draft record itself (not a copy) unless it is
        deeply equal to the head. */
    method OnSubmitClick()
      requires Valid()
      modifies this`history
      ensures Valid() && draft == old(draft)
      ensures history == if |old(history)| > 0 && ValueOf(draft) == ValueOf(old(history)[0])
        then old(history) else [draft] + old(history)[..Min(Capacity - 1, |old(history)|)]
      ensures Values(history) == Admit(old(Values(history)), ValueOf(draft))
    {
      var next := if |history| > 0 && ValueOf(draft) == ValueOf(history[0])
        then history else [draft] + history[..Min(Capacity - 1, |history|)];
      AdmitValues(history, next, draft, ValueOf(draft));
      AdmitDistinct(history, next, draft);
      history := next;
    }

    /** A history entry was clicked: that record itself becomes the draft. */
    method OnHistoryStateClick(historyState: Draft)
      requires Valid() && historyState in history
      modifies this`draft
      ensures Valid() && history == old(history)
      ensures draft == historyState
    {
      draft := historyState;
    }

    /** Clearing as intended: the initial values with an array of its own,
        so the result is empty whatever was done before. */
    method ClearFormIntended()
      requires Valid()
      modifies this`draft
      ensures Valid() && history == old(history)
      ensures fresh(draft.lineItems) && ValueOf(draft) == Empty([])
    {
      var items := new LineItemArray([]);
      draft := Empty(items);
      assert Rows(items) == [];
    }

    /** Submitting as intended: the history admits a deep copy of the draft,
        which shares no object with anything the form can edit later. */
    method SubmitIntended()
      requires Valid()
      modifies this`history
      ensures Valid() && draft == old(draft)
      ensures Values(history) == Admit(old(Values(history)), ValueOf(draft))
      ensures history != old(history) ==>
        fresh(history[0].lineItems) &&
        forall k :: 0 <= k < |history[0].lineItems.elems| ==> fresh(history[0].lineItems.elems[k])
    {
      if |history| > 0 && ValueOf(draft) == ValueOf(history[0]) {
        AdmitValues(history, history, draft, ValueOf(draft));
      } else {
        var copy := CopyDraft(draft);
        var next := [copy] + history[..Min(Capacity - 1, |history|)];
        AdmitValues(history, next, copy, ValueOf(draft));
        AdmitDistinct(history, next, copy);
        history := next;
      }
    }

    /** Loading a history entry as intended: the draft becomes a deep copy,
        so later edits cannot reach the stored entry. */
    method LoadIntended(historyState: Draft)
      requires Valid() && historyState in history
      modifies this`draft
      ensures Valid() && history == old(history)
      ensures ValueOf(draft) == ValueOf(historyState)
      ensures fresh(draft.lineItems) && forall k :: 0 <= k < |draft.lineItems.elems| ==> fresh(draft.lineItems.elems[k])
    {
      draft := CopyDraft(historyState);
    }
  }

  /** A deep copy of `d`: a new array of new row objects with the same values. */
  method CopyDraft(d: Draft) returns (c: Draft)
    ensures ValueOf(c) == ValueOf(d)
    ensures fresh(c.lineItems) && Distinct(c.lineItems.elems)
    ensures forall k :: 0 <= k < |c.lineItems.elems| ==> fresh(c.lineItems.elems[k])
  {
    var source := d.lineItems.elems;
    var items: seq<LineItem> := [];
    var i := 0;
    while i < |source|
      invariant 0 <= i <= |source| && |items| == i
      invariant forall k :: 0 <= k < i ==> fresh(items[k]) && RowOf(items[k]) == RowOf(source[k])
      invariant Distinct(items)
    {
      var item := new LineItem(source[i].description, source[i].quantity, source[i].rate);
      items := items + [item];
      i := i + 1;
    }
    var copy := new LineItemArray(items);
    c := d.(lineItems := copy);
    assert Rows(copy) == Rows(d.lineItems);
  }

  /** After one row object of a distinct array was assigned, only its row changed. */
  lemma RowsAfterEdit(a: LineItemArray, index: int, before: seq<Row>)
    requires Distinct(a.elems) && 0 <= index < |a.elems| && |before| == |a.elems|
    requires forall k :: 0 <= k < |a.elems| && k != index ==> before[k] == RowOf(a.elems[k])
    ensures Rows(a) == before[index := RowOf(a.elems[index])]
  {
  }

  lemma SpliceOneDistinct(s: seq<LineItem>, start: int)
    requires Distinct(s)
    ensures Distinct(SpliceOne(s, start))
  {
  }

  /** Reading the rows after `splice` gives the rows read before it, spliced alike. */
  lemma RowsAfterSplice(a: LineItemArray, before: seq<LineItem>, rowsBefore: seq<Row>, start: int)
    requires a.elems == SpliceOne(before, start)
    requires |rowsBefore| == |before|
    requires forall k :: 0 <= k < |before| ==> rowsBefore[k] == RowOf(before[k])
    ensures Rows(a) == SpliceOne(rowsBefore, start)
  {
    var r, s := Rows(a), SpliceOne(rowsBefore, start);
    var i := SpliceStart(|before|, start);
    if i < |before| {
      forall j | 0 <= j < |r|
        ensures r[j] == s[j]
      {
        if j < i {
          assert a.elems[j] == a.elems[..i][j] == before[..i][j];
          assert s[j] == s[..i][j] == rowsBefore[..i][j];
        } else {
          assert a.elems[j] == before[j + 1] && s[j] == rowsBefore[j + 1];
        }
      }
    }
  }

  lemma AdmitDistinct(before: seq<Draft>, after: seq<Draft>, e: Draft)
    requires AllDistinct(before) && Distinct(e.lineItems.elems)
    requires after == before || after == [e] + before[..Min(Capacity - 1, |before|)]
    ensures AllDistinct(after)
  {
  }

  /** Admitting record `e` whose deep value is `v` admits `v` among the values. */
  lemma AdmitValues(before: seq<Draft>, after: seq<Draft>, e: Draft, v: DraftValue)
    requires ValueOf(e) == v
    requires after == if |before| > 0 && v == ValueOf(before[0])
      then before else [e] + before[..Min(Capacity - 1, |before|)]
    ensures Values(after) == Admit(Values(before), v)
  {
  }
}
