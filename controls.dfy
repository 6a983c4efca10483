/** Which record key each text control of the form displays and which key
    its change handler writes. The Terms textarea writes a key the record
    does not display, so what is typed there never reaches `terms`. */
module Controls {
  import opened Invoice

  datatype TextControl =
    | InvoiceNumberInput | FromInput | ToInput | DateInput | DueDateInput
    | PaymentTermsInput | CurrencySelect | NotesInput | TermsInput

  /** Whether the control is bound through `value`, so that it shows the
      record's current text after every change. The currency select is bound
      through `defaultValue` and reads the record only when it is mounted. */
  predicate Controlled(c: TextControl) {
    c != CurrencySelect
  }

  /** The key the control's displayed value is bound to. */
  function ShownKey(c: TextControl): (k: string)
    ensures k in TextFields
  {
    match c
    case InvoiceNumberInput => "invoiceNumber"
    case FromInput => "fromName"
    case ToInput => "toName"
    case DateInput => "date"
    case DueDateInput => "dueDate"
    case PaymentTermsInput => "paymentTerms"
    case CurrencySelect => "currency"
    case NotesInput => "notes"
    case TermsInput => "terms"
  }

  /** The key the control's change handler is bound to, as written. */
  function WrittenKey(c: TextControl): (k: string)
    ensures IsTextKey(k)
    ensures k == ShownKey(c) <==> c != TermsInput
  {
    match c
    case InvoiceNumberInput => "invoiceNumber"
    case FromInput => "fromName"
    case ToInput => "toName"
    case DateInput => "date"
    case DueDateInput => "dueDate"
    case PaymentTermsInput => "paymentTerms"
    case CurrencySelect => "currency"
    case NotesInput => "notes"
    case TermsInput => "Conditions"
  }

  /** The key the handler should be bound to: the Terms textarea writes `terms`. */
  function IntendedKey(c: TextControl): (k: string)
    ensures IsTextKey(k) && k in TextFields
  {
    if c == TermsInput then "terms" else WrittenKey(c)
  }

  /** As written, text typed into the Terms textarea leaves `terms` as it was
      and lands under the stray key "Conditions", which the example preset
      then carries along. */
  lemma TermsInputMissesTerms<L>(d: Invoice<L>, text: string, items: L)
    ensures Get(SetField(d, WrittenKey(TermsInput), text), ShownKey(TermsInput)) == Some(d.terms)
    ensures Get(SetField(d, WrittenKey(TermsInput), text), "Conditions") == Some(text)
    ensures Get(Example(SetField(d, WrittenKey(TermsInput), text), items), "Conditions") == Some(text)
  {
  }

  /** The example preset changes the currency under the currency select, which,
      being uncontrolled, does not re-read it: the select and the record then
      disagree whenever the old currency was not the preset's. */
  lemma PresetMovesCurrencyUnderSelect<L>(d: Invoice<L>, items: L)
    requires d.currency != "MAD"
    ensures !Controlled(CurrencySelect)
    ensures Get(Example(d, items), ShownKey(CurrencySelect)) == Some("MAD")
    ensures Get(Example(d, items), ShownKey(CurrencySelect)) != Get(d, ShownKey(CurrencySelect))
  {
  }

  /** With the intended binding, every control shows what was typed into it
      and nothing else in the record changes. */
  lemma {:induction false} IntendedControlsEcho<L>(d: Invoice<L>, c: TextControl, text: string)
    ensures Get(SetField(d, IntendedKey(c), text), ShownKey(c)) == Some(text)
    ensures SetField(d, IntendedKey(c), text).extra == d.extra
  {
    assert IntendedKey(c) == ShownKey(c);
  }
}
